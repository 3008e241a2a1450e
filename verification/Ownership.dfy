/**
 UniquePtr and the work queue: who owns an allocation.  Any number of UniquePtr objects, scheduler
 threads inside schedule_work and worker threads inside work_callback take steps in any order.
 Allocations are numbered; freeing or running one that is already freed sets `fault`.
 */
module Ownership {

  datatype Ptr = Null | To(a: nat)

  /** A scheduler between make_unique and the hand-over to the kernel queue. */
  datatype Scheduler = Idle | Made(item: nat) | Initialised(item: nat) | Released(item: nat)

  /** A worker inside work_callback. */
  datatype Worker = Waiting | Got(item: nat) | Ran(item: nat)

  datatype Event = Run(a: nat) | Free(a: nat)

  /** `made` allocations so far; `work` are those accepted by the queue. */
  datatype State = State(
    ptrs: map<nat, Ptr>,
    schedulers: map<nat, Scheduler>,
    workers: map<nat, Worker>,
    escaped: set<nat>,
    queue: set<nat>,
    freed: set<nat>,
    work: set<nat>,
    made: nat,
    log: seq<Event>,
    fault: bool)

  // ----- Steps -----

  datatype Step =
    | Make(p: nat, obtained: bool)
    | MoveConstruct(p: nat, other: nat)
    | MoveAssign(p: nat, other: nat)
    | Release(p: nat)
    | Destroy(p: nat)
    | Schedule(t: nat, obtained: bool)
    | Proceed(t: nat)
    | TakeItem(w: nat, item: nat)
    | Work(w: nat)

  function Fault(s: State): State {
    s.(fault := true)
  }

  /** DefaultDeleter: kfree. */
  function Kfree(s: State, a: nat): State {
    if a in s.freed then Fault(s) else s.(freed := s.freed + {a}, log := s.log + [Free(a)])
  }

  function Delete(s: State, p: Ptr): State {
    if p.Null? then s else Kfree(s, p.a)
  }

  /** Caller-side conditions: objects exist or are new, threads are at the right point. */
  predicate Enabled(s: State, step: Step) {
    match step
    case Make(p, _) => p !in s.ptrs
    case MoveConstruct(p, other) => p !in s.ptrs && other in s.ptrs
    case MoveAssign(p, other) => p in s.ptrs && other in s.ptrs
    case Release(p) => p in s.ptrs
    case Destroy(p) => p in s.ptrs
    case Schedule(t, _) => t in s.schedulers && s.schedulers[t] == Idle
    case Proceed(t) => t in s.schedulers
    case TakeItem(w, item) => w in s.workers && s.workers[w] == Waiting && item in s.queue
    case Work(w) => w in s.workers
  }

  function Apply(s: State, step: Step): State
    requires Enabled(s, step)
  {
    match step
    case Make(p, obtained) =>
      if obtained then s.(ptrs := s.ptrs[p := To(s.made)], made := s.made + 1) else s.(ptrs := s.ptrs[p := Null])
    case MoveConstruct(p, other) => s.(ptrs := s.ptrs[p := s.ptrs[other]][other := Null])
    case MoveAssign(p, other) =>
      if p == other then s
      else
        var d := Delete(s, s.ptrs[p]);
        d.(ptrs := d.ptrs[p := d.ptrs[other]][other := Null])
    case Release(p) =>
      var r := s.(ptrs := s.ptrs[p := Null]);
      if s.ptrs[p].Null? then r else r.(escaped := s.escaped + {s.ptrs[p].a})
    case Destroy(p) =>
      var d := Delete(s, s.ptrs[p]);
      d.(ptrs := d.ptrs - {p})
    case Schedule(t, obtained) =>
      if obtained then s.(schedulers := s.schedulers[t := Made(s.made)], made := s.made + 1) else s
    case Proceed(t) =>
      (match s.schedulers[t]
       case Idle => s
       case Made(item) => s.(schedulers := s.schedulers[t := Initialised(item)])
       case Initialised(item) => s.(schedulers := s.schedulers[t := Released(item)])
       case Released(item) =>
         s.(schedulers := s.schedulers[t := Idle], queue := s.queue + {item}, work := s.work + {item}))
    case TakeItem(w, item) => s.(queue := s.queue - {item}, workers := s.workers[w := Got(item)])
    case Work(w) =>
      match s.workers[w]
      case Waiting => s
      case Got(item) =>
        if item in s.freed then Fault(s) else s.(workers := s.workers[w := Ran(item)], log := s.log + [Run(item)])
      case Ran(item) => Kfree(s, item).(workers := s.workers[w := Waiting])
  }

  // ----- Where an allocation is -----

  datatype Place =
    | AtPtr(p: nat)
    | AtScheduler(t: nat)
    | AtWorker(w: nat)
    | Escaped(a: nat)
    | Queued(a: nat)
    | Freed(a: nat)

  function WhatAt(s: State, x: Place): Ptr {
    match x
    case AtPtr(p) => if p in s.ptrs then s.ptrs[p] else Null
    case AtScheduler(t) => if t in s.schedulers && !s.schedulers[t].Idle? then To(s.schedulers[t].item) else Null
    case AtWorker(w) => if w in s.workers && !s.workers[w].Waiting? then To(s.workers[w].item) else Null
    case Escaped(a) => if a in s.escaped then To(a) else Null
    case Queued(a) => if a in s.queue then To(a) else Null
    case Freed(a) => if a in s.freed then To(a) else Null
  }

  /** Every allocation is in exactly one place. */
  ghost predicate Partition(s: State) {
    && (forall x, y :: x != y && WhatAt(s, x).To? ==> WhatAt(s, x) != WhatAt(s, y))
    && (forall x :: WhatAt(s, x).To? ==> WhatAt(s, x).a < s.made)
    && (forall a: nat :: a < s.made ==> Somewhere(s, a))
  }

  ghost predicate Somewhere(s: State, a: nat) {
    exists x :: WhatAt(s, x) == To(a)
  }

  // ----- What has happened to an allocation -----

  datatype Progress = New | Done | Finished | Dropped | Broken

  /** Run at most once, then freed at most once; nothing after the free. */
  function Track(log: seq<Event>, a: nat): Progress {
    if log == [] then New
    else
      var p, e := Track(log[..|log| - 1], a), log[|log| - 1];
      if e.a != a then p
      else
        match (p, e)
        case (New, Run(_)) => Done
        case (New, Free(_)) => Dropped
        case (Done, Free(_)) => Finished
        case _ => Broken
  }

  lemma TrackAppend(log: seq<Event>, e: Event, a: nat)
    ensures e.a != a ==> Track(log + [e], a) == Track(log, a)
    ensures e == Run(a) && Track(log, a) == New ==> Track(log + [e], a) == Done
    ensures e == Free(a) && Track(log, a) == New ==> Track(log + [e], a) == Dropped
    ensures e == Free(a) && Track(log, a) == Done ==> Track(log + [e], a) == Finished
  {
    assert (log + [e])[..|log|] == log;
  }

  /** The story so far of the allocation that is at place `x`. */
  ghost predicate StoryOk(s: State, x: Place) {
    WhatAt(s, x).To? ==>
      var a := WhatAt(s, x).a;
      match x
      case Freed(_) => Track(s.log, a) == (if a in s.work then Finished else Dropped)
      case AtWorker(w) => a in s.work && Track(s.log, a) == (if s.workers[w].Ran? then Done else New)
      case Queued(_) => a in s.work && Track(s.log, a) == New
      case _ => a !in s.work && Track(s.log, a) == New
  }

  ghost predicate Inv(s: State) {
    && !s.fault && Partition(s)
    && (forall x {:trigger StoryOk(s, x)} :: StoryOk(s, x))
    && (forall a: nat :: a >= s.made ==> a !in s.work && Track(s.log, a) == New)
  }

  // ----- Moving an allocation from one place to another -----

  /** Allocation `a` goes from place `x` to place `y`, which was empty; nothing else moves. */
  ghost predicate Moves(s: State, r: State, a: nat, x: Place, y: Place) {
    && x != y && WhatAt(s, x) == To(a) && WhatAt(r, x) == Null && WhatAt(s, y) == Null && WhatAt(r, y) == To(a)
    && (forall z :: z != x && z != y ==> WhatAt(r, z) == WhatAt(s, z))
    && r.made == s.made
  }

  lemma MovesPartition(s: State, r: State, a: nat, x: Place, y: Place)
    requires Partition(s) && Moves(s, r, a, x, y)
    ensures Partition(r)
  {
    forall b: nat | b < r.made
      ensures Somewhere(r, b)
    {
      if b == a {
        assert WhatAt(r, y) == To(b);
      } else {
        assert Somewhere(s, b);
        var z :| WhatAt(s, z) == To(b);
        assert WhatAt(r, z) == To(b);
      }
    }
  }

  /** A new allocation appears at place `y`, which was empty. */
  ghost predicate Appears(s: State, r: State, y: Place) {
    && WhatAt(s, y) == Null && WhatAt(r, y) == To(s.made) && r.made == s.made + 1
    && (forall z :: z != y ==> WhatAt(r, z) == WhatAt(s, z))
  }

  lemma AppearsPartition(s: State, r: State, y: Place)
    requires Partition(s) && Appears(s, r, y)
    ensures Partition(r)
  {
    forall b: nat | b < r.made
      ensures Somewhere(r, b)
    {
      if b == s.made {
        assert WhatAt(r, y) == To(b);
      } else {
        assert Somewhere(s, b);
        var z :| WhatAt(s, z) == To(b);
        assert WhatAt(r, z) == To(b);
      }
    }
  }

  /** Nothing moves. */
  ghost predicate Stays(s: State, r: State) {
    r.made == s.made && forall z :: WhatAt(r, z) == WhatAt(s, z)
  }

  lemma StaysPartition(s: State, r: State)
    requires Partition(s) && Stays(s, r)
    ensures Partition(r)
  {
    forall b: nat | b < r.made
      ensures Somewhere(r, b)
    {
      assert Somewhere(s, b);
      var z :| WhatAt(s, z) == To(b);
      assert WhatAt(r, z) == To(b);
    }
  }

  /** The step is about allocation `a` only. */
  ghost predicate Concerns(s: State, r: State, a: nat, w: set<nat>) {
    && r.fault == s.fault
    && (forall b: nat :: b != a ==> Track(r.log, b) == Track(s.log, b) && (b in r.work <==> b in s.work))
    && (forall v | v in s.workers && v !in w :: v in r.workers && r.workers[v] == s.workers[v])
  }

  lemma StoryStays(s: State, r: State, a: nat, x: Place, y: Place, w: set<nat>, z: Place)
    requires Partition(s) && Moves(s, r, a, x, y) && Concerns(s, r, a, w) && z != y && StoryOk(s, z)
    requires forall v | v in w :: AtWorker(v) == x || AtWorker(v) == y
    ensures StoryOk(r, z)
  {
  }

  lemma MovesOk(s: State, r: State, a: nat, x: Place, y: Place, w: set<nat>)
    requires Inv(s) && Moves(s, r, a, x, y) && Concerns(s, r, a, w) && StoryOk(r, y)
    requires forall v | v in w :: AtWorker(v) == x || AtWorker(v) == y
    ensures Inv(r)
  {
    MovesPartition(s, r, a, x, y);
    forall z
      ensures StoryOk(r, z)
    {
      assert StoryOk(s, z);
      if z != y {
        StoryStays(s, r, a, x, y, w, z);
      }
    }
  }

  lemma AppearsOk(s: State, r: State, y: Place)
    requires Inv(s) && Appears(s, r, y) && r.log == s.log && r.work == s.work && r.fault == s.fault
    requires r.workers == s.workers && StoryOk(r, y)
    ensures Inv(r)
  {
    AppearsPartition(s, r, y);
    forall z
      ensures StoryOk(r, z)
    {
      assert StoryOk(s, z);
    }
  }

  lemma StaysOk(s: State, r: State)
    requires Inv(s) && Stays(s, r) && r.log == s.log && r.work == s.work && r.fault == s.fault && r.workers == s.workers
    ensures Inv(r)
  {
    StaysPartition(s, r);
    forall z
      ensures StoryOk(r, z)
    {
      assert StoryOk(s, z);
    }
  }

  // ----- Each step -----

  lemma MakeOk(s: State, p: nat, obtained: bool)
    requires Inv(s) && Enabled(s, Make(p, obtained))
    ensures Inv(Apply(s, Make(p, obtained)))
  {
    var r := Apply(s, Make(p, obtained));
    if obtained {
      assert s.made !in s.work && Track(s.log, s.made) == New;
      AppearsOk(s, r, AtPtr(p));
    } else {
      StaysOk(s, r);
    }
  }

  lemma MoveConstructOk(s: State, p: nat, other: nat)
    requires Inv(s) && Enabled(s, MoveConstruct(p, other))
    ensures Inv(Apply(s, MoveConstruct(p, other)))
  {
    var r := Apply(s, MoveConstruct(p, other));
    if s.ptrs[other].Null? {
      StaysOk(s, r);
    } else {
      assert StoryOk(s, AtPtr(other));
      MovesOk(s, r, s.ptrs[other].a, AtPtr(other), AtPtr(p), {});
    }
  }

  /** The deleter on the pointer of `p`, followed by clearing or dropping `p`. */
  lemma DeleteOk(s: State, r: State, p: nat)
    requires Inv(s) && p in s.ptrs && (r.ptrs == s.ptrs[p := Null] || r.ptrs == s.ptrs - {p})
    requires r == Delete(s, s.ptrs[p]).(ptrs := r.ptrs)
    ensures Inv(r) && (s.ptrs[p].To? ==> r.freed == s.freed + {s.ptrs[p].a})
  {
    if s.ptrs[p].Null? {
      StaysOk(s, r);
      return;
    }
    var a := s.ptrs[p].a;
    assert StoryOk(s, AtPtr(p));
    DeleteMoves(s, r, p, a);
    FreeConcerns(s, r, a);
    TrackAppend(s.log, Free(a), a);
    MovesOk(s, r, a, AtPtr(p), Freed(a), {});
  }

  lemma DeleteMoves(s: State, r: State, p: nat, a: nat)
    requires Partition(s) && p in s.ptrs && s.ptrs[p] == To(a)
    requires r.ptrs == s.ptrs[p := Null] || r.ptrs == s.ptrs - {p}
    requires r == Delete(s, To(a)).(ptrs := r.ptrs)
    ensures Moves(s, r, a, AtPtr(p), Freed(a)) && r.freed == s.freed + {a} && r.log == s.log + [Free(a)]
    ensures r.workers == s.workers && r.work == s.work && r.fault == s.fault
  {
    assert WhatAt(s, AtPtr(p)) == To(a) && WhatAt(s, Freed(a)) != To(a);
  }

  lemma FreeConcerns(s: State, r: State, a: nat)
    requires r.log == s.log + [Free(a)] && r.workers == s.workers && r.work == s.work && r.fault == s.fault
    ensures Concerns(s, r, a, {})
  {
    forall b: nat | b != a
      ensures Track(r.log, b) == Track(s.log, b)
    {
      TrackAppend(s.log, Free(a), b);
    }
  }

  lemma MoveAssignOk(s: State, p: nat, other: nat)
    requires Inv(s) && Enabled(s, MoveAssign(p, other)) && p != other
    ensures Inv(Apply(s, MoveAssign(p, other)))
  {
    var d := Delete(s, s.ptrs[p]).(ptrs := s.ptrs[p := Null]);
    DeleteOk(s, d, p);
    var r := Apply(s, MoveAssign(p, other));
    assert r == d.(ptrs := d.ptrs[p := s.ptrs[other]][other := Null]);
    if s.ptrs[other].Null? {
      StaysOk(d, r);
    } else {
      assert StoryOk(d, AtPtr(other));
      MovesOk(d, r, s.ptrs[other].a, AtPtr(other), AtPtr(p), {});
    }
  }

  lemma ReleaseOk(s: State, p: nat)
    requires Inv(s) && Enabled(s, Release(p))
    ensures Inv(Apply(s, Release(p)))
  {
    var r := Apply(s, Release(p));
    if s.ptrs[p].Null? {
      StaysOk(s, r);
      return;
    }
    var a := s.ptrs[p].a;
    assert WhatAt(s, AtPtr(p)) == To(a) && WhatAt(s, Escaped(a)) != To(a);
    assert StoryOk(s, AtPtr(p));
    MovesOk(s, r, a, AtPtr(p), Escaped(a), {});
  }

  lemma ScheduleOk(s: State, t: nat, obtained: bool)
    requires Inv(s) && Enabled(s, Schedule(t, obtained))
    ensures Inv(Apply(s, Schedule(t, obtained)))
  {
    if obtained {
      assert s.made !in s.work && Track(s.log, s.made) == New;
      AppearsOk(s, Apply(s, Schedule(t, obtained)), AtScheduler(t));
    }
  }

  lemma ProceedOk(s: State, t: nat)
    requires Inv(s) && Enabled(s, Proceed(t))
    ensures Inv(Apply(s, Proceed(t)))
  {
    var r := Apply(s, Proceed(t));
    if !s.schedulers[t].Released? {
      StaysOk(s, r);
      return;
    }
    var a := s.schedulers[t].item;
    assert WhatAt(s, AtScheduler(t)) == To(a) && WhatAt(s, Queued(a)) != To(a);
    assert StoryOk(s, AtScheduler(t));
    MovesOk(s, r, a, AtScheduler(t), Queued(a), {});
  }

  lemma TakeItemOk(s: State, w: nat, item: nat)
    requires Inv(s) && Enabled(s, TakeItem(w, item))
    ensures Inv(Apply(s, TakeItem(w, item)))
  {
    assert StoryOk(s, Queued(item));
    MovesOk(s, Apply(s, TakeItem(w, item)), item, Queued(item), AtWorker(w), {w});
  }

  lemma RunItemOk(s: State, w: nat)
    requires Inv(s) && Enabled(s, Work(w)) && s.workers[w].Got?
    ensures Inv(Apply(s, Work(w)))
  {
    var a := s.workers[w].item;
    assert WhatAt(s, AtWorker(w)) == To(a) && WhatAt(s, Freed(a)) != To(a);
    var r := Apply(s, Work(w));
    StaysPartition(s, r);
    forall z
      ensures StoryOk(r, z)
    {
      assert StoryOk(s, z) && StoryOk(s, AtWorker(w));
      if WhatAt(s, z).To? {
        TrackAppend(s.log, Run(a), WhatAt(s, z).a);
      }
    }
    forall b: nat | b >= r.made
      ensures Track(r.log, b) == New
    {
      TrackAppend(s.log, Run(a), b);
    }
  }

  lemma FreeItemOk(s: State, w: nat)
    requires Inv(s) && Enabled(s, Work(w)) && s.workers[w].Ran?
    ensures Inv(Apply(s, Work(w)))
  {
    var a := s.workers[w].item;
    assert WhatAt(s, AtWorker(w)) == To(a) && WhatAt(s, Freed(a)) != To(a);
    assert StoryOk(s, AtWorker(w));
    forall b: nat {
      TrackAppend(s.log, Free(a), b);
    }
    MovesOk(s, Apply(s, Work(w)), a, AtWorker(w), Freed(a), {w});
  }

  lemma StepOk(s: State, step: Step)
    requires Inv(s) && Enabled(s, step)
    ensures Inv(Apply(s, step))
  {
    match step
    case Make(p, obtained) => MakeOk(s, p, obtained);
    case MoveConstruct(p, other) => MoveConstructOk(s, p, other);
    case MoveAssign(p, other) => if p != other { MoveAssignOk(s, p, other); }
    case Release(p) => ReleaseOk(s, p);
    case Destroy(p) => DeleteOk(s, Apply(s, step), p);
    case Schedule(t, obtained) => ScheduleOk(s, t, obtained);
    case Proceed(t) => ProceedOk(s, t);
    case TakeItem(w, item) => TakeItemOk(s, w, item);
    case Work(w) =>
      if s.workers[w].Got? {
        RunItemOk(s, w);
      } else if s.workers[w].Ran? {
        FreeItemOk(s, w);
      }
  }

  // ----- Where each step puts an allocation -----

  /** The deleter ran on `p`: what it named is freed once, and nothing else. */
  ghost predicate Deleted(s: State, r: State, p: Ptr) {
    && r.freed == (if p.To? then s.freed + {p.a} else s.freed)
    && r.log == (if p.To? then s.log + [Free(p.a)] else s.log)
  }

  /** Steps of UniquePtr objects do not touch schedulers, workers or the queue. */
  ghost predicate OnlyPointers(s: State, r: State) {
    r.schedulers == s.schedulers && r.workers == s.workers && r.queue == s.queue && r.work == s.work && !r.fault
  }

  /** Creating and moving: a new object has the new allocation, or none without memory; a moved-to object has
      what the other had, which is null afterwards, and what an assignment overwrites is freed. */
  lemma MakeAndMoveEffects(s: State, step: Step)
    requires Inv(s) && Enabled(s, step) && (step.Make? || step.MoveConstruct? || step.MoveAssign?)
    ensures var r := Apply(s, step);
            && OnlyPointers(s, r) && r.escaped == s.escaped
            && (step.Make? ==>
                  && r.ptrs == s.ptrs[step.p := if step.obtained then To(s.made) else Null]
                  && r.made == (if step.obtained then s.made + 1 else s.made) && Deleted(s, r, Null))
            && (step.MoveConstruct? ==>
                  r.ptrs == s.ptrs[step.p := s.ptrs[step.other]][step.other := Null]
                  && r.made == s.made && Deleted(s, r, Null))
            && (step.MoveAssign? && step.p == step.other ==> r == s)
            && (step.MoveAssign? && step.p != step.other ==>
                  r.ptrs == s.ptrs[step.p := s.ptrs[step.other]][step.other := Null]
                  && r.made == s.made && Deleted(s, r, s.ptrs[step.p]))
  {
    if step.MoveAssign? && s.ptrs[step.p].To? {
      NotYetFreed(s, AtPtr(step.p));
    }
  }

  /** Giving up: release() leaves the object null and the allocation to the caller, unfreed; the destructor
      removes the object and frees the allocation. */
  lemma GiveUpEffects(s: State, step: Step)
    requires Inv(s) && Enabled(s, step) && (step.Release? || step.Destroy?)
    ensures var r := Apply(s, step);
            && OnlyPointers(s, r) && r.made == s.made
            && (step.Release? ==>
                  && r.ptrs == s.ptrs[step.p := Null] && Deleted(s, r, Null)
                  && r.escaped == (if s.ptrs[step.p].To? then s.escaped + {s.ptrs[step.p].a} else s.escaped))
            && (step.Destroy? ==>
                  r.ptrs == s.ptrs - {step.p} && Deleted(s, r, s.ptrs[step.p]) && r.escaped == s.escaped)
  {
    if s.ptrs[step.p].To? {
      NotYetFreed(s, AtPtr(step.p));
    }
  }

  lemma NotYetFreed(s: State, x: Place)
    requires Partition(s) && WhatAt(s, x).To? && !x.Freed?
    ensures WhatAt(s, x).a !in s.freed
  {
    assert WhatAt(s, Freed(WhatAt(s, x).a)) != WhatAt(s, x);
  }

  /** Scheduling: a new item goes from its scheduler, through initialising and releasing, to the queue. */
  lemma ScheduleEffects(s: State, step: Step)
    requires Inv(s) && Enabled(s, step) && (step.Schedule? || step.Proceed?)
    ensures var r := Apply(s, step);
            && r.ptrs == s.ptrs && r.workers == s.workers && r.escaped == s.escaped && Deleted(s, r, Null) && !r.fault
            && (step.Schedule? ==>
                  && r.queue == s.queue && r.work == s.work
                  && r.schedulers == (if step.obtained then s.schedulers[step.t := Made(s.made)] else s.schedulers)
                  && r.made == (if step.obtained then s.made + 1 else s.made))
            && (step.Proceed? ==>
                  && r.made == s.made
                  && match s.schedulers[step.t]
                     case Idle => r == s
                     case Made(item) => r == s.(schedulers := s.schedulers[step.t := Initialised(item)])
                     case Initialised(item) => r == s.(schedulers := s.schedulers[step.t := Released(item)])
                     case Released(item) =>
                       && r.schedulers == s.schedulers[step.t := Idle]
                       && r.queue == s.queue + {item} && r.work == s.work + {item})
  {
  }

  /** Working: an item goes from the queue to a worker, is run there once, and is then freed once. */
  lemma WorkEffects(s: State, step: Step)
    requires Inv(s) && Enabled(s, step) && (step.TakeItem? || step.Work?)
    ensures var r := Apply(s, step);
            && r.ptrs == s.ptrs && r.schedulers == s.schedulers && r.escaped == s.escaped && r.work == s.work
            && r.made == s.made && !r.fault
            && (step.TakeItem? ==>
                  && r.queue == s.queue - {step.item} && r.workers == s.workers[step.w := Got(step.item)]
                  && Deleted(s, r, Null))
            && (step.Work? ==>
                  && r.queue == s.queue
                  && match s.workers[step.w]
                     case Waiting => r == s
                     case Got(item) =>
                       && r.workers == s.workers[step.w := Ran(item)]
                       && r.log == s.log + [Run(item)] && r.freed == s.freed
                     case Ran(item) => r.workers == s.workers[step.w := Waiting] && Deleted(s, r, To(item)))
  {
    if step.Work? && !s.workers[step.w].Waiting? {
      NotYetFreed(s, AtWorker(step.w));
    }
  }

  // ----- Every interleaving -----

  predicate Initial(s: State) {
    && s.ptrs == map[] && s.escaped == {} && s.queue == {} && s.freed == {} && s.work == {}
    && s.made == 0 && s.log == [] && !s.fault
    && (forall t | t in s.schedulers :: s.schedulers[t] == Idle)
    && (forall w | w in s.workers :: s.workers[w] == Waiting)
  }

  predicate Runnable(s: State, steps: seq<Step>)
    decreases |steps|
  {
    steps == [] || (Enabled(s, steps[0]) && Runnable(Apply(s, steps[0]), steps[1..]))
  }

  function Execute(s: State, steps: seq<Step>): State
    requires Runnable(s, steps)
    decreases |steps|
  {
    if steps == [] then s else Execute(Apply(s, steps[0]), steps[1..])
  }

  lemma {:induction false} ExecuteOk(s: State, steps: seq<Step>)
    requires Inv(s) && Runnable(s, steps)
    ensures Inv(Execute(s, steps))
    decreases |steps|
  {
    if steps != [] {
      StepOk(s, steps[0]);
      ExecuteOk(Apply(s, steps[0]), steps[1..]);
    }
  }

  /** In every interleaving each allocation is in exactly one place, and nothing is used after free
      or freed twice. */
  lemma OneOwner(s: State, steps: seq<Step>, a: nat)
    requires Initial(s) && Runnable(s, steps) && a < Execute(s, steps).made
    ensures var r := Execute(s, steps);
            && !r.fault
            && (exists x :: WhatAt(r, x) == To(a))
            && (forall x, y | WhatAt(r, x) == To(a) && WhatAt(r, y) == To(a) :: x == y)
  {
    ExecuteOk(s, steps);
    assert Somewhere(Execute(s, steps), a);
  }

  /** Once the queue is drained and the workers are idle, every accepted item was run exactly once and
      after that freed exactly once. */
  lemma DrainedMeansFinished(s: State, steps: seq<Step>, a: nat)
    requires Initial(s) && Runnable(s, steps) && a in Execute(s, steps).work
    requires Execute(s, steps).queue == {}
    requires forall w | w in Execute(s, steps).workers :: Execute(s, steps).workers[w] == Waiting
    ensures Track(Execute(s, steps).log, a) == Finished && a in Execute(s, steps).freed
  {
    ExecuteOk(s, steps);
    var r := Execute(s, steps);
    assert Somewhere(r, a);
    var x :| WhatAt(r, x) == To(a);
    assert StoryOk(r, x);
  }

  // ----- What becomes of every allocation -----

  /** The allocations that release() handed to the caller during a run. */
  function HandedOut(s: State, steps: seq<Step>): set<nat>
    requires Runnable(s, steps)
    decreases |steps|
  {
    if steps == [] then {}
    else
      (if steps[0].Release? && s.ptrs[steps[0].p].To? then {s.ptrs[steps[0].p].a} else {})
      + HandedOut(Apply(s, steps[0]), steps[1..])
  }

  /** The allocations that schedule_work made during a run. */
  function ScheduledIn(s: State, steps: seq<Step>): set<nat>
    requires Runnable(s, steps)
    decreases |steps|
  {
    if steps == [] then {}
    else
      (if steps[0].Schedule? && steps[0].obtained then {s.made} else {}) + ScheduledIn(Apply(s, steps[0]), steps[1..])
  }

  /** Allocation `a` is a work item: with a scheduler, or accepted by the queue at some time. */
  ghost predicate IsWork(s: State, a: nat) {
    a in s.work || exists t :: t in s.schedulers && !s.schedulers[t].Idle? && s.schedulers[t].item == a
  }

  lemma StepIsWork(s: State, step: Step, a: nat)
    requires Inv(s) && Enabled(s, step)
    ensures IsWork(Apply(s, step), a) <==> IsWork(s, a) || (step.Schedule? && step.obtained && a == s.made)
  {
    var r := Apply(s, step);
    if step.Schedule? || step.Proceed? {
      if t :| t in s.schedulers && !s.schedulers[t].Idle? && s.schedulers[t].item == a {
        assert t in r.schedulers && (t == step.t || r.schedulers[t] == s.schedulers[t]);
        assert a in r.work || (!r.schedulers[t].Idle? && r.schedulers[t].item == a);
      }
      assert step.t in r.schedulers;
    } else {
      SchedulersStay(s, step);
    }
  }

  lemma SchedulersStay(s: State, step: Step)
    requires Inv(s) && Enabled(s, step) && !step.Schedule? && !step.Proceed?
    ensures Apply(s, step).schedulers == s.schedulers && Apply(s, step).work == s.work
  {
    if step.TakeItem? || step.Work? {
      WorkEffects(s, step);
    } else if step.Release? || step.Destroy? {
      GiveUpEffects(s, step);
    } else {
      MakeAndMoveEffects(s, step);
    }
  }

  lemma StepEscapes(s: State, step: Step)
    requires Inv(s) && Enabled(s, step)
    ensures Apply(s, step).escaped ==
              s.escaped + (if step.Release? && s.ptrs[step.p].To? then {s.ptrs[step.p].a} else {})
  {
    match step
    case Release(_) => GiveUpEffects(s, step);
    case Destroy(_) => GiveUpEffects(s, step);
    case Schedule(_, _) => ScheduleEffects(s, step);
    case Proceed(_) => ScheduleEffects(s, step);
    case TakeItem(_, _) => WorkEffects(s, step);
    case Work(_) => WorkEffects(s, step);
    case _ => MakeAndMoveEffects(s, step);
  }

  /** An allocation is with a caller exactly if a release() put it there, and a work item exactly if
      schedule_work made it. */
  lemma {:induction false} FatesAfter(s: State, steps: seq<Step>, a: nat)
    requires Inv(s) && Runnable(s, steps)
    ensures Execute(s, steps).escaped == s.escaped + HandedOut(s, steps)
    ensures IsWork(Execute(s, steps), a) <==> IsWork(s, a) || a in ScheduledIn(s, steps)
    decreases |steps|
  {
    if steps != [] {
      StepOk(s, steps[0]);
      StepEscapes(s, steps[0]);
      StepIsWork(s, steps[0], a);
      FatesAfter(Apply(s, steps[0]), steps[1..], a);
    }
  }

  /** Nothing leaks: once no UniquePtr holds anything, every allocation that was neither released to a caller
      nor made for the work queue has been freed exactly once and never run. */
  lemma NothingLeaks(s: State, steps: seq<Step>, a: nat)
    requires Initial(s) && Runnable(s, steps) && a < Execute(s, steps).made
    requires forall p | p in Execute(s, steps).ptrs :: Execute(s, steps).ptrs[p].Null?
    requires a !in HandedOut(s, steps) && a !in ScheduledIn(s, steps)
    ensures a in Execute(s, steps).freed && Track(Execute(s, steps).log, a) == Dropped
  {
    ExecuteOk(s, steps);
    FatesAfter(s, steps, a);
    var r := Execute(s, steps);
    assert Somewhere(r, a);
    var x :| WhatAt(r, x) == To(a);
    assert StoryOk(r, x);
    assert !IsWork(r, a);
  }

  // ----- UniquePtr as an object -----

  class UniquePtrs {
    var ptrs: map<nat, Ptr>
    var freed: set<nat>
    var fault: bool
    var frees: seq<Event>

    /** The UniquePtr part of a state. */
    ghost predicate Shows(s: State)
      reads this
    {
      ptrs == s.ptrs && freed == s.freed && fault == s.fault && frees == s.log
    }

    constructor ()
      ensures ptrs == map[] && freed == {} && !fault && frees == []
    {
      ptrs, freed, fault, frees := map[], {}, false, [];
    }

    method RunDeleter(p: Ptr, ghost s: State)
      requires Shows(s)
      modifies this
      ensures Shows(Delete(s, p))
    {
      if p.To? {
        if p.a in freed {
          fault := true;
        } else {
          freed := freed + {p.a};
          frees := frees + [Free(p.a)];
        }
      }
    }

    method Assign(p: nat, other: nat, ghost s: State)
      requires Shows(s) && Enabled(s, MoveAssign(p, other))
      modifies this
      ensures Shows(Apply(s, MoveAssign(p, other)))
    {
      if p != other {
        RunDeleter(ptrs[p], s);
        ptrs := ptrs[p := ptrs[other]];
        ptrs := ptrs[other := Null];
      }
    }

    method Take(p: nat, ghost s: State) returns (raw: Ptr)
      requires Shows(s) && Enabled(s, Release(p))
      modifies this
      ensures Shows(Apply(s, Release(p))) && raw == s.ptrs[p]
      ensures raw.To? ==> raw.a in Apply(s, Release(p)).escaped
    {
      raw := ptrs[p];
      ptrs := ptrs[p := Null];
    }

    method DestroyPtr(p: nat, ghost s: State)
      requires Shows(s) && Enabled(s, Destroy(p))
      modifies this
      ensures Shows(Apply(s, Destroy(p)))
    {
      RunDeleter(ptrs[p], s);
      ptrs := ptrs - {p};
    }
  }
}
