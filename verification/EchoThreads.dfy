/**
 EchoDriver under concurrency: any number of threads call read and write; every byte copied, every
 field written, and taking and releasing the mutex is a separate step.  Theorem: all interleavings
 are linearizable with respect to `EchoDriver.Apply`.
 */
module EchoThreads {
  import opened Common
  import opened EchoDriver

  datatype Holder = Nobody | By(thread: nat)

  /** Where a thread is inside a call. */
  datatype Pc =
    | Out
    | Waiting(req: Request)                        // at the ScopedLock constructor
    | Testing(req: Request)                        // lock taken
    | CopyingOut(req: Request, count: nat, out: seq<Byte>)
    | Advancing(req: Request, out: seq<Byte>)      // *offset += count
    | CopyingIn(req: Request, next: nat)
    | SettingLen(req: Request)
    | Terminating(req: Request)
    | Resetting(req: Request)                      // *offset = 0
    | Leaving(req: Request, res: Result)           // at the ScopedLock destructor
    | Returning(res: Result)

  datatype Event =
    | Call(thread: nat, req: Request)
    | Commit(thread: nat, req: Request, res: Result)
    | Return(thread: nat, res: Result)

  datatype State = State(
    dev: Device,
    offsets: map<nat, Offset>,
    holder: Holder,
    threads: map<nat, Pc>,
    history: seq<Event>,
    fault: bool)

  // ----- Steps -----

  function Goto(s: State, t: nat, pc: Pc): State {
    s.(threads := s.threads[t := pc])
  }

  function Fault(s: State): State {
    s.(fault := true)
  }

  /** The next step of thread `t` on behalf of its current call. */
  function Continue(s: State, t: nat): State
    requires t in s.threads
  {
    match s.threads[t]
    case Out => s
    case Waiting(req) => if s.holder == Nobody then Goto(s.(holder := By(t)), t, Testing(req)) else s
    case Testing(req) =>
      if req.file !in s.offsets then Fault(s)
      else if req.Write? then Goto(s, t, CopyingIn(req, 0))
      else if Unsigned(s.offsets[req.file]) >= s.dev.len then Goto(s, t, Leaving(req, Result(0, [])))
      else Goto(s, t, CopyingOut(req, ReadCount(s.dev, s.offsets[req.file], req.size), []))
    case CopyingOut(req, count, out) =>
      if !req.Read? || req.file !in s.offsets then Fault(s)
      else if |out| >= count then Goto(s, t, Advancing(req, out))
      else if |out| >= req.copied then Goto(s, t, Leaving(req, Result(-EFAULT, out)))
      else if !(0 <= s.offsets[req.file] + |out| < |s.dev.buffer|) then Fault(s)
      else Goto(s, t, CopyingOut(req, count, out + [s.dev.buffer[s.offsets[req.file] + |out|]]))
    case Advancing(req, out) =>
      if req.file !in s.offsets || s.offsets[req.file] + |out| >= TWO63 then Fault(s)
      else Goto(s.(offsets := s.offsets[req.file := s.offsets[req.file] + |out|]), t, Leaving(req, Result(|out|, out)))
    case CopyingIn(req, i) =>
      if !req.Write? then Fault(s)
      else if i >= |req.bytes| then
        Goto(s, t, if req.faulted then Leaving(req, Result(-EFAULT, [])) else SettingLen(req))
      else if i >= |s.dev.buffer| then Fault(s)
      else Goto(s.(dev := s.dev.(buffer := s.dev.buffer[i := req.bytes[i]])), t, CopyingIn(req, i + 1))
    case SettingLen(req) =>
      if !req.Write? then Fault(s) else Goto(s.(dev := s.dev.(len := |req.bytes|)), t, Terminating(req))
    case Terminating(req) =>
      if s.dev.len >= |s.dev.buffer| then Fault(s)
      else Goto(s.(dev := s.dev.(buffer := s.dev.buffer[s.dev.len := 0])), t, Resetting(req))
    case Resetting(req) =>
      Goto(s.(offsets := s.offsets[req.file := 0]), t, Leaving(req, Result(s.dev.len, [])))
    case Leaving(req, res) =>
      Goto(s.(holder := Nobody, history := s.history + [Commit(t, req, res)]), t, Returning(res))
    case Returning(res) => Goto(s.(history := s.history + [Return(t, res)]), t, Out)
  }

  datatype Step = Begin(req: Request) | Go

  ghost predicate Enabled(s: State, t: nat, step: Step) {
    && t in s.threads
    && (step.Begin? ==> s.threads[t] == Out && ValidRequest(Store(s.dev, s.offsets), step.req))
  }

  function Take(s: State, t: nat, step: Step): State
    requires t in s.threads
  {
    match step
    case Begin(req) => Goto(s.(history := s.history + [Call(t, req)]), t, Waiting(req))
    case Go => Continue(s, t)
  }

  // ----- The reference: the commits, one after the other -----

  ghost function Replay(init: Store, h: seq<Event>): Store {
    if h == [] then init
    else
      var before, e := Replay(init, h[..|h| - 1]), h[|h| - 1];
      if e.Commit? && ValidStore(before) && ValidRequest(before, e.req) then Apply(before, e.req).store else before
  }

  /** Every committed result is what the call gives when it runs alone at its place in the order. */
  ghost predicate Sequential(init: Store, h: seq<Event>) {
    h == [] ||
    (Sequential(init, h[..|h| - 1])
     && var before, e := Replay(init, h[..|h| - 1]), h[|h| - 1];
        e.Commit? ==> ValidStore(before) && ValidRequest(before, e.req) && e.res == Apply(before, e.req).result)
  }

  /** What one thread has done last. */
  datatype Progress = Quiet | Called(req: Request) | Committed(res: Result) | Broken

  /** The events of thread `t` must repeat: a call, one commit of that call, the return of its result. */
  ghost function Track(h: seq<Event>, t: nat): Progress {
    if h == [] then Quiet
    else
      var p, e := Track(h[..|h| - 1], t), h[|h| - 1];
      if e.thread != t then p
      else
        match e
        case Call(_, req) => if p == Quiet then Called(req) else Broken
        case Commit(_, req, res) => if p == Called(req) then Committed(res) else Broken
        case Return(_, res) => if p == Committed(res) then Quiet else Broken
  }

  lemma Appended(init: Store, h: seq<Event>, e: Event, t: nat)
    ensures var before := Replay(init, h);
            && Replay(init, h + [e]) ==
               (if e.Commit? && ValidStore(before) && ValidRequest(before, e.req)
                then Apply(before, e.req).store else before)
            && (Sequential(init, h + [e]) <==>
                Sequential(init, h)
                && (e.Commit? ==>
                      ValidStore(before) && ValidRequest(before, e.req) && e.res == Apply(before, e.req).result))
            && (e.thread != t ==> Track(h + [e], t) == Track(h, t))
  {
    assert (h + [e])[..|h|] == h;
  }

  lemma AppendedOwn(h: seq<Event>, e: Event)
    ensures Track(h + [e], e.thread) ==
            match e
            case Call(_, req) => if Track(h, e.thread) == Quiet then Called(req) else Broken
            case Commit(_, req, res) => if Track(h, e.thread) == Called(req) then Committed(res) else Broken
            case Return(_, res) => if Track(h, e.thread) == Committed(res) then Quiet else Broken
  {
    assert (h + [e])[..|h|] == h;
  }

  // ----- Invariant -----

  predicate Inside(pc: Pc) {
    !pc.Out? && !pc.Waiting? && !pc.Returning?
  }

  ghost function Expected(pc: Pc): Progress {
    match pc
    case Out => Quiet
    case Returning(res) => Committed(res)
    case _ => Called(pc.req)
  }

  /** How far the thread inside the critical section has got from the committed state `a`. */
  ghost predicate Underway(a: Store, dev: Device, offsets: map<nat, Offset>, pc: Pc)
    requires ValidStore(a)
  {
    && Inside(pc) && ValidRequest(a, pc.req)
    && match pc
       case Testing(req) => dev == a.dev && offsets == a.offsets
       case CopyingOut(req, count, out) =>
         && dev == a.dev && offsets == a.offsets && req.Read? && Unsigned(offsets[req.file]) < dev.len
         && count == ReadCount(dev, offsets[req.file], req.size)
         && |out| <= Min(count, req.copied)
         && 0 <= offsets[req.file] && out == dev.buffer[offsets[req.file]..offsets[req.file] + |out|]
       case Advancing(req, out) =>
         && dev == a.dev && offsets == a.offsets && req.Read? && Unsigned(offsets[req.file]) < dev.len
         && |out| == ReadCount(dev, offsets[req.file], req.size) <= req.copied
         && 0 <= offsets[req.file] && out == dev.buffer[offsets[req.file]..offsets[req.file] + |out|]
       case CopyingIn(req, i) =>
         && req.Write? && i <= |req.bytes| && offsets == a.offsets
         && dev == Device(Overwrite(a.dev.buffer, req.bytes[..i]), a.dev.len)
       case SettingLen(req) =>
         && req.Write? && !req.faulted && offsets == a.offsets
         && dev == Device(Overwrite(a.dev.buffer, req.bytes), a.dev.len)
       case Terminating(req) =>
         && req.Write? && !req.faulted && offsets == a.offsets
         && dev == Device(Overwrite(a.dev.buffer, req.bytes), |req.bytes|)
       case Resetting(req) =>
         && req.Write? && !req.faulted && offsets == a.offsets
         && dev == Device(Overwrite(a.dev.buffer, req.bytes)[|req.bytes| := 0], |req.bytes|)
       case Leaving(req, res) => Apply(a, req) == Outcome(Store(dev, offsets), res)
       case _ => false
  }

  ghost predicate ThreadOk(s: State, t: nat) {
    && t in s.threads
    && (Inside(s.threads[t]) <==> s.holder == By(t))
    && Track(s.history, t) == Expected(s.threads[t])
    && (s.threads[t].Waiting? ==> ValidRequest(Store(s.dev, s.offsets), s.threads[t].req))
  }

  ghost predicate Inv(init: Store, s: State) {
    && !s.fault && Sequential(init, s.history)
    && (forall t {:trigger ThreadOk(s, t)} :: t in s.threads ==> ThreadOk(s, t))
    && (s.holder.By? ==> s.holder.thread in s.threads)
    && var a := Replay(init, s.history);
       && ValidStore(a) && (forall f :: f in a.offsets <==> f in s.offsets)
       && (s.holder == Nobody ==> s.dev == a.dev && s.offsets == a.offsets)
       && (s.holder.By? ==> Underway(a, s.dev, s.offsets, s.threads[s.holder.thread]))
  }

  // ----- Preservation -----

  /** Thread `t` takes a step inside the critical section. */
  ghost predicate Moves(a: Store, s: State, r: State, t: nat)
    requires ValidStore(a) && t in s.threads
  {
    && t in r.threads && r == Goto(s.(dev := r.dev, offsets := r.offsets), t, r.threads[t])
    && Underway(a, r.dev, r.offsets, r.threads[t])
    && Inside(s.threads[t]) && r.threads[t].req == s.threads[t].req
    && (forall f :: f in r.offsets <==> f in s.offsets)
  }

  lemma TestingMoves(a: Store, s: State, t: nat)
    requires ValidStore(a) && t in s.threads && s.threads[t].Testing? && Underway(a, s.dev, s.offsets, s.threads[t])
    ensures Moves(a, s, Continue(s, t), t)
  {
    var off := s.offsets[s.threads[t].req.file];
    assert 0 <= off < |s.dev.buffer| ==> s.dev.buffer[off..off] == [];
  }

  /** Thread `t` is copying out and has copied `n` bytes from offset `off`. */
  ghost predicate AtCopyOut(a: Store, s: State, t: nat, off: Offset, n: nat)
    requires ValidStore(a)
  {
    && t in s.threads && s.threads[t].CopyingOut? && Underway(a, s.dev, s.offsets, s.threads[t])
    && off == s.offsets[s.threads[t].req.file] && n == |s.threads[t].out|
  }

  lemma CopyOutByte(a: Store, s: State, t: nat, off: Offset, n: nat)
    requires ValidStore(a) && AtCopyOut(a, s, t, off, n)
    requires n < s.threads[t].count && n < s.threads[t].req.copied
    ensures Moves(a, s, Continue(s, t), t)
  {
    LongerSlice(s.dev.buffer, off, n);
  }

  lemma CopyOutFaults(a: Store, s: State, t: nat, off: Offset, n: nat)
    requires ValidStore(a) && AtCopyOut(a, s, t, off, n) && n == s.threads[t].req.copied < s.threads[t].count
    ensures Moves(a, s, Continue(s, t), t)
  {
    assert Continue(s, t).threads[t] == Leaving(s.threads[t].req, Result(-EFAULT, s.threads[t].out));
  }

  lemma CopyOutEnds(a: Store, s: State, t: nat, off: Offset, n: nat)
    requires ValidStore(a) && AtCopyOut(a, s, t, off, n) && n == s.threads[t].count
    ensures Moves(a, s, Continue(s, t), t)
  {
    assert Continue(s, t).threads[t] == Advancing(s.threads[t].req, s.threads[t].out);
  }

  lemma CopyingOutMoves(a: Store, s: State, t: nat)
    requires ValidStore(a) && t in s.threads && s.threads[t].CopyingOut? && Underway(a, s.dev, s.offsets, s.threads[t])
    ensures Moves(a, s, Continue(s, t), t)
  {
    var off, n := s.offsets[s.threads[t].req.file], |s.threads[t].out|;
    if n == s.threads[t].count {
      CopyOutEnds(a, s, t, off, n);
    } else if n == s.threads[t].req.copied {
      CopyOutFaults(a, s, t, off, n);
    } else {
      CopyOutByte(a, s, t, off, n);
    }
  }

  lemma LongerSlice(buffer: seq<Byte>, off: nat, n: nat)
    requires off + n < |buffer|
    ensures buffer[off..off + n] + [buffer[off + n]] == buffer[off..off + n + 1]
  {
  }

  lemma AdvancingMoves(a: Store, s: State, t: nat)
    requires ValidStore(a) && t in s.threads && s.threads[t].Advancing? && Underway(a, s.dev, s.offsets, s.threads[t])
    ensures Moves(a, s, Continue(s, t), t)
  {
  }

  lemma CopyingInMoves(a: Store, s: State, t: nat)
    requires ValidStore(a) && t in s.threads && s.threads[t].CopyingIn? && Underway(a, s.dev, s.offsets, s.threads[t])
    ensures Moves(a, s, Continue(s, t), t)
  {
    var req, i := s.threads[t].req, s.threads[t].next;
    if i < |req.bytes| {
      OneMoreByte(a.dev.buffer, req.bytes, i);
    } else {
      assert req.bytes[..i] == req.bytes;
    }
  }

  lemma OneMoreByte(buffer: seq<Byte>, bytes: seq<Byte>, i: nat)
    requires i < |bytes| <= |buffer|
    ensures Overwrite(buffer, bytes[..i])[i := bytes[i]] == Overwrite(buffer, bytes[..i + 1])
  {
  }

  lemma StoringMoves(a: Store, s: State, t: nat)
    requires ValidStore(a) && t in s.threads && Underway(a, s.dev, s.offsets, s.threads[t])
    requires s.threads[t].SettingLen? || s.threads[t].Terminating? || s.threads[t].Resetting?
    ensures Moves(a, s, Continue(s, t), t)
  {
  }

  lemma InsideMoves(a: Store, s: State, t: nat)
    requires ValidStore(a) && t in s.threads && !s.threads[t].Leaving? && Underway(a, s.dev, s.offsets, s.threads[t])
    ensures Moves(a, s, Continue(s, t), t)
  {
    match s.threads[t]
    case Testing(_) => TestingMoves(a, s, t);
    case CopyingOut(_, _, _) => CopyingOutMoves(a, s, t);
    case Advancing(_, _) => AdvancingMoves(a, s, t);
    case CopyingIn(_, _) => CopyingInMoves(a, s, t);
    case _ => StoringMoves(a, s, t);
  }

  lemma InsideOk(init: Store, s: State, t: nat)
    requires Inv(init, s) && t in s.threads && Inside(s.threads[t]) && !s.threads[t].Leaving?
    ensures Inv(init, Continue(s, t))
  {
    assert ThreadOk(s, t);
    InsideMoves(Replay(init, s.history), s, t);
    var r := Continue(s, t);
    forall u | u in r.threads
      ensures ThreadOk(r, u)
    {
      assert ThreadOk(s, u);
    }
  }

  /** Releasing the lock is where a call takes effect. */
  lemma LeaveOk(init: Store, s: State, t: nat)
    requires Inv(init, s) && t in s.threads && s.threads[t].Leaving?
    ensures Inv(init, Continue(s, t))
  {
    assert ThreadOk(s, t);
    var r := Continue(s, t);
    var e := Commit(t, s.threads[t].req, s.threads[t].res);
    var a := Replay(init, s.history);
    Appended(init, s.history, e, t);
    AppendedOwn(s.history, e);
    ApplyKeeps(a, e.req);
    forall u | u in r.threads
      ensures ThreadOk(r, u)
    {
      assert ThreadOk(s, u);
      Appended(init, s.history, e, u);
    }
  }

  lemma AcquireOk(init: Store, s: State, t: nat)
    requires Inv(init, s) && t in s.threads && s.threads[t].Waiting?
    ensures Inv(init, Continue(s, t))
  {
    assert ThreadOk(s, t);
    var r := Continue(s, t);
    forall u | u in r.threads
      ensures ThreadOk(r, u)
    {
      assert ThreadOk(s, u);
    }
  }

  /** A step outside the critical section that only adds the event `e` to the history. */
  lemma OutsideOk(init: Store, s: State, r: State, t: nat, e: Event, pc: Pc)
    requires Inv(init, s) && t in s.threads && e.thread == t && !e.Commit? && !Inside(s.threads[t]) && !Inside(pc)
    requires r == Goto(s.(history := s.history + [e]), t, pc)
    requires pc.Waiting? ==> ValidRequest(Store(s.dev, s.offsets), pc.req)
    requires Track(s.history + [e], t) == Expected(pc)
    ensures Inv(init, r)
  {
    Appended(init, s.history, e, t);
    assert ThreadOk(s, t);
    forall u | u in r.threads
      ensures ThreadOk(r, u)
    {
      assert ThreadOk(s, u);
      Appended(init, s.history, e, u);
    }
  }

  lemma StepOk(init: Store, s: State, t: nat, step: Step)
    requires Inv(init, s) && Enabled(s, t, step)
    ensures Inv(init, Take(s, t, step))
  {
    assert ThreadOk(s, t);
    match step
    case Begin(req) =>
      AppendedOwn(s.history, Call(t, req));
      OutsideOk(init, s, Take(s, t, step), t, Call(t, req), Waiting(req));
    case Go =>
      match s.threads[t] {
        case Out =>
        case Waiting(_) => AcquireOk(init, s, t);
        case Leaving(_, _) => LeaveOk(init, s, t);
        case Returning(res) =>
          AppendedOwn(s.history, Return(t, res));
          OutsideOk(init, s, Take(s, t, step), t, Return(t, res), Out);
        case _ => InsideOk(init, s, t);
      }
  }

  // ----- Every interleaving -----

  datatype Move = Move(thread: nat, step: Step)

  ghost predicate Schedule(s: State, moves: seq<Move>)
    decreases |moves|
  {
    moves == [] ||
    (Enabled(s, moves[0].thread, moves[0].step) && Schedule(Take(s, moves[0].thread, moves[0].step), moves[1..]))
  }

  ghost function Execute(s: State, moves: seq<Move>): State
    requires Schedule(s, moves)
    decreases |moves|
  {
    if moves == [] then s else Execute(Take(s, moves[0].thread, moves[0].step), moves[1..])
  }

  ghost predicate Initial(init: Store, s: State) {
    && ValidStore(init) && s.dev == init.dev && s.offsets == init.offsets
    && s.holder == Nobody && s.history == [] && !s.fault
    && forall t | t in s.threads :: s.threads[t] == Out
  }

  lemma {:induction false} ExecuteOk(init: Store, s: State, moves: seq<Move>)
    requires Inv(init, s) && Schedule(s, moves)
    ensures Inv(init, Execute(s, moves))
    decreases |moves|
  {
    if moves != [] {
      StepOk(init, s, moves[0].thread, moves[0].step);
      ExecuteOk(init, Take(s, moves[0].thread, moves[0].step), moves[1..]);
    }
  }

  lemma Reached(init: Store, s: State, moves: seq<Move>)
    requires Initial(init, s) && Schedule(s, moves)
    ensures Inv(init, Execute(s, moves))
  {
    forall t | t in s.threads
      ensures ThreadOk(s, t)
    {
    }
    ExecuteOk(init, s, moves);
  }

  /** Every interleaving is linearizable.  The commits in history order are a sequential execution
      that explains all results, and each call commits exactly once, after it was made and before it
      returns, and returns the committed result; so the order of the commits respects real time. */
  lemma Linearizable(init: Store, s: State, moves: seq<Move>, t: nat)
    requires Initial(init, s) && Schedule(s, moves) && t in Execute(s, moves).threads
    ensures var r := Execute(s, moves);
            && Sequential(init, r.history)
            && Track(r.history, t) == Expected(r.threads[t])
            && Track(r.history, t) != Broken
  {
    Reached(init, s, moves);
    assert ThreadOk(Execute(s, moves), t);
  }

  /** The history tells what threads ask for and get: starting a call adds that call and changes nothing
      else, and a thread that is about to return adds its result. */
  lemma HistoryIsTrue(s: State, t: nat, step: Step)
    requires Enabled(s, t, step)
    ensures var r := Take(s, t, step);
            && (step.Begin? ==>
                  && r.history == s.history + [Call(t, step.req)] && r.threads == s.threads[t := Waiting(step.req)]
                  && r.dev == s.dev && r.offsets == s.offsets && r.holder == s.holder)
            && (step.Go? && s.threads[t].Returning? ==>
                  && r.history == s.history + [Return(t, s.threads[t].res)] && r.threads == s.threads[t := Out]
                  && r.dev == s.dev && r.offsets == s.offsets && r.holder == s.holder)
            && (forall k | |s.history| <= k < |r.history| :: r.history[k].thread == t)
  {
  }

  /** Whenever the lock is free the device is in a state between calls: the committed one. */
  lemma FreeLockMeansCommitted(init: Store, s: State, moves: seq<Move>)
    requires Initial(init, s) && Schedule(s, moves) && Execute(s, moves).holder == Nobody
    ensures var r := Execute(s, moves);
            Store(r.dev, r.offsets) == Replay(init, r.history) && ValidDevice(r.dev)
  {
    Reached(init, s, moves);
  }

  /** Mutual exclusion, and a thread that returns, by end of file, fault or success, holds no lock. */
  lemma LockDiscipline(init: Store, s: State, moves: seq<Move>, t: nat, u: nat)
    requires Initial(init, s) && Schedule(s, moves) && t in Execute(s, moves).threads && u in Execute(s, moves).threads
    ensures var r := Execute(s, moves);
            && !r.fault
            && (Inside(r.threads[t]) && Inside(r.threads[u]) ==> t == u)
            && (r.threads[t].Returning? || r.threads[t].Out? ==> r.holder != By(t))
            && ((forall v | v in r.threads :: r.threads[v] == Out) ==> r.holder == Nobody)
  {
    Reached(init, s, moves);
    var r := Execute(s, moves);
    assert ThreadOk(r, t) && ThreadOk(r, u);
    if r.holder.By? {
      assert ThreadOk(r, r.holder.thread);
    }
  }

  /** A read that returns data returns a slice of the buffer as it was between two commits. */
  lemma {:induction false} ReadsAreSlices(init: Store, h: seq<Event>, i: nat)
    requires Sequential(init, h) && i < |h| && h[i].Commit? && h[i].req.Read? && h[i].res.ret > 0
    ensures var before := Replay(init, h[..i]);
            && ValidStore(before) && h[i].req.file in before.offsets
            && var off := before.offsets[h[i].req.file];
               && 0 <= off && off + h[i].res.ret <= before.dev.len
               && h[i].res.out == before.dev.buffer[off..off + h[i].res.ret]
    decreases |h|
  {
    if i < |h| - 1 {
      ReadsAreSlices(init, h[..|h| - 1], i);
      assert h[..|h| - 1][..i] == h[..i];
    }
  }

  // ----- Real time -----

  ghost predicate NoneOf(h: seq<Event>, t: nat, from: nat, to: nat) {
    forall k | from < k < to && k < |h| :: h[k].thread != t
  }

  lemma {:induction false} FindCall(h: seq<Event>, t: nat, req: Request) returns (a: nat)
    requires Track(h, t) == Called(req)
    ensures a < |h| && h[a] == Call(t, req) && NoneOf(h, t, a, |h|)
    decreases |h|
  {
    a := |h| - 1;
    if h[a].thread != t {
      a := FindCall(h[..|h| - 1], t, req);
    }
  }

  lemma {:induction false} FindCommit(h: seq<Event>, t: nat, res: Result) returns (a: nat, c: nat, req: Request)
    requires Track(h, t) == Committed(res)
    ensures a < c < |h| && h[a] == Call(t, req) && h[c] == Commit(t, req, res)
    ensures NoneOf(h, t, a, c) && NoneOf(h, t, c, |h|)
    decreases |h|
  {
    c := |h| - 1;
    if h[c].thread != t {
      a, c, req := FindCommit(h[..|h| - 1], t, res);
    } else {
      req := h[c].req;
      a := FindCall(h[..|h| - 1], t, req);
    }
  }

  lemma {:induction false} BrokenStays(h: seq<Event>, t: nat, k: nat)
    requires k <= |h| && Track(h[..k], t) == Broken
    ensures Track(h, t) == Broken
    decreases |h|
  {
    if k == |h| {
      assert h[..k] == h;
    } else {
      assert h[..|h| - 1][..k] == h[..k];
      BrokenStays(h[..|h| - 1], t, k);
    }
  }

  /** A return has, earlier in the history, the call it answers and between the two, from that
      thread, exactly one event: the commit of that call with the returned result. */
  lemma CommitInsideCall(h: seq<Event>, t: nat, k: nat)
    requires Track(h, t) != Broken && k < |h| && h[k].Return? && h[k].thread == t
    ensures exists a, c, req :: 0 <= a < c < k && h[a] == Call(t, req) && h[c] == Commit(t, req, h[k].res)
                                && NoneOf(h, t, a, c) && NoneOf(h, t, c, k)
  {
    if Track(h[..k + 1], t) == Broken {
      BrokenStays(h, t, k + 1);
    }
    assert h[..k + 1][..k] == h[..k];
    var a, c, req := FindCommit(h[..k], t, h[k].res);
    assert h[a] == Call(t, req) && h[c] == Commit(t, req, h[k].res) && NoneOf(h, t, a, c) && NoneOf(h, t, c, k);
  }

  // ----- Calls end -----

  /** A bound on the steps that are left of a call. */
  function Remaining(pc: Pc): nat {
    match pc
    case Out => 0
    case Returning(_) => 1
    case Leaving(_, _) => 2
    case Resetting(_) => 3
    case Advancing(_, _) => 3
    case Terminating(_) => 4
    case SettingLen(_) => 5
    case CopyingOut(_, count, out) => if |out| <= count then 4 + count - |out| else 4
    case CopyingIn(req, i) => if req.Write? && i <= |req.bytes| then 6 + |req.bytes| - i else 6
    case Testing(_) => 600
    case Waiting(_) => 601
  }

  /** Thread `t` is inside a call and not waiting for a lock that is taken. */
  predicate CanGoOn(s: State, t: nat) {
    t in s.threads && !s.threads[t].Out? && (s.threads[t].Waiting? ==> s.holder == Nobody)
  }

  lemma TestingRemains(a: Store, s: State, t: nat)
    requires ValidStore(a) && t in s.threads && s.threads[t].Testing? && Underway(a, s.dev, s.offsets, s.threads[t])
    ensures t in Continue(s, t).threads && Remaining(Continue(s, t).threads[t]) < 600
  {
  }

  lemma InsideRemains(a: Store, s: State, t: nat)
    requires ValidStore(a) && t in s.threads && Underway(a, s.dev, s.offsets, s.threads[t])
    requires !s.threads[t].Testing? && !s.threads[t].Leaving?
    ensures t in Continue(s, t).threads && Remaining(Continue(s, t).threads[t]) < Remaining(s.threads[t])
  {
  }

  /** Who holds the lock once thread `t` has left. */
  function Without(holder: Holder, t: nat): Holder {
    if holder == By(t) then Nobody else holder
  }

  /** A step of a thread that can go on: fewer steps remain, and only its own program counter moves. */
  ghost predicate GoesOn(s: State, r: State, t: nat) {
    && t in s.threads && t in r.threads && r.threads == s.threads[t := r.threads[t]]
    && Remaining(r.threads[t]) < Remaining(s.threads[t])
    && Without(r.holder, t) == Without(s.holder, t)
    && (r.threads[t] == Out ==> r.holder != By(t)) && (CanGoOn(r, t) || r.threads[t] == Out)
  }

  lemma InsideGoesOn(init: Store, s: State, t: nat)
    requires Inv(init, s) && t in s.threads && Inside(s.threads[t]) && !s.threads[t].Leaving?
    ensures GoesOn(s, Continue(s, t), t)
  {
    assert ThreadOk(s, t);
    var a := Replay(init, s.history);
    InsideMoves(a, s, t);
    if s.threads[t].Testing? {
      TestingRemains(a, s, t);
    } else {
      InsideRemains(a, s, t);
    }
  }

  lemma StepGoesOn(init: Store, s: State, t: nat)
    requires Inv(init, s) && CanGoOn(s, t)
    ensures GoesOn(s, Continue(s, t), t)
  {
    assert ThreadOk(s, t);
    if Inside(s.threads[t]) && !s.threads[t].Leaving? {
      InsideGoesOn(init, s, t);
    }
  }

  /** `n` steps of thread `t`. */
  function Alone(t: nat, n: nat): seq<Move> {
    if n == 0 then [] else [Move(t, Go)] + Alone(t, n - 1)
  }

  /** After `n` steps of its own thread `t` has returned and does not hold the lock. */
  ghost predicate EndsAfter(s: State, t: nat, n: nat) {
    && Schedule(s, Alone(t, n))
    && Execute(s, Alone(t, n)).threads == s.threads[t := Out] && Execute(s, Alone(t, n)).holder == Without(s.holder, t)
  }

  lemma EndsNow(s: State, t: nat, r: State)
    requires t in s.threads && r == Continue(s, t) && GoesOn(s, r, t) && r.threads[t] == Out
    ensures EndsAfter(s, t, 1)
  {
    assert Alone(t, 1) == [Move(t, Go)] && Alone(t, 1)[1..] == [];
    assert Schedule(r, []) && Execute(r, []) == r;
  }

  lemma EndsLater(s: State, t: nat, r: State, n: nat)
    requires t in s.threads && r == Continue(s, t) && GoesOn(s, r, t) && EndsAfter(r, t, n)
    ensures EndsAfter(s, t, n + 1)
  {
    assert Alone(t, n + 1)[0] == Move(t, Go) && Alone(t, n + 1)[1..] == Alone(t, n);
    assert s.threads[t := r.threads[t]][t := Out] == s.threads[t := Out];
  }

  ghost predicate Ends(s: State, t: nat) {
    exists n: nat :: EndsAfter(s, t, n)
  }

  /** The next step of thread `t`, and what it leaves to show. */
  lemma NextStep(init: Store, s: State, t: nat) returns (r: State)
    requires Inv(init, s) && CanGoOn(s, t)
    ensures Inv(init, r) && t in r.threads && Remaining(r.threads[t]) < Remaining(s.threads[t])
    ensures if r.threads[t] == Out then Ends(s, t) else CanGoOn(r, t)
    ensures Ends(r, t) ==> Ends(s, t)
  {
    r := Continue(s, t);
    StepGoesOn(init, s, t);
    StepOk(init, s, t, Go);
    assert Take(s, t, Go) == r;
    if r.threads[t] == Out {
      EndsNow(s, t, r);
    }
    if n: nat :| EndsAfter(r, t, n) {
      EndsLater(s, t, r, n);
    }
  }

  /** From every reachable state, a thread that is not waiting for a taken lock ends its call, and gives the
      lock back, after finitely many steps of its own. */
  lemma {:induction false} CallsEnd(init: Store, s: State, t: nat)
    requires Inv(init, s) && CanGoOn(s, t)
    ensures Ends(s, t)
    decreases Remaining(s.threads[t])
  {
    var r := NextStep(init, s, t);
    if r.threads[t] != Out {
      CallsEnd(init, r, t);
    }
  }

  /** There is no deadlock: in every reachable state in which some call is under way, some thread can go on. */
  lemma SomeoneCanGoOn(init: Store, s: State, moves: seq<Move>, t: nat)
    requires Initial(init, s) && Schedule(s, moves)
    requires t in Execute(s, moves).threads && Execute(s, moves).threads[t] != Out
    ensures exists u :: CanGoOn(Execute(s, moves), u)
  {
    Reached(init, s, moves);
    var r := Execute(s, moves);
    assert ThreadOk(r, t);
    if r.holder.By? {
      assert ThreadOk(r, r.holder.thread);
      assert CanGoOn(r, r.holder.thread);
    } else {
      assert CanGoOn(r, t);
    }
  }
}
