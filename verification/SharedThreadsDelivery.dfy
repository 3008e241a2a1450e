/**
 What an operation on a handle has achieved when its last step ends, whatever other threads did in the
 meantime: a copy delivers what the source named when the copy started and adds one to its count, a move
 hands it over and leaves the source null, a destruction removes the handle.
 */
module SharedThreadsDelivery {
  import opened SharedTypes
  import opened SharedThreads
  import opened SharedThreadsSteps
  import opened SharedThreadsRuns
  import P = SharedThreadsPins

  // ----- Other threads do not interfere -----

  /** What thread `t` holds is unchanged, and what it reads names the same block. */
  ghost predicate Untouched(s: State, r: State, t: nat, g: Slot) {
    g in s.handles ==>
      match s.handles[g].mode
      case Held(u, _) => u == t ==> g in r.handles && r.handles[g] == s.handles[g]
      case Shared(readers) =>
        t in readers ==>
          && g in r.handles && r.handles[g].ptr == s.handles[g].ptr && r.handles[g].cb == s.handles[g].cb
          && r.handles[g].mode.Shared? && t in r.handles[g].mode.readers
  }

  lemma ReturnUntouches(s: State, u: nat, h: Slot, t: nat, g: Slot)
    requires Inv(s) && At(s, u, h, ToReturn)
    requires t != u || (g in s.handles && s.handles[g].mode.Shared?)
    ensures Untouched(s, ReturnStep(s, u, h), t, g)
  {
    assert ThreadOk(s, u);
    var stack := s.threads[u].stack;
    if |stack| > 1 {
      assert ParentOk(s, stack, |stack| - 1);
      assert stack[|stack| - 2] in stack;
      assert stack[..|stack| - 1][|stack| - 2] == stack[|stack| - 2];
    }
  }

  lemma DestroyUntouches(s: State, u: nat, h: Slot, k: nat, t: nat, g: Slot)
    requires Inv(s) && At(s, u, h, AtMembers(k))
    requires t != u || (g in s.handles && s.handles[g].mode.Shared?)
    ensures Untouched(s, DestroyStep(s, u, h, k), t, g)
  {
  }

  lemma ReleaseUntouches(s: State, u: nat, t: nat, g: Slot)
    requires Inv(s) && u in s.threads && s.threads[u].stack != []
    requires t != u || (g in s.handles && s.handles[g].mode.Shared?)
    ensures Untouched(s, ReleaseStep(s, u), t, g)
  {
    assert ThreadOk(s, u);
    var h := s.threads[u].stack[|s.threads[u].stack| - 1];
    assert h in s.threads[u].stack;
    match s.handles[h].mode.phase
    case AtMembers(k) => DestroyUntouches(s, u, h, k, t, g);
    case ToReturn => ReturnUntouches(s, u, h, t, g);
    case _ =>
  }

  lemma CopyUntouches(s: State, u: nat, dst: Slot, src: Slot, pc: Pc, t: nat, g: Slot)
    requires Inv(s) && Doing(s, u, Copying(dst, src, pc)) && dst in s.handles && src in s.handles && t != u
    ensures Untouched(s, CopyStep(s, u, dst, src, pc), t, g)
  {
    assert ThreadOk(s, u);
  }

  lemma MoveUntouches(s: State, u: nat, dst: Slot, src: Slot, pc: Pc, t: nat, g: Slot)
    requires Inv(s) && Doing(s, u, Moving(dst, src, pc)) && dst in s.handles && src in s.handles && t != u
    ensures Untouched(s, MoveStep(s, u, dst, src, pc), t, g)
  {
    assert ThreadOk(s, u);
  }

  lemma AdvanceUntouches(s: State, u: nat, t: nat, g: Slot)
    requires Inv(s) && u in s.threads && t != u
    ensures Untouched(s, Advance(s, u), t, g)
  {
    if s.threads[u].stack != [] {
      ReleaseUntouches(s, u, t, g);
      return;
    }
    match s.threads[u].activity
    case Copying(dst, src, pc) =>
      if dst in s.handles && src in s.handles {
        CopyUntouches(s, u, dst, src, pc, t, g);
      }
    case Moving(dst, src, pc) =>
      if dst in s.handles && src in s.handles {
        MoveUntouches(s, u, dst, src, pc, t, g);
      }
    case _ =>
  }

  /** A step that is no `Continue` leaves every handle in use alone, whoever takes it. */
  lemma StartUntouches(s: State, u: nat, step: Step, t: nat, g: Slot)
    requires Inv(s) && Enabled(s, u, step) && !step.Continue?
    ensures Untouched(s, Apply(s, u, step), t, g)
  {
    if g in s.handles {
      assert HandleOk(s, g);
    }
  }

  lemma StepUntouches(s: State, u: nat, step: Step, t: nat, g: Slot)
    requires Inv(s) && Enabled(s, u, step) && (u != t || !step.Continue?)
    ensures Untouched(s, Apply(s, u, step), t, g)
  {
    if step.Continue? {
      AdvanceUntouches(s, u, t, g);
    } else {
      StartUntouches(s, u, step, t, g);
    }
  }

  /** The program counter of a thread is moved by that thread alone. */
  lemma OthersStay(s: State, u: nat, step: Step, t: nat)
    requires Enabled(s, u, step) && u != t && t in s.threads
    ensures t in Apply(s, u, step).threads && Apply(s, u, step).threads[t] == s.threads[t]
  {
    if P.Begins(step) {
      P.BegunOperands(s, u, step);
    } else {
      P.OperandsStay(s, u, step);
    }
  }

  /** Steps that start nothing and continue nothing move no program counter. */
  lemma ThreadsStay(s: State, u: nat, step: Step)
    requires Enabled(s, u, step) && !step.Continue? && !P.Begins(step)
    ensures Apply(s, u, step).threads == s.threads
  {
  }

  // ----- Copies -----

  /** Thread `t` is copying from `src`, which names `c`. */
  ghost predicate CopyPending(s: State, t: nat, dst: Slot, src: Slot, c: Ptr) {
    && t in s.threads && s.threads[t].activity.Copying?
    && s.threads[t].activity.dst == dst && s.threads[t].activity.src == src
    && src in s.handles && s.handles[src].cb == c
  }

  /** The step from `s` to `r` is the last one of a copy of `c` into `dst`. */
  ghost predicate CopyDelivered(s: State, r: State, dst: Slot, src: Slot, c: Ptr) {
    && dst in r.handles && r.handles[dst] == Handle(c, c, FREE)
    && src in r.handles && r.handles[src].ptr == c && r.handles[src].cb == c
    && (c.Null? ==> r.blocks == s.blocks)
    && (c.To? ==>
          && c.block in s.blocks && s.blocks[c.block].life.Alive?
          && r.blocks == s.blocks[c.block := s.blocks[c.block].(count := s.blocks[c.block].count + 1)])
  }

  lemma CopyReleases(s: State, t: nat, dst: Slot, src: Slot, c: Ptr, r: State)
    requires Inv(s) && CopyPending(s, t, dst, src, c) && s.threads[t].stack != [] && r == ReleaseStep(s, t)
    ensures CopyPending(r, t, dst, src, c)
  {
    assert ThreadOk(s, t);
    ReleaseUntouches(s, t, t, src);
    CopyGoesOn(s, t, dst, src);
  }

  lemma CopyGoesOn(s: State, t: nat, dst: Slot, src: Slot)
    requires t in s.threads && s.threads[t].stack != []
    requires s.threads[t].activity.Copying? && s.threads[t].activity.dst == dst && s.threads[t].activity.src == src
    ensures var th := ReleaseStep(s, t).threads;
            t in th && th[t].activity.Copying? && th[t].activity.dst == dst && th[t].activity.src == src
  {
  }

  lemma CopyWrites(s: State, t: nat, dst: Slot, src: Slot, c: Ptr, r: State)
    requires Inv(s) && CopyPending(s, t, dst, src, c) && s.threads[t].stack == [] && r == Advance(s, t)
    requires !s.threads[t].activity.pc.Increment?
    ensures CopyPending(r, t, dst, src, c)
  {
    assert ThreadOk(s, t);
  }

  lemma CopyCounts(s: State, t: nat, dst: Slot, src: Slot, c: Ptr, r: State)
    requires Inv(s) && CopyPending(s, t, dst, src, c) && s.threads[t].stack == [] && r == Advance(s, t)
    requires s.threads[t].activity.pc.Increment? && |s.handles| < TWO31
    ensures r.threads[t] == IDLE && CopyDelivered(s, r, dst, src, c)
  {
    assert ThreadOk(s, t) && HandleOk(s, dst) && HandleOk(s, src);
    if c.To? {
      assert BlockOk(s, c.block);
      assert src in Counted(s.handles, c.block);
      assert dst !in Counted(s.handles, c.block);
      OneMoreFits(s.handles, c.block, dst);
    }
  }

  /** Every step of every thread keeps the copy pending, except the one that delivers it. */
  lemma CopyStays(s: State, u: nat, step: Step, t: nat, dst: Slot, src: Slot, c: Ptr, r: State)
    requires Inv(s) && Enabled(s, u, step) && |s.handles| < TWO31 && r == Apply(s, u, step)
    requires CopyPending(s, t, dst, src, c)
    ensures t in r.threads
    ensures if r.threads[t] == IDLE then u == t && CopyDelivered(s, r, dst, src, c) else CopyPending(r, t, dst, src, c)
  {
    assert ThreadOk(s, t);
    if u != t {
      StepUntouches(s, u, step, t, src);
      OthersStay(s, u, step, t);
    } else if !step.Continue? {
      StepUntouches(s, u, step, t, src);
      ThreadsStay(s, u, step);
    } else if s.threads[t].stack != [] {
      CopyReleases(s, t, dst, src, c, r);
    } else if s.threads[t].activity.pc.Increment? {
      CopyCounts(s, t, dst, src, c, r);
    } else {
      CopyWrites(s, t, dst, src, c, r);
    }
  }

  // ----- Moves -----

  /** Thread `t` is moving `c`: the source still has it, or the destination already. */
  ghost predicate MovePending(s: State, t: nat, dst: Slot, src: Slot, c: Ptr) {
    && t in s.threads && s.threads[t].activity.Moving?
    && s.threads[t].activity.dst == dst && s.threads[t].activity.src == src
    && var holder := if s.threads[t].activity.pc.ClearPtr? || s.threads[t].activity.pc.ClearCb? then dst else src;
       holder in s.handles && s.handles[holder].cb == c
  }

  /** The step from `s` to `r` is the last one of a move of `c` from `src` to `dst`. */
  ghost predicate MoveDelivered(s: State, r: State, dst: Slot, src: Slot, c: Ptr) {
    && dst in r.handles && r.handles[dst] == Handle(c, c, FREE)
    && src in r.handles && r.handles[src] == Handle(Null, Null, FREE)
    && r.blocks == s.blocks
  }

  /** A handle that its thread holds outside release() is not changed by a release() of that thread. */
  lemma ReleaseSparesHeld(s: State, t: nat, g: Slot)
    requires Inv(s) && t in s.threads && s.threads[t].stack != [] && HeldBy(s, g, t, Steady)
    ensures g in ReleaseStep(s, t).handles && ReleaseStep(s, t).handles[g] == s.handles[g]
  {
    assert ThreadOk(s, t) && HandleOk(s, g);
    var stack := s.threads[t].stack;
    assert stack[|stack| - 1] in stack;
    if |stack| > 1 {
      assert stack[|stack| - 2] in stack;
      assert stack[..|stack| - 1][|stack| - 2] == stack[|stack| - 2];
    }
  }

  lemma MoveGoesOn(s: State, t: nat, dst: Slot, src: Slot)
    requires t in s.threads && s.threads[t].stack != [] && s.threads[t].activity == Moving(dst, src, Releasing)
    ensures var th := ReleaseStep(s, t).threads;
            t in th && (th[t].activity == Moving(dst, src, Releasing) || th[t].activity == Moving(dst, src, WritePtr))
  {
  }

  lemma MoveReleases(s: State, t: nat, dst: Slot, src: Slot, c: Ptr, r: State)
    requires Inv(s) && MovePending(s, t, dst, src, c) && s.threads[t].stack != [] && r == ReleaseStep(s, t)
    ensures MovePending(r, t, dst, src, c)
  {
    assert ThreadOk(s, t);
    ReleaseSparesHeld(s, t, src);
    MoveGoesOn(s, t, dst, src);
  }

  lemma MoveWrites(s: State, t: nat, dst: Slot, src: Slot, c: Ptr, r: State)
    requires Inv(s) && MovePending(s, t, dst, src, c) && s.threads[t].stack == [] && r == Advance(s, t)
    requires !s.threads[t].activity.pc.ClearCb?
    ensures MovePending(r, t, dst, src, c)
  {
    assert ThreadOk(s, t);
  }

  lemma MoveClears(s: State, t: nat, dst: Slot, src: Slot, c: Ptr, r: State)
    requires Inv(s) && MovePending(s, t, dst, src, c) && s.threads[t].stack == [] && r == Advance(s, t)
    requires s.threads[t].activity.pc.ClearCb?
    ensures r.threads[t] == IDLE && MoveDelivered(s, r, dst, src, c)
  {
    assert ThreadOk(s, t) && HandleOk(s, dst);
  }

  lemma MoveStays(s: State, u: nat, step: Step, t: nat, dst: Slot, src: Slot, c: Ptr, r: State)
    requires Inv(s) && Enabled(s, u, step) && r == Apply(s, u, step) && MovePending(s, t, dst, src, c)
    ensures t in r.threads
    ensures if r.threads[t] == IDLE then u == t && MoveDelivered(s, r, dst, src, c) else MovePending(r, t, dst, src, c)
  {
    assert ThreadOk(s, t);
    if u != t {
      StepUntouches(s, u, step, t, src);
      StepUntouches(s, u, step, t, dst);
      OthersStay(s, u, step, t);
    } else if !step.Continue? {
      StepUntouches(s, u, step, t, src);
      StepUntouches(s, u, step, t, dst);
      ThreadsStay(s, u, step);
    } else if s.threads[t].stack != [] {
      MoveReleases(s, t, dst, src, c, r);
    } else if s.threads[t].activity.pc.ClearCb? {
      MoveClears(s, t, dst, src, c, r);
    } else {
      MoveWrites(s, t, dst, src, c, r);
    }
  }

  // ----- Destructions -----

  ghost predicate DestroyPending(s: State, t: nat, h: Slot) {
    t in s.threads && s.threads[t].activity == Destroying(h)
  }

  lemma DestroyStays(s: State, u: nat, step: Step, t: nat, h: Slot, r: State)
    requires Inv(s) && Enabled(s, u, step) && r == Apply(s, u, step) && DestroyPending(s, t, h)
    ensures t in r.threads
    ensures if r.threads[t] == IDLE then u == t && r.handles == s.handles - {h} && r.blocks == s.blocks
            else DestroyPending(r, t, h)
  {
    assert ThreadOk(s, t);
    if u != t {
      OthersStay(s, u, step, t);
    } else if !step.Continue? {
      ThreadsStay(s, u, step);
    } else {
      DestroyReturns(s, t, h, r);
    }
  }

  lemma DestroyReturns(s: State, t: nat, h: Slot, r: State)
    requires Inv(s) && DestroyPending(s, t, h) && s.threads[t].stack != [] && r == ReleaseStep(s, t)
    ensures t in r.threads
    ensures if r.threads[t] == IDLE then r.handles == s.handles - {h} && r.blocks == s.blocks
            else DestroyPending(r, t, h)
  {
    assert ThreadOk(s, t);
    assert s.threads[t].stack[|s.threads[t].stack| - 1] in s.threads[t].stack;
  }

  // ----- Over every interleaving -----

  /** Thread `t` is inside an operation after each move but the last, and idle after the last. */
  predicate EndsWith(s: State, moves: seq<Move>, t: nat)
    requires Schedule(s, moves)
    decreases |moves|
  {
    moves != [] &&
    var r := Apply(s, moves[0].thread, moves[0].step);
    t in r.threads &&
    if |moves| == 1 then r.threads[t] == IDLE else r.threads[t] != IDLE && EndsWith(r, moves[1..], t)
  }

  /** The state before the last move. */
  function BeforeLast(s: State, moves: seq<Move>): State
    requires Schedule(s, moves) && moves != []
    decreases |moves|
  {
    if |moves| == 1 then s else BeforeLast(Apply(s, moves[0].thread, moves[0].step), moves[1..])
  }

  /** A run that has not faulted at its end has not faulted after its first move. */
  lemma FirstMoveOk(s: State, moves: seq<Move>)
    requires Inv(s) && Schedule(s, moves) && moves != [] && !Execute(s, moves).fault
    ensures Inv(Apply(s, moves[0].thread, moves[0].step))
  {
    var r := Apply(s, moves[0].thread, moves[0].step);
    if r.fault {
      FaultIsFinal(r, moves[1..]);
    }
    StepOk(s, moves[0].thread, moves[0].step);
  }

  lemma {:induction false} PendingCopyDelivers(s: State, moves: seq<Move>, t: nat, dst: Slot, src: Slot, c: Ptr)
    requires Inv(s) && Schedule(s, moves) && !Execute(s, moves).fault && EndsWith(s, moves, t)
    requires CopyPending(s, t, dst, src, c)
    ensures CopyDelivered(BeforeLast(s, moves), Execute(s, moves), dst, src, c)
    decreases |moves|
  {
    var r := Apply(s, moves[0].thread, moves[0].step);
    CopyStays(s, moves[0].thread, moves[0].step, t, dst, src, c, r);
    if |moves| == 1 {
      assert Execute(s, moves) == r;
    } else {
      FirstMoveOk(s, moves);
      PendingCopyDelivers(r, moves[1..], t, dst, src, c);
    }
  }

  lemma CopyStarts(s: State, t: nat, step: Step, dst: Slot, src: Slot, r: State)
    requires Inv(s) && Enabled(s, t, step) && r == Apply(s, t, step)
    requires step == BeginCopyNew(dst, src) || step == BeginCopyAssign(dst, src)
    ensures src in s.handles && s.handles[src].ptr == s.handles[src].cb
    ensures CopyPending(r, t, dst, src, s.handles[src].cb)
  {
    assert HandleOk(s, src);
  }

  /** Whatever other threads do between the first and the last step of a copy, construction or assignment:
      when it ends the destination names, in both fields, what the source named when it started, the
      source still does, and the last step has added one to the count of that block and done nothing else
      to any block. */
  lemma CopyDelivers(s: State, moves: seq<Move>, t: nat, dst: Slot, src: Slot)
    requires Inv(s) && Schedule(s, moves) && !Execute(s, moves).fault && |moves| > 1 && EndsWith(s, moves, t)
    requires moves[0] == Move(t, BeginCopyNew(dst, src)) || moves[0] == Move(t, BeginCopyAssign(dst, src))
    ensures src in s.handles && s.handles[src].ptr == s.handles[src].cb
    ensures CopyDelivered(BeforeLast(s, moves), Execute(s, moves), dst, src, s.handles[src].cb)
  {
    var step := moves[0].step;
    var r := Apply(s, t, step);
    CopyStarts(s, t, step, dst, src, r);
    FirstMoveOk(s, moves);
    PendingCopyDelivers(r, moves[1..], t, dst, src, s.handles[src].cb);
  }

  lemma {:induction false} PendingMoveDelivers(s: State, moves: seq<Move>, t: nat, dst: Slot, src: Slot, c: Ptr)
    requires Inv(s) && Schedule(s, moves) && !Execute(s, moves).fault && EndsWith(s, moves, t)
    requires MovePending(s, t, dst, src, c)
    ensures MoveDelivered(BeforeLast(s, moves), Execute(s, moves), dst, src, c)
    decreases |moves|
  {
    var r := Apply(s, moves[0].thread, moves[0].step);
    MoveStays(s, moves[0].thread, moves[0].step, t, dst, src, c, r);
    if |moves| == 1 {
      assert Execute(s, moves) == r;
    } else {
      FirstMoveOk(s, moves);
      PendingMoveDelivers(r, moves[1..], t, dst, src, c);
    }
  }

  lemma MoveStarts(s: State, t: nat, step: Step, dst: Slot, src: Slot, r: State)
    requires Inv(s) && Enabled(s, t, step) && r == Apply(s, t, step)
    requires step == BeginMoveNew(dst, src) || step == BeginMoveAssign(dst, src)
    ensures src in s.handles && s.handles[src].ptr == s.handles[src].cb
    ensures MovePending(r, t, dst, src, s.handles[src].cb)
  {
    assert HandleOk(s, src);
  }

  /** The same for moves: the destination has what the source had, and the source is null. */
  lemma MoveDelivers(s: State, moves: seq<Move>, t: nat, dst: Slot, src: Slot)
    requires Inv(s) && Schedule(s, moves) && !Execute(s, moves).fault && |moves| > 1 && EndsWith(s, moves, t)
    requires moves[0] == Move(t, BeginMoveNew(dst, src)) || moves[0] == Move(t, BeginMoveAssign(dst, src))
    ensures src in s.handles && s.handles[src].ptr == s.handles[src].cb
    ensures MoveDelivered(BeforeLast(s, moves), Execute(s, moves), dst, src, s.handles[src].cb)
  {
    var step := moves[0].step;
    var r := Apply(s, t, step);
    MoveStarts(s, t, step, dst, src, r);
    FirstMoveOk(s, moves);
    PendingMoveDelivers(r, moves[1..], t, dst, src, s.handles[src].cb);
  }

  lemma {:induction false} PendingDestroyEnds(s: State, moves: seq<Move>, t: nat, h: Slot)
    requires Inv(s) && Schedule(s, moves) && !Execute(s, moves).fault && EndsWith(s, moves, t)
    requires DestroyPending(s, t, h)
    ensures h !in Execute(s, moves).handles
    decreases |moves|
  {
    var r := Apply(s, moves[0].thread, moves[0].step);
    DestroyStays(s, moves[0].thread, moves[0].step, t, h, r);
    if |moves| == 1 {
      assert Execute(s, moves) == r;
    } else {
      FirstMoveOk(s, moves);
      PendingDestroyEnds(r, moves[1..], t, h);
    }
  }

  /** And for destructions: the handle is gone. */
  lemma DestroyEnds(s: State, moves: seq<Move>, t: nat, h: Slot)
    requires Inv(s) && Schedule(s, moves) && !Execute(s, moves).fault && |moves| > 1 && EndsWith(s, moves, t)
    requires moves[0] == Move(t, BeginDestroy(h))
    ensures h !in Execute(s, moves).handles
  {
    FirstMoveOk(s, moves);
    PendingDestroyEnds(Apply(s, t, moves[0].step), moves[1..], t, h);
  }

  /** The operations that are one step: what they make. */
  lemma StartEffects(s: State, t: nat, step: Step)
    requires Inv(s) && Enabled(s, t, step)
    ensures step.NewHandle? ==>
              var r := Apply(s, t, step);
              r.handles == s.handles[step.h := Handle(Null, Null, FREE)] && r.blocks == s.blocks
    ensures step.MakeShared? ==>
              var r := Apply(s, t, step);
              && step.h in r.handles && r.handles[step.h] == Handle(To(step.block), To(step.block), FREE)
              && r.blocks == s.blocks[step.block := Block(1, step.width, Alive)]
              && (forall i: nat | i < step.width ::
                    && Member(step.block, i) in r.handles
                    && r.handles[Member(step.block, i)] == Handle(Null, Null, FREE))
              && (forall g | g in s.handles :: g in r.handles && r.handles[g] == s.handles[g])
              && (forall g | g in r.handles && g !in s.handles :: g == step.h || (g.Member? && g.owner == step.block))
  {
    if step.MakeShared? {
      MadeHandles(s, Apply(s, t, step), step.h, step.block, step.width);
    }
  }

  // ----- Operations end -----

  /** How far a handle is from the end of its release(). */
  function Rank(x: Handle): nat {
    match x.mode
    case Shared(_) => 5
    case Held(_, p) =>
      match p
      case Steady => 5
      case ToDecrement => 4
      case AtMembers(_) => 3
      case AtKfree => 2
      case ToReturn => 1
      case _ => 0
  }

  function AtLeast(handles: map<Slot, Handle>, k: nat): set<Slot> {
    set h | h in handles && Rank(handles[h]) >= k
  }

  /** The sum of all ranks. */
  function RankSum(handles: map<Slot, Handle>): nat {
    |AtLeast(handles, 1)| + |AtLeast(handles, 2)| + |AtLeast(handles, 3)|
    + |AtLeast(handles, 4)| + |AtLeast(handles, 5)|
  }

  lemma Fewer(a: set<Slot>, b: set<Slot>)
    requires b <= a
    ensures |b| <= |a| && (b != a ==> |b| < |a|)
  {
    assert a == b + (a - b);
  }

  /** `b` is `a` with some handles gone or lower in rank, `h` among them. */
  ghost predicate Lowers(a: map<Slot, Handle>, b: map<Slot, Handle>, h: Slot) {
    && (forall x | x in b :: x in a && Rank(b[x]) <= Rank(a[x]))
    && h in a && Rank(a[h]) > 0 && (h in b ==> Rank(b[h]) < Rank(a[h]))
  }

  lemma LowersAt(a: map<Slot, Handle>, b: map<Slot, Handle>, h: Slot, k: nat)
    requires Lowers(a, b, h)
    ensures |AtLeast(b, k)| <= |AtLeast(a, k)| && (k == Rank(a[h]) ==> |AtLeast(b, k)| < |AtLeast(a, k)|)
  {
    if k == Rank(a[h]) {
      assert h in AtLeast(a, k) && h !in AtLeast(b, k);
    }
    Fewer(AtLeast(a, k), AtLeast(b, k));
  }

  lemma RankSumDrops(a: map<Slot, Handle>, b: map<Slot, Handle>, h: Slot)
    requires Lowers(a, b, h)
    ensures RankSum(b) < RankSum(a)
  {
    LowersAt(a, b, h, 1);
    LowersAt(a, b, h, 2);
    LowersAt(a, b, h, 3);
    LowersAt(a, b, h, 4);
    LowersAt(a, b, h, 5);
  }

  /** How far an operation is from its end, apart from release(). */
  function Distance(a: Activity): nat {
    match a
    case Idle => 0
    case Destroying(_) => 5
    case Copying(_, _, pc) => if pc.Releasing? then 5 else if pc.WritePtr? then 4 else if pc.WriteCb? then 3 else 2
    case Moving(_, _, pc) =>
      if pc.Releasing? then 5 else if pc.WritePtr? then 4 else if pc.WriteCb? then 3 else if pc.ClearPtr? then 2 else 1
  }

  lemma DecrementProgress(s: State, t: nat, h: Slot, r: State)
    requires At(s, t, h, ToDecrement) && r == Decrement(s, t, h) && !r.fault
    ensures r.threads == s.threads && RankSum(r.handles) < RankSum(s.handles)
  {
    RankSumDrops(s.handles, r.handles, h);
  }

  lemma KfreeProgress(s: State, t: nat, h: Slot, r: State)
    requires At(s, t, h, AtKfree) && r == KfreeStep(s, t, h) && !r.fault
    ensures r.threads == s.threads && RankSum(r.handles) < RankSum(s.handles)
  {
    RankSumDrops(s.handles, r.handles, h);
  }

  /** A step of release(), other than the return to the operation that called it, lowers the ranks; that
      return brings the operation itself forward. */
  lemma ReleaseProgress(s: State, t: nat, r: State)
    requires Inv(s) && t in s.threads && s.threads[t].stack != [] && r == ReleaseStep(s, t) && !r.fault
    ensures t in r.threads
    ensures || Distance(r.threads[t].activity) < Distance(s.threads[t].activity)
            || (r.threads[t].activity == s.threads[t].activity && RankSum(r.handles) < RankSum(s.handles))
  {
    assert ThreadOk(s, t);
    var stack := s.threads[t].stack;
    var h := stack[|stack| - 1];
    assert h in stack;
    match s.handles[h].mode.phase
    case ToDecrement => DecrementProgress(s, t, h, r);
    case AtMembers(k) => DestroyProgress(s, t, h, k, r);
    case AtKfree => KfreeProgress(s, t, h, r);
    case ToReturn => ReturnProgress(s, t, h, r);
    case _ =>
  }

  lemma DestroyProgress(s: State, t: nat, h: Slot, k: nat, r: State)
    requires Inv(s) && At(s, t, h, AtMembers(k)) && r == DestroyStep(s, t, h, k) && !r.fault
    ensures t in r.threads && r.threads[t].activity == s.threads[t].activity && RankSum(r.handles) < RankSum(s.handles)
  {
    AtMembersMeans(s, t, h, k);
    var b := s.handles[h].ptr.block;
    RankSumDrops(s.handles, r.handles, if k < s.blocks[b].width then Member(b, k) else h);
  }

  lemma ReturnProgress(s: State, t: nat, h: Slot, r: State)
    requires Inv(s) && At(s, t, h, ToReturn) && r == ReturnStep(s, t, h) && !r.fault
    ensures t in r.threads
    ensures || Distance(r.threads[t].activity) < Distance(s.threads[t].activity)
            || (r.threads[t].activity == s.threads[t].activity && RankSum(r.handles) < RankSum(s.handles))
  {
    assert ThreadOk(s, t);
    var stack := s.threads[t].stack;
    if |stack| > 1 {
      assert stack[..|stack| - 1][|stack| - 2] == stack[|stack| - 2];
      assert stack[|stack| - 2] in stack;
      RankSumDrops(s.handles, r.handles, h);
    }
  }

  lemma CopyProgress(s: State, t: nat, dst: Slot, src: Slot, pc: Pc, r: State)
    requires Inv(s) && Doing(s, t, Copying(dst, src, pc)) && r == Advance(s, t)
    ensures t in r.threads && (!r.fault ==> Distance(r.threads[t].activity) < Distance(s.threads[t].activity))
  {
    assert ThreadOk(s, t);
  }

  lemma MoveProgress(s: State, t: nat, dst: Slot, src: Slot, pc: Pc, r: State)
    requires Inv(s) && Doing(s, t, Moving(dst, src, pc)) && r == Advance(s, t)
    ensures t in r.threads && Distance(r.threads[t].activity) < Distance(s.threads[t].activity)
  {
    assert ThreadOk(s, t);
  }

  /** Every step of a thread inside an operation brings it closer to the end. */
  lemma Progress(s: State, t: nat, r: State)
    requires Inv(s) && t in s.threads && s.threads[t] != IDLE && r == Advance(s, t) && !r.fault
    ensures t in r.threads
    ensures || Distance(r.threads[t].activity) < Distance(s.threads[t].activity)
            || (r.threads[t].activity == s.threads[t].activity && RankSum(r.handles) < RankSum(s.handles))
  {
    assert ThreadOk(s, t);
    if s.threads[t].stack != [] {
      ReleaseProgress(s, t, r);
      return;
    }
    match s.threads[t].activity
    case Copying(dst, src, pc) => CopyProgress(s, t, dst, src, pc, r);
    case Moving(dst, src, pc) => MoveProgress(s, t, dst, src, pc, r);
    case _ =>
  }

  lemma ReleaseAddsNone(s: State, t: nat)
    requires t in s.threads && s.threads[t].stack != []
    ensures ReleaseStep(s, t).handles.Keys <= s.handles.Keys
  {
  }

  lemma AdvanceAddsNone(s: State, t: nat)
    requires t in s.threads
    ensures Advance(s, t).handles.Keys <= s.handles.Keys && |Advance(s, t).handles| <= |s.handles|
  {
    if s.threads[t].stack != [] {
      ReleaseAddsNone(s, t);
    }
    Fewer(s.handles.Keys, Advance(s, t).handles.Keys);
  }

  /** `n` steps of thread `t`. */
  function Alone(t: nat, n: nat): seq<Move> {
    if n == 0 then [] else [Move(t, Continue)] + Alone(t, n - 1)
  }

  /** Either the run faults, or it ends the operation. */
  ghost predicate Finishes(s: State, t: nat, n: nat) {
    n > 0 && Schedule(s, Alone(t, n)) && (Execute(s, Alone(t, n)).fault || EndsWith(s, Alone(t, n), t))
  }

  lemma FinishesNow(s: State, t: nat, r: State)
    requires t in s.threads && r == Apply(s, t, Continue) && t in r.threads
    requires |s.handles| < TWO31 && |r.handles| < TWO31
    requires r.fault || r.threads[t] == IDLE
    ensures Finishes(s, t, 1)
  {
    assert Alone(t, 1) == [Move(t, Continue)] && Alone(t, 1)[1..] == [];
    assert Schedule(r, []) && Execute(r, []) == r;
  }

  lemma FinishesLater(s: State, t: nat, r: State, n: nat)
    requires t in s.threads && |s.handles| < TWO31 && r == Apply(s, t, Continue) && t in r.threads
    requires r.threads[t] != IDLE && Finishes(r, t, n)
    ensures Finishes(s, t, n + 1)
  {
    assert Alone(t, n + 1)[0] == Move(t, Continue) && Alone(t, n + 1)[1..] == Alone(t, n);
    assert |Alone(t, n)| > 0;
  }

  /** From every reachable state, a thread inside an operation that runs on its own ends the operation
      after finitely many steps, or faults: nothing waits and nothing goes round in circles. */
  lemma {:induction false} OperationsEnd(s: State, t: nat) returns (n: nat)
    requires Inv(s) && t in s.threads && s.threads[t] != IDLE && |s.handles| < TWO31
    ensures Finishes(s, t, n)
    decreases Distance(s.threads[t].activity), RankSum(s.handles)
  {
    var r := Apply(s, t, Continue);
    AdvanceAddsNone(s, t);
    P.SameThreads(s, t, Continue);
    if r.fault || r.threads[t] == IDLE {
      FinishesNow(s, t, r);
      return 1;
    }
    Progress(s, t, r);
    StepOk(s, t, Continue);
    var m := OperationsEnd(r, t);
    FinishesLater(s, t, r, m);
    return m + 1;
  }
}
