/**
 A discipline that a thread can check when it starts an operation, and under which no interleaving of
 the SharedPtr machine touches a freed block or a dead handle.

 A thread that starts an operation may name handles that it keeps: nobody changes or destroys them
 until the operation ends, as a local copy of a SharedPtr or a lock held by the caller guarantees.  The
 discipline is that every member handle among the kept handles and the operands belongs to an object
 that a kept handle names.
 */
module SharedThreadsPins {
  import opened SharedTypes
  import opened SharedThreads
  import opened SharedThreadsSteps
  import opened SharedThreadsRuns

  // ----- The discipline -----

  /** The handles that each thread keeps for the operation it is in. */
  type Pins = map<nat, set<Slot>>

  datatype PinnedMove = PinnedMove(move: Move, keep: set<Slot>)

  function KeptBy(pins: Pins, t: nat): set<Slot> {
    if t in pins then pins[t] else {}
  }

  predicate Begins(step: Step) {
    step.BeginDestroy? || step.BeginCopyNew? || step.BeginMoveNew? || step.BeginCopyAssign? || step.BeginMoveAssign?
  }

  /** The operands of the operation that a step starts. */
  function Operands(step: Step): set<Slot> {
    match step
    case BeginDestroy(h) => {h}
    case BeginCopyNew(dst, src) => {dst, src}
    case BeginMoveNew(dst, src) => {dst, src}
    case BeginCopyAssign(dst, src) => {dst, src}
    case BeginMoveAssign(dst, src) => {dst, src}
    case _ => {}
  }

  /** The operands that the operation writes to. */
  function Written(step: Step): set<Slot> {
    match step
    case BeginDestroy(h) => {h}
    case BeginCopyNew(dst, _) => {dst}
    case BeginMoveNew(dst, src) => {dst, src}
    case BeginCopyAssign(dst, _) => {dst}
    case BeginMoveAssign(dst, src) => {dst, src}
    case _ => {}
  }

  /** A handle outside all objects is secure; a member is when a kept handle names its object. */
  predicate Secured(s: State, keep: set<Slot>, h: Slot) {
    h.Root? || exists p :: p in keep && p in s.handles && s.handles[p].cb == To(h.owner)
  }

  /** The discipline for one step, decided on the state in which it is taken. */
  predicate MayBegin(s: State, pins: Pins, step: Step, keep: set<Slot>) {
    && (forall p | p in keep :: IsReadable(s, p) && p !in Written(step))
    && (forall h | h in keep + Operands(step) :: Secured(s, keep, h))
    && (forall u, h | u in pins && h in pins[u] :: h !in Written(step))
  }

  /** Kept handles are let go when the operation ends. */
  function NextPins(pins: Pins, t: nat, step: Step, keep: set<Slot>, r: State): Pins {
    if Begins(step) then pins[t := keep]
    else if t in r.threads && r.threads[t] == IDLE then pins[t := {}]
    else pins
  }

  function Moves(pinned: seq<PinnedMove>): (moves: seq<Move>)
    ensures |moves| == |pinned|
  {
    seq(|pinned|, i requires 0 <= i < |pinned| => pinned[i].move)
  }

  predicate Disciplined(s: State, pins: Pins, pinned: seq<PinnedMove>)
    requires Schedule(s, Moves(pinned))
    decreases |pinned|
  {
    pinned == [] ||
    var m := pinned[0].move;
    assert Moves(pinned)[0] == m && Moves(pinned)[1..] == Moves(pinned[1..]);
    var r := Apply(s, m.thread, m.step);
    && (Begins(m.step) ==> MayBegin(s, pins, m.step, pinned[0].keep))
    && Disciplined(r, NextPins(pins, m.thread, m.step, pinned[0].keep, r), pinned[1..])
  }

  // ----- Why it is enough -----

  function Named(a: Activity): set<Slot> {
    match a
    case Idle => {}
    case Destroying(h) => {h}
    case Copying(dst, src, _) => {dst, src}
    case Moving(dst, src, _) => {dst, src}
  }

  predicate InUse(s: State, pins: Pins, t: nat, h: Slot) {
    t in s.threads && (h in KeptBy(pins, t) || h in Named(s.threads[t].activity))
  }

  ghost predicate PinsOk(s: State, pins: Pins) {
    && (forall t, h {:trigger h in KeptBy(pins, t)} :: h in KeptBy(pins, t) ==> IsReadable(s, h) && t in s.threads)
    && (forall t, h {:trigger InUse(s, pins, t, h)} :: InUse(s, pins, t, h) ==> Secured(s, KeptBy(pins, t), h))
  }

  /** The object of a member handle in use is alive: a kept handle counts for it. */
  lemma OwnerAlive(s: State, pins: Pins, t: nat, h: Slot)
    requires Inv(s) && PinsOk(s, pins) && InUse(s, pins, t, h) && h.Member? && h.owner in s.blocks
    ensures s.blocks[h.owner].life.Alive?
  {
    assert Secured(s, KeptBy(pins, t), h);
    var p :| p in KeptBy(pins, t) && p in s.handles && s.handles[p].cb == To(h.owner);
    assert BlockOk(s, h.owner);
    assert p in Counted(s.handles, h.owner);
  }

  /** A member of a block under destruction that is held by some thread, and is not the operand of an
      operation, is the one that `~T` of this block is at. */
  lemma StackedMember(s: State, u: nat, m: Slot)
    requires Inv(s) && u in s.threads && m in s.threads[u].stack && m.Member? && m !in Named(s.threads[u].activity)
    ensures m.owner in s.blocks && s.blocks[m.owner].life.Dying? && s.blocks[m.owner].life.tid == u
    ensures s.blocks[m.owner].life.via in s.threads[u].stack[..|s.threads[u].stack| - 1]
  {
    var stack := s.threads[u].stack;
    assert ThreadOk(s, u);
    var i :| 0 <= i < |stack| && stack[i] == m;
    assert i > 0;
    assert ParentOk(s, stack, i);
    var g := stack[i - 1];
    assert g in stack && HandleOk(s, g);
    assert stack[..|stack| - 1][i - 1] == g;
  }

  /** Under the discipline `~T` never meets a member handle in use. */
  lemma NeverAtUsedMember(s: State, pins: Pins, t: nat)
    requires Inv(s) && PinsOk(s, pins)
    ensures !AtUsedMember(s, t)
  {
    if AtUsedMember(s, t) {
      var stack := s.threads[t].stack;
      var h := stack[|stack| - 1];
      assert ThreadOk(s, t);
      assert h in stack;
      AtMembersMeans(s, t, h, s.handles[h].mode.phase.next);
      var m := Member(s.handles[h].cb.block, s.handles[h].mode.phase.next);
      MemberIsFree(s, pins, t, h, m);
    }
  }

  lemma MemberIsFree(s: State, pins: Pins, t: nat, h: Slot, m: Slot)
    requires Inv(s) && PinsOk(s, pins) && t in s.threads && s.threads[t].stack != []
    requires h == s.threads[t].stack[|s.threads[t].stack| - 1]
    requires m in s.handles && m.Member? && m.owner in s.blocks && s.blocks[m.owner].life == Dying(t, h)
    ensures s.handles[m].mode == FREE
  {
    assert HandleOk(s, m) && ThreadOk(s, t);
    match s.handles[m].mode
    case Shared(readers) =>
      forall u | u in readers
        ensures false
      {
        assert InUse(s, pins, u, m);
        OwnerAlive(s, pins, u, m);
      }
      assert readers == {};
    case Held(u, _) =>
      if m in Named(s.threads[u].activity) {
        assert InUse(s, pins, u, m);
        OwnerAlive(s, pins, u, m);
      } else {
        StackedMember(s, u, m);
        assert false;
      }
  }

  // ----- Kept handles stay -----

  /** Handle `p` is still readable and names the same block. */
  ghost predicate Kept(s: State, r: State, p: Slot) {
    IsReadable(s, p) ==> IsReadable(r, p) && r.handles[p].cb == s.handles[p].cb
  }

  lemma ReturnKeeps(s: State, t: nat, h: Slot, p: Slot)
    requires Inv(s) && At(s, t, h, ToReturn)
    ensures Kept(s, ReturnStep(s, t, h), p)
  {
    assert ThreadOk(s, t);
    var stack := s.threads[t].stack;
    if |stack| > 1 {
      assert ParentOk(s, stack, |stack| - 1);
      assert stack[..|stack| - 1][|stack| - 2] == stack[|stack| - 2];
    }
  }

  /** A step of release() changes no readable handle, except the next member of a dying object. */
  lemma ReleaseKeeps(s: State, t: nat, p: Slot)
    requires Inv(s) && t in s.threads && s.threads[t].stack != []
    requires p.Member? && p.owner in s.blocks ==> s.blocks[p.owner].life.Alive?
    ensures Kept(s, ReleaseStep(s, t), p)
  {
    assert ThreadOk(s, t);
    var h := s.threads[t].stack[|s.threads[t].stack| - 1];
    assert h in s.threads[t].stack;
    match s.handles[h].mode.phase
    case AtMembers(k) => AtMembersMeans(s, t, h, k);
    case ToReturn => ReturnKeeps(s, t, h, p);
    case _ =>
  }

  lemma CopyKeeps(s: State, t: nat, dst: Slot, src: Slot, pc: Pc, p: Slot)
    requires Inv(s) && t in s.threads && s.threads[t] == Thread(Copying(dst, src, pc), [])
    requires dst in s.handles && src in s.handles
    ensures Kept(s, CopyStep(s, t, dst, src, pc), p)
  {
    assert ThreadOk(s, t);
  }

  lemma MoveKeeps(s: State, t: nat, dst: Slot, src: Slot, pc: Pc, p: Slot)
    requires Inv(s) && t in s.threads && s.threads[t] == Thread(Moving(dst, src, pc), [])
    requires dst in s.handles && src in s.handles
    ensures Kept(s, MoveStep(s, t, dst, src, pc), p)
  {
    assert ThreadOk(s, t);
  }

  lemma AdvanceKeeps(s: State, t: nat, p: Slot)
    requires Inv(s) && t in s.threads
    requires p.Member? && p.owner in s.blocks ==> s.blocks[p.owner].life.Alive?
    ensures Kept(s, Advance(s, t), p)
  {
    if s.threads[t].stack != [] {
      ReleaseKeeps(s, t, p);
      return;
    }
    match s.threads[t].activity
    case Copying(dst, src, pc) =>
      if dst in s.handles && src in s.handles {
        CopyKeeps(s, t, dst, src, pc, p);
      }
    case Moving(dst, src, pc) =>
      if dst in s.handles && src in s.handles {
        MoveKeeps(s, t, dst, src, pc, p);
      }
    case _ =>
  }

  lemma BeginKeeps(s: State, t: nat, step: Step, p: Slot)
    requires Enabled(s, t, step) && Begins(step) && p !in Written(step)
    ensures Kept(s, Apply(s, t, step), p)
  {
  }

  lemma MakeSharedKeeps(s: State, t: nat, step: Step, p: Slot)
    requires Inv(s) && Enabled(s, t, step) && step.MakeShared?
    ensures Kept(s, Apply(s, t, step), p)
  {
    if p in s.handles {
      assert HandleOk(s, p);
    }
  }

  lemma StepKeeps(s: State, pins: Pins, t: nat, step: Step, u: nat, p: Slot)
    requires Inv(s) && PinsOk(s, pins) && Enabled(s, t, step)
    requires p in KeptBy(pins, u) && p !in Written(step)
    ensures Kept(s, Apply(s, t, step), p)
  {
    if Begins(step) {
      BeginKeeps(s, t, step, p);
      return;
    }
    match step
    case Continue =>
      assert InUse(s, pins, u, p);
      if p.Member? && p.owner in s.blocks {
        OwnerAlive(s, pins, u, p);
      }
      AdvanceKeeps(s, t, p);
    case NewHandle(_) =>
    case MakeShared(_, _, _) => MakeSharedKeeps(s, t, step, p);
    case UseCount(_) =>
  }

  /** The operation of thread `t` goes on with the operands it started with, or is over. */
  predicate GoesOn(s: State, r: State, t: nat) {
    || r.threads == s.threads
    || (&& t in s.threads && t in r.threads && r.threads == s.threads[t := r.threads[t]]
        && Named(r.threads[t].activity) <= Named(s.threads[t].activity))
  }

  lemma ReturnGoesOn(s: State, t: nat, h: Slot)
    requires h in s.handles && t in s.threads && s.threads[t].stack != []
    ensures GoesOn(s, ReturnStep(s, t, h), t)
  {
  }

  lemma ReleaseGoesOn(s: State, t: nat)
    requires t in s.threads && s.threads[t].stack != []
    ensures GoesOn(s, ReleaseStep(s, t), t)
  {
    var h := s.threads[t].stack[|s.threads[t].stack| - 1];
    if h in s.handles && s.handles[h].mode.Held? && s.handles[h].mode.phase.ToReturn? {
      ReturnGoesOn(s, t, h);
    }
  }

  lemma CopyGoesOn(s: State, t: nat, dst: Slot, src: Slot, pc: Pc)
    requires t in s.threads && dst in s.handles && src in s.handles && s.threads[t].activity == Copying(dst, src, pc)
    ensures GoesOn(s, CopyStep(s, t, dst, src, pc), t)
  {
  }

  lemma MoveGoesOn(s: State, t: nat, dst: Slot, src: Slot, pc: Pc)
    requires t in s.threads && dst in s.handles && src in s.handles && s.threads[t].activity == Moving(dst, src, pc)
    ensures GoesOn(s, MoveStep(s, t, dst, src, pc), t)
  {
  }

  lemma OperandsStay(s: State, t: nat, step: Step)
    requires Enabled(s, t, step) && !Begins(step)
    ensures GoesOn(s, Apply(s, t, step), t)
  {
    if step.Continue? {
      if s.threads[t].stack != [] {
        ReleaseGoesOn(s, t);
        return;
      }
      match s.threads[t].activity
      case Copying(dst, src, pc) =>
        if dst in s.handles && src in s.handles {
          CopyGoesOn(s, t, dst, src, pc);
        }
      case Moving(dst, src, pc) =>
        if dst in s.handles && src in s.handles {
          MoveGoesOn(s, t, dst, src, pc);
        }
      case _ =>
    }
  }

  lemma BegunOperands(s: State, t: nat, step: Step)
    requires Enabled(s, t, step) && Begins(step)
    ensures var r := Apply(s, t, step);
            && t in r.threads && r.threads == s.threads[t := r.threads[t]]
            && Named(r.threads[t].activity) == Operands(step)
  {
  }

  /** What the kept handles secured before a step they secure after it. */
  lemma SecuredStays(s: State, r: State, keep: set<Slot>, h: Slot)
    requires Secured(s, keep, h) && forall p | p in keep :: IsReadable(s, p) && Kept(s, r, p)
    ensures Secured(r, keep, h)
  {
    if h.Member? {
      var p :| p in keep && p in s.handles && s.handles[p].cb == To(h.owner);
      assert IsReadable(r, p);
    }
  }

  /** A step that keeps to the discipline: `r` and `after` are the state and the kept handles after it. */
  ghost predicate PinnedStep(s: State, pins: Pins, t: nat, step: Step, keep: set<Slot>, r: State, after: Pins) {
    && Inv(s) && PinsOk(s, pins) && Enabled(s, t, step) && (Begins(step) ==> MayBegin(s, pins, step, keep))
    && r == Apply(s, t, step) && after == NextPins(pins, t, step, keep, r)
  }

  lemma KeptStays(s: State, pins: Pins, t: nat, step: Step, keep: set<Slot>, r: State, after: Pins, u: nat, p: Slot)
    requires PinnedStep(s, pins, t, step, keep, r, after) && p in KeptBy(after, u)
    ensures IsReadable(s, p) && Kept(s, r, p) && u in s.threads
  {
    if Begins(step) && u == t {
      BeginKeeps(s, t, step, p);
    } else {
      assert p in KeptBy(pins, u);
      StepKeeps(s, pins, t, step, u, p);
    }
  }

  lemma UseStays(s: State, pins: Pins, t: nat, step: Step, keep: set<Slot>, r: State, after: Pins, u: nat, h: Slot)
    requires PinnedStep(s, pins, t, step, keep, r, after) && InUse(r, after, u, h)
    ensures Secured(s, KeptBy(after, u), h)
  {
    if Begins(step) {
      BegunOperands(s, t, step);
    } else {
      OperandsStay(s, t, step);
    }
    if Begins(step) && u == t {
      assert Secured(s, keep, h);
    } else {
      assert InUse(s, pins, u, h);
    }
  }

  lemma PinsStay(s: State, pins: Pins, t: nat, step: Step, keep: set<Slot>, r: State, after: Pins)
    requires PinnedStep(s, pins, t, step, keep, r, after) && r.threads.Keys == s.threads.Keys
    ensures PinsOk(r, after)
  {
    forall u, p | p in KeptBy(after, u)
      ensures IsReadable(s, p) && Kept(s, r, p) && IsReadable(r, p) && u in r.threads
    {
      KeptStays(s, pins, t, step, keep, r, after, u, p);
    }
    forall u, h | InUse(r, after, u, h)
      ensures Secured(r, KeptBy(after, u), h)
    {
      UseStays(s, pins, t, step, keep, r, after, u, h);
      SecuredStays(s, r, KeptBy(after, u), h);
    }
  }

  lemma SameThreads(s: State, t: nat, step: Step)
    requires Enabled(s, t, step)
    ensures Apply(s, t, step).threads.Keys == s.threads.Keys
  {
    if Begins(step) {
      BegunOperands(s, t, step);
    } else {
      OperandsStay(s, t, step);
    }
  }

  /** A disciplined step does not fault and keeps the discipline's invariant. */
  lemma PinnedStepOk(s: State, pins: Pins, t: nat, step: Step, keep: set<Slot>, r: State, after: Pins)
    requires PinnedStep(s, pins, t, step, keep, r, after) && |s.handles| < TWO31
    ensures !r.fault && Inv(r) && PinsOk(r, after)
  {
    NeverAtUsedMember(s, pins, t);
    StepOk(s, t, step);
    SameThreads(s, t, step);
    PinsStay(s, pins, t, step, keep, r, after);
  }

  lemma {:induction false} DisciplinedRunOk(s: State, pins: Pins, pinned: seq<PinnedMove>)
    requires Inv(s) && PinsOk(s, pins) && Schedule(s, Moves(pinned)) && Disciplined(s, pins, pinned)
    ensures !Execute(s, Moves(pinned)).fault
    decreases |pinned|
  {
    if pinned != [] {
      var m := pinned[0].move;
      assert Moves(pinned)[0] == m && Moves(pinned)[1..] == Moves(pinned[1..]);
      var r := Apply(s, m.thread, m.step);
      var after := NextPins(pins, m.thread, m.step, pinned[0].keep, r);
      PinnedStepOk(s, pins, m.thread, m.step, pinned[0].keep, r, after);
      DisciplinedRunOk(r, after, pinned[1..]);
    }
  }

  /** No disciplined interleaving touches a freed block or a dead handle. */
  lemma NoUseAfterFree(s: State, pinned: seq<PinnedMove>)
    requires Initial(s) && Schedule(s, Moves(pinned)) && Disciplined(s, map[], pinned)
    ensures !Execute(s, Moves(pinned)).fault
  {
    InitialOk(s);
    DisciplinedRunOk(s, map[], pinned);
  }

  /** `p = p->next` with a second handle to the object: keeping that handle is all the discipline asks. */
  lemma SecondHandleIsEnough(s: State, pins: Pins, dst: Slot, src: Slot, other: Slot)
    requires dst.Root? && other.Root? && other != dst && src.Member?
    requires IsReadable(s, other) && s.handles[other].cb == To(src.owner)
    requires forall u | u in pins :: dst !in pins[u]
    ensures MayBegin(s, pins, BeginCopyAssign(dst, src), {other})
  {
    assert other in {other};
  }

  // ----- Without the discipline -----

  /** `p = p->next` on the only handle of an object with one member. */
  const OWN_MEMBER := [Move(0, MakeShared(Root(0), 0, 1)), Move(0, BeginCopyAssign(Root(0), Member(0, 0))),
                       Move(0, Continue), Move(0, Continue)]

  /** One thread destroys the only handle of an object while another copies from its member. */
  const RACE := [Move(0, MakeShared(Root(0), 0, 1)), Move(1, BeginCopyNew(Root(1), Member(0, 0))),
                 Move(0, BeginDestroy(Root(0))), Move(0, Continue), Move(0, Continue)]

  lemma FewHandles(handles: map<Slot, Handle>, few: set<Slot>)
    requires handles.Keys == few
    ensures |handles| == |few|
  {
  }

  lemma {:induction false} TakeMove(s: State, moves: seq<Move>)
    requires moves != [] && |s.handles| < TWO31 && Enabled(s, moves[0].thread, moves[0].step)
    requires Schedule(Apply(s, moves[0].thread, moves[0].step), moves[1..])
    ensures Schedule(s, moves)
    ensures Execute(s, moves) == Execute(Apply(s, moves[0].thread, moves[0].step), moves[1..])
  {
  }

  /** One object with one member, and its only handle. */
  function OneObject(threads: map<nat, Thread>): State {
    State(map[Member(0, 0) := Handle(Null, Null, FREE), Root(0) := Handle(To(0), To(0), FREE)],
          map[0 := Block(1, 1, Alive)], threads, [], false)
  }

  lemma MadeOne(s: State, t: nat)
    requires Initial(s) && t in s.threads
    ensures Apply(s, t, MakeShared(Root(0), 0, 1)) == OneObject(s.threads)
  {
  }

  /** Releasing the last handle of an object whose first member is in use faults after two steps. */
  lemma LastReleaseFaults(s: State, t: nat, h: Slot, b: nat)
    requires t in s.threads && s.threads[t].stack == [h] && |s.handles| < TWO31
    requires h in s.handles && s.handles[h] == Handle(To(b), To(b), Held(t, ToDecrement))
    requires b in s.blocks && s.blocks[b].count == 1 && s.blocks[b].width > 0 && s.blocks[b].life.Alive?
    requires Member(b, 0) in s.handles && Member(b, 0) != h && s.handles[Member(b, 0)].mode != FREE
    ensures Schedule(s, [Move(t, Continue), Move(t, Continue)])
    ensures Execute(s, [Move(t, Continue), Move(t, Continue)]).fault
  {
    var moves := [Move(t, Continue), Move(t, Continue)];
    var r := Apply(s, t, Continue);
    assert r == Decrement(s, t, h);
    assert r.handles[h].mode == Held(t, AtMembers(0));
    SameSize(s.handles, h, r.handles[h]);
    assert Apply(r, t, Continue) == Fault(r);
    TakeMove(r, moves[1..]);
    TakeMove(s, moves);
  }

  lemma SameSize(handles: map<Slot, Handle>, h: Slot, x: Handle)
    requires h in handles
    ensures |handles[h := x]| == |handles|
  {
    assert handles[h := x].Keys == handles.Keys;
  }

  lemma OwnMemberTail(threads: map<nat, Thread>)
    requires 0 in threads && threads[0] == IDLE
    ensures Schedule(OneObject(threads), OWN_MEMBER[1..]) && Execute(OneObject(threads), OWN_MEMBER[1..]).fault
  {
    var s := OneObject(threads);
    FewHandles(s.handles, {Root(0), Member(0, 0)});
    var r := Apply(s, 0, BeginCopyAssign(Root(0), Member(0, 0)));
    FewHandles(r.handles, {Root(0), Member(0, 0)});
    LastReleaseFaults(r, 0, Root(0), 0);
    assert OWN_MEMBER[1..][1..] == [Move(0, Continue), Move(0, Continue)];
    TakeMove(s, OWN_MEMBER[1..]);
  }

  lemma OwnMemberFaults(s: State)
    requires Initial(s) && 0 in s.threads
    ensures Schedule(s, OWN_MEMBER) && Execute(s, OWN_MEMBER).fault
  {
    MadeOne(s, 0);
    OwnMemberTail(s.threads);
    TakeMove(s, OWN_MEMBER);
  }

  lemma LastDestroyFaults(s: State, t: nat, h: Slot, b: nat)
    requires t in s.threads && s.threads[t] == IDLE && |s.handles| < TWO31
    requires h.Root? && h in s.handles && s.handles[h] == Handle(To(b), To(b), FREE)
    requires b in s.blocks && s.blocks[b].count == 1 && s.blocks[b].width > 0 && s.blocks[b].life.Alive?
    requires Member(b, 0) in s.handles && s.handles[Member(b, 0)].mode != FREE
    ensures Schedule(s, [Move(t, BeginDestroy(h)), Move(t, Continue), Move(t, Continue)])
    ensures Execute(s, [Move(t, BeginDestroy(h)), Move(t, Continue), Move(t, Continue)]).fault
  {
    var moves := [Move(t, BeginDestroy(h)), Move(t, Continue), Move(t, Continue)];
    var r := Apply(s, t, BeginDestroy(h));
    SameSize(s.handles, h, r.handles[h]);
    LastReleaseFaults(r, t, h, b);
    assert moves[1..] == [Move(t, Continue), Move(t, Continue)];
    TakeMove(s, moves);
  }

  lemma RaceTail(threads: map<nat, Thread>)
    requires 0 in threads && threads[0] == IDLE && 1 in threads && threads[1] == IDLE
    ensures Schedule(OneObject(threads), RACE[1..]) && Execute(OneObject(threads), RACE[1..]).fault
  {
    var s := OneObject(threads);
    FewHandles(s.handles, {Root(0), Member(0, 0)});
    var r := Apply(s, 1, BeginCopyNew(Root(1), Member(0, 0)));
    FewHandles(r.handles, {Root(0), Root(1), Member(0, 0)});
    LastDestroyFaults(r, 0, Root(0), 0);
    assert RACE[1..][1..] == [Move(0, BeginDestroy(Root(0))), Move(0, Continue), Move(0, Continue)];
    TakeMove(s, RACE[1..]);
  }

  lemma RaceFaults(s: State)
    requires Initial(s) && 0 in s.threads && 1 in s.threads
    ensures Schedule(s, RACE) && Execute(s, RACE).fault
  {
    MadeOne(s, 0);
    RaceTail(s.threads);
    TakeMove(s, RACE);
  }
}
