/**
 What the invariant of the SharedPtr machine means for every interleaving of any number of threads.
 */
module SharedThreadsRuns {
  import opened SharedTypes
  import opened SharedThreads
  import opened SharedThreadsSteps
  import G = SharedGraph
  import R = SharedReachability

  // ----- Every interleaving -----

  datatype Move = Move(thread: nat, step: Step)

  predicate Initial(s: State) {
    && s.handles == map[] && s.blocks == map[] && s.log == [] && !s.fault
    && forall t | t in s.threads :: s.threads[t] == IDLE
  }

  /** A schedule picks a thread and a step again and again; fewer than 2^31 handles exist throughout. */
  predicate Schedule(s: State, moves: seq<Move>)
    decreases |moves|
  {
    |s.handles| < TWO31 &&
    (moves == [] ||
     (Enabled(s, moves[0].thread, moves[0].step)
      && Schedule(Apply(s, moves[0].thread, moves[0].step), moves[1..])))
  }

  function Execute(s: State, moves: seq<Move>): State
    requires Schedule(s, moves)
    decreases |moves|
  {
    if moves == [] then s else Execute(Apply(s, moves[0].thread, moves[0].step), moves[1..])
  }

  lemma FaultStays(s: State, t: nat, step: Step)
    requires Enabled(s, t, step) && s.fault
    ensures Apply(s, t, step).fault
  {
  }

  lemma {:induction false} FaultIsFinal(s: State, moves: seq<Move>)
    requires Schedule(s, moves) && s.fault
    ensures Execute(s, moves).fault
    decreases |moves|
  {
    if moves != [] {
      FaultStays(s, moves[0].thread, moves[0].step);
      FaultIsFinal(Apply(s, moves[0].thread, moves[0].step), moves[1..]);
    }
  }

  lemma {:induction false} ExecuteOk(s: State, moves: seq<Move>)
    requires Inv(s) && Schedule(s, moves)
    ensures !Execute(s, moves).fault ==> Inv(Execute(s, moves))
    decreases |moves|
  {
    if moves != [] {
      var r := Apply(s, moves[0].thread, moves[0].step);
      StepOk(s, moves[0].thread, moves[0].step);
      if r.fault {
        FaultIsFinal(r, moves[1..]);
      } else {
        ExecuteOk(r, moves[1..]);
      }
    }
  }

  /** Some step of the schedule is `~T` going on to a member handle that is in use. */
  predicate DestroysUsedMember(s: State, moves: seq<Move>)
    requires Schedule(s, moves)
    decreases |moves|
  {
    moves != [] &&
    ((moves[0].step.Continue? && AtUsedMember(s, moves[0].thread))
     || DestroysUsedMember(Apply(s, moves[0].thread, moves[0].step), moves[1..]))
  }

  /** The only way for an interleaving to touch a freed block or a dead handle is that `~T` destroys a
      member handle while an operation is using it. */
  lemma {:induction false} FaultsIffUsedMemberDestroyed(s: State, moves: seq<Move>)
    requires Inv(s) && Schedule(s, moves)
    ensures Execute(s, moves).fault <==> DestroysUsedMember(s, moves)
    decreases |moves|
  {
    if moves != [] {
      var r := Apply(s, moves[0].thread, moves[0].step);
      StepOk(s, moves[0].thread, moves[0].step);
      if r.fault {
        FaultIsFinal(r, moves[1..]);
      } else {
        FaultsIffUsedMemberDestroyed(r, moves[1..]);
      }
    }
  }

  lemma InitialOk(s: State)
    requires Initial(s)
    ensures Inv(s)
  {
    assert forall b :: EventsOf([], b) == [];
  }

  /** In every interleaving the events of a block are a prefix of: reach zero, be destroyed, be freed,
      each at most once and all by the one thread whose decrement reached zero. */
  lemma DestroyedOnceByOneThread(s: State, moves: seq<Move>, b: nat)
    requires Initial(s) && Schedule(s, moves) && !Execute(s, moves).fault
    ensures exists t :: EventsOf(Execute(s, moves).log, b) <= [Zero(t, b), Destroy(t, b), Free(t, b)]
  {
    InitialOk(s);
    ExecuteOk(s, moves);
    var r := Execute(s, moves);
    var t := if b in r.blocks && !r.blocks[b].life.Alive? then r.blocks[b].life.tid else 0;
    assert EventsOf(r.log, b) <= [Zero(t, b), Destroy(t, b), Free(t, b)];
  }

  /** All handles whose cb_ is `b`, whatever they are in the middle of. */
  function Naming(handles: map<Slot, Handle>, b: nat): set<Slot> {
    set h | h in handles && handles[h].cb == To(b)
  }

  /** Those of them whose program counter says: already decremented, or not yet incremented. */
  function OutOfStep(handles: map<Slot, Handle>, b: nat): set<Slot> {
    set h | h in handles && handles[h].cb == To(b) && !Counts(handles[h])
  }

  /** In every interleaving the count of a block is the number of handles naming it, corrected by
      program counter, and it never leaves the range of atomic_t. */
  lemma CountLaw(s: State, moves: seq<Move>, b: nat)
    requires Initial(s) && Schedule(s, moves) && !Execute(s, moves).fault && b in Execute(s, moves).blocks
    ensures var r := Execute(s, moves);
            && r.blocks[b].count == |Naming(r.handles, b)| - |OutOfStep(r.handles, b)|
            && 0 <= r.blocks[b].count < TWO31
  {
    InitialOk(s);
    ExecuteOk(s, moves);
    var r := Execute(s, moves);
    assert BlockOk(r, b);
    assert Naming(r.handles, b) == Counted(r.handles, b) + OutOfStep(r.handles, b);
    CountedBound(r.handles, b);
    ExecuteBounded(s, moves);
  }

  lemma {:induction false} ExecuteBounded(s: State, moves: seq<Move>)
    requires Schedule(s, moves)
    ensures |Execute(s, moves).handles| < TWO31
    decreases |moves|
  {
    if moves != [] {
      ExecuteBounded(Apply(s, moves[0].thread, moves[0].step), moves[1..]);
    }
  }

  ghost predicate Quiescent(s: State) {
    forall t | t in s.threads :: s.threads[t] == IDLE
  }

  /** With no operation under way every handle owns what it names and no block is half destroyed. */
  lemma QuiescentHandles(s: State)
    requires Inv(s) && Quiescent(s)
    ensures forall h | h in s.handles :: Counts(s.handles[h])
    ensures forall b | b in s.blocks :: s.blocks[b].life.Alive? || s.blocks[b].life.Freed?
    ensures forall b | b in s.blocks :: s.blocks[b].count == |Naming(s.handles, b)|
  {
    forall h | h in s.handles
      ensures Counts(s.handles[h])
    {
      assert HandleOk(s, h);
    }
    forall b | b in s.blocks
      ensures s.blocks[b].life.Alive? || s.blocks[b].life.Freed?
      ensures s.blocks[b].count == |Naming(s.handles, b)|
    {
      assert BlockOk(s, b);
      assert Naming(s.handles, b) == Counted(s.handles, b);
    }
  }

  /** When all threads are idle, use_count is exact and no block is left half destroyed. */
  lemma QuiescentExact(s: State, moves: seq<Move>, b: nat)
    requires Initial(s) && Schedule(s, moves) && !Execute(s, moves).fault
    requires Quiescent(Execute(s, moves)) && b in Execute(s, moves).blocks
    ensures var r := Execute(s, moves);
            && r.blocks[b].count == |Naming(r.handles, b)|
            && (r.blocks[b].life.Alive? || r.blocks[b].life.Freed?)
            && (r.blocks[b].life.Freed? <==> Naming(r.handles, b) == {})
  {
    InitialOk(s);
    ExecuteOk(s, moves);
    var r := Execute(s, moves);
    QuiescentHandles(r);
    assert BlockOk(r, b);
  }

  /** What use_count() answers for a handle. */
  function UseCountOf(s: State, h: Slot): int
    requires h in s.handles
  {
    if s.handles[h].cb.To? && s.handles[h].cb.block in s.blocks then s.blocks[s.handles[h].cb.block].count else 0
  }

  /** When all threads are idle, use_count() is the number of handles that name the same block, the handle
      itself among them, and 0 for a null handle. */
  lemma UseCountExact(s: State, moves: seq<Move>, h: Slot)
    requires Initial(s) && Schedule(s, moves) && !Execute(s, moves).fault
    requires Quiescent(Execute(s, moves)) && h in Execute(s, moves).handles
    ensures var r := Execute(s, moves);
            && (r.handles[h].cb.Null? ==> UseCountOf(r, h) == 0)
            && (r.handles[h].cb.To? ==>
                  h in Naming(r.handles, r.handles[h].cb.block)
                  && UseCountOf(r, h) == |Naming(r.handles, r.handles[h].cb.block)|)
  {
    InitialOk(s);
    ExecuteOk(s, moves);
    var r := Execute(s, moves);
    QuiescentHandles(r);
    assert HandleOk(r, h);
  }

  // ----- The graph behind a quiescent state -----

  /** The heap graph of SharedGraph: all handles, and the blocks that are alive. */
  ghost function Graph(s: State): G.Heap {
    G.Heap(map h | h in s.handles :: s.handles[h].cb,
           map b | b in s.blocks && s.blocks[b].life.Alive? :: G.Block(s.blocks[b].count, s.blocks[b].width),
           s.fault)
  }

  lemma GraphCount(s: State, b: nat)
    requires Inv(s) && Quiescent(s) && b in Graph(s).blocks
    ensures Graph(s).blocks[b].count == |G.Owners(Graph(s), b, {})|
  {
    QuiescentHandles(s);
    assert G.Owners(Graph(s), b, {}) == Naming(s.handles, b);
  }

  /** Whatever the threads did, a quiescent state is a well-formed heap graph with exact counts. */
  lemma QuiescentIsGraph(s: State)
    requires Inv(s) && Quiescent(s)
    ensures G.Ok(Graph(s))
  {
    var g := Graph(s);
    forall b | b in g.blocks
      ensures g.blocks[b].count == |G.Owners(g, b, {})| && g.blocks[b].count > 0
      ensures forall i: nat | i < g.blocks[b].width :: Member(b, i) in g.slots
    {
      GraphCount(s, b);
      assert BlockOk(s, b);
    }
    QuiescentHandles(s);
    forall h | h in g.slots
      ensures g.slots[h].To? ==> g.slots[h].block in g.blocks
      ensures h.Member? ==> h.owner in g.blocks && h.index < g.blocks[h.owner].width
    {
      assert HandleOk(s, h);
      if g.slots[h].To? {
        assert BlockOk(s, g.slots[h].block);
        assert h in Counted(s.handles, g.slots[h].block);
      }
    }
  }

  /** Counting equals reachability in every interleaving: when all threads are idle and the ownership
      graph has no cycle, a block is alive exactly when an outside handle reaches it, and every other
      block ever made is freed. */
  lemma InterleavedCountingIsReachability(s: State, moves: seq<Move>, b: nat)
    requires Initial(s) && Schedule(s, moves) && !Execute(s, moves).fault
    requires Quiescent(Execute(s, moves)) && b in Execute(s, moves).blocks
    requires R.Acyclic(Graph(Execute(s, moves)))
    ensures var r := Execute(s, moves);
            && (r.blocks[b].life.Alive? <==> R.Reachable(Graph(r), {}, b))
            && (r.blocks[b].life.Freed? <==> !R.Reachable(Graph(r), {}, b))
  {
    InitialOk(s);
    ExecuteOk(s, moves);
    var r := Execute(s, moves);
    QuiescentHandles(r);
    QuiescentIsGraph(r);
    R.AllocatedIffReachable(Graph(r), b);
  }
}
