/**
 Every step of the SharedPtr machine keeps its invariant, unless it is the one step that faults.
 */
module SharedThreadsSteps {
  import opened SharedTypes
  import opened SharedThreads

  // ----- Preservation -----

  lemma CountedAfter(handles: map<Slot, Handle>, h: Slot, x: Handle, b: nat)
    ensures Counted(handles[h := x], b) == (Counted(handles, b) - {h}) + (if Token(x) == To(b) then {h} else {})
  {
  }

  lemma SameTokens(a: map<Slot, Handle>, c: map<Slot, Handle>, b: nat)
    requires forall h :: TokenAt(a, h) == TokenAt(c, h)
    ensures Counted(a, b) == Counted(c, b)
  {
    assert forall h :: h in Counted(a, b) <==> TokenAt(a, h) == To(b);
    assert forall h :: h in Counted(c, b) <==> TokenAt(c, h) == To(b);
  }

  /** What thread `u` relies on is not changed. */
  ghost predicate Undisturbed(s: State, r: State, u: nat) {
    && u in r.threads && u in s.threads && r.threads[u] == s.threads[u]
    && (forall g | g in s.handles && s.handles[g].mode.Held? && s.handles[g].mode.tid == u ::
          g in r.handles && r.handles[g] == s.handles[g])
    && (forall g | g in s.handles && s.handles[g].mode.Shared? && u in s.handles[g].mode.readers ::
          && g in r.handles && r.handles[g].ptr == s.handles[g].ptr && r.handles[g].cb == s.handles[g].cb
          && r.handles[g].mode.Shared? && u in r.handles[g].mode.readers)
  }

  lemma OtherThreadOk(s: State, r: State, u: nat)
    requires ThreadOk(s, u) && Undisturbed(s, r, u)
    ensures ThreadOk(r, u)
  {
    var stack := s.threads[u].stack;
    forall i | 0 < i < |stack|
      ensures ParentOk(r, stack, i)
    {
      assert ParentOk(s, stack, i);
      assert stack[i - 1] in stack;
    }
  }

  predicate Via(life: Life, g: Slot) {
    (life.Dying? || life.Destroyed?) && life.via == g
  }

  /** The blocks and threads that handle `g` relies on are not changed in what matters to `g`. */
  ghost predicate Settled(s: State, r: State, g: Slot) {
    && (forall b | b in s.blocks :: b in r.blocks && r.blocks[b].width == s.blocks[b].width)
    && (forall b | b in s.blocks && Via(s.blocks[b].life, g) :: r.blocks[b].life == s.blocks[b].life)
    && (g.Member? && g.owner in r.blocks ==> r.blocks[g.owner].life.Alive? || r.blocks[g.owner].life.Dying?)
    && (forall u | u in s.threads ::
          && u in r.threads
          && (g in r.threads[u].stack <==> g in s.threads[u].stack)
          && (Works(s.threads[u].activity, g) ==> Works(r.threads[u].activity, g))
          && (Reads(s.threads[u].activity, g) ==> Reads(r.threads[u].activity, g)))
  }

  lemma OtherHandleOk(s: State, r: State, g: Slot)
    requires HandleOk(s, g) && g in r.handles && r.handles[g] == s.handles[g] && Settled(s, r, g)
    ensures HandleOk(r, g)
  {
  }

  lemma OtherBlockOk(s: State, r: State, b: nat)
    requires BlockOk(s, b) && b in r.blocks && r.blocks[b] == s.blocks[b]
    requires |Counted(r.handles, b)| == |Counted(s.handles, b)|
    requires forall j: nat :: Member(b, j) in r.handles <==> Member(b, j) in s.handles
    requires forall g | g in s.handles && Via(s.blocks[b].life, g) :: g in r.handles && r.handles[g] == s.handles[g]
    ensures BlockOk(r, b)
  {
  }

  lemma CountedBound(handles: map<Slot, Handle>, b: nat)
    ensures |Counted(handles, b)| <= |handles|
  {
    assert Counted(handles, b) <= handles.Keys;
    assert handles.Keys == Counted(handles, b) + (handles.Keys - Counted(handles, b));
  }

  // ----- Steps that touch no block -----

  ghost predicate Elsewhere(s: State, r: State, touched: set<Slot>) {
    && (forall g | g !in touched :: g in r.handles <==> g in s.handles)
    && (forall g | g in s.handles && g !in touched :: r.handles[g] == s.handles[g])
    && r.blocks.Keys == s.blocks.Keys
    && (forall b | b in s.blocks :: r.blocks[b].width == s.blocks[b].width && r.blocks[b].life == s.blocks[b].life)
  }

  ghost predicate SameMembers(s: State, r: State) {
    forall b: nat, j: nat :: Member(b, j) in r.handles <==> Member(b, j) in s.handles
  }

  ghost predicate OthersGoOn(s: State, r: State, t: nat) {
    && t in s.threads && r.threads.Keys == s.threads.Keys
    && (forall u | u in s.threads && u != t :: r.threads[u] == s.threads[u])
  }

  /** Handle `g` may be changed by thread `t`: it is held by `t`, or the other readers notice nothing. */
  ghost predicate Private(s: State, r: State, t: nat, g: Slot) {
    g in s.handles ==>
      match s.handles[g].mode
      case Held(u, _) => u == t
      case Shared(readers) =>
        forall u | u in readers && u != t ::
          && g in r.handles && r.handles[g].ptr == s.handles[g].ptr && r.handles[g].cb == s.handles[g].cb
          && r.handles[g].mode.Shared? && u in r.handles[g].mode.readers
  }

  lemma LocalThreads(s: State, r: State, t: nat, touched: set<Slot>)
    requires Threads(s) && OthersGoOn(s, r, t) && ThreadOk(r, t)
    requires forall g | g in s.handles && g !in touched :: g in r.handles && r.handles[g] == s.handles[g]
    requires forall g | g in touched :: Private(s, r, t, g)
    ensures Threads(r)
  {
    forall u | u in r.threads && u != t
      ensures ThreadOk(r, u)
    {
      assert ThreadOk(s, u);
      OtherThreadOk(s, r, u);
    }
  }

  lemma LocalHandles(s: State, r: State, t: nat, touched: set<Slot>)
    requires Handles(s) && Elsewhere(s, r, touched) && OthersGoOn(s, r, t)
    requires forall g | g in s.handles && g !in touched ::
               && (g in r.threads[t].stack <==> g in s.threads[t].stack)
               && (Works(s.threads[t].activity, g) ==> Works(r.threads[t].activity, g))
               && (Reads(s.threads[t].activity, g) ==> Reads(r.threads[t].activity, g))
    requires forall g | g in touched && g in r.handles :: HandleOk(r, g)
    ensures Handles(r)
  {
    forall g | g in r.handles && g !in touched
      ensures HandleOk(r, g)
    {
      assert HandleOk(s, g);
      OtherHandleOk(s, r, g);
    }
  }

  lemma LocalBlocks(s: State, r: State, touched: set<Slot>)
    requires Blocks(s) && Elsewhere(s, r, touched) && SameMembers(s, r) && r.blocks == s.blocks
    requires forall b | b in s.blocks :: |Counted(r.handles, b)| == |Counted(s.handles, b)|
    requires forall g | g in touched :: NoVia(s, g)
    ensures Blocks(r)
  {
    forall b | b in r.blocks
      ensures BlockOk(r, b)
    {
      assert BlockOk(s, b);
      OtherBlockOk(s, r, b);
    }
  }

  ghost predicate NoVia(s: State, h: Slot) {
    forall b | b in s.blocks :: !Via(s.blocks[b].life, h)
  }

  /** A handle that is not in the middle of destroying a block is no block's releasing handle. */
  lemma NotVia(s: State, h: Slot)
    requires Blocks(s)
    requires h in s.handles && s.handles[h].mode.Held? ==>
               !s.handles[h].mode.phase.AtMembers? && !s.handles[h].mode.phase.AtKfree?
    ensures NoVia(s, h)
  {
    forall b | b in s.blocks
      ensures !Via(s.blocks[b].life, h)
    {
      assert BlockOk(s, b);
    }
  }

  /** A step of thread `t` that touches no block and only handles that are private to `t`. */
  ghost predicate LocalStep(s: State, r: State, t: nat, touched: set<Slot>) {
    && Elsewhere(s, r, touched) && SameMembers(s, r) && OthersGoOn(s, r, t)
    && r.blocks == s.blocks && r.log == s.log && r.fault == s.fault
    && (forall g | g in touched ::
          && Private(s, r, t, g)
          && (g in s.handles && s.handles[g].mode.Held? ==>
                !s.handles[g].mode.phase.AtMembers? && !s.handles[g].mode.phase.AtKfree?))
    && (forall g | g in s.handles && g !in touched ::
          && (g in r.threads[t].stack <==> g in s.threads[t].stack)
          && (Works(s.threads[t].activity, g) ==> Works(r.threads[t].activity, g))
          && (Reads(s.threads[t].activity, g) ==> Reads(r.threads[t].activity, g)))
  }

  lemma LocalBut(s: State, r: State, t: nat, touched: set<Slot>)
    requires Inv(s) && LocalStep(s, r, t, touched) && ThreadOk(r, t)
    requires forall g | g in touched && g in r.handles :: HandleOk(r, g)
    requires forall b | b in s.blocks :: |Counted(r.handles, b)| == |Counted(s.handles, b)|
    ensures Inv(r)
  {
    LocalThreads(s, r, t, touched);
    LocalHandles(s, r, t, touched);
    forall g | g in touched {
      NotVia(s, g);
    }
    LocalBlocks(s, r, touched);
  }

  lemma LocalOk(s: State, r: State, t: nat, touched: set<Slot>)
    requires Inv(s) && LocalStep(s, r, t, touched) && ThreadOk(r, t)
    requires forall g | g in touched && g in r.handles :: HandleOk(r, g)
    requires forall g | g in touched :: TokenAt(r.handles, g) == TokenAt(s.handles, g)
    ensures Inv(r)
  {
    forall b | b in s.blocks {
      SameTokens(r.handles, s.handles, b);
    }
    LocalBut(s, r, t, touched);
  }

  /** Thread `t` may give handle `g` the value `x`. */
  ghost predicate MayChange(s: State, t: nat, g: Slot, x: Handle) {
    if g !in s.handles then g.Root?
    else
      match s.handles[g].mode
      case Held(u, p) => u == t && !p.AtMembers? && !p.AtKfree?
      case Shared(readers) =>
        forall u | u in readers && u != t ::
          x.ptr == s.handles[g].ptr && x.cb == s.handles[g].cb && x.mode.Shared? && u in x.mode.readers
  }

  /** Thread `t` goes from one point of its program to another and gives two handles new values. */
  ghost predicate Rewrites(s: State, r: State, t: nat, th: Thread, dst: Slot, x: Handle, src: Slot, y: Handle) {
    && t in s.threads && (dst == src ==> x == y)
    && r == State(s.handles[dst := x][src := y], s.blocks, s.threads[t := th], s.log, s.fault)
    && MayChange(s, t, dst, x) && MayChange(s, t, src, y)
    && (forall g | g != dst && g != src ::
          && (g in th.stack <==> g in s.threads[t].stack)
          && (Works(s.threads[t].activity, g) ==> Works(th.activity, g))
          && (Reads(s.threads[t].activity, g) ==> Reads(th.activity, g)))
  }

  lemma RewritesIsLocal(s: State, r: State, t: nat, th: Thread, dst: Slot, x: Handle, src: Slot, y: Handle)
    requires Rewrites(s, r, t, th, dst, x, src, y)
    ensures LocalStep(s, r, t, {dst, src})
  {
  }

  lemma RewritesOk(s: State, r: State, t: nat, th: Thread, dst: Slot, x: Handle, src: Slot, y: Handle)
    requires Inv(s) && Rewrites(s, r, t, th, dst, x, src, y)
    requires TokenAt(s.handles, dst) == Token(x) && TokenAt(s.handles, src) == Token(y)
    requires ThreadOk(r, t) && HandleOk(r, dst) && HandleOk(r, src)
    ensures Inv(r)
  {
    RewritesIsLocal(s, r, t, th, dst, x, src, y);
    LocalOk(s, r, t, {dst, src});
  }

  // ----- release() -----

  /** Thread `t` is at the top frame `h` of its stack, in phase `p`. */
  ghost predicate At(s: State, t: nat, h: Slot, p: Phase) {
    && t in s.threads && s.threads[t].stack != [] && h == s.threads[t].stack[|s.threads[t].stack| - 1]
    && HeldBy(s, h, t, p)
  }

  /** The top frame `h` of thread `t` moves from phase `p` to phase `q` of release(). */
  ghost predicate TopMoves(s: State, r: State, t: nat, h: Slot, p: Phase, q: Phase) {
    && At(s, t, h, p) && InRelease(p) && InRelease(q) && r.threads == s.threads
    && r.handles == s.handles[h := s.handles[h].(mode := Held(t, q))]
    && r.fault == s.fault
  }

  /** Only block `b` changes, and only its count and life. */
  ghost predicate OneBlock(s: State, r: State, b: nat) {
    && b in s.blocks && b in r.blocks && r.blocks == s.blocks[b := r.blocks[b]]
    && r.blocks[b].width == s.blocks[b].width
  }

  lemma TopMovesThreads(s: State, r: State, t: nat, h: Slot, p: Phase, q: Phase)
    requires Threads(s) && TopMoves(s, r, t, h, p, q)
    ensures Threads(r)
  {
    assert ThreadOk(s, t);
    var stack := s.threads[t].stack;
    forall i | 0 < i < |stack|
      ensures ParentOk(r, stack, i)
    {
      assert ParentOk(s, stack, i);
      assert stack[i - 1] in stack;
    }
    assert h in stack;
    forall u | u in r.threads && u != t
      ensures ThreadOk(r, u)
    {
      assert ThreadOk(s, u);
      OtherThreadOk(s, r, u);
    }
  }

  lemma TopMovesHandles(s: State, r: State, t: nat, h: Slot, p: Phase, q: Phase, b: nat)
    requires Handles(s) && TopMoves(s, r, t, h, p, q) && OneBlock(s, r, b)
    requires || s.blocks[b].life == r.blocks[b].life
             || (s.blocks[b].life.Alive? && r.blocks[b].life.Dying?)
             || (Via(s.blocks[b].life, h) && MembersFrom(s, b, 0, 0))
    requires HandleOk(r, h)
    ensures Handles(r)
  {
    forall g | g in r.handles && g != h
      ensures HandleOk(r, g)
    {
      assert HandleOk(s, g);
      assert g.Member? ==> g == Member(g.owner, g.index);
      OtherHandleOk(s, r, g);
    }
  }

  lemma TopMovesBlocks(s: State, r: State, t: nat, h: Slot, p: Phase, q: Phase, b: nat)
    requires Blocks(s) && TopMoves(s, r, t, h, p, q) && OneBlock(s, r, b)
    requires s.handles[h].cb == To(b)
    requires forall c | c in s.blocks && c != b :: !Via(s.blocks[c].life, h)
    requires BlockOk(r, b)
    ensures Blocks(r)
  {
    forall c | c in r.blocks && c != b
      ensures BlockOk(r, c)
    {
      assert BlockOk(s, c);
      TokenElsewhere(s.handles, h, r.handles[h], c);
      OtherBlockOk(s, r, c);
    }
  }

  lemma TokenElsewhere(handles: map<Slot, Handle>, h: Slot, x: Handle, c: nat)
    requires h in handles && Token(handles[h]) != To(c) && Token(x) != To(c)
    ensures Counted(handles[h := x], c) == Counted(handles, c)
  {
  }

  /** A handle is the releasing handle of at most the block it names. */
  lemma ViaNames(s: State, h: Slot, c: nat)
    requires Blocks(s) && h in s.handles && c in s.blocks && s.handles[h].cb != To(c)
    ensures !Via(s.blocks[c].life, h)
  {
    assert BlockOk(s, c);
  }

  lemma TopMovesOk(s: State, r: State, t: nat, h: Slot, p: Phase, q: Phase, b: nat)
    requires Inv(s) && TopMoves(s, r, t, h, p, q) && OneBlock(s, r, b) && s.handles[h].cb == To(b)
    requires || s.blocks[b].life == r.blocks[b].life
             || (s.blocks[b].life.Alive? && r.blocks[b].life.Dying?)
             || (Via(s.blocks[b].life, h) && MembersFrom(s, b, 0, 0))
    requires HandleOk(r, h) && BlockOk(r, b) && LogOk(r)
    ensures Inv(r)
  {
    TopMovesThreads(s, r, t, h, p, q);
    TopMovesHandles(s, r, t, h, p, q, b);
    forall c | c in s.blocks && c != b {
      ViaNames(s, h, c);
    }
    TopMovesBlocks(s, r, t, h, p, q, b);
  }

  lemma DecrementMoreOk(s: State, r: State, t: nat, h: Slot, b: nat)
    requires Inv(s) && At(s, t, h, ToDecrement) && s.handles[h].cb == To(b) && b in s.blocks && s.blocks[b].count > 1
    requires r == SetMode(SetBlock(s, b, s.blocks[b].(count := s.blocks[b].count - 1)), h, Held(t, ToReturn))
    ensures Inv(r)
  {
    assert HandleOk(s, h) && BlockOk(s, b);
    assert h in Counted(s.handles, b);
    CountedAfter(s.handles, h, r.handles[h], b);
    assert LogOk(r);
    TopMovesOk(s, r, t, h, ToDecrement, ToReturn, b);
  }

  lemma DecrementZeroOk(s: State, r: State, t: nat, h: Slot, b: nat)
    requires Inv(s) && At(s, t, h, ToDecrement) && s.handles[h].cb == To(b) && b in s.blocks && s.blocks[b].count == 1
    requires r == SetMode(Note(SetBlock(s, b, s.blocks[b].(count := 0, life := Dying(t, h))), Zero(t, b)),
                          h, Held(t, AtMembers(0)))
    ensures Inv(r)
  {
    assert HandleOk(s, h) && BlockOk(s, b);
    assert h in Counted(s.handles, b);
    CountedAfter(s.handles, h, r.handles[h], b);
    LogNoted(s, r, b, Zero(t, b));
    TopMovesOk(s, r, t, h, ToDecrement, AtMembers(0), b);
  }

  lemma DecrementNullOk(s: State, r: State, t: nat, h: Slot)
    requires Inv(s) && At(s, t, h, ToDecrement) && s.handles[h].cb.Null? && r == SetMode(s, h, Held(t, ToReturn))
    ensures Inv(r)
  {
    assert HandleOk(s, h);
    TopMovesThreads(s, r, t, h, ToDecrement, ToReturn);
    assert ThreadOk(r, t);
    RewritesOk(s, r, t, r.threads[t], h, r.handles[h], h, r.handles[h]);
  }

  lemma DecrementOk(s: State, t: nat, h: Slot)
    requires Inv(s) && At(s, t, h, ToDecrement) && |s.handles| < TWO31
    ensures Inv(Decrement(s, t, h))
  {
    if s.handles[h].cb.Null? {
      DecrementNullOk(s, Decrement(s, t, h), t, h);
      return;
    }
    var b := s.handles[h].cb.block;
    assert HandleOk(s, h) && BlockOk(s, b);
    CountedBound(s.handles, b);
    assert h in Counted(s.handles, b);
    if s.blocks[b].count == 1 {
      DecrementZeroOk(s, Decrement(s, t, h), t, h, b);
    } else {
      DecrementMoreOk(s, Decrement(s, t, h), t, h, b);
    }
  }

  /** At `AtMembers(k)` the handle names a dying block whose members from `k` on are left. */
  lemma AtMembersMeans(s: State, t: nat, h: Slot, k: nat)
    requires Inv(s) && At(s, t, h, AtMembers(k))
    ensures Usable(s, s.handles[h].cb) && s.handles[h].ptr == s.handles[h].cb
    ensures var b := s.handles[h].cb.block;
            && s.blocks[b].life == Dying(t, h) && k <= s.blocks[b].width
            && MembersFrom(s, b, k, s.blocks[b].width) && s.blocks[b].count == 0 && Counted(s.handles, b) == {}
  {
    assert HandleOk(s, h);
    assert BlockOk(s, s.handles[h].cb.block);
  }

  lemma PushThread(s: State, r: State, t: nat, h: Slot, k: nat, m: Slot)
    requires Threads(s) && At(s, t, h, AtMembers(k)) && s.handles[h].cb.To? && m == Member(s.handles[h].cb.block, k)
    requires m in s.handles && s.handles[m].mode == FREE
    requires r == SetThread(SetMode(s, m, Held(t, ToDecrement)), t, s.threads[t].(stack := s.threads[t].stack + [m]))
    ensures ThreadOk(r, t)
  {
    assert ThreadOk(s, t);
    var stack := s.threads[t].stack;
    assert h in stack && m !in stack;
    var stack' := r.threads[t].stack;
    forall i | 0 < i < |stack'|
      ensures ParentOk(r, stack', i)
    {
      if i < |stack| {
        assert ParentOk(s, stack, i);
        assert stack[i - 1] in stack;
      }
    }
  }

  lemma PushOk(s: State, r: State, t: nat, h: Slot, k: nat, m: Slot)
    requires Inv(s) && At(s, t, h, AtMembers(k)) && s.handles[h].cb.To? && m == Member(s.handles[h].cb.block, k)
    requires m in s.handles && s.handles[m].mode == FREE
    requires r == SetThread(SetMode(s, m, Held(t, ToDecrement)), t, s.threads[t].(stack := s.threads[t].stack + [m]))
    ensures Inv(r)
  {
    PushThread(s, r, t, h, k, m);
    assert HandleOk(s, m);
    LocalOk(s, r, t, {m});
  }

  lemma FinishOk(s: State, r: State, t: nat, h: Slot, k: nat, b: nat)
    requires Inv(s) && At(s, t, h, AtMembers(k)) && s.handles[h].cb == To(b) && b in s.blocks && k >= s.blocks[b].width
    requires r == SetMode(Note(SetBlock(s, b, s.blocks[b].(life := Destroyed(t, h))), Destroy(t, b)),
                          h, Held(t, AtKfree))
    ensures Inv(r)
  {
    AtMembersMeans(s, t, h, k);
    assert HandleOk(s, h);
    CountedAfter(s.handles, h, r.handles[h], b);
    LogNoted(s, r, b, Destroy(t, b));
    TopMovesOk(s, r, t, h, AtMembers(k), AtKfree, b);
  }

  /** `~T` faults exactly on a member handle that is in use, and keeps the invariant otherwise. */
  lemma DestroyStepOk(s: State, t: nat, h: Slot, k: nat)
    requires Inv(s) && At(s, t, h, AtMembers(k))
    ensures DestroyStep(s, t, h, k).fault <==> AtUsedMember(s, t)
    ensures !AtUsedMember(s, t) ==> Inv(DestroyStep(s, t, h, k))
  {
    AtMembersMeans(s, t, h, k);
    var b := s.handles[h].cb.block;
    if k >= s.blocks[b].width {
      FinishOk(s, DestroyStep(s, t, h, k), t, h, k, b);
      return;
    }
    assert Member(b, k) in s.handles;
    if s.handles[Member(b, k)].mode == FREE {
      PushOk(s, DestroyStep(s, t, h, k), t, h, k, Member(b, k));
    }
  }

  lemma KfreeOk(s: State, r: State, t: nat, h: Slot, b: nat)
    requires Inv(s) && At(s, t, h, AtKfree) && s.handles[h].cb == To(b) && b in s.blocks
    requires r == SetMode(Note(SetBlock(s, b, s.blocks[b].(life := Freed(t))), Free(t, b)), h, Held(t, ToReturn))
    ensures Inv(r)
  {
    assert HandleOk(s, h) && BlockOk(s, b);
    CountedAfter(s.handles, h, r.handles[h], b);
    LogNoted(s, r, b, Free(t, b));
    TopMovesOk(s, r, t, h, AtKfree, ToReturn, b);
  }

  // ----- Returning from release() -----

  ghost predicate Nested(s: State, r: State, t: nat, g: Slot, h: Slot, b: nat, k: nat) {
    && t in s.threads && |s.threads[t].stack| > 1
    && g == s.threads[t].stack[|s.threads[t].stack| - 2] && At(s, t, h, ToReturn)
    && HeldBy(s, g, t, AtMembers(k)) && s.handles[g].cb == To(b) && h == Member(b, k)
    && r == SetThread(Remove(SetMode(s, g, Held(t, AtMembers(k + 1))), h), t,
                      s.threads[t].(stack := s.threads[t].stack[..|s.threads[t].stack| - 1]))
  }

  lemma NestedThread(s: State, r: State, t: nat, g: Slot, h: Slot, b: nat, k: nat)
    requires Threads(s) && Nested(s, r, t, g, h, b, k)
    ensures ThreadOk(r, t)
  {
    assert ThreadOk(s, t);
    var stack, rest := s.threads[t].stack, r.threads[t].stack;
    assert h !in rest && g in rest;
    assert forall x | x in rest :: x in stack;
    forall i | 0 < i < |rest|
      ensures ParentOk(r, rest, i)
    {
      assert ParentOk(s, stack, i);
      assert rest[i - 1] in rest && rest[i - 1] != g;
    }
    assert g != h;
  }

  lemma NestedHandles(s: State, r: State, t: nat, g: Slot, h: Slot, b: nat, k: nat)
    requires Handles(s) && Threads(s) && Nested(s, r, t, g, h, b, k)
    ensures Handles(r)
  {
    assert HandleOk(s, g) && HandleOk(s, h) && ThreadOk(s, t);
    var stack, rest := s.threads[t].stack, r.threads[t].stack;
    assert stack == rest + [h];
    assert g in rest && h !in rest;
    assert HandleOk(r, g);
    LocalHandles(s, r, t, {g, h});
  }

  lemma NestedBlocks(s: State, r: State, t: nat, g: Slot, h: Slot, b: nat, k: nat)
    requires Handles(s) && Blocks(s) && Nested(s, r, t, g, h, b, k)
    ensures Blocks(r)
  {
    assert HandleOk(s, g);
    forall c | c in r.blocks
      ensures BlockOk(r, c)
    {
      assert BlockOk(s, c);
      SameTokens(r.handles, s.handles, c);
      if c != b {
        ViaNames(s, g, c);
        if s.handles[h].cb != To(c) {
          ViaNames(s, h, c);
        }
        OtherBlockOk(s, r, c);
      }
    }
  }

  lemma NestedOk(s: State, r: State, t: nat, g: Slot, h: Slot, b: nat, k: nat)
    requires Inv(s) && Nested(s, r, t, g, h, b, k)
    ensures Inv(r)
  {
    NestedThread(s, r, t, g, h, b, k);
    LocalThreads(s, r, t, {g, h});
    NestedHandles(s, r, t, g, h, b, k);
    NestedBlocks(s, r, t, g, h, b, k);
  }

  lemma ReturnToDestructorOk(s: State, r: State, t: nat, h: Slot)
    requires Inv(s) && At(s, t, h, ToReturn) && s.threads[t] == Thread(Destroying(h), [h])
    requires r == SetThread(Remove(s, h), t, Thread(Idle, []))
    ensures Inv(r)
  {
    assert ThreadOk(s, t) && HandleOk(s, h);
    LocalOk(s, r, t, {h});
  }

  lemma ReturnToAssignmentOk(s: State, r: State, t: nat, h: Slot, a: Activity)
    requires Inv(s) && At(s, t, h, ToReturn) && s.threads[t].stack == [h]
    requires match s.threads[t].activity
             case Copying(dst, src, _) => a == Copying(dst, src, WritePtr)
             case Moving(dst, src, _) => a == Moving(dst, src, WritePtr)
             case _ => false
    requires r == SetThread(SetMode(s, h, Held(t, Spent)), t, Thread(a, []))
    ensures Inv(r)
  {
    assert ThreadOk(s, t) && HandleOk(s, h);
    RewritesOk(s, r, t, r.threads[t], h, r.handles[h], h, r.handles[h]);
  }

  lemma ReturnToActivityOk(s: State, t: nat, h: Slot)
    requires Inv(s) && At(s, t, h, ToReturn) && |s.threads[t].stack| == 1
    ensures Inv(ReturnStep(s, t, h))
  {
    assert ThreadOk(s, t);
    assert s.threads[t].stack == [h];
    match s.threads[t].activity
    case Idle =>
    case Destroying(_) => ReturnToDestructorOk(s, ReturnStep(s, t, h), t, h);
    case Copying(dst, src, _) => ReturnToAssignmentOk(s, ReturnStep(s, t, h), t, h, Copying(dst, src, WritePtr));
    case Moving(dst, src, _) => ReturnToAssignmentOk(s, ReturnStep(s, t, h), t, h, Moving(dst, src, WritePtr));
  }

  lemma ReturnOk(s: State, t: nat, h: Slot)
    requires Inv(s) && At(s, t, h, ToReturn)
    ensures Inv(ReturnStep(s, t, h))
  {
    var stack := s.threads[t].stack;
    if |stack| == 1 {
      ReturnToActivityOk(s, t, h);
      return;
    }
    assert ThreadOk(s, t);
    assert ParentOk(s, stack, |stack| - 1);
    var rest := stack[..|stack| - 1];
    var g := stack[|stack| - 2];
    assert rest[|rest| - 1] == g && g in stack;
    NestedOk(s, ReturnStep(s, t, h), t, g, h, s.handles[g].cb.block, s.handles[g].mode.phase.next);
  }

  lemma ReleaseStepOk(s: State, t: nat)
    requires Inv(s) && t in s.threads && s.threads[t].stack != [] && |s.handles| < TWO31
    ensures ReleaseStep(s, t).fault <==> AtUsedMember(s, t)
    ensures !AtUsedMember(s, t) ==> Inv(ReleaseStep(s, t))
  {
    assert ThreadOk(s, t);
    var h := s.threads[t].stack[|s.threads[t].stack| - 1];
    assert h in s.threads[t].stack;
    match s.handles[h].mode.phase
    case ToDecrement => DecrementOk(s, t, h);
    case AtMembers(k) => DestroyStepOk(s, t, h, k);
    case AtKfree =>
      assert HandleOk(s, h);
      KfreeOk(s, KfreeStep(s, t, h), t, h, s.handles[h].cb.block);
    case ToReturn => ReturnOk(s, t, h);
    case _ =>
  }

  // ----- Copying and moving -----

  ghost predicate Doing(s: State, t: nat, a: Activity) {
    t in s.threads && s.threads[t] == Thread(a, [])
  }

  lemma CopyPtrOk(s: State, r: State, t: nat, dst: Slot, src: Slot)
    requires Inv(s) && Doing(s, t, Copying(dst, src, WritePtr)) && dst in s.handles && src in s.handles
    requires r == CopyStep(s, t, dst, src, WritePtr)
    ensures Inv(r)
  {
    assert ThreadOk(s, t) && HandleOk(s, dst) && HandleOk(s, src);
    RewritesOk(s, r, t, r.threads[t], dst, r.handles[dst], dst, r.handles[dst]);
  }

  lemma CopyCbOk(s: State, r: State, t: nat, dst: Slot, src: Slot)
    requires Inv(s) && Doing(s, t, Copying(dst, src, WriteCb)) && dst in s.handles && src in s.handles
    requires r == CopyStep(s, t, dst, src, WriteCb)
    ensures Inv(r)
  {
    assert ThreadOk(s, t) && HandleOk(s, dst) && HandleOk(s, src);
    RewritesOk(s, r, t, r.threads[t], dst, r.handles[dst], dst, r.handles[dst]);
  }

  lemma MovePtrOk(s: State, r: State, t: nat, dst: Slot, src: Slot)
    requires Inv(s) && Doing(s, t, Moving(dst, src, WritePtr)) && dst in s.handles && src in s.handles
    requires r == MoveStep(s, t, dst, src, WritePtr)
    ensures Inv(r)
  {
    assert ThreadOk(s, t) && HandleOk(s, dst) && HandleOk(s, src);
    RewritesOk(s, r, t, r.threads[t], dst, r.handles[dst], dst, r.handles[dst]);
  }

  /** Passing a token from `src` to `dst` keeps every number of owners. */
  lemma TokenPassed(handles: map<Slot, Handle>, dst: Slot, x: Handle, src: Slot, y: Handle, b: nat)
    requires dst in handles && src in handles && dst != src
    requires Token(handles[dst]) == Null && Token(x) == Token(handles[src]) && Token(y) == Null
    ensures |Counted(handles[dst := x][src := y], b)| == |Counted(handles, b)|
  {
    var c := Counted(handles, b);
    if Token(x) == To(b) {
      assert Counted(handles[dst := x][src := y], b) == c - {src} + {dst};
    } else {
      assert Counted(handles[dst := x][src := y], b) == c;
    }
  }

  lemma MoveCbParts(s: State, r: State, t: nat, dst: Slot, src: Slot)
    requires Inv(s) && Doing(s, t, Moving(dst, src, WriteCb)) && dst in s.handles && src in s.handles
    requires r == MoveStep(s, t, dst, src, WriteCb)
    ensures ThreadOk(r, t) && HandleOk(r, dst) && HandleOk(r, src)
    ensures HeldBy(s, dst, t, Torn) && HeldBy(s, src, t, Steady) && dst != src
  {
    assert ThreadOk(s, t) && HandleOk(s, dst) && HandleOk(s, src);
  }

  /** The write of cb_ is where a move hands the reference over. */
  lemma MoveCbOk(s: State, r: State, t: nat, dst: Slot, src: Slot)
    requires Inv(s) && Doing(s, t, Moving(dst, src, WriteCb)) && dst in s.handles && src in s.handles
    requires r == MoveStep(s, t, dst, src, WriteCb)
    ensures Inv(r)
  {
    MoveCbParts(s, r, t, dst, src);
    forall b | b in s.blocks {
      TokenPassed(s.handles, dst, r.handles[dst], src, r.handles[src], b);
    }
    RewritesIsLocal(s, r, t, r.threads[t], dst, r.handles[dst], src, r.handles[src]);
    LocalBut(s, r, t, {dst, src});
  }

  lemma MoveClearPtrOk(s: State, r: State, t: nat, dst: Slot, src: Slot)
    requires Inv(s) && Doing(s, t, Moving(dst, src, ClearPtr)) && dst in s.handles && src in s.handles
    requires r == MoveStep(s, t, dst, src, ClearPtr)
    ensures Inv(r)
  {
    assert ThreadOk(s, t) && HandleOk(s, dst) && HandleOk(s, src);
    RewritesOk(s, r, t, r.threads[t], src, r.handles[src], src, r.handles[src]);
  }

  lemma MoveClearCbOk(s: State, r: State, t: nat, dst: Slot, src: Slot)
    requires Inv(s) && Doing(s, t, Moving(dst, src, ClearCb)) && dst in s.handles && src in s.handles
    requires r == MoveStep(s, t, dst, src, ClearCb)
    ensures Inv(r)
  {
    assert ThreadOk(s, t) && HandleOk(s, dst) && HandleOk(s, src);
    RewritesOk(s, r, t, r.threads[t], dst, r.handles[dst], src, r.handles[src]);
  }

  lemma TokenGained(handles: map<Slot, Handle>, dst: Slot, x: Handle, src: Slot, y: Handle, c: nat)
    requires dst in handles && src in handles && dst != src
    requires Token(handles[dst]) == Null && Token(y) == Token(handles[src])
    ensures |Counted(handles[dst := x][src := y], c)| == |Counted(handles, c)| + (if Token(x) == To(c) then 1 else 0)
  {
    var before := Counted(handles, c);
    assert dst !in before;
    assert Counted(handles[dst := x][src := y], c) == before + (if Token(x) == To(c) then {dst} else {});
  }

  /** The last step of a copy, as plain updates. */
  ghost predicate Incremented(s: State, r: State, t: nat, dst: Slot, src: Slot, b: nat) {
    && Doing(s, t, Copying(dst, src, Increment)) && dst in s.handles && src in s.handles && s.handles[src].mode.Shared?
    && s.handles[dst].cb == To(b) && b in s.blocks
    && r == State(
              s.handles[dst := s.handles[dst].(mode := FREE)]
                       [src := s.handles[src].(mode := Shared(s.handles[src].mode.readers - {t}))],
              s.blocks[b := s.blocks[b].(count := s.blocks[b].count + 1)],
              s.threads[t := Thread(Idle, [])], s.log, s.fault)
  }

  lemma IncrementHandles(s: State, r: State, t: nat, dst: Slot, src: Slot, b: nat)
    requires Inv(s) && Incremented(s, r, t, dst, src, b)
    ensures Handles(r) && Threads(r)
  {
    assert ThreadOk(s, t) && HandleOk(s, dst) && HandleOk(s, src);
    assert HandleOk(r, dst) && HandleOk(r, src) && ThreadOk(r, t);
    LocalThreads(s, r, t, {dst, src});
    LocalHandles(s, r, t, {dst, src});
  }

  lemma IncrementBlocks(s: State, r: State, t: nat, dst: Slot, src: Slot, b: nat)
    requires Inv(s) && Incremented(s, r, t, dst, src, b)
    ensures Blocks(r)
  {
    assert ThreadOk(s, t) && HandleOk(s, src);
    assert BlockOk(s, b);
    assert src in Counted(s.handles, b);
    NotVia(s, dst);
    NotVia(s, src);
    forall c | c in r.blocks
      ensures BlockOk(r, c)
    {
      assert BlockOk(s, c);
      TokenGained(s.handles, dst, r.handles[dst], src, r.handles[src], c);
      if c != b {
        OtherBlockOk(s, r, c);
      }
    }
  }

  lemma IncrementNullOk(s: State, r: State, t: nat, dst: Slot, src: Slot)
    requires Inv(s) && Doing(s, t, Copying(dst, src, Increment)) && dst in s.handles && src in s.handles
    requires s.handles[dst].cb.Null? && r == CopyStep(s, t, dst, src, Increment)
    ensures Inv(r)
  {
    assert ThreadOk(s, t) && HandleOk(s, dst) && HandleOk(s, src);
    RewritesOk(s, r, t, r.threads[t], dst, r.handles[dst], src, r.handles[src]);
  }

  lemma IncrementOk(s: State, t: nat, dst: Slot, src: Slot)
    requires Inv(s) && Doing(s, t, Copying(dst, src, Increment)) && dst in s.handles && src in s.handles
    requires |s.handles| < TWO31
    ensures Inv(CopyStep(s, t, dst, src, Increment))
  {
    var r := CopyStep(s, t, dst, src, Increment);
    if s.handles[dst].cb.Null? {
      IncrementNullOk(s, r, t, dst, src);
      return;
    }
    var b := s.handles[dst].cb.block;
    assert ThreadOk(s, t) && HandleOk(s, src);
    assert BlockOk(s, b);
    assert src in Counted(s.handles, b);
    assert dst !in Counted(s.handles, b);
    OneMoreFits(s.handles, b, dst);
    assert Incremented(s, r, t, dst, src, b);
    IncrementHandles(s, r, t, dst, src, b);
    IncrementBlocks(s, r, t, dst, src, b);
    assert LogOk(r);
  }

  lemma OneMoreFits(handles: map<Slot, Handle>, b: nat, dst: Slot)
    requires dst in handles && dst !in Counted(handles, b)
    ensures |Counted(handles, b)| < |handles|
  {
    assert handles.Keys == Counted(handles, b) + {dst} + (handles.Keys - (Counted(handles, b) + {dst}));
  }

  lemma AdvanceOk(s: State, t: nat)
    requires Inv(s) && t in s.threads && |s.handles| < TWO31
    ensures Advance(s, t).fault <==> AtUsedMember(s, t)
    ensures !AtUsedMember(s, t) ==> Inv(Advance(s, t))
  {
    if s.threads[t].stack != [] {
      ReleaseStepOk(s, t);
      return;
    }
    assert ThreadOk(s, t);
    match s.threads[t].activity
    case Copying(dst, src, pc) =>
      match pc {
        case WritePtr => CopyPtrOk(s, Advance(s, t), t, dst, src);
        case WriteCb => CopyCbOk(s, Advance(s, t), t, dst, src);
        case Increment => IncrementOk(s, t, dst, src);
        case _ =>
      }
    case Moving(dst, src, pc) =>
      match pc {
        case WritePtr => MovePtrOk(s, Advance(s, t), t, dst, src);
        case WriteCb => MoveCbOk(s, Advance(s, t), t, dst, src);
        case ClearPtr => MoveClearPtrOk(s, Advance(s, t), t, dst, src);
        case ClearCb => MoveClearCbOk(s, Advance(s, t), t, dst, src);
        case _ =>
      }
    case _ =>
  }

  // ----- Starting operations -----

  lemma NewHandleOk(s: State, t: nat, h: Slot)
    requires Inv(s) && Enabled(s, t, NewHandle(h))
    ensures Inv(Apply(s, t, NewHandle(h)))
  {
    assert ThreadOk(s, t);
    var r := Apply(s, t, NewHandle(h));
    OtherThreadOk(s, r, t);
    LocalOk(s, r, t, {h});
  }

  lemma BeginDestroyOk(s: State, r: State, t: nat, h: Slot)
    requires Inv(s) && Enabled(s, t, BeginDestroy(h)) && r == Apply(s, t, BeginDestroy(h))
    ensures Inv(r)
  {
    assert HandleOk(s, h);
    RewritesOk(s, r, t, r.threads[t], h, r.handles[h], h, r.handles[h]);
  }

  lemma BeginCopyNewOk(s: State, r: State, t: nat, dst: Slot, src: Slot)
    requires Inv(s) && Enabled(s, t, BeginCopyNew(dst, src)) && r == Apply(s, t, BeginCopyNew(dst, src))
    ensures Inv(r)
  {
    assert HandleOk(s, src);
    RewritesOk(s, r, t, r.threads[t], dst, r.handles[dst], src, r.handles[src]);
  }

  lemma BeginMoveNewOk(s: State, r: State, t: nat, dst: Slot, src: Slot)
    requires Inv(s) && Enabled(s, t, BeginMoveNew(dst, src)) && r == Apply(s, t, BeginMoveNew(dst, src))
    ensures Inv(r)
  {
    assert HandleOk(s, src);
    assert ThreadOk(r, t) && HandleOk(r, dst) && HandleOk(r, src);
    RewritesOk(s, r, t, r.threads[t], dst, r.handles[dst], src, r.handles[src]);
  }

  /** The first step of an assignment, as plain updates. */
  ghost predicate Begun(s: State, r: State, t: nat, a: Activity, dst: Slot, src: Slot, y: Handle) {
    && t in s.threads && s.threads[t] == IDLE && dst != src && IsFree(s, dst) && src in s.handles
    && r == State(s.handles[dst := s.handles[dst].(mode := Held(t, ToDecrement))][src := y], s.blocks,
                  s.threads[t := Thread(a, [dst])], s.log, s.fault)
  }

  lemma BegunOk(s: State, r: State, t: nat, a: Activity, dst: Slot, src: Slot, y: Handle)
    requires Inv(s) && Begun(s, r, t, a, dst, src, y)
    requires MayChange(s, t, src, y) && Token(y) == Token(s.handles[src]) && HandleOk(r, src)
    requires ActivityOk(r, t, Thread(a, [dst]))
    ensures Inv(r)
  {
    assert HandleOk(s, dst);
    assert HandleOk(r, dst) && ThreadOk(r, t);
    RewritesOk(s, r, t, r.threads[t], dst, r.handles[dst], src, y);
  }

  lemma BeginCopyAssignOk(s: State, r: State, t: nat, dst: Slot, src: Slot)
    requires Inv(s) && Enabled(s, t, BeginCopyAssign(dst, src)) && r == Apply(s, t, BeginCopyAssign(dst, src))
    ensures Inv(r)
  {
    assert HandleOk(s, src);
    var y := s.handles[src].(mode := Shared(s.handles[src].mode.readers + {t}));
    assert Begun(s, r, t, Copying(dst, src, Releasing), dst, src, y);
    BegunOk(s, r, t, Copying(dst, src, Releasing), dst, src, y);
  }

  lemma BeginMoveAssignOk(s: State, r: State, t: nat, dst: Slot, src: Slot)
    requires Inv(s) && Enabled(s, t, BeginMoveAssign(dst, src)) && r == Apply(s, t, BeginMoveAssign(dst, src))
    ensures Inv(r)
  {
    assert HandleOk(s, src);
    var y := s.handles[src].(mode := Held(t, Steady));
    assert Begun(s, r, t, Moving(dst, src, Releasing), dst, src, y);
    BegunOk(s, r, t, Moving(dst, src, Releasing), dst, src, y);
  }

  lemma UseCountOk(s: State, t: nat, h: Slot)
    requires Inv(s) && Enabled(s, t, UseCount(h))
    ensures Apply(s, t, UseCount(h)) == s
  {
    assert HandleOk(s, h);
    if s.handles[h].cb.To? {
      assert BlockOk(s, s.handles[h].cb.block);
      assert h in Counted(s.handles, s.handles[h].cb.block);
    }
  }

  /** The result of make_shared, as plain updates. */
  ghost predicate Made(s: State, r: State, h: Slot, b: nat, width: nat) {
    && IsNew(s, h) && b !in s.blocks
    && r == State(s.handles + FreshMembers(b, width) + map[h := Handle(To(b), To(b), FREE)],
                  s.blocks[b := Block(1, width, Alive)], s.threads, s.log, s.fault)
  }

  /** Old handles stay as they are, and none of them has to do with the new block. */
  lemma MadeOldHandle(s: State, r: State, h: Slot, b: nat, width: nat, g: Slot)
    requires Made(s, r, h, b, width) && HandleOk(s, g)
    ensures g in r.handles && r.handles[g] == s.handles[g] && TokenAt(s.handles, g) != To(b) && HandleOk(r, g)
  {
    OtherHandleOk(s, r, g);
  }

  lemma MadeNewHandle(s: State, r: State, h: Slot, b: nat, width: nat, g: Slot)
    requires Made(s, r, h, b, width) && g in r.handles && g !in s.handles
    ensures HandleOk(r, g) && (Token(r.handles[g]) == if g == h then To(b) else Null)
  {
  }

  lemma MadeHandles(s: State, r: State, h: Slot, b: nat, width: nat)
    requires Handles(s) && Made(s, r, h, b, width)
    ensures Handles(r)
    ensures forall g | g in s.handles ::
              g in r.handles && r.handles[g] == s.handles[g] && TokenAt(s.handles, g) != To(b)
  {
    forall g | g in s.handles
      ensures g in r.handles && r.handles[g] == s.handles[g] && TokenAt(s.handles, g) != To(b) && HandleOk(r, g)
    {
      assert HandleOk(s, g);
      MadeOldHandle(s, r, h, b, width, g);
    }
    forall g | g in r.handles && g !in s.handles
      ensures HandleOk(r, g)
    {
      MadeNewHandle(s, r, h, b, width, g);
    }
  }

  lemma MadeThreads(s: State, r: State, h: Slot, b: nat, width: nat)
    requires Threads(s) && Made(s, r, h, b, width)
    requires forall g | g in s.handles :: g in r.handles && r.handles[g] == s.handles[g]
    ensures Threads(r)
  {
    forall u | u in r.threads
      ensures ThreadOk(r, u)
    {
      assert ThreadOk(s, u);
      OtherThreadOk(s, r, u);
    }
  }

  lemma MadeCounted(s: State, r: State, h: Slot, b: nat, width: nat, c: nat)
    requires Made(s, r, h, b, width)
    requires forall g | g in s.handles ::
               g in r.handles && r.handles[g] == s.handles[g] && TokenAt(s.handles, g) != To(b)
    ensures Counted(r.handles, c) == if c == b then {h} else Counted(s.handles, c)
  {
    forall g | g in r.handles && g !in s.handles {
      MadeNewHandle(s, r, h, b, width, g);
    }
  }

  lemma MadeBlocks(s: State, r: State, h: Slot, b: nat, width: nat)
    requires Handles(s) && Blocks(s) && Made(s, r, h, b, width)
    requires forall g | g in s.handles ::
               g in r.handles && r.handles[g] == s.handles[g] && TokenAt(s.handles, g) != To(b)
    ensures Blocks(r)
  {
    forall c | c in r.blocks
      ensures BlockOk(r, c)
    {
      MadeCounted(s, r, h, b, width, c);
      if c == b {
        NoOldMembers(s, b);
      } else {
        assert BlockOk(s, c);
        OtherBlockOk(s, r, c);
      }
    }
  }

  lemma NoOldMembers(s: State, b: nat)
    requires Handles(s) && b !in s.blocks
    ensures forall j: nat :: Member(b, j) !in s.handles
  {
    forall g | g in s.handles
      ensures g.Member? ==> g.owner != b
    {
      assert HandleOk(s, g);
    }
  }

  lemma MakeSharedOk(s: State, r: State, t: nat, h: Slot, b: nat, width: nat)
    requires Inv(s) && Enabled(s, t, MakeShared(h, b, width)) && r == Apply(s, t, MakeShared(h, b, width))
    ensures Inv(r)
  {
    MadeHandles(s, r, h, b, width);
    MadeThreads(s, r, h, b, width);
    MadeBlocks(s, r, h, b, width);
    assert LogOk(r);
  }

  /** A step faults exactly when it is `~T` reaching a member handle in use, and keeps the invariant
      in all other cases. */
  lemma StepOk(s: State, t: nat, step: Step)
    requires Inv(s) && Enabled(s, t, step) && |s.handles| < TWO31
    ensures Apply(s, t, step).fault <==> step.Continue? && AtUsedMember(s, t)
    ensures !Apply(s, t, step).fault ==> Inv(Apply(s, t, step))
  {
    match step
    case Continue => AdvanceOk(s, t);
    case NewHandle(h) => NewHandleOk(s, t, h);
    case MakeShared(h, b, width) => MakeSharedOk(s, Apply(s, t, step), t, h, b, width);
    case UseCount(h) => UseCountOk(s, t, h);
    case BeginDestroy(h) => BeginDestroyOk(s, Apply(s, t, step), t, h);
    case BeginCopyNew(dst, src) => BeginCopyNewOk(s, Apply(s, t, step), t, dst, src);
    case BeginMoveNew(dst, src) => BeginMoveNewOk(s, Apply(s, t, step), t, dst, src);
    case BeginCopyAssign(dst, src) => BeginCopyAssignOk(s, Apply(s, t, step), t, dst, src);
    case BeginMoveAssign(dst, src) => BeginMoveAssignOk(s, Apply(s, t, step), t, dst, src);
  }
}
