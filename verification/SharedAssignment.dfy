/**
 Assignment releases the old block before it looks at the source.  These theorems say when that is
 the same as the safe order, and that runs which respect the condition never fault.
 */
module SharedAssignment {
  import opened SharedTypes
  import opened SharedGraph
  import opened SharedReachability

  // ----- Lockstep: a cascade does not notice a change it never touches -----

  lemma WritesCommute(h: Heap, s: Slot, p: Ptr, t: Slot, q: Ptr)
    requires s != t
    ensures Write(Write(h, s, p), t, q) == Write(Write(h, t, q), s, p)
    ensures RemoveSlot(Write(h, s, p), t) == Write(RemoveSlot(h, t), s, p)
  {
  }

  lemma WriteCommutesWithCount(h: Heap, x: Slot, p: Ptr, b: nat)
    ensures AddCount(Write(h, x, p), b, -1) == Write(AddCount(h, b, -1), x, p)
    ensures FreeBlock(Write(h, x, p), b) == Write(FreeBlock(h, b), x, p)
  {
  }

  /** Changing a slot that the cascade neither releases nor destroys commutes with the cascade. */
  lemma {:induction false} WriteCommutesWithRelease(h: Heap, s: Slot, x: Slot, p: Ptr)
    requires x != s && (x.Root? || x in Release(h, s).slots)
    ensures Release(Write(h, x, p), s) == Write(Release(h, s), x, p)
    decreases |Live(h.blocks)|, 0, 0
  {
    if s !in h.slots || h.slots[s].Null? || h.slots[s].block !in h.blocks {
      return;
    }
    var b := h.slots[s].block;
    var d := AddCount(h, b, -1);
    WriteCommutesWithCount(h, x, p, b);
    if d.blocks[b].count != 0 {
      assert Release(h, s) == d && Release(Write(h, x, p), s) == Write(d, x, p);
      return;
    }
    DecrementToZero(h, b);
    var e := DestroyMembers(d, b, 0, d.blocks[b].width);
    WriteCommutesWithDestroy(d, b, 0, d.blocks[b].width, x, p);
    WriteCommutesWithCount(e, x, p, b);
    assert Release(h, s) == FreeBlock(e, b);
    assert Release(Write(h, x, p), s) == FreeBlock(Write(e, x, p), b);
  }

  lemma {:induction false} WriteCommutesWithDestroy(h: Heap, b: nat, i: nat, n: nat, x: Slot, p: Ptr)
    requires x.Root? || x in DestroyMembers(h, b, i, n).slots
    ensures DestroyMembers(Write(h, x, p), b, i, n) == Write(DestroyMembers(h, b, i, n), x, p)
    decreases |Live(h.blocks)|, n - i, 1
  {
    if i >= n {
      return;
    }
    var m := Member(b, i);
    var r := Release(h, m);
    ShrinksLive(h, r);
    WriteCommutesWithRelease(h, m, x, p);
    WritesCommute(r, x, p, m, Null);
    WriteCommutesWithDestroy(RemoveSlot(r, m), b, i + 1, n, x, p);
  }

  lemma PrimitivesCommute(h: Heap, b: nat, m: Slot, c: nat)
    requires c in h.blocks
    ensures b in h.blocks ==> AddCount(AddCount(h, c, 1), b, -1) == AddCount(AddCount(h, b, -1), c, 1)
    ensures RemoveSlot(AddCount(h, c, 1), m) == AddCount(RemoveSlot(h, m), c, 1)
    ensures c != b ==> FreeBlock(AddCount(h, c, 1), b) == AddCount(FreeBlock(h, b), c, 1)
  {
  }

  /** One extra reference on a block that survives with a positive count commutes with the cascade. */
  lemma {:induction false} CountCommutesWithRelease(h: Heap, s: Slot, c: nat)
    requires c in Release(h, s).blocks && Release(h, s).blocks[c].count > 0
    ensures Release(AddCount(h, c, 1), s) == AddCount(Release(h, s), c, 1)
    decreases |Live(h.blocks)|, 0, 0
  {
    if s !in h.slots || h.slots[s].Null? || h.slots[s].block !in h.blocks {
      return;
    }
    var b := h.slots[s].block;
    var d := AddCount(h, b, -1);
    PrimitivesCommute(h, b, s, c);
    if d.blocks[b].count != 0 {
      return;
    }
    DecrementToZero(h, b);
    var e := DestroyMembers(d, b, 0, d.blocks[b].width);
    CountCommutesWithDestroy(d, b, 0, d.blocks[b].width, c);
    PrimitivesCommute(e, b, s, c);
  }

  lemma {:induction false} CountCommutesWithDestroy(h: Heap, b: nat, i: nat, n: nat, c: nat)
    requires c in DestroyMembers(h, b, i, n).blocks && DestroyMembers(h, b, i, n).blocks[c].count > 0
    ensures DestroyMembers(AddCount(h, c, 1), b, i, n) == AddCount(DestroyMembers(h, b, i, n), c, 1)
    decreases |Live(h.blocks)|, n - i, 1
  {
    if i >= n {
      return;
    }
    var m := Member(b, i);
    var r := Release(h, m);
    ShrinksLive(h, r);
    assert Shrinks(RemoveSlot(r, m), DestroyMembers(RemoveSlot(r, m), b, i + 1, n));
    CountCommutesWithRelease(h, m, c);
    PrimitivesCommute(r, c, m, c);
    CountCommutesWithDestroy(RemoveSlot(r, m), b, i + 1, n, c);
  }

  // ----- Taking a reference restores the invariant -----

  lemma OwnersAfterWrite(r: Heap, s: Slot, p: Ptr, b: nat, stale: set<Slot>)
    requires s !in stale
    ensures Owners(Write(r, s, p), b, stale) == (Owners(r, b, stale) - {s}) + (if p == To(b) then {s} else {})
  {
  }

  lemma OwnersWithout(r: Heap, s: Slot, b: nat)
    ensures Owners(r, b, {s}) == Owners(r, b, {}) - {s}
  {
  }

  /** Writing `p` to a handle that owned nothing gives the block of `p` one more owner. */
  lemma OneMoreOwner(r: Heap, s: Slot, p: Ptr, b: nat)
    ensures |Owners(Write(r, s, p), b, {})| == |Owners(r, b, {s})| + (if p == To(b) then 1 else 0)
  {
    OwnersAfterWrite(r, s, p, b, {});
    OwnersWithout(r, s, b);
    assert s !in Owners(r, b, {s});
  }

  lemma AdoptCount(r: Heap, s: Slot, p: Ptr, b: nat)
    requires b in r.blocks && r.blocks[b].count == |Owners(r, b, {s})| && (p.To? ==> p.block in r.blocks)
    ensures var q := Acquire(Write(r, s, p), p); q.blocks[b].count == |Owners(q, b, {})|
  {
    OneMoreOwner(r, s, p, b);
    assert Owners(Acquire(Write(r, s, p), p), b, {}) == Owners(Write(r, s, p), b, {});
  }

  lemma AdoptOk(r: Heap, s: Slot, p: Ptr)
    requires Inv(r, {s}) && Quiet(r) && (s.Root? || s in r.slots) && (p.To? ==> p.block in r.blocks)
    ensures Ok(Acquire(Write(r, s, p), p))
  {
    var q := Acquire(Write(r, s, p), p);
    forall b | b in r.blocks
      ensures q.blocks[b].count == |Owners(q, b, {})|
    {
      assert r.blocks[b].count == |Owners(r, b, {s})|;
      AdoptCount(r, s, p, b);
    }
  }

  lemma TransferCount(r: Heap, dst: Slot, src: Slot, b: nat)
    requires Inv(r, {dst}) && src in r.slots && src != dst && b in r.blocks
    ensures var q := Write(Write(r, dst, r.slots[src]), src, Null); q.blocks[b].count == |Owners(q, b, {})|
  {
    var p := r.slots[src];
    OwnersAfterWrite(r, dst, p, b, {});
    OwnersAfterWrite(Write(r, dst, p), src, Null, b, {});
    OwnersWithout(r, dst, b);
    assert src in Owners(r, b, {dst}) <==> p == To(b);
  }

  /** Handing the reference of `src` over to `dst`. */
  lemma TransferOk(r: Heap, dst: Slot, src: Slot)
    requires Inv(r, {dst}) && Quiet(r) && (dst.Root? || dst in r.slots) && src in r.slots && src != dst
    ensures Ok(Write(Write(r, dst, r.slots[src]), src, Null))
  {
    forall b | b in r.blocks {
      TransferCount(r, dst, src, b);
    }
  }

  // ----- Release-first against acquire-first -----

  lemma CopyOrdersAgree(h: Heap, dst: Slot, src: Slot)
    requires src in h.slots && dst != src
    requires var r := Release(h, dst);
             && src in r.slots && dst in r.slots
             && (h.slots[src].To? ==> h.slots[src].block in r.blocks && r.blocks[h.slots[src].block].count > 0)
    ensures CopyAssign(h, dst, src) == CopyAssignAcquireFirst(h, dst, src)
  {
    if h.slots[src].To? {
      CountCommutesWithRelease(h, dst, h.slots[src].block);
    }
  }

  /** Neither the destination nor the source is destroyed while the destination is released. */
  predicate BothSurvive(h: Heap, dst: Slot, src: Slot) {
    var r := Release(h, dst);
    dst in r.slots && src in r.slots
  }

  lemma SurvivorOk(h: Heap, dst: Slot, r: Heap)
    requires Ok(h) && dst in h.slots && r == Release(h, dst) && dst in r.slots
    ensures Inv(r, {dst}) && Quiet(r)
  {
    SurvivesReleaseIff(h, dst, dst);
    ReleaseOk(h, dst);
  }

  lemma SourceNamesLive(r: Heap, dst: Slot, src: Slot)
    requires Inv(r, {dst}) && Quiet(r) && src in r.slots && src != dst && r.slots[src].To?
    ensures r.slots[src].block in r.blocks && r.blocks[r.slots[src].block].count > 0
  {
  }

  lemma CopySurvivorsAgree(h: Heap, dst: Slot, src: Slot, r: Heap)
    requires Ok(h) && dst in h.slots && src in h.slots && dst != src
    requires r == Release(h, dst) && dst in r.slots && src in r.slots
    ensures CopyAssign(h, dst, src) == CopyAssignAcquireFirst(h, dst, src)
    ensures Ok(CopyAssign(h, dst, src))
  {
    SurvivorOk(h, dst, r);
    if r.slots[src].To? {
      SourceNamesLive(r, dst, src);
    }
    AdoptOk(r, dst, r.slots[src]);
    CopyOrdersAgree(h, dst, src);
  }

  /** Copy assignment faults exactly when the release destroys one of the two handles; otherwise it ends
      in the same state as the acquire-first order, and that state is well formed. */
  lemma CopyAssignAgrees(h: Heap, dst: Slot, src: Slot)
    requires Ok(h) && dst in h.slots && src in h.slots && dst != src
    ensures CopyAssign(h, dst, src).fault <==> !BothSurvive(h, dst, src)
    ensures BothSurvive(h, dst, src) ==>
              && CopyAssign(h, dst, src) == CopyAssignAcquireFirst(h, dst, src)
              && Ok(CopyAssign(h, dst, src))
  {
    if BothSurvive(h, dst, src) {
      CopySurvivorsAgree(h, dst, src, Release(h, dst));
    }
  }

  lemma MoveSurvivorsAgree(h: Heap, dst: Slot, src: Slot, r: Heap)
    requires Ok(h) && dst in h.slots && src in h.slots && dst != src
    requires r == Release(h, dst) && dst in r.slots && src in r.slots
    ensures MoveAssign(h, dst, src) == MoveAssignAcquireFirst(h, dst, src)
    ensures Ok(MoveAssign(h, dst, src))
  {
    SurvivorOk(h, dst, r);
    TransferOk(r, dst, src);
    WriteCommutesWithRelease(h, dst, src, Null);
    WritesCommute(r, dst, r.slots[src], src, Null);
  }

  lemma MoveAssignAgrees(h: Heap, dst: Slot, src: Slot)
    requires Ok(h) && dst in h.slots && src in h.slots && dst != src
    ensures MoveAssign(h, dst, src).fault <==> !BothSurvive(h, dst, src)
    ensures BothSurvive(h, dst, src) ==>
              && MoveAssign(h, dst, src) == MoveAssignAcquireFirst(h, dst, src)
              && Ok(MoveAssign(h, dst, src))
  {
    if BothSurvive(h, dst, src) {
      MoveSurvivorsAgree(h, dst, src, Release(h, dst));
    }
  }

  /** Assigning to a handle that holds nothing is constructing it: this is how the constructor arguments
      of `make_shared` fill the members of a new object. */
  lemma AssignToNullConstructs(h: Heap, dst: Slot, src: Slot)
    requires dst in h.slots && h.slots[dst].Null? && src in h.slots && dst != src
    ensures CopyAssign(h, dst, src) == CopyConstruct(h, dst, src)
    ensures MoveAssign(h, dst, src) == MoveConstruct(h, dst, src)
  {
    assert Release(h, dst) == h;
  }

  /** Self-assignment: the guard of the original gives what the acquire-first order computes. */
  lemma SelfAssignAgrees(h: Heap, s: Slot)
    requires Ok(h) && s in h.slots
    ensures CopyAssignAcquireFirst(h, s, s) == CopyAssign(h, s, s) == h
    ensures MoveAssignAcquireFirst(h, s, s) == MoveAssign(h, s, s) == h
  {
    var p := h.slots[s];
    assert Write(Write(h, s, Null), s, p) == h;
    if p.To? {
      assert AddCount(AddCount(h, p.block, 1), p.block, -1) == h;
    }
    assert Write(h, s, p) == h;
  }

  /** On every well-formed heap, cyclic or not, assignment goes wrong exactly when one of its two handles
      is not safe from the release of the destination. */
  lemma AssignmentFaultsIff(h: Heap, dst: Slot, src: Slot)
    requires Ok(h) && dst in h.slots && src in h.slots && dst != src
    ensures CopyAssign(h, dst, src).fault <==> !(Safe(h, dst, dst) && Safe(h, dst, src))
    ensures MoveAssign(h, dst, src).fault <==> !(Safe(h, dst, dst) && Safe(h, dst, src))
  {
    CopyAssignAgrees(h, dst, src);
    MoveAssignAgrees(h, dst, src);
    SurvivesReleaseIff(h, dst, dst);
    SurvivesReleaseIff(h, dst, src);
  }

  /** In an acyclic heap: exactly when the destination is the only way to the source. */
  lemma AcyclicAssignmentFaultsIff(h: Heap, dst: Slot, src: Slot)
    requires Ok(h) && Acyclic(h) && dst in h.slots && src in h.slots && dst != src
    ensures CopyAssign(h, dst, src).fault <==> !Grounded(h, dst, src)
    ensures MoveAssign(h, dst, src).fault <==> !Grounded(h, dst, src)
  {
    OwnerGrounded(h, dst);
    SafeIffGrounded(h, dst, src);
    AssignmentFaultsIff(h, dst, src);
  }

  lemma OwnMemberDestroyed(h: Heap, dst: Slot, src: Slot)
    requires Ok(h) && dst in h.slots && src in h.slots && src.Member? && h.slots[dst] == To(src.owner)
    requires src.owner in h.blocks && h.blocks[src.owner].count == 1
    ensures !BothSurvive(h, dst, src)
  {
    SurvivesReleaseIff(h, dst, dst);
    if Safe(h, dst, dst) {
      ReleaseOk(h, dst);
    }
  }

  /** `p = p->next`: the source is a member of the very object the destination owns.  On every
      well-formed heap it goes wrong exactly when `p` is the only owner. */
  lemma AssignFromOwnMember(h: Heap, dst: Slot, src: Slot)
    requires Ok(h) && dst in h.slots && src in h.slots && dst != src
    requires src.Member? && h.slots[dst] == To(src.owner)
    ensures CopyAssign(h, dst, src).fault <==> h.blocks[src.owner].count == 1
    ensures MoveAssign(h, dst, src).fault <==> h.blocks[src.owner].count == 1
  {
    CopyAssignAgrees(h, dst, src);
    MoveAssignAgrees(h, dst, src);
    if h.blocks[src.owner].count == 1 {
      OwnMemberDestroyed(h, dst, src);
    } else {
      assert Release(h, dst) == AddCount(h, src.owner, -1);
    }
  }

  // ----- The acquire-first order is right on every input -----

  lemma FreshRoot(slots: set<Slot>) returns (x: Slot)
    ensures x.Root? && forall s | s in slots && s.Root? :: s.id < x.id
    decreases slots
  {
    x := Root(0);
    if slots != {} {
      var s :| s in slots;
      var y := FreshRoot(slots - {s});
      x := if s.Root? && s.id >= y.id then Root(s.id + 1) else y;
    }
  }

  /** Safety is not lost when a root takes the place of another handle or is added. */
  lemma SafeWithRoot(h: Heap, k: Heap, avoid: Slot, moved: set<Slot>, x: Slot)
    requires Safe(h, avoid, avoid) && x.Root? && x in k.slots && x != avoid && k.blocks.Keys == h.blocks.Keys
    requires forall s | s in h.slots && s !in moved :: s in k.slots && k.slots[s] == h.slots[s]
    requires forall s | s in h.slots && s in moved :: k.slots[x] == h.slots[s]
    ensures Safe(k, avoid, avoid)
  {
    if avoid.Member? {
      var w :| avoid.owner in w && w <= h.blocks.Keys && Shield(h, {avoid}, w);
      forall b | b in w
        ensures Kept(k, {avoid}, w, b)
      {
        assert Kept(h, {avoid}, w, b);
        var s :| Edge(h, {avoid}, s, b) && (s.Root? || s.owner in w);
        assert Edge(k, {avoid}, if s in moved then x else s, b);
      }
      assert Shield(k, {avoid}, w);
    }
  }

  /** The order that the original does not use would be safe for every source, destroyed or not. */
  lemma AcquireFirstCopyOk(h: Heap, dst: Slot, src: Slot)
    requires Ok(h) && dst in h.slots && src in h.slots && Safe(h, dst, dst)
    ensures Ok(CopyAssignAcquireFirst(h, dst, src))
  {
    var p := h.slots[src];
    var x := FreshRoot(h.slots.Keys);
    AcquiredRoot(h, x, p);
    var a := Acquire(h, p);
    var k := Write(a, x, p);
    SafeWithRoot(h, k, dst, {}, x);
    ReleaseOk(k, dst);
    WriteCommutesWithRelease(a, dst, x, p);
    HandOver(Release(a, dst), x, dst, p);
  }

  lemma AcquireFirstMoveOk(h: Heap, dst: Slot, src: Slot)
    requires Ok(h) && dst in h.slots && src in h.slots && Safe(h, dst, dst)
    ensures Ok(MoveAssignAcquireFirst(h, dst, src))
  {
    if dst == src {
      SelfAssignAgrees(h, dst);
      return;
    }
    var p := h.slots[src];
    var x := FreshRoot(h.slots.Keys);
    NewRootOk(h, x);
    TransferOk(h, x, src);
    var a := Write(h, src, Null);
    var k := Write(a, x, p);
    WritesCommute(h, x, p, src, Null);
    SafeWithRoot(h, k, dst, {src}, x);
    ReleaseOk(k, dst);
    WriteCommutesWithRelease(a, dst, x, p);
    HandOver(Release(a, dst), x, dst, p);
  }

  lemma AcquiredRoot(h: Heap, x: Slot, p: Ptr)
    requires Ok(h) && x.Root? && x !in h.slots && (p.To? ==> p.block in h.blocks)
    ensures Ok(Write(Acquire(h, p), x, p))
  {
    forall b | b in h.blocks
      ensures Owners(h, b, {x}) == Owners(h, b, {})
    {
    }
    AdoptOk(h, x, p);
  }

  lemma HandOverCount(r: Heap, x: Slot, dst: Slot, p: Ptr, b: nat)
    requires x.Root? && x !in r.slots && dst in r.slots && Inv(Write(r, x, p), {dst}) && b in r.blocks
    ensures r.blocks[b].count == |Owners(Write(r, dst, p), b, {})|
  {
    assert r.blocks[b].count == |Owners(Write(r, x, p), b, {dst})|;
    OwnersAfterWrite(r, x, p, b, {dst});
    OwnersAfterWrite(r, dst, p, b, {});
    OwnersWithout(r, dst, b);
    assert x !in Owners(r, b, {dst});
  }

  /** Dropping a temporary root in favour of `dst` keeps the invariant. */
  lemma HandOver(r: Heap, x: Slot, dst: Slot, p: Ptr)
    requires x.Root? && x !in r.slots && dst in r.slots
    requires Inv(Write(r, x, p), {dst}) && Quiet(r)
    ensures Ok(Write(r, dst, p))
  {
    var k := Write(r, x, p);
    assert k.slots[x] == p;
    assert forall s | s in r.slots :: s in k.slots && k.slots[s] == r.slots[s];
    forall b | b in r.blocks {
      HandOverCount(r, x, dst, p, b);
    }
  }

  // ----- Runs -----

  datatype Op =
    | Default(s: Slot)
    | MakeShared(s: Slot, block: nat, width: nat, obtained: bool)
    | CopyNew(s: Slot, src: Slot)
    | MoveNew(s: Slot, src: Slot)
    | AssignCopy(dst: Slot, src: Slot)
    | AssignMove(dst: Slot, src: Slot)
    | Drop(s: Slot)

  function Step(h: Heap, op: Op): Heap {
    match op
    case Default(s) => Write(h, s, Null)
    case MakeShared(s, b, width, obtained) => Make(h, s, b, width, obtained)
    case CopyNew(s, src) => CopyConstruct(h, s, src)
    case MoveNew(s, src) => MoveConstruct(h, s, src)
    case AssignCopy(dst, src) => CopyAssign(h, dst, src)
    case AssignMove(dst, src) => MoveAssign(h, dst, src)
    case Drop(s) => Destroy(h, s)
  }

  /** What the language and the caller guarantee: new handles are new, used handles exist, and both
      handles of an assignment are safe from the release of the old block. */
  ghost predicate Legal(h: Heap, op: Op) {
    match op
    case Default(s) => s.Root? && s !in h.slots
    case MakeShared(s, b, _, _) => s.Root? && s !in h.slots && b !in h.blocks
    case CopyNew(s, src) => s.Root? && s !in h.slots && src in h.slots
    case MoveNew(s, src) => s.Root? && s !in h.slots && src in h.slots
    case AssignCopy(dst, src) => dst in h.slots && src in h.slots && Safe(h, dst, dst) && Safe(h, dst, src)
    case AssignMove(dst, src) => dst in h.slots && src in h.slots && Safe(h, dst, dst) && Safe(h, dst, src)
    case Drop(s) => s in h.slots && s.Root?
  }

  lemma NewRootOk(h: Heap, s: Slot)
    requires Ok(h) && s.Root? && s !in h.slots
    ensures Inv(h, {s})
  {
    assert forall b :: Owners(h, b, {s}) == Owners(h, b, {});
  }

  lemma MakeCount(h: Heap, s: Slot, b: nat, width: nat, c: nat)
    requires Ok(h) && s.Root? && s !in h.slots && b !in h.blocks && (c in h.blocks || c == b)
    ensures var q := Make(h, s, b, width, true); q.blocks[c].count == |Owners(q, c, {})|
  {
    var q := Make(h, s, b, width, true);
    if c == b {
      assert Owners(q, c, {}) == {s};
    } else {
      assert Owners(q, c, {}) == Owners(h, c, {});
    }
  }

  lemma MakeSlots(h: Heap, s: Slot, b: nat, width: nat)
    requires Ok(h) && s.Root? && s !in h.slots && b !in h.blocks
    ensures var q := Make(h, s, b, width, true);
            && (forall x | x in q.slots && q.slots[x].To? :: q.slots[x].block in q.blocks)
            && (forall x | x in q.slots && x.Member? :: x.owner in q.blocks && x.index < q.blocks[x.owner].width)
            && (forall c, i: nat | c in q.blocks && i < q.blocks[c].width :: Member(c, i) in q.slots)
  {
    var q := Make(h, s, b, width, true);
    forall c, i: nat | c in q.blocks && i < q.blocks[c].width
      ensures Member(c, i) in q.slots
    {
      if c != b {
        assert Member(c, i) in h.slots;
      }
    }
  }

  lemma MakeOk(h: Heap, s: Slot, b: nat, width: nat)
    requires Ok(h) && s.Root? && s !in h.slots && b !in h.blocks
    ensures Ok(Make(h, s, b, width, true))
  {
    MakeSlots(h, s, b, width);
    forall c | c in h.blocks || c == b {
      MakeCount(h, s, b, width, c);
    }
  }

  lemma DropOk(h: Heap, s: Slot)
    requires Ok(h) && s.Root? && s in h.slots
    ensures Ok(Destroy(h, s))
  {
    ReleaseOk(h, s);
    var r := Release(h, s);
    assert forall b :: Owners(RemoveSlot(r, s), b, {}) == Owners(r, b, {s});
  }

  lemma StepOk(h: Heap, op: Op)
    requires Ok(h) && Legal(h, op)
    ensures Ok(Step(h, op))
  {
    match op
    case Default(s) => NewRootOk(h, s); AdoptOk(h, s, Null);
    case MakeShared(s, b, width, obtained) =>
      NewRootOk(h, s);
      AdoptOk(h, s, Null);
      MakeOk(h, s, b, width);
    case CopyNew(s, src) => NewRootOk(h, s); AdoptOk(h, s, h.slots[src]);
    case MoveNew(s, src) => NewRootOk(h, s); TransferOk(h, s, src);
    case AssignCopy(dst, src) =>
      if dst != src {
        AssignmentFaultsIff(h, dst, src);
        CopyAssignAgrees(h, dst, src);
      }
    case AssignMove(dst, src) =>
      if dst != src {
        AssignmentFaultsIff(h, dst, src);
        MoveAssignAgrees(h, dst, src);
      }
    case Drop(s) => DropOk(h, s);
  }

  // ----- What each operation does to the handles and blocks -----

  /** All handles but those in `but` are as before, or gone when they are not safe from the release of `s`;
      and the blocks that are left are those sheltered from it.  Their counts follow from `Ok`. */
  ghost predicate LeftBy(h: Heap, s: Slot, r: Heap, but: set<Slot>) {
    && r.blocks.Keys == ShelteredBlocks(h, s)
    && (forall b | b in r.blocks :: r.blocks[b].width == h.blocks[b].width)
    && (forall x :: x !in but && x in r.slots ==> x in h.slots && r.slots[x] == h.slots[x])
    && (forall x :: x !in but && x in h.slots ==> (x in r.slots <==> Safe(h, s, x)))
  }

  lemma ReleaseLeaves(h: Heap, s: Slot)
    requires Ok(h) && s in h.slots
    ensures LeftBy(h, s, Release(h, s), {})
  {
    ReleaseFreesExactlyUnsheltered(h, s);
    forall x | x in h.slots
      ensures x in Release(h, s).slots <==> Safe(h, s, x)
    {
      SurvivesReleaseIff(h, s, x);
    }
  }

  /** Destroying a handle: it is gone, and with it exactly the blocks that it alone kept. */
  lemma DropEffect(h: Heap, s: Slot)
    requires Ok(h) && Legal(h, Drop(s))
    ensures var r := Step(h, Drop(s)); s !in r.slots && LeftBy(h, s, r, {s}) && Ok(r)
  {
    ReleaseLeaves(h, s);
    DropOk(h, s);
  }

  lemma DefaultEffect(h: Heap, s: Slot)
    requires Ok(h) && Legal(h, Default(s))
    ensures var r := Step(h, Default(s)); r.slots == h.slots[s := Null] && r.blocks == h.blocks && Ok(r)
  {
    StepOk(h, Default(s));
  }

  /** make_shared: the handle owns a new block with count 1, whose members are null; nothing else changes. */
  lemma MakeEffect(h: Heap, s: Slot, b: nat, width: nat)
    requires Ok(h) && Legal(h, MakeShared(s, b, width, true))
    ensures var r := Step(h, MakeShared(s, b, width, true));
            && r.slots[s] == To(b) && r.blocks == h.blocks[b := Block(1, width)] && Ok(r)
            && (forall i: nat :: i < width ==> Member(b, i) in r.slots && r.slots[Member(b, i)] == Null)
            && (forall x :: x in r.slots <==> x in h.slots || x == s || (x.Member? && x.owner == b && x.index < width))
            && (forall x | x in h.slots :: r.slots[x] == h.slots[x])
  {
    StepOk(h, MakeShared(s, b, width, true));
    forall x | x in h.slots
      ensures x != s && x !in NullMembers(b, width)
    {
    }
  }

  /** make_shared without memory: a null handle and nothing else. */
  lemma MakeFailedEffect(h: Heap, s: Slot, b: nat, width: nat)
    requires Ok(h) && Legal(h, MakeShared(s, b, width, false))
    ensures var r := Step(h, MakeShared(s, b, width, false));
            r.slots == h.slots[s := Null] && r.blocks == h.blocks && Ok(r)
  {
    StepOk(h, MakeShared(s, b, width, false));
  }

  /** Copy construction: the new handle names what the source names, whose count is one higher. */
  lemma CopyNewEffect(h: Heap, s: Slot, src: Slot)
    requires Ok(h) && Legal(h, CopyNew(s, src))
    ensures var r := Step(h, CopyNew(s, src));
            && r.slots == h.slots[s := h.slots[src]] && Ok(r)
            && (h.slots[src].Null? ==> r.blocks == h.blocks)
            && (h.slots[src].To? ==>
                  var b := h.slots[src].block;
                  b in h.blocks && r.blocks == h.blocks[b := Block(h.blocks[b].count + 1, h.blocks[b].width)])
  {
    StepOk(h, CopyNew(s, src));
  }

  /** Move construction: the new handle has what the source had, the source is null, no count changes. */
  lemma MoveNewEffect(h: Heap, s: Slot, src: Slot)
    requires Ok(h) && Legal(h, MoveNew(s, src))
    ensures var r := Step(h, MoveNew(s, src));
            r.slots == h.slots[s := h.slots[src]][src := Null] && r.blocks == h.blocks && Ok(r)
  {
    StepOk(h, MoveNew(s, src));
  }

  lemma CopiedSlots(h: Heap, dst: Slot, src: Slot, q: Heap)
    requires dst != src && q == Release(h, dst) && dst in q.slots && src in q.slots
    requires q.slots[src].To? ==> q.slots[src].block in q.blocks
    ensures var r := CopyAssign(h, dst, src);
            && r.slots == q.slots[dst := q.slots[src]] && r.blocks.Keys == q.blocks.Keys
            && (forall b | b in q.blocks :: r.blocks[b].width == q.blocks[b].width)
  {
    assert CopyAssign(h, dst, src) == Acquire(Write(q, dst, q.slots[src]), q.slots[src]);
  }

  lemma MovedSlots(h: Heap, dst: Slot, src: Slot, q: Heap)
    requires dst != src && q == Release(h, dst) && dst in q.slots && src in q.slots
    ensures var r := MoveAssign(h, dst, src);
            r.slots == q.slots[dst := q.slots[src]][src := Null] && r.blocks == q.blocks
  {
    assert MoveAssign(h, dst, src) == Write(Write(q, dst, q.slots[src]), src, Null);
  }

  /** Assignment: the destination has what the source had; what only the old value of the destination
      kept is gone; a source that was copied is unchanged. */
  lemma CopyAssignEffect(h: Heap, dst: Slot, src: Slot)
    requires Ok(h) && Legal(h, AssignCopy(dst, src))
    ensures dst == src ==> Step(h, AssignCopy(dst, src)) == h
    ensures dst != src ==>
              var r := Step(h, AssignCopy(dst, src));
              && dst in r.slots && r.slots[dst] == h.slots[src] && src in r.slots && r.slots[src] == h.slots[src]
              && LeftBy(h, dst, r, {dst}) && Ok(r)
  {
    if dst != src {
      var q := Release(h, dst);
      ReleaseLeaves(h, dst);
      SurvivorOk(h, dst, q);
      StepOk(h, AssignCopy(dst, src));
      CopiedSlots(h, dst, src, q);
    }
  }

  /** A source that was moved is null. */
  lemma MoveAssignEffect(h: Heap, dst: Slot, src: Slot)
    requires Ok(h) && Legal(h, AssignMove(dst, src))
    ensures dst == src ==> Step(h, AssignMove(dst, src)) == h
    ensures dst != src ==>
              var r := Step(h, AssignMove(dst, src));
              && dst in r.slots && r.slots[dst] == h.slots[src] && src in r.slots && r.slots[src] == Null
              && LeftBy(h, dst, r, {dst, src}) && Ok(r)
  {
    if dst != src {
      var q := Release(h, dst);
      ReleaseLeaves(h, dst);
      StepOk(h, AssignMove(dst, src));
      MovedSlots(h, dst, src, q);
    }
  }

  const EMPTY := Heap(map[], map[], false)

  function Run(h: Heap, ops: seq<Op>): Heap
    decreases |ops|
  {
    if ops == [] then h else Run(Step(h, ops[0]), ops[1..])
  }

  ghost predicate LegalRun(h: Heap, ops: seq<Op>)
    decreases |ops|
  {
    ops == [] || (Legal(h, ops[0]) && LegalRun(Step(h, ops[0]), ops[1..]))
  }

  /** Every legal run from any well-formed heap ends without a fault in a well-formed heap. */
  lemma {:induction false} RunOk(h: Heap, ops: seq<Op>)
    requires Ok(h) && LegalRun(h, ops)
    ensures Ok(Run(h, ops))
    decreases |ops|
  {
    if ops != [] {
      StepOk(h, ops[0]);
      RunOk(Step(h, ops[0]), ops[1..]);
    }
  }

  /** Reference counting equals reachability after every legal run that leaves no ownership cycle. */
  lemma CountingIsReachability(ops: seq<Op>, b: nat)
    requires LegalRun(EMPTY, ops) && Acyclic(Run(EMPTY, ops))
    ensures !Run(EMPTY, ops).fault
    ensures b in Run(EMPTY, ops).blocks <==> Reachable(Run(EMPTY, ops), {}, b)
  {
    RunOk(EMPTY, ops);
    AllocatedIffReachable(Run(EMPTY, ops), b);
  }

  lemma {:induction false} OnlyItselfUnreachable(h: Heap, b: nat, n: nat)
    requires forall s | s in h.slots :: s.Member? && s.owner == b
    ensures !ReachIn(h, {}, b, n)
    decreases n
  {
    if n > 0 {
      OnlyItselfUnreachable(h, b, n - 1);
    }
  }

  const ROOT := Root(0)
  const SELF := Member(0, 0)

  /** One object with one null member, and its only handle. */
  const ONE := Heap(map[SELF := Null, ROOT := To(0)], map[0 := Block(1, 1)], false)

  lemma MadeOne()
    ensures Legal(EMPTY, MakeShared(ROOT, 0, 1, true)) && Step(EMPTY, MakeShared(ROOT, 0, 1, true)) == ONE && Ok(ONE)
  {
    StepOk(EMPTY, MakeShared(ROOT, 0, 1, true));
    assert Make(EMPTY, ROOT, 0, 1, true) == ONE;
  }

  const KNOT := Heap(map[SELF := To(0), ROOT := To(0)], map[0 := Block(2, 1)], false)

  lemma TieKnot()
    ensures Legal(ONE, AssignCopy(SELF, ROOT)) && Step(ONE, AssignCopy(SELF, ROOT)) == KNOT
  {
    assert Edge(ONE, {SELF}, ROOT, 0);
    assert Kept(ONE, {SELF}, {0}, 0);
    assert Shield(ONE, {SELF}, {0}) && 0 in {0};
    assert Safe(ONE, SELF, SELF);
    assert Release(ONE, SELF) == ONE;
  }

  const LEAK := Heap(map[SELF := To(0)], map[0 := Block(1, 1)], false)

  lemma Untie()
    ensures Legal(KNOT, Drop(ROOT)) && Step(KNOT, Drop(ROOT)) == LEAK
  {
    assert Release(KNOT, ROOT) == AddCount(KNOT, 0, -1);
  }

  const TIE := [MakeShared(ROOT, 0, 1, true), AssignCopy(SELF, ROOT), Drop(ROOT)]

  lemma TieRun()
    ensures LegalRun(EMPTY, TIE) && Run(EMPTY, TIE) == LEAK
  {
    MadeOne();
    TieKnot();
    Untie();
    RunThree(EMPTY, TIE[0], TIE[1], TIE[2]);
  }

  /** Acyclicity cannot be dropped: a legal run can leave a block that only owns itself. */
  lemma CycleLeaks()
    ensures LegalRun(EMPTY, TIE) && 0 in Run(EMPTY, TIE).blocks && !Reachable(Run(EMPTY, TIE), {}, 0)
  {
    TieRun();
    forall n: nat {
      OnlyItselfUnreachable(LEAK, 0, n);
    }
  }

  /** `p = p->next` with one owner: a run of two operations that reads a destroyed handle. */
  lemma OwnMemberFaults()
    ensures Legal(EMPTY, MakeShared(ROOT, 0, 1, true))
    ensures Run(EMPTY, [MakeShared(ROOT, 0, 1, true), AssignCopy(ROOT, SELF)]).fault
    ensures Run(EMPTY, [MakeShared(ROOT, 0, 1, true), AssignMove(ROOT, SELF)]).fault
  {
    MadeOne();
    AssignFromOwnMember(ONE, ROOT, SELF);
    RunTwo(EMPTY, MakeShared(ROOT, 0, 1, true), AssignCopy(ROOT, SELF));
    RunTwo(EMPTY, MakeShared(ROOT, 0, 1, true), AssignMove(ROOT, SELF));
  }

  lemma RunTwo(h: Heap, a: Op, b: Op)
    ensures Run(h, [a, b]) == Step(Step(h, a), b)
  {
    assert [a, b][1..] == [b] && [b][1..] == [];
    assert Run(Step(h, a), [b]) == Step(Step(h, a), b);
  }

  lemma RunThree(h: Heap, a: Op, b: Op, c: Op)
    ensures Run(h, [a, b, c]) == Step(Step(Step(h, a), b), c)
    ensures LegalRun(h, [a, b, c]) <==> Legal(h, a) && Legal(Step(h, a), b) && Legal(Step(Step(h, a), b), c)
  {
    assert [a, b, c][1..] == [b, c] && [b, c][1..] == [c] && [c][1..] == [];
    var h1 := Step(h, a);
    var h2 := Step(h1, b);
    assert Run(h1, [b, c]) == Run(h2, [c]) == Step(h2, c);
    assert LegalRun(h2, [c]) == Legal(h2, c);
    assert LegalRun(h1, [b, c]) == (Legal(h1, b) && LegalRun(h2, [c]));
  }
}
