/** Names shared by the two models of SharedPtr. */
module SharedTypes {
  /** What a handle names: nothing or one control block. */
  datatype Ptr = Null | To(block: nat)

  /** One SharedPtr object, outside every managed object or a member of the object in block `owner`. */
  datatype Slot = Root(id: nat) | Member(owner: nat, index: nat)
}

/**
 SharedPtr as a heap graph.

 A slot is one SharedPtr object.  Root slots live outside every managed object; `Member(b, i)` is
 the i-th SharedPtr member of the object stored in block `b`, counted in order of destruction.  A
 block is one ControlBlockImpl allocation.  Because `make_shared` is the only way to obtain a non-null
 handle, `ptr_` and `cb_` of a handle name the same block, so a slot stores one pointer.

 Every function is total.  Touching a dead slot or a freed block sets `fault`, which stands for the
 undefined behaviour of the original; the theorems say exactly when that cannot happen.
 */
module SharedGraph {

  import opened SharedTypes

  /** `width` is the number of SharedPtr members of the object in the block. */
  datatype Block = Block(count: int, width: nat)

  datatype Heap = Heap(slots: map<Slot, Ptr>, blocks: map<nat, Block>, fault: bool)

  // ----- Primitive steps -----

  function Faulted(h: Heap): Heap {
    h.(fault := true)
  }

  function AddCount(h: Heap, b: nat, delta: int): Heap {
    if b in h.blocks
    then h.(blocks := h.blocks[b := h.blocks[b].(count := h.blocks[b].count + delta)])
    else Faulted(h)
  }

  function Acquire(h: Heap, p: Ptr): Heap {
    if p.Null? then h else AddCount(h, p.block, 1)
  }

  function Write(h: Heap, s: Slot, p: Ptr): Heap {
    h.(slots := h.slots[s := p])
  }

  function RemoveSlot(h: Heap, s: Slot): Heap {
    h.(slots := h.slots - {s})
  }

  function FreeBlock(h: Heap, b: nat): Heap {
    if b in h.blocks then h.(blocks := h.blocks - {b}) else Faulted(h)
  }

  // ----- The release cascade -----

  /** The blocks whose count is still positive: what a cascade can consume. */
  function Live(blocks: map<nat, Block>): set<nat> {
    set b | b in blocks && blocks[b].count > 0
  }

  /** What every cascade does on every heap, well formed or not: it only takes things away. */
  ghost predicate Shrinks(h: Heap, r: Heap) {
    && (forall s | s in r.slots :: s in h.slots && r.slots[s] == h.slots[s])
    && (forall s | s in h.slots && s.Root? :: s in r.slots)
    && (forall b | b in r.blocks ::
          b in h.blocks && r.blocks[b].count <= h.blocks[b].count && r.blocks[b].width == h.blocks[b].width)
    && (h.fault ==> r.fault)
  }

  lemma ShrinksLive(h: Heap, r: Heap)
    requires Shrinks(h, r)
    ensures Live(r.blocks) <= Live(h.blocks)
    ensures |Live(r.blocks)| <= |Live(h.blocks)|
  {
    Subset(Live(r.blocks), Live(h.blocks));
  }

  lemma Subset<T>(a: set<T>, b: set<T>)
    requires a <= b
    ensures |a| <= |b|
  {
    assert b == a + (b - a);
  }

  lemma DecrementToZero(h: Heap, b: nat)
    requires b in h.blocks && h.blocks[b].count == 1
    ensures |Live(AddCount(h, b, -1).blocks)| < |Live(h.blocks)|
  {
    assert Live(AddCount(h, b, -1).blocks) == Live(h.blocks) - {b};
  }

  /** `release()`: decrement and test; at zero run `~T` on the object and free the block.
      The slot itself keeps its now stale pointer.  Terminates on every heap, cyclic ones included,
      because each nested level takes one more block out of `Live`. */
  function Release(h: Heap, s: Slot): (r: Heap)
    ensures Shrinks(h, r)
    decreases |Live(h.blocks)|, 0, 0
  {
    if s !in h.slots then Faulted(h)
    else if h.slots[s].Null? then h
    else
      var b := h.slots[s].block;
      if b !in h.blocks then Faulted(h)
      else
        var d := AddCount(h, b, -1);
        if d.blocks[b].count != 0 then d
        else
          DecrementToZero(h, b);
          FreeBlock(DestroyMembers(d, b, 0, d.blocks[b].width), b)
  }

  /** `~T`: destroys the member handles `i` to `n - 1` of the object in block `b`. */
  function DestroyMembers(h: Heap, b: nat, i: nat, n: nat): (r: Heap)
    ensures Shrinks(h, r)
    decreases |Live(h.blocks)|, n - i, 1
  {
    if i >= n then h
    else
      var m := Member(b, i);
      var r := Release(h, m);
      ShrinksLive(h, r);
      DestroyMembers(RemoveSlot(r, m), b, i + 1, n)
  }

  /** How deeply the destructors nest when `s` is released: the calls of `~T` on the stack at once. */
  function ReleaseDepth(h: Heap, s: Slot): nat
    decreases |Live(h.blocks)|, 0, 0
  {
    if s !in h.slots || h.slots[s].Null? || h.slots[s].block !in h.blocks then 0
    else
      var b := h.slots[s].block;
      var d := AddCount(h, b, -1);
      if d.blocks[b].count != 0 then 0
      else
        DecrementToZero(h, b);
        1 + DestroyDepth(d, b, 0, d.blocks[b].width)
  }

  function DestroyDepth(h: Heap, b: nat, i: nat, n: nat): nat
    decreases |Live(h.blocks)|, n - i, 1
  {
    if i >= n then 0
    else
      var m := Member(b, i);
      var r := Release(h, m);
      ShrinksLive(h, r);
      var here, rest := ReleaseDepth(h, m), DestroyDepth(RemoveSlot(r, m), b, i + 1, n);
      if here > rest then here else rest
  }

  /** On every heap, cyclic and ill-formed ones included, a cascade frees only blocks whose count was
      positive, and its destructors nest no deeper than there are such blocks. */
  lemma {:induction false} ReleaseBounded(h: Heap, s: Slot)
    ensures ReleaseDepth(h, s) <= |Live(h.blocks)|
    ensures forall b | b in h.blocks && b !in Release(h, s).blocks :: b in Live(h.blocks)
    decreases |Live(h.blocks)|, 0, 0
  {
    if s !in h.slots || h.slots[s].Null? || h.slots[s].block !in h.blocks {
      return;
    }
    var b := h.slots[s].block;
    var d := AddCount(h, b, -1);
    if d.blocks[b].count == 0 {
      DecrementToZero(h, b);
      DestroyBounded(d, b, 0, d.blocks[b].width);
    }
  }

  lemma {:induction false} DestroyBounded(h: Heap, b: nat, i: nat, n: nat)
    ensures DestroyDepth(h, b, i, n) <= |Live(h.blocks)|
    ensures forall c | c in h.blocks && c !in DestroyMembers(h, b, i, n).blocks :: c in Live(h.blocks)
    decreases |Live(h.blocks)|, n - i, 1
  {
    if i >= n {
      return;
    }
    var r := Release(h, Member(b, i));
    ShrinksLive(h, r);
    ReleaseBounded(h, Member(b, i));
    DestroyBounded(RemoveSlot(r, Member(b, i)), b, i + 1, n);
  }

  // ----- Operations on handles -----

  function Destroy(h: Heap, s: Slot): Heap {
    RemoveSlot(Release(h, s), s)
  }

  /** Copy construction: read the source, then increment. */
  function CopyConstruct(h: Heap, s: Slot, src: Slot): Heap {
    if src !in h.slots then Faulted(h)
    else Acquire(Write(h, s, h.slots[src]), h.slots[src])
  }

  function MoveConstruct(h: Heap, s: Slot, src: Slot): Heap {
    if src !in h.slots then Faulted(h)
    else Write(Write(h, s, h.slots[src]), src, Null)
  }

  /** Copy assignment as written: release first, then read the source, then increment. */
  function CopyAssign(h: Heap, dst: Slot, src: Slot): Heap {
    if dst == src then h
    else
      var r := Release(h, dst);
      if dst !in r.slots || src !in r.slots then Faulted(r)
      else Acquire(Write(r, dst, r.slots[src]), r.slots[src])
  }

  function MoveAssign(h: Heap, dst: Slot, src: Slot): Heap {
    if dst == src then h
    else
      var r := Release(h, dst);
      if dst !in r.slots || src !in r.slots then Faulted(r)
      else Write(Write(r, dst, r.slots[src]), src, Null)
  }

  /** The reference order for copy assignment: secure the source's block before letting go of the old one. */
  function CopyAssignAcquireFirst(h: Heap, dst: Slot, src: Slot): Heap {
    if src !in h.slots then Faulted(h)
    else
      var p := h.slots[src];
      var r := Release(Acquire(h, p), dst);
      if dst !in r.slots then Faulted(r) else Write(r, dst, p)
  }

  /** The reference order for move assignment: take the source's pointer out, then release. */
  function MoveAssignAcquireFirst(h: Heap, dst: Slot, src: Slot): Heap {
    if src !in h.slots then Faulted(h)
    else
      var p := h.slots[src];
      var r := Release(Write(h, src, Null), dst);
      if dst !in r.slots then Faulted(r) else Write(r, dst, p)
  }

  function NullMembers(b: nat, width: nat): (members: map<Slot, Ptr>)
    ensures forall s: Slot :: s in members <==> s.Member? && s.owner == b && s.index < width
  {
    var slots := set i: nat | i < width :: Member(b, i);
    map m | m in slots :: Null
  }

  /** `make_shared`: null on allocation failure, otherwise a block with count 1 and null members. */
  function Make(h: Heap, s: Slot, b: nat, width: nat, obtained: bool): Heap {
    if !obtained then Write(h, s, Null)
    else
      Heap(h.slots + NullMembers(b, width) + map[s := To(b)], h.blocks[b := Block(1, width)], h.fault)
  }

  // ----- The counting invariant -----

  /** The handles that own a reference to `b`; a `stale` handle still names a block it has released. */
  ghost function Owners(h: Heap, b: nat, stale: set<Slot>): set<Slot> {
    set s | s in h.slots && s !in stale && h.slots[s] == To(b)
  }

  ghost predicate Inv(h: Heap, stale: set<Slot>) {
    && !h.fault
    && (forall b {:trigger Owners(h, b, stale)} :: b in h.blocks ==> h.blocks[b].count == |Owners(h, b, stale)|)
    && (forall s | s in h.slots && s !in stale && h.slots[s].To? :: h.slots[s].block in h.blocks)
    && (forall s | s in h.slots && s.Member? :: s.owner in h.blocks && s.index < h.blocks[s.owner].width)
    && (forall b, i: nat | b in h.blocks && h.blocks[b].count > 0 && i < h.blocks[b].width :: Member(b, i) in h.slots)
  }

  /** No block is in the middle of being destroyed. */
  ghost predicate Quiet(h: Heap) {
    forall b | b in h.blocks :: h.blocks[b].count > 0
  }

  /** The state between operations. */
  ghost predicate Ok(h: Heap) {
    Inv(h, {}) && Quiet(h)
  }

  ghost predicate Edge(h: Heap, gone: set<Slot>, s: Slot, b: nat) {
    s in h.slots && s !in gone && h.slots[s] == To(b)
  }

  /** Every block of `w` is owned by a root or by a member of another block of `w`, without using `gone`. */
  ghost predicate Shield(h: Heap, gone: set<Slot>, w: set<nat>) {
    forall b {:trigger Kept(h, gone, w, b)} :: b in w ==> Kept(h, gone, w, b)
  }

  ghost predicate Kept(h: Heap, gone: set<Slot>, w: set<nat>, b: nat) {
    exists s :: Edge(h, gone, s, b) && (s.Root? || s.owner in w)
  }

  /** A stale slot is a root, or a member of a dying block, or a member of a shielded block. */
  ghost predicate Anchored(h: Heap, stale: set<Slot>, w: set<nat>) {
    forall s | s in stale && s.Member? :: s.owner in h.blocks && (h.blocks[s.owner].count == 0 || s.owner in w)
  }

  /** What a cascade leaves: shielded and dying blocks stay, no survivor newly has count zero, and a
      slot disappears only with its block (`own` is the block whose members are being destroyed). */
  ghost predicate Cascaded(h: Heap, r: Heap, w: set<nat>, own: set<nat>) {
    && Shrinks(h, r)
    && w <= r.blocks.Keys
    && (forall b | b in h.blocks && h.blocks[b].count == 0 :: b in r.blocks && r.blocks[b].count == 0)
    && (forall b | b in r.blocks && b in h.blocks && h.blocks[b].count > 0 :: r.blocks[b].count > 0)
    && (forall s | s in h.slots && s.Member? && s.owner in r.blocks && s.owner !in own :: s in r.slots)
  }

  lemma DecrementKeeps(h: Heap, s: Slot, stale: set<Slot>)
    requires Inv(h, stale) && s in h.slots && s !in stale && h.slots[s].To?
    ensures h.slots[s].block in h.blocks && h.blocks[h.slots[s].block].count > 0
    ensures var d := AddCount(h, h.slots[s].block, -1);
            Inv(d, stale + {s}) && Cascaded(h, d, {}, {}) == (d.blocks[h.slots[s].block].count != 0)
  {
    var b := h.slots[s].block;
    var d := AddCount(h, b, -1);
    assert s in Owners(h, b, stale);
    forall c | c in d.blocks
      ensures d.blocks[c].count == |Owners(d, c, stale + {s})|
    {
      if c == b {
        assert Owners(d, b, stale + {s}) == Owners(h, b, stale) - {s};
      } else {
        assert Owners(d, c, stale + {s}) == Owners(h, c, stale);
      }
    }
  }

  lemma FreeKeeps(h: Heap, b: nat, stale: set<Slot>)
    requires Inv(h, stale) && b in h.blocks && h.blocks[b].count == 0
    requires forall j: nat :: Member(b, j) !in h.slots
    ensures Inv(FreeBlock(h, b), stale)
  {
    var r := FreeBlock(h, b);
    assert Owners(h, b, stale) == {};
    forall c | c in r.blocks
      ensures r.blocks[c].count == |Owners(r, c, stale)|
    {
      assert Owners(r, c, stale) == Owners(h, c, stale);
    }
    forall s | s in r.slots && s !in stale && r.slots[s].To?
      ensures r.slots[s].block in r.blocks
    {
      assert s in Owners(h, r.slots[s].block, stale);
    }
    forall s | s in r.slots && s.Member?
      ensures s.owner != b
    {
      assert s == Member(s.owner, s.index);
    }
  }

  lemma RemoveStale(h: Heap, m: Slot, stale: set<Slot>)
    requires Inv(h, stale + {m}) && m.Member? && m.owner in h.blocks && h.blocks[m.owner].count == 0
    ensures Inv(RemoveSlot(h, m), stale)
  {
    var r := RemoveSlot(h, m);
    forall c | c in r.blocks
      ensures r.blocks[c].count == |Owners(r, c, stale)|
    {
      assert Owners(r, c, stale) == Owners(h, c, stale + {m});
    }
  }

  /** A shield outlives whatever keeps its blocks, as long as no shielded block's member leaves. */
  lemma ShieldStays(h: Heap, gone: set<Slot>, r: Heap, left: set<Slot>, w: set<nat>)
    requires Shield(h, gone, w) && (forall s | s in r.slots && s in h.slots :: r.slots[s] == h.slots[s])
    requires forall s | s in h.slots && s !in gone && (s.Root? || s.owner in w) :: s in r.slots && s !in left
    ensures Shield(r, left, w)
  {
    forall b | b in w
      ensures Kept(r, left, w, b)
    {
      assert Kept(h, gone, w, b);
      var s :| Edge(h, gone, s, b) && (s.Root? || s.owner in w);
      assert Edge(r, left, s, b);
    }
  }

  lemma NoOwnersNotShielded(h: Heap, stale: set<Slot>, w: set<nat>, b: nat)
    requires Inv(h, stale) && Shield(h, stale, w) && b in h.blocks && h.blocks[b].count == 0
    ensures b !in w
  {
    assert Owners(h, b, stale) == {};
    assert forall s :: Edge(h, stale, s, b) ==> s in Owners(h, b, stale);
    assert !Kept(h, stale, w, b);
  }

  /** Inside `~T` on block `b`: the count is zero and exactly the members from `i` on are left. */
  ghost predicate Dying(h: Heap, b: nat, i: nat, n: nat, stale: set<Slot>, w: set<nat>) {
    && Inv(h, stale) && b in h.blocks && h.blocks[b].count == 0
    && (forall j: nat :: Member(b, j) in h.slots <==> i <= j < n)
    && (forall j: nat | i <= j < n :: Member(b, j) !in stale)
    && w <= h.blocks.Keys && Shield(h, stale, w) && Anchored(h, stale, w)
  }

  lemma ZeroStartsDying(h: Heap, s: Slot, stale: set<Slot>, w: set<nat>)
    requires Inv(h, stale) && s in h.slots && s !in stale && h.slots[s].To?
    requires w <= h.blocks.Keys && Shield(h, stale + {s}, w) && Anchored(h, stale + {s}, w)
    requires h.slots[s].block in h.blocks && h.blocks[h.slots[s].block].count == 1
    ensures var b := h.slots[s].block; Dying(AddCount(h, b, -1), b, 0, h.blocks[b].width, stale + {s}, w)
  {
    DecrementKeeps(h, s, stale);
    var d := AddCount(h, h.slots[s].block, -1);
    ShieldStays(h, stale + {s}, d, stale + {s}, w);
    NoOwnersNotShielded(d, stale + {s}, w, h.slots[s].block);
  }

  /** `e` is what `~T` on block `b` leaves behind. */
  ghost predicate Emptied(h: Heap, e: Heap, b: nat, stale: set<Slot>, w: set<nat>) {
    Dying(e, b, 0, 0, stale, w) && Cascaded(h, e, w, {b})
  }

  lemma BlockGone(h: Heap, b: nat, e: Heap, stale: set<Slot>, w: set<nat>)
    requires b in h.blocks && h.blocks[b].count == 1
    requires Emptied(AddCount(h, b, -1), e, b, stale, w)
    ensures Inv(FreeBlock(e, b), stale) && Cascaded(h, FreeBlock(e, b), w, {})
  {
    FreeKeeps(e, b, stale);
    NoOwnersNotShielded(e, stale, w, b);
  }

  lemma MemberGone(h: Heap, b: nat, i: nat, n: nat, r: Heap, stale: set<Slot>, w: set<nat>)
    requires i < n && Dying(h, b, i, n, stale, w)
    requires Inv(r, stale + {Member(b, i)}) && Cascaded(h, r, w, {})
    ensures var q := RemoveSlot(r, Member(b, i)); Dying(q, b, i + 1, n, stale, w) && Cascaded(h, q, w, {b})
  {
    var m := Member(b, i);
    RemoveStale(r, m, stale);
    NoOwnersNotShielded(h, stale, w, b);
    ShieldStays(h, stale, RemoveSlot(r, m), stale, w);
  }

  lemma EmptiedTransitive(h: Heap, q: Heap, e: Heap, b: nat, stale: set<Slot>, w: set<nat>)
    requires Cascaded(h, q, w, {b}) && Emptied(q, e, b, stale, w)
    ensures Emptied(h, e, b, stale, w)
  {
  }

  lemma {:induction false} ReleaseKeeps(h: Heap, s: Slot, stale: set<Slot>, w: set<nat>)
    requires Inv(h, stale) && s in h.slots && s !in stale
    requires w <= h.blocks.Keys && Shield(h, stale + {s}, w) && Anchored(h, stale + {s}, w)
    ensures Inv(Release(h, s), stale + {s}) && Cascaded(h, Release(h, s), w, {})
    decreases |Live(h.blocks)|, 0, 0
  {
    if h.slots[s].Null? {
      assert forall b :: Owners(h, b, stale + {s}) == Owners(h, b, stale);
      return;
    }
    DecrementKeeps(h, s, stale);
    var b := h.slots[s].block;
    var d := AddCount(h, b, -1);
    if d.blocks[b].count != 0 {
      return;
    }
    DecrementToZero(h, b);
    ZeroStartsDying(h, s, stale, w);
    DestroyKeeps(d, b, 0, d.blocks[b].width, stale + {s}, w);
    BlockGone(h, b, DestroyMembers(d, b, 0, d.blocks[b].width), stale + {s}, w);
  }

  lemma {:induction false} MemberKeeps(h: Heap, b: nat, i: nat, n: nat, stale: set<Slot>, w: set<nat>)
    requires i < n && Dying(h, b, i, n, stale, w)
    ensures var q := RemoveSlot(Release(h, Member(b, i)), Member(b, i));
            Dying(q, b, i + 1, n, stale, w) && Cascaded(h, q, w, {b}) && |Live(q.blocks)| <= |Live(h.blocks)|
    decreases |Live(h.blocks)|, n - i, 0
  {
    var m := Member(b, i);
    assert Shield(h, stale + {m}, w) by {
      NoOwnersNotShielded(h, stale, w, b);
      ShieldStays(h, stale, h, stale + {m}, w);
    }
    ReleaseKeeps(h, m, stale, w);
    MemberGone(h, b, i, n, Release(h, m), stale, w);
    ShrinksLive(h, Release(h, m));
  }

  lemma {:induction false} DestroyKeeps(h: Heap, b: nat, i: nat, n: nat, stale: set<Slot>, w: set<nat>)
    requires Dying(h, b, i, n, stale, w)
    ensures Emptied(h, DestroyMembers(h, b, i, n), b, stale, w)
    decreases |Live(h.blocks)|, n - i, 1
  {
    if i >= n {
      return;
    }
    var q := RemoveSlot(Release(h, Member(b, i)), Member(b, i));
    MemberKeeps(h, b, i, n, stale, w);
    DestroyKeeps(q, b, i + 1, n, stale, w);
    EmptiedTransitive(h, q, DestroyMembers(q, b, i + 1, n), b, stale, w);
  }
}
