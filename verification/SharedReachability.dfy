/**
 What the counting invariant of SharedGraph means for a program: which blocks a release frees, on every
 well-formed heap and in terms of reachability on acyclic ones, and when blocks leak.
 */
module SharedReachability {
  import opened SharedTypes
  import opened SharedGraph

  // ----- Reachability from the handles outside all blocks -----

  ghost predicate ReachIn(h: Heap, gone: set<Slot>, b: nat, n: nat)
    decreases n
  {
    exists s :: Edge(h, gone, s, b) && (s.Root? || (n > 0 && ReachIn(h, gone, s.owner, n - 1)))
  }

  /** `b` can be reached from a root without going through a slot of `gone`. */
  ghost predicate Reachable(h: Heap, gone: set<Slot>, b: nat) {
    exists n: nat :: ReachIn(h, gone, b, n)
  }

  /** The slot `x` stays accessible when `avoid` is taken away. */
  ghost predicate Grounded(h: Heap, avoid: Slot, x: Slot) {
    x.Root? || Reachable(h, {avoid}, x.owner)
  }

  /** A topological numbering: every member points to a block with a larger number than its own. */
  ghost predicate Ranked(h: Heap, rank: nat -> nat) {
    forall s | s in h.slots && s.Member? && h.slots[s].To? :: rank(s.owner) < rank(h.slots[s].block)
  }

  ghost predicate Acyclic(h: Heap) {
    exists rank: nat -> nat :: Ranked(h, rank)
  }

  ghost function ReachableBlocks(h: Heap, gone: set<Slot>): set<nat> {
    set b | b in h.blocks && Reachable(h, gone, b)
  }

  lemma ReachStep(h: Heap, gone: set<Slot>, s: Slot, b: nat)
    requires Edge(h, gone, s, b) && (s.Root? || Reachable(h, gone, s.owner))
    ensures Reachable(h, gone, b)
  {
    if s.Root? {
      assert ReachIn(h, gone, b, 0);
    } else {
      var n: nat :| ReachIn(h, gone, s.owner, n);
      assert ReachIn(h, gone, b, n + 1);
    }
  }

  lemma ReachableShields(h: Heap, stale: set<Slot>, gone: set<Slot>)
    requires Inv(h, stale)
    ensures Shield(h, gone, ReachableBlocks(h, gone))
  {
    var w := ReachableBlocks(h, gone);
    forall b | b in w
      ensures Kept(h, gone, w, b)
    {
      var n: nat :| ReachIn(h, gone, b, n);
      var s :| Edge(h, gone, s, b) && (s.Root? || (n > 0 && ReachIn(h, gone, s.owner, n - 1)));
      assert Edge(h, gone, s, b) && (s.Root? || s.owner in w);
    }
  }

  /** Taking slots away never makes a block reachable. */
  lemma {:induction false} ReachInShrinks(h: Heap, r: Heap, gone: set<Slot>, b: nat, n: nat)
    requires Shrinks(h, r) && ReachIn(r, gone, b, n)
    ensures Reachable(h, gone, b)
    decreases n
  {
    var s :| Edge(r, gone, s, b) && (s.Root? || (n > 0 && ReachIn(r, gone, s.owner, n - 1)));
    if s.Member? {
      ReachInShrinks(h, r, gone, s.owner, n - 1);
    }
    ReachStep(h, gone, s, b);
  }

  /** In a ranked heap with positive counts, walking up owners always ends at a root. */
  lemma {:induction false} Climb(h: Heap, stale: set<Slot>, extra: set<Slot>, rank: nat -> nat, b: nat)
    requires Inv(h, stale) && Quiet(h) && Ranked(h, rank) && b in h.blocks
    requires forall x | x in extra && x in h.slots && h.slots[x].To? :: rank(b) < rank(h.slots[x].block)
    ensures Reachable(h, stale + extra, b)
    decreases rank(b)
  {
    assert |Owners(h, b, stale)| > 0;
    var s :| s in Owners(h, b, stale);
    assert Edge(h, stale + extra, s, b);
    if s.Member? {
      Climb(h, stale, extra, rank, s.owner);
    }
    ReachStep(h, stale + extra, s, b);
  }

  // ----- Counting is reachability -----

  /** In every state between operations a reachable block is allocated. */
  lemma {:induction false} ReachableAllocated(h: Heap, b: nat)
    requires Inv(h, {}) && Reachable(h, {}, b)
    ensures b in h.blocks
  {
    var n: nat :| ReachIn(h, {}, b, n);
    var s :| Edge(h, {}, s, b);
  }

  /** If in addition the ownership graph is acyclic, exactly the reachable blocks are allocated. */
  lemma AllocatedIffReachable(h: Heap, b: nat)
    requires Ok(h) && Acyclic(h)
    ensures b in h.blocks <==> Reachable(h, {}, b)
  {
    if Reachable(h, {}, b) {
      ReachableAllocated(h, b);
    }
    if b in h.blocks {
      var rank: nat -> nat :| Ranked(h, rank);
      var none: set<Slot> := {};
      Climb(h, none, none, rank, b);
      assert none + none == none;
    }
  }

  /** A set of blocks all of whose owners are members of blocks in the set. */
  ghost predicate SelfOwned(h: Heap, w: set<nat>) {
    w <= h.blocks.Keys && forall s, b | b in w && Edge(h, {}, s, b) :: s.Member? && s.owner in w
  }

  lemma {:induction false} SelfOwnedUnreachable(h: Heap, w: set<nat>, b: nat, n: nat)
    requires SelfOwned(h, w) && b in w
    ensures !ReachIn(h, {}, b, n)
    decreases n
  {
    if ReachIn(h, {}, b, n) {
      var s :| Edge(h, {}, s, b) && (s.Root? || (n > 0 && ReachIn(h, {}, s.owner, n - 1)));
      SelfOwnedUnreachable(h, w, s.owner, n - 1);
    }
  }

  /** Without the assumption of acyclicity: blocks leak exactly when some blocks own each other and
      nobody else owns any of them. */
  lemma LeakIffSelfOwned(h: Heap)
    requires Ok(h)
    ensures (exists b :: b in h.blocks && !Reachable(h, {}, b)) <==> (exists w :: w != {} && SelfOwned(h, w))
  {
    if b :| b in h.blocks && !Reachable(h, {}, b) {
      var w := h.blocks.Keys - ReachableBlocks(h, {});
      forall s, c | c in w && Edge(h, {}, s, c)
        ensures s.Member? && s.owner in w
      {
        if s.Root? || Reachable(h, {}, s.owner) {
          ReachStep(h, {}, s, c);
        }
      }
      assert b in w && SelfOwned(h, w);
    }
    if w :| w != {} && SelfOwned(h, w) {
      var b :| b in w;
      forall n: nat {
        SelfOwnedUnreachable(h, w, b, n);
      }
      assert b in h.blocks && !Reachable(h, {}, b);
    }
  }

  // ----- What a release frees -----

  /** Block `b` belongs to a set of blocks that support each other, or are supported from outside, without
      the handle `avoid`. */
  ghost predicate Sheltered(h: Heap, avoid: Slot, b: nat) {
    exists w :: b in w && w <= h.blocks.Keys && Shield(h, {avoid}, w)
  }

  /** The slot `x` is outside all blocks or a member of a sheltered one. */
  ghost predicate Safe(h: Heap, avoid: Slot, x: Slot) {
    x.Root? || Sheltered(h, avoid, x.owner)
  }

  ghost function ShelteredBlocks(h: Heap, avoid: Slot): set<nat> {
    set b | b in h.blocks && Sheltered(h, avoid, b)
  }

  lemma ShelteredIsShield(h: Heap, avoid: Slot)
    ensures Shield(h, {avoid}, ShelteredBlocks(h, avoid))
  {
    var all := ShelteredBlocks(h, avoid);
    forall b | b in all
      ensures Kept(h, {avoid}, all, b)
    {
      var w :| b in w && w <= h.blocks.Keys && Shield(h, {avoid}, w);
      assert Kept(h, {avoid}, w, b);
      var s :| Edge(h, {avoid}, s, b) && (s.Root? || s.owner in w);
      assert s.Member? ==> Sheltered(h, avoid, s.owner);
      assert Edge(h, {avoid}, s, b) && (s.Root? || s.owner in all);
    }
  }

  /** The cascade started at a safe handle keeps the invariant and all that is sheltered from it. */
  lemma ReleaseOk(h: Heap, s: Slot)
    requires Ok(h) && s in h.slots && Safe(h, s, s)
    ensures var r := Release(h, s);
            && Inv(r, {s}) && Quiet(r) && s in r.slots
            && Cascaded(h, r, ShelteredBlocks(h, s), {})
  {
    var w := ShelteredBlocks(h, s);
    ShelteredIsShield(h, s);
    assert {} + {s} == {s};
    ReleaseKeeps(h, s, {}, w);
  }

  /** What is left after a release supports itself without the released handle. */
  lemma RemainsShield(h: Heap, r: Heap, s: Slot)
    requires Inv(r, {s}) && Quiet(r) && forall x | x in r.slots && x != s :: x in h.slots && r.slots[x] == h.slots[x]
    ensures Shield(h, {s}, r.blocks.Keys)
  {
    forall b | b in r.blocks.Keys
      ensures Kept(h, {s}, r.blocks.Keys, b)
    {
      assert |Owners(r, b, {s})| > 0;
      var x :| x in Owners(r, b, {s});
      assert Edge(h, {s}, x, b);
    }
  }

  // ----- A release that comes back to the released handle -----

  /** `k` is `h` with the handle `x` to the dying block `b` set to null.  In `h` the cascade may come
      back to `x` and decrement `b` once more, which never reaches zero again. */
  ghost predicate Twin(h: Heap, k: Heap, x: Slot, b: nat) {
    && h.slots.Keys == k.slots.Keys && h.blocks.Keys == k.blocks.Keys && h.fault == k.fault
    && (x in h.slots ==> h.slots[x] == To(b) && k.slots[x] == Null)
    && (forall s | s in h.slots && s != x :: h.slots[s] == k.slots[s] && k.slots[s] != To(b))
    && b in h.blocks && h.blocks[b].count <= 0 && k.blocks[b].count <= 0
    && (forall c | c in h.blocks && c != b :: h.blocks[c] == k.blocks[c])
  }

  lemma TwinDecrement(h: Heap, k: Heap, x: Slot, b: nat, c: nat)
    requires Twin(h, k, x, b) && c in h.blocks && c != b
    ensures Twin(AddCount(h, c, -1), AddCount(k, c, -1), x, b)
  {
  }

  lemma TwinFree(h: Heap, k: Heap, x: Slot, b: nat, c: nat)
    requires Twin(h, k, x, b) && c != b
    ensures Twin(FreeBlock(h, c), FreeBlock(k, c), x, b)
  {
  }

  lemma TwinRemove(h: Heap, k: Heap, x: Slot, b: nat, m: Slot)
    requires Twin(h, k, x, b)
    ensures Twin(RemoveSlot(h, m), RemoveSlot(k, m), x, b)
  {
  }

  /** Coming back to `x`: one decrement too many in `h`, nothing in `k`. */
  lemma TwinAgain(h: Heap, k: Heap, x: Slot, b: nat)
    requires Twin(h, k, x, b) && x in h.slots
    ensures Twin(Release(h, x), Release(k, x), x, b)
  {
    assert Release(h, x) == AddCount(h, b, -1);
    assert Release(k, x) == k;
  }

  lemma {:induction false} TwinRelease(h: Heap, k: Heap, x: Slot, b: nat, s: Slot)
    requires Twin(h, k, x, b)
    ensures Twin(Release(h, s), Release(k, s), x, b)
    decreases |Live(h.blocks)|, 0, 0
  {
    if s !in h.slots {
      return;
    }
    if s == x {
      TwinAgain(h, k, x, b);
      return;
    }
    if h.slots[s].Null? || h.slots[s].block !in h.blocks {
      return;
    }
    var c := h.slots[s].block;
    var d, e := AddCount(h, c, -1), AddCount(k, c, -1);
    TwinDecrement(h, k, x, b, c);
    if d.blocks[c].count != 0 {
      assert Release(h, s) == d && Release(k, s) == e;
      return;
    }
    var n := d.blocks[c].width;
    DecrementToZero(h, c);
    TwinDestroy(d, e, x, b, c, 0, n);
    TwinFree(DestroyMembers(d, c, 0, n), DestroyMembers(e, c, 0, n), x, b, c);
    assert Release(h, s) == FreeBlock(DestroyMembers(d, c, 0, n), c);
    assert Release(k, s) == FreeBlock(DestroyMembers(e, c, 0, n), c);
  }

  lemma {:induction false} TwinDestroy(h: Heap, k: Heap, x: Slot, b: nat, c: nat, i: nat, n: nat)
    requires Twin(h, k, x, b)
    ensures Twin(DestroyMembers(h, c, i, n), DestroyMembers(k, c, i, n), x, b)
    decreases |Live(h.blocks)|, n - i, 1
  {
    if i >= n {
      return;
    }
    var m := Member(c, i);
    var r, q := Release(h, m), Release(k, m);
    TwinRelease(h, k, x, b, m);
    ShrinksLive(h, r);
    TwinRemove(r, q, x, b, m);
    TwinDestroy(RemoveSlot(r, m), RemoveSlot(q, m), x, b, c, i + 1, n);
  }

  lemma NullIsStale(h: Heap, s: Slot)
    requires Inv(h, {}) && (s in h.slots ==> h.slots[s].Null?)
    ensures Inv(h, {s})
  {
    assert forall b :: Owners(h, b, {s}) == Owners(h, b, {});
  }

  lemma StaleIsNull(h: Heap, s: Slot)
    requires Inv(h, {s}) && s in h.slots
    ensures Inv(Write(h, s, Null), {})
  {
    assert forall b :: Owners(Write(h, s, Null), b, {}) == Owners(h, b, {s});
  }

  /** A shield without the handle `s` is one of the heap in which `s` is null. */
  lemma ShieldWithoutNull(h: Heap, k: Heap, s: Slot, w: set<nat>)
    requires Shield(h, {s}, w) && s in h.slots && k.slots == h.slots[s := Null]
    ensures Shield(k, {}, w)
  {
    forall b | b in w
      ensures Kept(k, {}, w, b)
    {
      assert Kept(h, {s}, w, b);
      var x :| Edge(h, {s}, x, b) && (x.Root? || x.owner in w);
      assert Edge(k, {}, x, b);
    }
  }

  lemma NulledStart(h: Heap, s: Slot, b: nat, w: set<nat>, k: Heap)
    requires Ok(h) && s in h.slots && h.slots[s] == To(b) && b in h.blocks && h.blocks[b].count == 1
    requires w <= h.blocks.Keys && Shield(h, {s}, w) && k == Write(AddCount(h, b, -1), s, Null)
    ensures Twin(AddCount(h, b, -1), k, s, b) && Dying(k, b, 0, h.blocks[b].width, {}, w)
  {
    DecrementKeeps(h, s, {});
    var d := AddCount(h, b, -1);
    assert {} + {s} == {s};
    StaleIsNull(d, s);
    ShieldWithoutNull(h, k, s, w);
    assert Owners(k, b, {}) == {};
    assert forall x | x in k.slots && k.slots[x] == To(b) :: x in Owners(k, b, {});
  }

  /** The cascade of the last handle of block `b`, with that handle set to null before it starts. */
  lemma NulledCascade(h: Heap, s: Slot, b: nat, w: set<nat>, k: Heap, r: Heap)
    requires Ok(h) && s in h.slots && h.slots[s] == To(b) && b in h.blocks && h.blocks[b].count == 1
    requires w <= h.blocks.Keys && Shield(h, {s}, w) && k == Write(AddCount(h, b, -1), s, Null)
    requires r == FreeBlock(DestroyMembers(k, b, 0, h.blocks[b].width), b)
    ensures Inv(r, {}) && Quiet(r) && Cascaded(Write(h, s, Null), r, w, {})
    ensures r.slots.Keys == Release(h, s).slots.Keys && r.blocks.Keys == Release(h, s).blocks.Keys
  {
    NulledStart(h, s, b, w, k);
    var d, n := AddCount(h, b, -1), h.blocks[b].width;
    DestroyKeeps(k, b, 0, n, {}, w);
    assert AddCount(Write(h, s, Null), b, -1) == k;
    BlockGone(Write(h, s, Null), b, DestroyMembers(k, b, 0, n), {}, w);
    TwinDestroy(d, k, s, b, b, 0, n);
    assert Release(h, s) == FreeBlock(DestroyMembers(d, b, 0, n), b);
  }

  /** Any heap that keeps exactly the members of its blocks and supports itself without `s` is what is
      sheltered from `s`. */
  lemma RemainsAreSheltered(h: Heap, r: Heap, s: Slot)
    requires Inv(r, {s}) && Quiet(r) && r.blocks.Keys <= h.blocks.Keys && ShelteredBlocks(h, s) <= r.blocks.Keys
    requires forall x | x in r.slots && x != s :: x in h.slots && r.slots[x] == h.slots[x]
    ensures r.blocks.Keys == ShelteredBlocks(h, s)
  {
    RemainsShield(h, r, s);
    forall b | b in r.blocks.Keys
      ensures Sheltered(h, s, b)
    {
      assert b in r.blocks.Keys && r.blocks.Keys <= h.blocks.Keys && Shield(h, {s}, r.blocks.Keys);
    }
  }

  /** On every well-formed heap, cyclic or not, and for every handle, a release frees exactly the blocks
      that are not sheltered from it. */
  lemma ReleaseFreesExactlyUnsheltered(h: Heap, s: Slot)
    requires Ok(h) && s in h.slots
    ensures Release(h, s).blocks.Keys == ShelteredBlocks(h, s)
    ensures forall x | x in h.slots && x.Member? :: x in Release(h, s).slots <==> x.owner in Release(h, s).blocks
  {
    if h.slots[s].Null? {
      NullIsStale(h, s);
      RemainsAreSheltered(h, h, s);
      return;
    }
    DecrementKeeps(h, s, {});
    assert {} + {s} == {s};
    var b := h.slots[s].block;
    var d := AddCount(h, b, -1);
    if h.blocks[b].count > 1 {
      RemainsAreSheltered(h, d, s);
      return;
    }
    var w := ShelteredBlocks(h, s);
    ShelteredIsShield(h, s);
    var k := Write(d, s, Null);
    var r := FreeBlock(DestroyMembers(k, b, 0, h.blocks[b].width), b);
    NulledCascade(h, s, b, w, k, r);
    NulledLeaves(h, s, w, r);
  }

  lemma NulledLeaves(h: Heap, s: Slot, w: set<nat>, r: Heap)
    requires s in h.slots && w == ShelteredBlocks(h, s)
    requires Inv(r, {}) && Quiet(r) && Cascaded(Write(h, s, Null), r, w, {})
    ensures r.blocks.Keys == w
    ensures forall x | x in h.slots && x.Member? :: x in r.slots <==> x.owner in r.blocks
  {
    NullIsStale(r, s);
    RemainsAreSheltered(h, r, s);
  }

  /** On every well-formed heap a handle survives the release of `s` exactly when it is safe from it;
      this includes `s` itself. */
  lemma SurvivesReleaseIff(h: Heap, s: Slot, x: Slot)
    requires Ok(h) && s in h.slots && x in h.slots
    ensures x in Release(h, s).slots <==> Safe(h, s, x)
  {
    ReleaseFreesExactlyUnsheltered(h, s);
    if x.Member? {
      assert x.owner in ShelteredBlocks(h, s) <==> Sheltered(h, s, x.owner);
    }
  }

  // ----- Acyclic heaps: sheltered is reachable -----

  lemma GroundedIsSafe(h: Heap, avoid: Slot, x: Slot)
    requires Ok(h) && Grounded(h, avoid, x) && (x.Member? ==> x.owner in h.blocks)
    ensures Safe(h, avoid, x)
  {
    if x.Member? {
      ReachableShields(h, {}, {avoid});
      assert x.owner in ReachableBlocks(h, {avoid});
    }
  }

  lemma OwnerGrounded(h: Heap, s: Slot)
    requires Ok(h) && Acyclic(h) && s in h.slots
    ensures Grounded(h, s, s) && Safe(h, s, s)
  {
    if s.Member? {
      var rank: nat -> nat :| Ranked(h, rank);
      Climb(h, {}, {s}, rank, s.owner);
      assert {} + {s} == {s};
    }
    GroundedIsSafe(h, s, s);
  }

  /** In an acyclic heap a release frees exactly the blocks that only the released handle kept reachable. */
  lemma ReleaseFreesExactlyUnreachable(h: Heap, s: Slot, b: nat)
    requires Ok(h) && Acyclic(h) && s in h.slots && b in h.blocks
    ensures b in Release(h, s).blocks <==> Reachable(h, {s}, b)
  {
    OwnerGrounded(h, s);
    ReleaseOk(h, s);
    var r := Release(h, s);
    if b in r.blocks {
      var rank: nat -> nat :| Ranked(h, rank);
      assert Ranked(r, rank);
      Climb(r, {s}, {}, rank, b);
      assert {s} + {} == {s};
      var n: nat :| ReachIn(r, {s}, b, n);
      ReachInShrinks(h, r, {s}, b, n);
    }
    if Reachable(h, {s}, b) {
      ReachableShields(h, {}, {s});
      assert b in ReachableBlocks(h, {s});
      assert Sheltered(h, s, b);
    }
  }

  lemma SafeIffGrounded(h: Heap, avoid: Slot, x: Slot)
    requires Ok(h) && Acyclic(h) && avoid in h.slots && x in h.slots
    ensures Safe(h, avoid, x) <==> Grounded(h, avoid, x)
  {
    if x.Member? {
      ReleaseFreesExactlyUnsheltered(h, avoid);
      ReleaseFreesExactlyUnreachable(h, avoid, x.owner);
      assert x.owner in ShelteredBlocks(h, avoid) <==> Sheltered(h, avoid, x.owner);
    }
  }
}
