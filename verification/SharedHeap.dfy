/**
 The SharedPtr operations in the original's imperative form: each method updates the slots and the
 blocks step by step and is proved to compute the function of the same name in SharedGraph.
 */
module SharedHeap {
  import opened SharedTypes
  import opened SharedGraph

  class SharedHeap {
    var slots: map<Slot, Ptr>
    var blocks: map<nat, Block>
    var fault: bool

    ghost function State(): Heap
      reads this
    {
      Heap(slots, blocks, fault)
    }

    constructor ()
      ensures State() == Heap(map[], map[], false)
    {
      slots, blocks, fault := map[], map[], false;
    }

    method ReleaseHandle(s: Slot)
      modifies this
      ensures State() == Release(old(State()), s)
      decreases |Live(blocks)|, 0
    {
      if s !in slots {
        fault := true;
        return;
      }
      var cb := slots[s];
      if cb.To? {
        if cb.block !in blocks {
          fault := true;
          return;
        }
        var count := blocks[cb.block].count - 1;
        if count == 0 {
          DecrementToZero(State(), cb.block);
        }
        blocks := blocks[cb.block := blocks[cb.block].(count := count)];
        if count == 0 {
          DestroyObject(cb.block, blocks[cb.block].width);
          Kfree(cb.block);
        }
      }
    }

    /** `~T` for an object whose only resources are its `n` member handles. */
    method DestroyObject(b: nat, n: nat)
      modifies this
      ensures State() == DestroyMembers(old(State()), b, 0, n)
      decreases |Live(blocks)|, 1
    {
      ghost var before := State();
      var i := 0;
      while i < n
        invariant i <= n
        invariant DestroyMembers(State(), b, i, n) == DestroyMembers(before, b, 0, n)
        invariant |Live(blocks)| <= |Live(before.blocks)|
      {
        ghost var h := State();
        ReleaseHandle(Member(b, i));
        ShrinksLive(h, State());
        slots := slots - {Member(b, i)};
        i := i + 1;
      }
    }

    method Kfree(b: nat)
      modifies this
      ensures State() == FreeBlock(old(State()), b)
    {
      if b in blocks {
        blocks := blocks - {b};
      } else {
        fault := true;
      }
    }

    method Increment(p: Ptr)
      modifies this
      ensures State() == Acquire(old(State()), p)
    {
      if p.To? {
        if p.block in blocks {
          blocks := blocks[p.block := blocks[p.block].(count := blocks[p.block].count + 1)];
        } else {
          fault := true;
        }
      }
    }

    method DestroyHandle(s: Slot)
      modifies this
      ensures State() == Destroy(old(State()), s)
    {
      ReleaseHandle(s);
      slots := slots - {s};
    }

    method CopyConstructHandle(s: Slot, other: Slot)
      modifies this
      ensures State() == CopyConstruct(old(State()), s, other)
    {
      if other !in slots {
        fault := true;
        return;
      }
      var cb := slots[other];
      slots := slots[s := cb];
      Increment(cb);
    }

    method MoveConstructHandle(s: Slot, other: Slot)
      modifies this
      ensures State() == MoveConstruct(old(State()), s, other)
    {
      if other !in slots {
        fault := true;
        return;
      }
      slots := slots[s := slots[other]];
      slots := slots[other := Null];
    }

    method CopyAssignHandle(dst: Slot, other: Slot)
      modifies this
      ensures State() == CopyAssign(old(State()), dst, other)
    {
      if dst != other {
        ReleaseHandle(dst);
        if dst !in slots || other !in slots {
          fault := true;
          return;
        }
        var cb := slots[other];
        slots := slots[dst := cb];
        Increment(cb);
      }
    }

    method MoveAssignHandle(dst: Slot, other: Slot)
      modifies this
      ensures State() == MoveAssign(old(State()), dst, other)
    {
      if dst != other {
        ReleaseHandle(dst);
        if dst !in slots || other !in slots {
          fault := true;
          return;
        }
        slots := slots[dst := slots[other]];
        slots := slots[other := Null];
      }
    }

    /** Null when the allocation fails (`obtained` is false). */
    method MakeShared(s: Slot, b: nat, width: nat, obtained: bool)
      modifies this
      ensures State() == Make(old(State()), s, b, width, obtained)
    {
      if !obtained {
        slots := slots[s := Null];
        return;
      }
      blocks := blocks[b := Block(1, width)];
      slots := slots + NullMembers(b, width);
      slots := slots + map[s := To(b)];
    }
  }
}
