/**
 List: a circular doubly linked intrusive list over heap nodes, with the pointer updates of
 linux/list.h.  `null` stands for the poison values that list_del leaves in a removed node.
 */
module Ring {

  class ListHead {
    var next: ListHead?
    var prev: ListHead?

    constructor ()
    {
      next, prev := null, null;
    }
  }

  function Succ(i: nat, n: nat): nat
    requires i < n
  {
    if i + 1 == n then 0 else i + 1
  }

  function Pred(i: nat, n: nat): nat
    requires i < n
  {
    if i == 0 then n - 1 else i - 1
  }

  ghost predicate Distinct<T>(s: seq<T>) {
    forall i, j | 0 <= i < j < |s| :: s[i] != s[j]
  }

  /** `c` is a ring: `next` goes around it one way, `prev` the other way, and no node occurs twice. */
  ghost predicate Linked(c: seq<ListHead>)
    reads c
  {
    && |c| > 0 && Distinct(c)
    && (forall i {:trigger c[i].next} | 0 <= i < |c| :: c[i].next == c[Succ(i, |c|)])
    && (forall i {:trigger c[i].prev} | 0 <= i < |c| :: c[i].prev == c[Pred(i, |c|)])
  }

  /** `next` and `prev` undo each other all around a ring. */
  lemma NextPrevInverse(c: seq<ListHead>, x: ListHead)
    requires Linked(c) && x in c
    ensures x.next != null && x.next in c && x.next.prev == x
    ensures x.prev != null && x.prev in c && x.prev.next == x
  {
    var i :| 0 <= i < |c| && c[i] == x;
    InverseAt(c, i);
  }

  lemma InverseAt(c: seq<ListHead>, i: nat)
    requires Linked(c) && i < |c|
    ensures c[i].next == c[Succ(i, |c|)] && c[Succ(i, |c|)].prev == c[i]
    ensures c[i].prev == c[Pred(i, |c|)] && c[Pred(i, |c|)].next == c[i]
  {
    var j, k := Succ(i, |c|), Pred(i, |c|);
    assert c[j].prev == c[Pred(j, |c|)] && Pred(j, |c|) == i;
    assert c[k].next == c[Succ(k, |c|)] && Succ(k, |c|) == i;
  }

  /** `d` is `c` with `node` put in after position `i`. */
  ghost predicate PutAfter(c: seq<ListHead>, i: nat, node: ListHead, d: seq<ListHead>) {
    && i < |c| && |d| == |c| + 1
    && (forall j | 0 <= j <= i :: d[j] == c[j])
    && d[i + 1] == node
    && (forall j | i + 1 < j < |d| :: d[j] == c[j - 1])
  }

  lemma InsertLinks(c: seq<ListHead>, i: nat, node: ListHead, d: seq<ListHead>)
    requires Distinct(c) && node !in c && PutAfter(c, i, node, d)
    requires forall j {:trigger c[j].next} | 0 <= j < |c| :: c[j].next == if j == i then node else c[Succ(j, |c|)]
    requires forall j {:trigger c[j].prev} | 0 <= j < |c| ::
               c[j].prev == if j == Succ(i, |c|) then node else c[Pred(j, |c|)]
    requires node.next == c[Succ(i, |c|)] && node.prev == c[i]
    ensures Linked(d)
  {
    forall j | 0 <= j < |d|
      ensures d[j].next == d[Succ(j, |d|)]
    {
      if j <= i {
        assert d[j] == c[j];
      } else if j > i + 1 {
        assert d[j] == c[j - 1];
      }
    }
    forall j | 0 <= j < |d|
      ensures d[j].prev == d[Pred(j, |d|)]
    {
      if j <= i {
        assert d[j] == c[j];
      } else if j > i + 1 {
        assert d[j] == c[j - 1];
      }
    }
  }

  /** __list_add: link `node` between the neighbours `prev` and `next`. */
  method Insert(node: ListHead, prev: ListHead, next: ListHead, ghost c: seq<ListHead>, ghost i: nat)
    requires Linked(c) && node !in c && i < |c| && prev == c[i] && next == c[Succ(i, |c|)]
    modifies node, prev, next
    ensures Linked(c[..i + 1] + [node] + c[i + 1..])
  {
    next.prev := node;
    node.next := next;
    node.prev := prev;
    prev.next := node;
    InsertLinks(c, i, node, c[..i + 1] + [node] + c[i + 1..]);
  }

  /** list_del: join the neighbours of `node` and poison it. */
  method Unlink(node: ListHead, ghost c: seq<ListHead>, ghost i: nat)
    requires Linked(c) && 0 < i < |c| && node == c[i]
    modifies node, node.prev, node.next
    ensures Linked(c[..i] + c[i + 1..])
    ensures node.next == null && node.prev == null
  {
    var prev, next := node.prev, node.next;
    next.prev := prev;
    prev.next := next;
    node.next := null;
    node.prev := null;
    UnlinkLinks(c, i, c[..i] + c[i + 1..]);
  }

  ghost predicate TakenOut(c: seq<ListHead>, i: nat, d: seq<ListHead>) {
    && i < |c| && |d| == |c| - 1
    && (forall j | 0 <= j < i :: d[j] == c[j])
    && (forall j | i <= j < |d| :: d[j] == c[j + 1])
  }

  lemma UnlinkLinks(c: seq<ListHead>, i: nat, d: seq<ListHead>)
    requires Distinct(c) && i > 0 && TakenOut(c, i, d)
    requires forall j {:trigger c[j].next} | 0 <= j < |c| && j != i ::
               c[j].next == if j == Pred(i, |c|) then c[Succ(i, |c|)] else c[Succ(j, |c|)]
    requires forall j {:trigger c[j].prev} | 0 <= j < |c| && j != i ::
               c[j].prev == if j == Succ(i, |c|) then c[Pred(i, |c|)] else c[Pred(j, |c|)]
    ensures Linked(d)
  {
    forall j | 0 <= j < |d|
      ensures d[j].next == d[Succ(j, |d|)]
    {
      assert d[j] == if j < i then c[j] else c[j + 1];
    }
    forall j | 0 <= j < |d|
      ensures d[j].prev == d[Pred(j, |d|)]
    {
      assert d[j] == if j < i then c[j] else c[j + 1];
    }
  }

  // ----- Lists -----

  class List {
    const head: ListHead
    /** The linked nodes in order, without the head. */
    ghost var elems: seq<ListHead>

    ghost function Cycle(): seq<ListHead>
      reads this
    {
      [head] + elems
    }

    ghost predicate Valid()
      reads this, Cycle()
    {
      Linked(Cycle())
    }

    /** INIT_LIST_HEAD: the head points at itself both ways. */
    constructor ()
      ensures Valid() && elems == [] && fresh(head)
    {
      head := new ListHead();
      elems := [];
      new;
      head.next := head;
      head.prev := head;
    }

    /** Where the head's own pointers lead. */
    lemma Ends()
      requires Valid()
      ensures head.next == Cycle()[Succ(0, |elems| + 1)]
      ensures head.prev == Cycle()[|elems|] && Cycle()[|elems|].next == head
    {
      assert Cycle()[0].next == Cycle()[Succ(0, |elems| + 1)];
      assert Cycle()[0].prev == Cycle()[Pred(0, |elems| + 1)];
      assert Cycle()[|elems|].next == Cycle()[Succ(|elems|, |elems| + 1)];
    }

    method Empty() returns (r: bool)
      requires Valid()
      ensures r <==> elems == []
      ensures r <==> head.next == head
    {
      Ends();
      r := head.next == head;
    }

    /** Walks from begin() to end(): every linked node once, in order. */
    method Traverse() returns (visited: seq<ListHead>)
      requires Valid()
      ensures visited == elems
    {
      visited := [];
      Ends();
      var it := head.next;
      while it != head
        invariant |visited| <= |elems| && visited == elems[..|visited|]
        invariant it == Cycle()[Succ(|visited|, |elems| + 1)]
        decreases |elems| - |visited|
      {
        assert Cycle()[|visited| + 1].next == Cycle()[Succ(|visited| + 1, |elems| + 1)];
        visited := visited + [it];
        it := it.next;
      }
    }

    /** list_add on one ring. */
    method LinkFirst(node: ListHead)
      requires Valid() && node !in Cycle()
      modifies this`elems, node, head, head.next
      ensures Valid() && elems == [node] + old(elems)
    {
      ghost var c := Cycle();
      Ends();
      Insert(node, head, head.next, c, 0);
      elems := [node] + elems;
      assert Cycle() == c[..1] + [node] + c[1..];
    }

    /** list_add_tail on one ring. */
    method LinkLast(node: ListHead)
      requires Valid() && node !in Cycle()
      modifies this`elems, node, head, head.prev
      ensures Valid() && elems == old(elems) + [node]
    {
      ghost var c := Cycle();
      ghost var last := |elems|;
      Ends();
      Insert(node, head.prev, head, c, last);
      elems := elems + [node];
      assert Cycle() == c[..last + 1] + [node] + c[last + 1..];
    }

    /** list_del of the `j`-th node of list `l`. */
    static method UnlinkFrom(node: ListHead, ghost l: List, ghost j: nat)
      requires l.Valid() && j < |l.elems| && l.elems[j] == node
      modifies l`elems, node, node.prev, node.next
      ensures l.Valid() && l.elems == Without(old(l.elems), node)
      ensures node.next == null && node.prev == null
    {
      ghost var c, i := l.Cycle(), j + 1;
      assert c[i] == node;
      assert Without(l.elems, node) == l.elems[..j] + l.elems[i..] by {
        assert forall a | 0 <= a < j :: l.elems[a] == c[a + 1];
        WithoutAt(l.elems, j, node);
      }
      Unlink(node, c, i);
      l.elems := l.elems[..j] + l.elems[i..];
      assert l.Cycle() == c[..i] + c[i + 1..];
    }

    /** The nodes of this list are on no other list. */
    lemma OnNoOther(world: set<List>, nodes: set<ListHead>, x: ListHead)
      requires World(world, nodes) && this in world && x in Cycle()
      ensures forall k | k in world && k != this :: x !in k.Cycle()
    {
      forall k | k in world && k != this
        ensures x !in k.Cycle()
      {
        assert Apart(this, k);
      }
    }

    /** Nor are the neighbours of a node of this list. */
    lemma NeighboursOnNoOther(world: set<List>, nodes: set<ListHead>, j: nat)
      requires World(world, nodes) && this in world && j < |elems|
      ensures elems[j].next != null && elems[j].prev != null
      ensures elems[j] in Cycle() && elems[j].next in Cycle() && elems[j].prev in Cycle()
      ensures forall k | k in world && k != this ::
                elems[j] !in k.Cycle() && elems[j].next !in k.Cycle() && elems[j].prev !in k.Cycle()
    {
      var c := Cycle();
      assert c[j + 1] == elems[j];
      assert c[j + 1].next == c[Succ(j + 1, |c|)] && c[j + 1].prev == c[Pred(j + 1, |c|)];
      OnNoOther(world, nodes, elems[j]);
      OnNoOther(world, nodes, elems[j].next);
      OnNoOther(world, nodes, elems[j].prev);
    }

    method Add(node: ListHead, ghost world: set<List>, ghost nodes: set<ListHead>)
      requires World(world, nodes) && this in world && Unlinked(world, node) && node in nodes
      modifies this`elems, node, head, head.next
      ensures World(world, nodes)
      ensures View(world) == old(View(world))[this := [node] + old(elems)]
    {
      ghost var c := Cycle();
      Ends();
      OnNoOther(world, nodes, head);
      OnNoOther(world, nodes, head.next);
      LinkFirst(node);
      StillApart(world, nodes, this, c, node);
    }

    method AddTail(node: ListHead, ghost world: set<List>, ghost nodes: set<ListHead>)
      requires World(world, nodes) && this in world && Unlinked(world, node) && node in nodes
      modifies this`elems, node, head, head.prev
      ensures World(world, nodes)
      ensures View(world) == old(View(world))[this := old(elems) + [node]]
    {
      ghost var c := Cycle();
      Ends();
      OnNoOther(world, nodes, head);
      OnNoOther(world, nodes, head.prev);
      LinkLast(node);
      StillApart(world, nodes, this, c, node);
    }

    /** Unlinking from one list leaves the rings of all others alone. */
    static method UnlinkIn(node: ListHead, ghost world: set<List>, ghost nodes: set<ListHead>,
                           ghost l: List, ghost j: nat)
      requires World(world, nodes) && l in world && j < |l.elems| && l.elems[j] == node
      modifies l`elems, node, node.prev, node.next
      ensures l.Valid() && l.elems == Without(old(l.elems), node)
      ensures forall k | k in world && k != l :: k.Valid() && node !in k.Cycle()
      ensures node.next == null && node.prev == null
    {
      l.NeighboursOnNoOther(world, nodes, j);
      UnlinkFrom(node, l, j);
    }

    static method DelFrom(node: ListHead, ghost world: set<List>, ghost nodes: set<ListHead>,
                          ghost l: List, ghost j: nat)
      requires World(world, nodes) && l in world && j < |l.elems| && l.elems[j] == node
      modifies l`elems, node, node.prev, node.next
      ensures World(world, nodes) && l.elems == Without(old(l.elems), node)
      ensures forall k | k in world && k != l :: node !in k.Cycle()
      ensures node.next == null && node.prev == null
    {
      ghost var c := l.Cycle();
      assert c[j + 1] == node;
      WithoutSubset(l.elems, node);
      UnlinkIn(node, world, nodes, l, j);
      assert forall x | x in l.Cycle() :: x in c;
      StillApart(world, nodes, l, c, node);
    }

    /** Removes a node from whichever list of `world` holds it. */
    static method Del(node: ListHead, ghost world: set<List>, ghost nodes: set<ListHead>)
      requires World(world, nodes) && exists l :: l in world && node in l.elems
      modifies world`elems, node, node.prev, node.next
      ensures World(world, nodes)
      ensures View(world) == RemoveFromAll(old(View(world)), node)
      ensures node.next == null && node.prev == null
    {
      ghost var l :| l in world && node in l.elems;
      ghost var j :| 0 <= j < |l.elems| && l.elems[j] == node;
      ghost var v := View(world);
      DelFrom(node, world, nodes, l, j);
      assert forall k | k in world && k != l :: node !in k.Cycle()[1..];
      ViewWithout(world, v, l, node);
    }
  }

  /** All lists are rings over `nodes` and no two of them share a node. */
  ghost predicate World(lists: set<List>, nodes: set<ListHead>)
    reads lists, nodes
  {
    && (forall l | l in lists :: Within(l, nodes))
    && (forall l | l in lists :: l.Valid())
    && (forall l, k | l in lists && k in lists && l != k :: Apart(l, k))
  }

  ghost predicate Within(l: List, nodes: set<ListHead>)
    reads l
  {
    forall x | x in l.Cycle() :: x in nodes
  }

  ghost predicate Apart(l: List, k: List)
    reads l, k
  {
    forall x | x in l.Cycle() :: x !in k.Cycle()
  }

  lemma ViewWithout(lists: set<List>, v: Sequences, l: List, node: ListHead)
    requires v.Keys == lists && l in lists && l.elems == Without(v[l], node)
    requires forall k | k in lists && k != l :: k.elems == v[k] && node !in v[k]
    ensures View(lists) == RemoveFromAll(v, node)
  {
    forall k | k in lists && k != l {
      WithoutAbsent(v[k], node);
    }
  }

  /** List `l`, whose ring was `c`, has changed by at most `node`; all else is as it was. */
  lemma StillApart(lists: set<List>, nodes: set<ListHead>, l: List, c: seq<ListHead>, node: ListHead)
    requires l in lists && l.Valid() && node in nodes
    requires forall x | x in l.Cycle() :: x == node || x in c
    requires forall x | x in c :: x in nodes
    requires forall k | k in lists && k != l :: Within(k, nodes) && k.Valid() && node !in k.Cycle()
    requires forall k, x | k in lists && k != l && x in c :: x !in k.Cycle()
    requires forall k, m | k in lists && m in lists && k != m && k != l && m != l :: Apart(k, m)
    ensures World(lists, nodes)
  {
  }

  ghost predicate Unlinked(lists: set<List>, node: ListHead)
    reads lists
  {
    forall l | l in lists :: node !in l.Cycle()
  }

  /** `s` without the first occurrence of `x`. */
  function Without<T(==)>(s: seq<T>, x: T): seq<T> {
    if s == [] then [] else if s[0] == x then s[1..] else [s[0]] + Without(s[1..], x)
  }

  lemma {:induction false} WithoutAt<T>(s: seq<T>, i: nat, x: T)
    requires i < |s| && s[i] == x && forall j | 0 <= j < i :: s[j] != x
    ensures Without(s, x) == s[..i] + s[i + 1..]
  {
    if i > 0 {
      WithoutAt(s[1..], i - 1, x);
    }
  }

  lemma {:induction false} WithoutSubset<T>(s: seq<T>, x: T)
    ensures forall y | y in Without(s, x) :: y in s
  {
    if s != [] {
      WithoutSubset(s[1..], x);
    }
  }

  lemma {:induction false} WithoutAbsent<T>(s: seq<T>, x: T)
    requires x !in s
    ensures Without(s, x) == s
  {
    if s != [] {
      WithoutAbsent(s[1..], x);
    }
  }

  // ----- Runs over any number of lists -----

  datatype Op = PushFront(list: List, node: ListHead) | PushBack(list: List, node: ListHead) | Remove(node: ListHead)

  type Sequences = map<List, seq<ListHead>>

  ghost function View(world: set<List>): Sequences
    reads world
  {
    map l | l in world :: l.elems
  }

  /** The abstract operations: prepend, append, and removal from whichever sequence holds the node. */
  ghost function ApplyOp(v: Sequences, op: Op): Sequences {
    match op
    case PushFront(l, node) => if l in v then v[l := [node] + v[l]] else v
    case PushBack(l, node) => if l in v then v[l := v[l] + [node]] else v
    case Remove(node) => RemoveFromAll(v, node)
  }

  ghost function RemoveFromAll(v: Sequences, node: ListHead): Sequences {
    map l | l in v :: Without(v[l], node)
  }

  ghost function ApplyOps(v: Sequences, ops: seq<Op>): Sequences
    decreases |ops|
  {
    if ops == [] then v else ApplyOps(ApplyOp(v, ops[0]), ops[1..])
  }

  /** A node to be linked is not linked anywhere and is no list's head; a node to be removed is linked. */
  ghost predicate Legal(v: Sequences, nodes: set<ListHead>, op: Op) {
    match op
    case PushFront(l, node) => l in v && Loose(v, nodes, node)
    case PushBack(l, node) => l in v && Loose(v, nodes, node)
    case Remove(node) => exists l :: l in v && node in v[l]
  }

  ghost predicate Loose(v: Sequences, nodes: set<ListHead>, node: ListHead) {
    node in nodes && forall l | l in v :: node != l.head && node !in v[l]
  }

  ghost predicate LegalRun(v: Sequences, nodes: set<ListHead>, ops: seq<Op>)
    decreases |ops|
  {
    ops == [] || (Legal(v, nodes, ops[0]) && LegalRun(ApplyOp(v, ops[0]), nodes, ops[1..]))
  }

  method ExecuteOp(op: Op, ghost world: set<List>, ghost nodes: set<ListHead>)
    requires World(world, nodes) && Legal(View(world), nodes, op)
    modifies world`elems, nodes
    ensures World(world, nodes) && View(world) == ApplyOp(old(View(world)), op)
  {
    match op
    case PushFront(l, node) =>
      l.Ends();
      l.Add(node, world, nodes);
    case PushBack(l, node) =>
      l.Ends();
      l.AddTail(node, world, nodes);
    case Remove(node) =>
      Linkage(node, world, nodes);
      List.Del(node, world, nodes);
  }

  /** The neighbours of a linked node are nodes of the world. */
  lemma Linkage(node: ListHead, world: set<List>, nodes: set<ListHead>)
    requires World(world, nodes) && exists l :: l in world && node in l.elems
    ensures node in nodes && node.next in nodes && node.prev in nodes
  {
    var l :| l in world && node in l.elems;
    var c := l.Cycle();
    var i :| 0 <= i < |l.elems| && l.elems[i] == node;
    assert c[i + 1].next == c[Succ(i + 1, |c|)] && c[i + 1].prev == c[Pred(i + 1, |c|)];
    assert Within(l, nodes);
  }

  /** Every run keeps all rings well formed and disjoint and refines the abstract sequences. */
  method Execute(ops: seq<Op>, ghost world: set<List>, ghost nodes: set<ListHead>)
    requires World(world, nodes) && LegalRun(View(world), nodes, ops)
    modifies world`elems, nodes
    ensures World(world, nodes) && View(world) == ApplyOps(old(View(world)), ops)
    decreases |ops|
  {
    if ops != [] {
      ExecuteOp(ops[0], world, nodes);
      Execute(ops[1..], world, nodes);
    }
  }
}
