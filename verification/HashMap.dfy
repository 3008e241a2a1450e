/**
 HashMap: an array of intrusive lists.  Insert appends to a bucket and never looks for an existing
 key, find walks one bucket.  The reference is the plain sequence of inserted nodes, searched from
 the front; it knows nothing of hashes or buckets.
 */
module HashMap {
  import opened Common
  import opened Ring

  /** One allocation: the list link, the key and the value.  A pointer to the value is the node. */
  class Node<K, V> {
    const link: ListHead
    const key: K
    var value: V

    constructor (link: ListHead, key: K, value: V)
      ensures this.link == link && this.key == key && this.value == value
    {
      this.link, this.key, this.value := link, key, value;
    }
  }

  /** `==` on keys is an equivalence and the hasher gives equal keys equal hashes. */
  ghost predicate Compatible<K(!new)>(eq: (K, K) -> bool, hash: K -> nat) {
    && (forall a :: eq(a, a))
    && (forall a, b :: eq(a, b) ==> eq(b, a))
    && (forall a, b, c :: eq(a, b) && eq(b, c) ==> eq(a, c))
    && (forall a, b :: eq(a, b) ==> hash(a) == hash(b))
  }

  /** The earliest node with a key equal to `k`. */
  ghost function First<K, V>(ns: seq<Node<K, V>>, eq: (K, K) -> bool, k: K): Option<Node<K, V>> {
    if ns == [] then None
    else
      var last := ns[|ns| - 1];
      var r := First(ns[..|ns| - 1], eq, k);
      if r.Some? then r else if eq(last.key, k) then Some(last) else None
  }

  /** The nodes that went to bucket `i` of `n`, in order. */
  ghost function Bucket<K, V>(ns: seq<Node<K, V>>, hash: K -> nat, n: nat, i: nat): seq<Node<K, V>>
    requires n > 0
  {
    if ns == [] then []
    else
      var last := ns[|ns| - 1];
      var rest := Bucket(ns[..|ns| - 1], hash, n, i);
      if hash(last.key) % n == i then rest + [last] else rest
  }

  ghost function Links<K, V>(ns: seq<Node<K, V>>): seq<ListHead> {
    seq(|ns|, i requires 0 <= i < |ns| => ns[i].link)
  }

  lemma FirstOfAppend<K, V>(ns: seq<Node<K, V>>, x: Node<K, V>, eq: (K, K) -> bool, k: K)
    ensures First(ns + [x], eq, k) ==
            if First(ns, eq, k).Some? then First(ns, eq, k) else if eq(x.key, k) then Some(x) else None
  {
    assert (ns + [x])[..|ns|] == ns;
  }

  lemma BucketOfAppend<K, V>(ns: seq<Node<K, V>>, x: Node<K, V>, hash: K -> nat, n: nat, i: nat)
    requires n > 0
    ensures Bucket(ns + [x], hash, n, i) ==
            if hash(x.key) % n == i then Bucket(ns, hash, n, i) + [x] else Bucket(ns, hash, n, i)
  {
    assert (ns + [x])[..|ns|] == ns;
  }

  lemma {:induction false} BucketHolds<K, V>(ns: seq<Node<K, V>>, hash: K -> nat, n: nat, i: nat)
    requires n > 0
    ensures forall x | x in Bucket(ns, hash, n, i) :: x in ns && hash(x.key) % n == i
    ensures forall x | x in ns && hash(x.key) % n == i :: x in Bucket(ns, hash, n, i)
  {
    if ns != [] {
      var front, last := ns[..|ns| - 1], ns[|ns| - 1];
      BucketHolds(front, hash, n, i);
      assert ns == front + [last];
    }
  }

  lemma LinksOfAppend<K, V>(ns: seq<Node<K, V>>, x: Node<K, V>, hash: K -> nat, n: nat, i: nat)
    requires n > 0
    ensures Links(Bucket(ns + [x], hash, n, i)) ==
            Links(Bucket(ns, hash, n, i)) + (if hash(x.key) % n == i then [x.link] else [])
  {
    BucketOfAppend(ns, x, hash, n, i);
  }

  /** Searching only the key's bucket finds what searching everything finds, for every number of
      buckets and every hasher that respects key equality. */
  lemma {:induction false} BucketSearchIsSearch<K(!new), V>(
    ns: seq<Node<K, V>>, eq: (K, K) -> bool, hash: K -> nat, n: nat, k: K)
    requires Compatible(eq, hash) && n > 0
    ensures First(Bucket(ns, hash, n, hash(k) % n), eq, k) == First(ns, eq, k)
  {
    if ns == [] {
      assert Bucket(ns, hash, n, hash(k) % n) == [];
    } else {
      var front, last := ns[..|ns| - 1], ns[|ns| - 1];
      assert ns == front + [last];
      BucketSearchIsSearch(front, eq, hash, n, k);
      BucketOfAppend(front, last, hash, n, hash(k) % n);
      FirstOfAppend(front, last, eq, k);
      FirstOfAppend(Bucket(front, hash, n, hash(k) % n), last, eq, k);
      assert eq(last.key, k) ==> hash(last.key) == hash(k);
    }
  }

  /** A pointer once found is what every later search returns, after any further inserts. */
  lemma {:induction false} FoundStays<K, V>(ns: seq<Node<K, V>>, more: seq<Node<K, V>>, eq: (K, K) -> bool, k: K)
    requires First(ns, eq, k).Some?
    ensures First(ns + more, eq, k) == First(ns, eq, k)
    decreases |more|
  {
    if more == [] {
      assert ns + more == ns;
    } else {
      var front, last := more[..|more| - 1], more[|more| - 1];
      FoundStays(ns, front, eq, k);
      assert ns + more == (ns + front) + [last];
      FirstOfAppend(ns + front, last, eq, k);
    }
  }

  /** One step of a search from the front. */
  lemma FirstInChain<K, V>(ns: seq<Node<K, V>>, p: nat, eq: (K, K) -> bool, k: K)
    requires p < |ns| && First(ns[..p], eq, k) == None
    ensures eq(ns[p].key, k) ==> First(ns, eq, k) == Some(ns[p])
    ensures !eq(ns[p].key, k) ==> First(ns[..p + 1], eq, k) == None
  {
    assert ns[..p + 1] == ns[..p] + [ns[p]];
    FirstOfAppend(ns[..p], ns[p], eq, k);
    if eq(ns[p].key, k) {
      FoundStays(ns[..p + 1], ns[p + 1..], eq, k);
      assert ns[..p + 1] + ns[p + 1..] == ns;
    }
  }

  /** `First` is the earliest node with an equal key, and `None` means that there is none. */
  lemma {:induction false} FirstIsEarliest<K, V>(ns: seq<Node<K, V>>, eq: (K, K) -> bool, k: K)
    ensures First(ns, eq, k) == None <==> forall x | x in ns :: !eq(x.key, k)
    ensures First(ns, eq, k).Some? ==>
              exists i :: 0 <= i < |ns| && First(ns, eq, k) == Some(ns[i]) && eq(ns[i].key, k)
                          && forall j | 0 <= j < i :: !eq(ns[j].key, k)
  {
    if ns != [] {
      var front, last := ns[..|ns| - 1], ns[|ns| - 1];
      FirstIsEarliest(front, eq, k);
      assert ns == front + [last];
      if First(front, eq, k).Some? {
        var i :| 0 <= i < |front| && First(front, eq, k) == Some(front[i]) && eq(front[i].key, k)
                 && forall j | 0 <= j < i :: !eq(front[j].key, k);
        assert ns[i] == front[i];
      } else {
        assert forall j | 0 <= j < |front| :: ns[j] == front[j] && front[j] in front;
      }
    }
  }

  /** For any hasher at all: a search comes back empty exactly when every node with an equal key is in
      another bucket. */
  lemma BucketMissesIff<K, V>(ns: seq<Node<K, V>>, eq: (K, K) -> bool, hash: K -> nat, n: nat, k: K)
    requires n > 0
    ensures First(Bucket(ns, hash, n, hash(k) % n), eq, k) == None <==>
            forall x | x in ns && eq(x.key, k) :: hash(x.key) % n != hash(k) % n
  {
    FirstIsEarliest(Bucket(ns, hash, n, hash(k) % n), eq, k);
    BucketHolds(ns, hash, n, hash(k) % n);
  }

  /** Unequal keys never lead to the same node, equal keys always do. */
  lemma KeysDecideNode<K(!new), V>(ns: seq<Node<K, V>>, eq: (K, K) -> bool, hash: K -> nat, k: K, j: K)
    requires Compatible(eq, hash) && First(ns, eq, k).Some?
    ensures First(ns, eq, j) == First(ns, eq, k) <==> eq(k, j)
  {
    FirstIsEarliest(ns, eq, k);
    FirstIsEarliest(ns, eq, j);
    var a :| 0 <= a < |ns| && First(ns, eq, k) == Some(ns[a]) && eq(ns[a].key, k)
             && forall i | 0 <= i < a :: !eq(ns[i].key, k);
    if eq(k, j) {
      assert eq(ns[a].key, j) && ns[a] in ns;
      var b :| 0 <= b < |ns| && First(ns, eq, j) == Some(ns[b]) && eq(ns[b].key, j)
               && forall i | 0 <= i < b :: !eq(ns[i].key, j);
      assert eq(ns[b].key, k);
    }
  }

  // ----- Sessions -----

  /** One call of insert; `obtained` is false when the allocation of the node fails. */
  datatype Request<K, V> = Request(key: K, value: V, obtained: bool)

  /** The value of the earliest request that got its memory and has a key equal to `k`. */
  ghost function Earliest<K, V>(rs: seq<Request<K, V>>, eq: (K, K) -> bool, k: K): Option<V> {
    if rs == [] then None
    else if rs[0].obtained && eq(rs[0].key, k) then Some(rs[0].value)
    else Earliest(rs[1..], eq, k)
  }

  lemma {:induction false} EarliestOfAppend<K, V>(rs: seq<Request<K, V>>, r: Request<K, V>, eq: (K, K) -> bool, k: K)
    ensures Earliest(rs + [r], eq, k) ==
            if Earliest(rs, eq, k).Some? then Earliest(rs, eq, k)
            else if r.obtained && eq(r.key, k) then Some(r.value) else None
  {
    if rs != [] {
      EarliestOfAppend(rs[1..], r, eq, k);
      assert (rs + [r])[1..] == rs[1..] + [r];
    }
  }

  method MakeLists(n: nat) returns (lists: seq<List>, ghost heads: set<ListHead>)
    ensures |lists| == n && Distinct(lists) && fresh(lists) && fresh(heads)
    ensures World((set l | l in lists), heads)
    ensures forall l | l in lists :: l.elems == []
  {
    lists, heads := [], {};
    while |lists| < n
      invariant |lists| <= n
      invariant Distinct(lists) && fresh(lists) && fresh(heads)
      invariant forall l | l in lists :: l.elems == [] && l.head in heads && l.Valid()
      invariant forall l, m | l in lists && m in lists && l != m :: l.head != m.head
    {
      var l := new List();
      lists := lists + [l];
      heads := heads + {l.head};
    }
  }

  class HashMap<K(!new), V> {
    const eq: (K, K) -> bool
    const hash: K -> nat
    const bucketCount: nat
    /** False when the allocation of the bucket array failed. */
    const hasBuckets: bool
    const buckets: seq<List>
    /** container_of: the node that holds a given link. */
    var container: map<ListHead, Node<K, V>>

    /** Every node inserted so far, in order. */
    ghost var log: seq<Node<K, V>>
    ghost var nodes: set<ListHead>

    ghost function Lists(): set<List> {
      set l | l in buckets
    }

    ghost predicate Valid()
      reads this, buckets, nodes
    {
      && bucketCount > 0
      && (hasBuckets ==> |buckets| == bucketCount)
      && (!hasBuckets ==> log == [] && buckets == [])
      && Distinct(buckets)
      && World(Lists(), nodes)
      && (forall i | 0 <= i < |buckets| :: buckets[i].elems == Links(Bucket(log, hash, bucketCount, i)))
      && (forall x | x in log :: x.link in container && container[x.link] == x)
    }

    constructor (eq: (K, K) -> bool, hash: K -> nat, bucketCount: nat, obtained: bool)
      requires bucketCount > 0
      ensures Valid() && log == [] && this.eq == eq && this.hash == hash && this.bucketCount == bucketCount
      ensures hasBuckets == obtained && fresh(buckets) && fresh(nodes)
    {
      var lists, heads := MakeLists(if obtained then bucketCount else 0);
      this.eq, this.hash, this.bucketCount, hasBuckets := eq, hash, bucketCount, obtained;
      buckets, container, log, nodes := lists, map[], [], heads;
    }

    /** -ENOMEM when there is no bucket array or no memory for the node (`obtained`), otherwise 0. */
    method Insert(key: K, value: V, obtained: bool) returns (error: int)
      requires Valid()
      modifies this`container, this`log, this`nodes, buckets, nodes
      ensures Valid() && fresh(nodes - old(nodes))
      ensures error == if hasBuckets && obtained then 0 else -ENOMEM
      ensures error != 0 ==> log == old(log)
      ensures error == 0 ==> |log| == |old(log)| + 1 && log == old(log) + [log[|old(log)|]]
                             && fresh(log[|old(log)|]) && log[|old(log)|].key == key && log[|old(log)|].value == value
    {
      if !hasBuckets || !obtained {
        return -ENOMEM;
      }
      var node := Append(key, value);
      return 0;
    }

    /** The part of Insert after both allocations. */
    method Append(key: K, value: V) returns (node: Node<K, V>)
      requires Valid() && hasBuckets
      modifies this`container, this`log, this`nodes, buckets, nodes
      ensures Valid() && fresh(nodes - old(nodes))
      ensures log == old(log) + [node] && fresh(node) && node.key == key && node.value == value
    {
      var link := new ListHead();
      node := new Node(link, key, value);
      LinkIn(hash(key) % bucketCount, link);
      Record(node);
    }

    /** The lists already hold the node's link: the books follow. */
    method Record(node: Node<K, V>)
      requires bucketCount > 0 && hasBuckets && |buckets| == bucketCount && Distinct(buckets) && World(Lists(), nodes)
      requires forall x | x in log :: x.link in container && container[x.link] == x && x.link != node.link
      requires forall b | 0 <= b < |buckets| ::
                 buckets[b].elems == Links(Bucket(log, hash, bucketCount, b)) +
                                     (if hash(node.key) % bucketCount == b then [node.link] else [])
      modifies this`container, this`log
      ensures Valid() && log == old(log) + [node]
    {
      forall b | 0 <= b < |buckets| {
        LinksOfAppend(log, node, hash, bucketCount, b);
      }
      container := container[node.link := node];
      log := log + [node];
    }

    /** The first node with an equal key in its bucket; `None` stands for the null pointer.  With a
        hasher that respects equality this is the first node of all with an equal key. */
    method Find(key: K) returns (r: Option<Node<K, V>>)
      requires Valid()
      ensures r == First(Bucket(log, hash, bucketCount, hash(key) % bucketCount), eq, key)
      ensures Compatible(eq, hash) ==> r == First(log, eq, key)
    {
      if Compatible(eq, hash) {
        BucketSearchIsSearch(log, eq, hash, bucketCount, key);
      }
      if !hasBuckets {
        return None;
      }
      var i := hash(key) % bucketCount;
      var bucket := buckets[i];
      ghost var chain := Bucket(log, hash, bucketCount, i);
      assert bucket in Lists();
      bucket.Ends();
      var it := bucket.head.next;
      ghost var p := 0;
      while it != bucket.head
        invariant p <= |chain| && First(chain[..p], eq, key) == None
        invariant it == bucket.Cycle()[Succ(p, |chain| + 1)]
        decreases |chain| - p
      {
        AtLink(i, p);
        var current := container[it];
        FirstInChain(chain, p, eq, key);
        if eq(current.key, key) {
          return Some(current);
        }
        it := it.next;
        p := p + 1;
      }
      assert chain[..p] == chain;
      return None;
    }

    /** The link at position `p` of bucket `i` belongs to the bucket's node number `p`. */
    lemma AtLink(i: nat, p: nat)
      requires Valid() && i < |buckets| && p < |Bucket(log, hash, bucketCount, i)|
      ensures var chain := Bucket(log, hash, bucketCount, i);
              var c := buckets[i].Cycle();
              && |c| == |chain| + 1
              && c[p + 1] in container && container[c[p + 1]] == chain[p]
              && c[p + 1].next == c[Succ(p + 1, |c|)]
    {
      BucketHolds(log, hash, bucketCount, i);
      assert buckets[i] in Lists();
      var chain := Bucket(log, hash, bucketCount, i);
      assert chain[p] in chain;
    }

    /** A write through the pointer that Find returns. */
    method Store(key: K, v: V) returns (found: bool)
      requires Valid() && Compatible(eq, hash)
      modifies log`value
      ensures Valid() && found == First(log, eq, key).Some?
      ensures forall j :: Answer(j) == if found && eq(key, j) then Some(v) else old(Answer(j))
    {
      var r := Find(key);
      found := r.Some?;
      if found {
        FirstIsEarliest(log, eq, key);
        r.value.value := v;
        forall j
          ensures Answer(j) == if eq(key, j) then Some(v) else old(Answer(j))
        {
          KeysDecideNode(log, eq, hash, key, j);
          FirstIsEarliest(log, eq, j);
          var q := First(log, eq, j);
          if eq(key, j) {
            assert q == r;
          } else if q.Some? {
            assert q.value != r.value;
            assert q.value.value == old(q.value.value);
          }
        }
      }
    }

    /** What the caller of find sees: the value behind the pointer, or nothing. */
    ghost function Answer(k: K): Option<V>
      reads this, log
    {
      FirstIsEarliest(log, eq, k);
      var r := First(log, eq, k);
      if r.Some? then Some(r.value.value) else None
    }

    /** One insert changes the answer only for keys equal to the new one that had no answer. */
    method InsertRequest(r: Request<K, V>)
      requires Valid()
      modifies this`container, this`log, this`nodes, buckets, nodes
      ensures Valid() && fresh(nodes - old(nodes)) && old(log) <= log
      ensures forall k :: Answer(k) ==
                if old(Answer(k)).None? && hasBuckets && r.obtained && eq(r.key, k)
                then Some(r.value) else old(Answer(k))
    {
      ghost var before := log;
      var error := Insert(r.key, r.value, r.obtained);
      forall k
        ensures Answer(k) ==
                if old(Answer(k)).None? && error == 0 && eq(r.key, k) then Some(r.value) else old(Answer(k))
      {
        FirstIsEarliest(before, eq, k);
        if error == 0 {
          FirstOfAppend(before, log[|before|], eq, k);
        }
      }
    }

    /** Any sequence of inserts, with any allocation failures: afterwards every key is answered by
        what was there before, else by the earliest insert that got its memory.  Neither the hasher
        nor the number of buckets occurs in the answer. */
    method InsertAll(rs: seq<Request<K, V>>)
      requires Valid()
      modifies this`container, this`log, this`nodes, buckets, nodes
      ensures Valid() && old(log) <= log
      ensures forall k :: Answer(k) ==
                if old(Answer(k)).Some? || !hasBuckets then old(Answer(k)) else Earliest(rs, eq, k)
    {
      var i := 0;
      while i < |rs|
        invariant i <= |rs| && Valid() && fresh(nodes - old(nodes)) && old(log) <= log
        invariant forall k :: Answer(k) == Expected(old(Answer(k)), rs[..i], k)
      {
        InsertRequest(rs[i]);
        assert rs[..i + 1] == rs[..i] + [rs[i]];
        forall k {
          EarliestOfAppend(rs[..i], rs[i], eq, k);
        }
        i := i + 1;
      }
      assert rs[..i] == rs;
    }

    ghost function Expected(before: Option<V>, rs: seq<Request<K, V>>, k: K): Option<V> {
      if before.Some? || !hasBuckets then before else Earliest(rs, eq, k)
    }

    /** The list operation of Insert. */
    method LinkIn(i: nat, link: ListHead)
      requires World(Lists(), nodes) && Distinct(buckets) && i < |buckets| && link !in nodes
      modifies this`nodes, buckets, nodes, link
      ensures World(Lists(), nodes) && nodes == old(nodes) + {link}
      ensures forall j | 0 <= j < |buckets| ::
                buckets[j].elems == if j == i then old(buckets[j].elems) + [link] else old(buckets[j].elems)
    {
      var bucket := buckets[i];
      assert bucket in Lists() && Within(bucket, nodes);
      bucket.Ends();
      nodes := nodes + {link};
      assert forall l | l in Lists() :: Within(l, nodes - {link});
      bucket.AddTail(link, Lists(), nodes);
      forall j | 0 <= j < |buckets|
        ensures buckets[j].elems == if j == i then old(buckets[j].elems) + [link] else old(buckets[j].elems)
      {
        assert buckets[j] in Lists();
        assert View(Lists())[buckets[j]] == buckets[j].elems;
      }
    }
  }

  /** With a hasher that sends two equal keys to different buckets, a key that was inserted is not found
      under the other. */
  method LoseKey<K(!new), V>(eq: (K, K) -> bool, hash: K -> nat, bucketCount: nat, a: K, b: K, value: V)
    returns (m: HashMap<K, V>, r: Option<Node<K, V>>)
    requires bucketCount > 0 && eq(a, b) && hash(a) % bucketCount != hash(b) % bucketCount
    ensures m.Valid() && m.eq == eq && m.hash == hash && |m.log| == 1 && eq(m.log[0].key, b)
    ensures r == None
  {
    m := new HashMap(eq, hash, bucketCount, true);
    var error := m.Insert(a, value, true);
    r := m.Find(b);
    BucketMissesIff(m.log, eq, hash, bucketCount, b);
  }
}
