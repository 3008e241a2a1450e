/**
 StringView equality, the key comparison of a HashMap keyed by strings.  It compares the sizes and
 then calls strncmp, which stops at a NUL byte.
 */
module StringView {
  import opened Common
  import HashMap

  /** `data` is the memory from data_ on. */
  datatype View = View(data: seq<Byte>, size: nat) {
    /** strncmp may read `size` bytes or up to the first NUL. */
    ghost predicate Readable() {
      size <= |data| || 0 in data
    }

    function Content(): seq<Byte> {
      if size <= |data| then data[..size] else data
    }
  }

  /** What a C string function sees of a byte sequence. */
  function Visible(s: seq<Byte>): seq<Byte> {
    if s == [] || s[0] == 0 then [] else [s[0]] + Visible(s[1..])
  }

  predicate Equal(l: View, r: View) {
    l.size == r.size && Visible(l.Content()) == Visible(r.Content())
  }

  /** Two byte sequences that agree and have no NUL up to `i` look the same exactly when the rest does. */
  lemma {:induction false} VisibleFrom(a: seq<Byte>, b: seq<Byte>, i: nat)
    requires i <= |a| && i <= |b| && a[..i] == b[..i] && 0 !in a[..i]
    ensures Visible(a) == Visible(b) <==> Visible(a[i..]) == Visible(b[i..])
  {
    if i > 0 {
      assert a[0] == a[..i][0] && b[0] == b[..i][0];
      assert a[1..][..i - 1] == a[..i][1..] && b[1..][..i - 1] == b[..i][1..];
      VisibleFrom(a[1..], b[1..], i - 1);
      assert a[1..][i - 1..] == a[i..] && b[1..][i - 1..] == b[i..];
      assert Visible(a)[1..] == Visible(a[1..]) && Visible(b)[1..] == Visible(b[1..]);
    }
  }

  lemma VisibleHeads(p: seq<Byte>, q: seq<Byte>)
    requires p != [] && q != []
    ensures p[0] != q[0] ==> Visible(p) != Visible(q)
    ensures p[0] == q[0] == 0 ==> Visible(p) == Visible(q)
  {
    assert p[0] != 0 ==> Visible(p)[0] == p[0];
    assert q[0] != 0 ==> Visible(q)[0] == q[0];
  }

  /** Byte `i` decides, or both strings go on: what one round of strncmp relies on. */
  lemma StrncmpStep(l: View, r: View, i: nat)
    requires l.size == r.size && l.Readable() && r.Readable() && i < l.size
    requires i <= |l.data| && i <= |r.data| && l.data[..i] == r.data[..i] && 0 !in l.data[..i]
    ensures i < |l.data| && i < |r.data|
    ensures l.data[i] != r.data[i] ==> Visible(l.Content()) != Visible(r.Content())
    ensures l.data[i] == r.data[i] == 0 ==> Visible(l.Content()) == Visible(r.Content())
    ensures l.data[i] == r.data[i] && l.data[i] != 0 ==>
              l.data[..i + 1] == r.data[..i + 1] && 0 !in l.data[..i + 1]
  {
    var x, y := l.Content(), r.Content();
    assert x[..i] == l.data[..i] && y[..i] == r.data[..i];
    VisibleFrom(x, y, i);
    VisibleHeads(x[i..], y[i..]);
    LongerPrefix(l.data, i);
    LongerPrefix(r.data, i);
  }

  lemma LongerPrefix(s: seq<Byte>, i: nat)
    requires i < |s|
    ensures s[..i + 1] == s[..i] + [s[i]]
  {
  }

  method Strncmp(a: seq<Byte>, b: seq<Byte>, n: nat) returns (r: int)
    requires View(a, n).Readable() && View(b, n).Readable()
    ensures r == 0 <==> Visible(View(a, n).Content()) == Visible(View(b, n).Content())
  {
    var i := 0;
    while i < n
      invariant i <= n && i <= |a| && i <= |b| && a[..i] == b[..i] && 0 !in a[..i]
    {
      StrncmpStep(View(a, n), View(b, n), i);
      if a[i] != b[i] {
        var d: int := a[i];
        return d - b[i];
      }
      if a[i] == 0 {
        return 0;
      }
      i := i + 1;
    }
    return 0;
  }

  /** `operator==` computes `Equal`. */
  method Compare(l: View, r: View) returns (same: bool)
    requires l.Readable() && r.Readable()
    ensures same == Equal(l, r)
  {
    if l.size != r.size {
      return false;
    }
    var c := Strncmp(l.data, r.data, l.size);
    same := c == 0;
  }

  lemma {:induction false} VisiblePrefix(s: seq<Byte>, i: nat)
    requires i < |s| && s[i] == 0 && 0 !in s[..i]
    ensures Visible(s) == s[..i]
  {
    if i > 0 {
      assert s[1..][..i - 1] == s[..i][1..] && s[0] == s[..i][0];
      VisiblePrefix(s[1..], i - 1);
    }
  }

  lemma {:induction false} VisibleWhole(s: seq<Byte>)
    requires 0 !in s
    ensures Visible(s) == s
  {
    if s != [] {
      VisibleWhole(s[1..]);
    }
  }

  lemma {:induction false} FirstNul(s: seq<Byte>) returns (i: nat)
    requires 0 in s
    ensures i < |s| && s[i] == 0 && 0 !in s[..i]
  {
    i := 0;
    while s[i] != 0
      invariant i < |s| && 0 !in s[..i]
      invariant exists j :: i <= j < |s| && s[j] == 0
      decreases |s| - i
    {
      assert s[..i + 1] == s[..i] + [s[i]];
      i := i + 1;
    }
  }

  /** Equality is equality of bytes for exactly those views that have no NUL before their last byte. */
  lemma ContentEqualityIff(l: View)
    requires l.size <= |l.data|
    ensures (forall r: View | r.size <= |r.data| :: Equal(l, r) ==> r.Content() == l.Content()) <==>
            0 !in l.Content()[..if l.size == 0 then 0 else l.size - 1]
  {
    var c := l.Content();
    if 0 in c[..if l.size == 0 then 0 else l.size - 1] {
      var i := FirstNul(c);
      var d: seq<Byte> := c[..i + 1] + [if c[i + 1] == 1 then 2 else 1] + c[i + 2..];
      var r := View(d, l.size);
      assert d[..i] == c[..i];
      VisiblePrefix(c, i);
      VisiblePrefix(d, i);
      assert r.Content() == d && d[i + 1] != c[i + 1];
      assert Equal(l, r) && r.Content() != l.Content();
    } else {
      forall r: View | r.size <= |r.data| && Equal(l, r)
        ensures r.Content() == c
      {
        EqualBytes(c, r.Content());
      }
    }
  }

  lemma EqualBytes(c: seq<Byte>, d: seq<Byte>)
    requires |c| == |d| && Visible(c) == Visible(d) && 0 !in c[..if |c| == 0 then 0 else |c| - 1]
    ensures d == c
  {
    if 0 in c {
      var i := FirstNul(c);
      VisiblePrefix(c, i);
      assert i == |c| - 1;
      if 0 in d {
        var j := FirstNul(d);
        VisiblePrefix(d, j);
      } else {
        VisibleWhole(d);
      }
    } else {
      VisibleWhole(c);
      if 0 in d {
        var j := FirstNul(d);
        VisiblePrefix(d, j);
      } else {
        VisibleWhole(d);
      }
    }
  }

  // ----- Views as keys -----

  function Whole(data: seq<Byte>): View {
    View(data, |data|)
  }

  /** Bytes after a NUL do not take part in the comparison. */
  lemma HiddenBytes(p: seq<Byte>, x: seq<Byte>, y: seq<Byte>)
    requires 0 in p && |x| == |y|
    ensures Equal(Whole(p + x), Whole(p + y))
  {
    var i := FirstNul(p);
    assert (p + x)[..i] == p[..i] && (p + y)[..i] == p[..i];
    VisiblePrefix(p + x, i);
    VisiblePrefix(p + y, i);
    assert Whole(p + x).Content() == p + x && Whole(p + y).Content() == p + y;
  }

  /** Two views of the same size and with different bytes that compare equal. */
  lemma NulHidesDifference()
    ensures Equal(Whole([97, 0, 98]), Whole([97, 0, 99])) && [97, 0, 98] != [97, 0, 99]
  {
    HiddenBytes([97, 0], [98], [99]);
    assert [97, 0] + [98] == [97, 0, 98] && [97, 0] + [99] == [97, 0, 99];
    assert [97, 0, 98][2] != [97, 0, 99][2];
  }

  /** A hasher over all bytes, one that tells some two contents apart that differ only after a NUL, does
      not respect the equality of views. */
  lemma ByteHasherIncompatible(hash: View -> nat, p: seq<Byte>, x: seq<Byte>, y: seq<Byte>)
    requires 0 in p && |x| == |y| && hash(Whole(p + x)) != hash(Whole(p + y))
    ensures !HashMap.Compatible(Equal, hash)
  {
    HiddenBytes(p, x, y);
  }

  /** And a map that uses it answers with a null pointer for a key equal to an inserted one, as soon as
      the two go to different buckets. */
  method LoseView<V>(hash: View -> nat, bucketCount: nat, p: seq<Byte>, x: seq<Byte>, y: seq<Byte>, value: V)
    returns (m: HashMap.HashMap<View, V>, r: Option<HashMap.Node<View, V>>)
    requires bucketCount > 0 && 0 in p && |x| == |y|
    requires hash(Whole(p + x)) % bucketCount != hash(Whole(p + y)) % bucketCount
    ensures m.Valid() && m.hash == hash && |m.log| == 1 && Equal(m.log[0].key, Whole(p + y))
    ensures r == None
  {
    HiddenBytes(p, x, y);
    m, r := HashMap.LoseKey(Equal, hash, bucketCount, Whole(p + x), Whole(p + y), value);
  }
}
