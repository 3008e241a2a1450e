/**
 EchoDriver: a 256-byte buffer with per-file offsets.  `Apply` is what one read or write does when
 nothing interferes, with the signed and unsigned 64-bit arithmetic and the copy faults of the
 original; the class performs the same operations step by step under a lock.
 */
module EchoDriver {
  import opened Common

  const BUFFER_SIZE := 256
  const TWO63: int := 0x8000_0000_0000_0000
  const TWO64: int := 0x1_0000_0000_0000_0000

  /** loff_t. */
  type Offset = x: int | -TWO63 <= x < TWO63

  /** size_t. */
  type Size = x: int | 0 <= x < TWO64

  datatype Device = Device(buffer: seq<Byte>, len: nat)

  /** The device and the offset of every open file. */
  datatype Store = Store(dev: Device, offsets: map<nat, Offset>)

  /** A call with all that the environment decides: how many bytes copy_to_user manages, and whether
      copy_from_user faults.  `bytes` are what ends up in the buffer: the user's bytes, or after a
      fault whatever was copied before it. */
  datatype Request =
    | Read(file: nat, size: Size, copied: nat)
    | Write(file: nat, size: Size, bytes: seq<Byte>, faulted: bool)

  /** The return value and the bytes that reach the user's buffer. */
  datatype Result = Result(ret: int, out: seq<Byte>)

  datatype Outcome = Outcome(store: Store, result: Result)

  ghost predicate ValidDevice(d: Device) {
    |d.buffer| == BUFFER_SIZE && d.len < BUFFER_SIZE && d.buffer[BUFFER_SIZE - 1] == 0
  }

  ghost predicate ValidStore(s: Store) {
    ValidDevice(s.dev)
  }

  /** A request names an open file, and a write comes with the bytes it stores. */
  ghost predicate ValidRequest(s: Store, r: Request) {
    r.file in s.offsets && (r.Write? ==> |r.bytes| == WriteCount(r.size))
  }

  /** Conversion of loff_t to size_t in the comparison with buffer_len_. */
  function Unsigned(off: Offset): Size {
    if off < 0 then off + TWO64 else off
  }

  function Min(a: int, b: int): int {
    if a <= b then a else b
  }

  function WriteCount(size: Size): nat {
    Min(size, BUFFER_SIZE - 1)
  }

  function ReadCount(d: Device, off: Offset, size: Size): nat
    requires Unsigned(off) < d.len
  {
    Min(size, d.len - Unsigned(off))
  }

  /** A negative offset is out of reach of every device, so the slice below never uses one. */
  lemma OffsetInRange(d: Device, off: Offset)
    requires ValidDevice(d) && Unsigned(off) < d.len
    ensures 0 <= off < d.len
  {
  }

  function Overwrite(buffer: seq<Byte>, bytes: seq<Byte>): seq<Byte>
    requires |bytes| <= |buffer|
  {
    bytes + buffer[|bytes|..]
  }

  function Apply(s: Store, r: Request): Outcome
    requires ValidStore(s) && ValidRequest(s, r)
  {
    var d, off := s.dev, s.offsets[r.file];
    match r
    case Read(file, size, copied) =>
      if Unsigned(off) >= d.len then Outcome(s, Result(0, []))
      else
        OffsetInRange(d, off);
        var count := ReadCount(d, off, size);
        if copied < count then Outcome(s, Result(-EFAULT, d.buffer[off..off + copied]))
        else Outcome(Store(d, s.offsets[file := off + count]), Result(count, d.buffer[off..off + count]))
    case Write(file, size, bytes, faulted) =>
      var buffer := Overwrite(d.buffer, bytes);
      if faulted then Outcome(Store(Device(buffer, d.len), s.offsets), Result(-EFAULT, []))
      else Outcome(Store(Device(buffer[|bytes| := 0], |bytes|), s.offsets[file := 0]), Result(|bytes|, []))
  }

  // ----- Every sequential run -----

  function Run(s: Store, rs: seq<Request>): Store
    requires ValidStore(s) && forall r | r in rs :: ValidRequest(s, r)
    decreases |rs|
  {
    if rs == [] then s
    else
      ApplyKeeps(s, rs[0]);
      assert forall r | r in rs[1..] :: r in rs && ValidRequest(s, r);
      Run(Apply(s, rs[0]).store, rs[1..])
  }

  lemma ApplyKeeps(s: Store, r: Request)
    requires ValidStore(s) && ValidRequest(s, r)
    ensures ValidStore(Apply(s, r).store)
    ensures forall f :: f in Apply(s, r).store.offsets <==> f in s.offsets
  {
  }

  /** Arbitrary sizes, offsets and faults keep the length in bounds and byte 255 zero. */
  lemma {:induction false} RunKeepsDevice(s: Store, rs: seq<Request>)
    requires ValidStore(s) && forall r | r in rs :: ValidRequest(s, r)
    ensures ValidStore(Run(s, rs))
    ensures forall f :: f in Run(s, rs).offsets <==> f in s.offsets
    decreases |rs|
  {
    if rs != [] {
      ApplyKeeps(s, rs[0]);
      assert forall r | r in rs[1..] :: r in rs;
      RunKeepsDevice(Apply(s, rs[0]).store, rs[1..]);
    }
  }

  /** A run applies its requests one after the other. */
  lemma {:induction false} RunComposes(s: Store, rs: seq<Request>, r: Request)
    requires ValidStore(s) && ValidRequest(s, r) && forall q | q in rs :: ValidRequest(s, q)
    ensures ValidStore(Run(s, rs)) && ValidRequest(Run(s, rs), r)
    ensures Run(s, rs + [r]) == Apply(Run(s, rs), r).store
    decreases |rs|
  {
    RunKeepsDevice(s, rs);
    if rs == [] {
      assert ([] + [r])[1..] == [];
    } else {
      assert (rs + [r])[1..] == rs[1..] + [r];
      ApplyKeeps(s, rs[0]);
      assert forall q | q in rs[1..] :: q in rs;
      RunComposes(Apply(s, rs[0]).store, rs[1..], r);
    }
  }

  /** A device with a single open file. */
  function One(d: Device, off: Offset): Store {
    Store(d, map[0 := off])
  }

  /** A read below the end of the content. */
  lemma ReadOutcome(d: Device, off: Offset, size: Size, copied: nat, count: nat)
    requires ValidDevice(d) && Unsigned(off) < d.len && count == ReadCount(d, off, size)
    ensures 0 <= off && off + count <= d.len
    ensures Apply(One(d, off), Read(0, size, copied)) ==
            if copied < count then Outcome(One(d, off), Result(-EFAULT, d.buffer[off..off + copied]))
            else Outcome(One(d, off + count), Result(count, d.buffer[off..off + count]))
  {
  }

  /** How much content is left at an offset; none at a negative one. */
  function Rest(d: Device, off: Offset): nat {
    if 0 <= off <= d.len then d.len - off else 0
  }

  /** A read of any file gets the next bytes of the content, as many as were asked for or are left: it
      returns their number and moves the offset past them; it returns -EFAULT and moves nothing exactly
      when fewer of them can be copied.  The device and all other files stay as they are. */
  lemma ReadGuarantees(s: Store, file: nat, size: Size, copied: nat)
    requires ValidStore(s) && file in s.offsets
    ensures var o := Apply(s, Read(file, size, copied));
            var off, rest := s.offsets[file], Rest(s.dev, s.offsets[file]);
            var want := if size <= rest then size else rest;
            var n := if copied < want then copied else want;
            && o.store.dev == s.dev
            && o.result.ret == (if copied < want then -EFAULT else want)
            && (o.result.ret == 0 <==> size == 0 || rest == 0)
            && |o.result.out| == n && (forall i | 0 <= i < n :: o.result.out[i] == s.dev.buffer[off + i])
            && o.store.offsets == (if copied < want then s.offsets else s.offsets[file := off + want])
  {
    assert s.offsets[file := s.offsets[file]] == s.offsets;
  }

  /** A write stores the first bytes up to 255, terminates them, rewinds its own file and returns their
      number; it returns -EFAULT exactly when the copy faults, and then length and offsets stay. */
  lemma WriteGuarantees(s: Store, r: Request)
    requires ValidStore(s) && ValidRequest(s, r) && r.Write?
    ensures var o := Apply(s, r);
            var n := if r.size <= 255 then r.size else 255;
            && |r.bytes| == n
            && o.result.out == [] && o.result.ret == (if r.faulted then -EFAULT else n)
            && |o.store.dev.buffer| == 256
            && (forall i | 0 <= i < n :: o.store.dev.buffer[i] == r.bytes[i])
            && (forall i | n < i < 256 :: o.store.dev.buffer[i] == s.dev.buffer[i])
            && o.store.dev.buffer[n] == (if r.faulted then s.dev.buffer[n] else 0)
            && o.store.dev.len == (if r.faulted then s.dev.len else n)
            && o.store.offsets == (if r.faulted then s.offsets else s.offsets[r.file := 0])
  {
  }

  /** The content is still terminated after the request. */
  ghost predicate KeepsTerminator(s: Store, r: Request)
    requires ValidStore(s) && ValidRequest(s, r)
  {
    var d := Apply(s, r).store.dev;
    d.buffer[d.len] == 0
  }

  /** A faulting write keeps the terminator of the old content, whatever bytes it leaves behind, exactly
      when it is not longer than the old content. */
  lemma FaultKeepsTerminatorIff(s: Store, file: nat, size: Size)
    requires ValidStore(s) && file in s.offsets && s.dev.buffer[s.dev.len] == 0
    ensures (forall bytes: seq<Byte> | |bytes| == WriteCount(size) ::
               KeepsTerminator(s, Write(file, size, bytes, true))) <==>
            (if size <= 255 then size else 255) <= s.dev.len
  {
    if WriteCount(size) > s.dev.len {
      var bytes: seq<Byte> := seq(WriteCount(size), i => 1);
      assert !KeepsTerminator(s, Write(file, size, bytes, true));
    }
  }

  /** The driver as it starts, with one open file. */
  const START: Store := Store(Device(seq(BUFFER_SIZE, i => 0), 0), map[0 := 0])

  /** A write of one byte to the empty device that faults after the byte: the device says that its
      content is empty, and the content is not terminated. */
  lemma FaultLosesTerminator()
    ensures ValidStore(START) && ValidRequest(START, Write(0, 1, [65], true)) && START.dev.buffer[START.dev.len] == 0
    ensures !KeepsTerminator(START, Write(0, 1, [65], true))
  {
  }

  // ----- Reading a file to the end -----

  /** Reads of the given sizes one after the other, without faults: all bytes, and the last offset. */
  function ReadAll(d: Device, off: Offset, sizes: seq<Size>): (all: (seq<Byte>, Offset))
    requires ValidDevice(d)
    decreases |sizes|
  {
    if sizes == [] then ([], off)
    else
      var o := Apply(One(d, off), Read(0, sizes[0], BUFFER_SIZE));
      var rest := ReadAll(d, o.store.offsets[0], sizes[1..]);
      (o.result.out + rest.0, rest.1)
  }

  function Sum(sizes: seq<Size>): nat {
    if sizes == [] then 0 else sizes[0] + Sum(sizes[1..])
  }

  lemma OneRead(d: Device, off: Offset, size: Size)
    requires ValidDevice(d) && 0 <= off <= d.len
    ensures var c := Min(size, d.len - off);
            Apply(One(d, off), Read(0, size, BUFFER_SIZE)) ==
            Outcome(One(d, off + c), Result(c, d.buffer[off..off + c]))
  {
    assert d.buffer[off..off] == [];
  }

  lemma JoinSlices(s: seq<Byte>, i: nat, j: nat, k: nat)
    requires i <= j <= k <= |s|
    ensures s[i..j] + s[j..k] == s[i..k]
  {
  }

  /** From any position in the content, reads of any sizes give the next min(sum, rest) bytes. */
  lemma {:induction false} ReadsConcatenate(d: Device, off: Offset, sizes: seq<Size>)
    requires ValidDevice(d) && 0 <= off <= d.len
    ensures var n := Min(Sum(sizes), d.len - off);
            ReadAll(d, off, sizes) == (d.buffer[off..off + n], off + n)
    decreases |sizes|
  {
    if sizes == [] {
      assert d.buffer[off..off] == [];
      return;
    }
    OneRead(d, off, sizes[0]);
    var off' := off + Min(sizes[0], d.len - off);
    ReadsConcatenate(d, off', sizes[1..]);
    var end := off' + Min(Sum(sizes[1..]), d.len - off');
    assert end == off + Min(Sum(sizes), d.len - off);
    JoinSlices(d.buffer, off, off', end);
  }

  /** Starting at offset 0, the concatenation is the stored content cut at the sum of the sizes, and
      once the end is reached every further read returns 0. */
  lemma ReadWholeContent(d: Device, sizes: seq<Size>, more: Size)
    requires ValidDevice(d)
    ensures ReadAll(d, 0, sizes).0 == d.buffer[..Min(Sum(sizes), d.len)]
    ensures Sum(sizes) >= d.len ==>
              Apply(One(d, ReadAll(d, 0, sizes).1), Read(0, more, BUFFER_SIZE)).result == Result(0, [])
  {
    ReadsConcatenate(d, 0, sizes);
  }

  /** What is written comes back: after a write that does not fault, reads of any sizes on the same file
      give the user's bytes, cut at 255 and at the sum of the sizes. */
  lemma WrittenIsRead(s: Store, file: nat, user: seq<Byte>, sizes: seq<Size>)
    requires ValidStore(s) && file in s.offsets && |user| < TWO64
    ensures var n := if |user| <= 255 then |user| else 255;
            var r := Write(file, |user|, user[..n], false);
            && ValidRequest(s, r)
            && var o := Apply(s, r);
               && o.result == Result(n, []) && ValidDevice(o.store.dev) && file in o.store.offsets
               && ReadAll(o.store.dev, o.store.offsets[file], sizes).0 ==
                  (if Sum(sizes) <= n then user[..Sum(sizes)] else user[..n])
  {
    var n := if |user| <= 255 then |user| else 255;
    var r := Write(file, |user|, user[..n], false);
    WriteGuarantees(s, r);
    ApplyKeeps(s, r);
    var d := Apply(s, r).store.dev;
    ReadsConcatenate(d, 0, sizes);
    assert forall i | 0 <= i < n :: d.buffer[i] == user[i];
  }

  // ----- The driver as an object -----

  /** The file position that a caller passes by pointer. */
  class Position {
    var offset: Offset

    constructor (offset: Offset)
      ensures this.offset == offset
    {
      this.offset := offset;
    }
  }

  class EchoDriver {
    var buffer: array<Byte>
    var len: nat
    var locked: bool

    ghost predicate Valid()
      reads this, buffer
    {
      ValidDevice(Dev()) && !locked
    }

    ghost function Dev(): Device
      reads this, buffer
    {
      Device(buffer[..], len)
    }

    constructor ()
      ensures Valid() && Dev() == Device(seq(BUFFER_SIZE, i => 0), 0) && fresh(buffer)
    {
      buffer := new Byte[BUFFER_SIZE](i => 0);
      len := 0;
      locked := false;
    }

    /** copy_to_user: stops after `limit` bytes when that is fewer than `count`. */
    method CopyToUser(from: nat, count: nat, limit: nat) returns (out: seq<Byte>, failed: bool)
      requires from + count <= buffer.Length
      ensures failed == (limit < count)
      ensures out == buffer[from..from + Min(limit, count)]
    {
      out := [];
      while |out| < count && |out| < limit
        invariant |out| <= Min(limit, count) && out == buffer[from..from + |out|]
      {
        out := out + [buffer[from + |out|]];
      }
      failed := |out| < count;
    }

    /** copy_from_user: the bytes that reach the buffer, and whether it reports a fault. */
    method CopyFromUser(bytes: seq<Byte>)
      requires |bytes| <= buffer.Length
      modifies buffer
      ensures buffer[..] == Overwrite(old(buffer[..]), bytes)
    {
      var i := 0;
      while i < |bytes|
        invariant i <= |bytes|
        invariant forall j | 0 <= j < buffer.Length :: buffer[j] == if j < i then bytes[j] else old(buffer[j])
      {
        buffer[i] := bytes[i];
        i := i + 1;
      }
    }

    /** The lock is taken on entry and given back on every path. */
    method ReadCall(pos: Position, size: Size, copied: nat) returns (ret: int, out: seq<Byte>)
      requires Valid()
      modifies this`locked, pos
      ensures Valid()
      ensures Outcome(One(Dev(), pos.offset), Result(ret, out)) ==
              Apply(One(old(Dev()), old(pos.offset)), Read(0, size, copied))
    {
      locked := true;
      if Unsigned(pos.offset) >= len {
        locked := false;
        return 0, [];
      }
      OffsetInRange(Dev(), pos.offset);
      var count := Min(size, len - Unsigned(pos.offset));
      var failed;
      ghost var d, off := Dev(), pos.offset;
      out, failed := CopyToUser(pos.offset, count, copied);
      ReadOutcome(d, off, size, copied, count);
      if failed {
        locked := false;
        return -EFAULT, out;
      }
      pos.offset := pos.offset + count;
      locked := false;
      return count, out;
    }

    method WriteCall(pos: Position, size: Size, bytes: seq<Byte>, faulted: bool) returns (ret: int)
      requires Valid() && |bytes| == WriteCount(size)
      modifies this`locked, this`len, buffer, pos
      ensures Valid()
      ensures Outcome(One(Dev(), pos.offset), Result(ret, [])) ==
              Apply(One(old(Dev()), old(pos.offset)), Write(0, size, bytes, faulted))
    {
      locked := true;
      var count := Min(size, BUFFER_SIZE - 1);
      CopyFromUser(bytes);
      if faulted {
        locked := false;
        return -EFAULT;
      }
      len := count;
      buffer[len] := 0;
      pos.offset := 0;
      locked := false;
      return count;
    }
  }
}
