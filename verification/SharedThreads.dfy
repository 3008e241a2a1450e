/**
 SharedPtr under concurrency: a step machine over any number of threads.

 Each atomic operation and each write to a handle's field is one step: decrement-and-test, starting
 or finishing `~T`, kfree, writing `ptr_`, writing `cb_`, incrementing.  Destruction is nested: a
 thread has a stack of handles whose `release()` is in progress, and `~T` pushes the member handles
 one after the other.  A handle is worked on by one thread at a time and is not changed while it is
 being copied from; `Mode` is that discipline, and the phase of a held handle is the program counter
 of the `release()` or assignment working on it.

 Block numbers name allocations, so they are never reused.  Using the count or the object of a freed
 block, or a handle that no longer exists, sets `fault`; so does `~T` on reaching a member handle that
 an operation is still using, because `~T` does not wait and the operation is left with a dead handle.
 */
module SharedThreads {
  import opened SharedTypes

  datatype Phase =
    | Steady           // a whole handle that owns its reference
    | ToDecrement      // release() called, decrement still to come
    | AtMembers(next: nat)  // reached zero: `~T` is at member `next`
    | AtKfree          // `~T` finished
    | ToReturn         // release() about to return
    | Spent            // whole, but names a block it has no reference to
    | Torn             // between the write of ptr_ and the write of cb_

  datatype Mode = Shared(readers: set<nat>) | Held(tid: nat, phase: Phase)

  datatype Handle = Handle(ptr: Ptr, cb: Ptr, mode: Mode)

  /** `tid` is the thread whose decrement reached zero, `via` the handle it released. */
  datatype Life = Alive | Dying(tid: nat, via: Slot) | Destroyed(tid: nat, via: Slot) | Freed(tid: nat)

  datatype Block = Block(count: int, width: nat, life: Life)

  datatype Pc = Releasing | WritePtr | WriteCb | Increment | ClearPtr | ClearCb

  datatype Activity =
    | Idle
    | Destroying(h: Slot)
    | Copying(dst: Slot, src: Slot, pc: Pc)
    | Moving(dst: Slot, src: Slot, pc: Pc)

  datatype Thread = Thread(activity: Activity, stack: seq<Slot>)

  datatype Event = Zero(tid: nat, block: nat) | Destroy(tid: nat, block: nat) | Free(tid: nat, block: nat)

  datatype State = State(
    handles: map<Slot, Handle>,
    blocks: map<nat, Block>,
    threads: map<nat, Thread>,
    log: seq<Event>,
    fault: bool)

  const TWO31 := 0x8000_0000
  const TWO32 := 0x1_0000_0000

  /** The 32-bit signed arithmetic of atomic_t. */
  function Wrap32(x: int): (r: int)
    ensures -TWO31 <= r < TWO31 && (x - r) % TWO32 == 0
    ensures -TWO31 <= x < TWO31 ==> r == x
  {
    (x + TWO31) % TWO32 - TWO31
  }

  // ----- Steps -----

  predicate InRelease(p: Phase) {
    p.ToDecrement? || p.AtMembers? || p.AtKfree? || p.ToReturn?
  }

  predicate Counts(x: Handle) {
    x.mode.Shared? || x.mode.phase.Steady? || x.mode.phase.ToDecrement?
  }

  const FREE := Shared({})

  function Fault(s: State): State {
    s.(fault := true)
  }

  predicate Usable(s: State, p: Ptr) {
    p.To? && p.block in s.blocks && !s.blocks[p.block].life.Freed?
  }

  function SetHandle(s: State, h: Slot, x: Handle): State {
    s.(handles := s.handles[h := x])
  }

  function SetMode(s: State, h: Slot, m: Mode): State
    requires h in s.handles
  {
    s.(handles := s.handles[h := s.handles[h].(mode := m)])
  }

  function Remove(s: State, h: Slot): State {
    s.(handles := s.handles - {h})
  }

  function SetBlock(s: State, b: nat, x: Block): State {
    s.(blocks := s.blocks[b := x])
  }

  function SetThread(s: State, t: nat, x: Thread): State {
    s.(threads := s.threads[t := x])
  }

  function Note(s: State, e: Event): State {
    s.(log := s.log + [e])
  }

  /** `atomic_dec_and_test` on the count behind `h`. */
  function Decrement(s: State, t: nat, h: Slot): State
    requires h in s.handles
  {
    var cb := s.handles[h].cb;
    if cb.Null? then SetMode(s, h, Held(t, ToReturn))
    else if !Usable(s, cb) then Fault(s)
    else
      var b := cb.block;
      var count := Wrap32(s.blocks[b].count - 1);
      if count == 0
      then SetMode(Note(SetBlock(s, b, s.blocks[b].(count := 0, life := Dying(t, h))), Zero(t, b)),
                   h, Held(t, AtMembers(0)))
      else SetMode(SetBlock(s, b, s.blocks[b].(count := count)), h, Held(t, ToReturn))
  }

  /** `ptr_->~T()`: start on the next member handle, or finish. */
  function DestroyStep(s: State, t: nat, h: Slot, k: nat): State
    requires h in s.handles && t in s.threads
  {
    var p := s.handles[h].ptr;
    if !Usable(s, p) then Fault(s)
    else if k < s.blocks[p.block].width then
      var m := Member(p.block, k);
      if m !in s.handles || s.handles[m].mode != FREE then Fault(s)
      else SetThread(SetMode(s, m, Held(t, ToDecrement)), t, s.threads[t].(stack := s.threads[t].stack + [m]))
    else
      SetMode(Note(SetBlock(s, p.block, s.blocks[p.block].(life := Destroyed(t, h))), Destroy(t, p.block)),
              h, Held(t, AtKfree))
  }

  function KfreeStep(s: State, t: nat, h: Slot): State
    requires h in s.handles
  {
    var cb := s.handles[h].cb;
    if !Usable(s, cb) then Fault(s)
    else SetMode(Note(SetBlock(s, cb.block, s.blocks[cb.block].(life := Freed(t))), Free(t, cb.block)),
                 h, Held(t, ToReturn))
  }

  /** `release()` returns: to the enclosing `~T`, to `~SharedPtr`, or to the assignment that called it. */
  function ReturnStep(s: State, t: nat, h: Slot): State
    requires h in s.handles && t in s.threads && s.threads[t].stack != []
  {
    var th := s.threads[t];
    var rest := th.stack[..|th.stack| - 1];
    if rest != [] then
      var g := rest[|rest| - 1];
      if g !in s.handles || !s.handles[g].mode.Held? || !s.handles[g].mode.phase.AtMembers? then Fault(s)
      else
        var next := s.handles[g].mode.phase.next + 1;
        SetThread(Remove(SetMode(s, g, Held(t, AtMembers(next))), h), t, th.(stack := rest))
    else
      match th.activity
      case Destroying(_) => SetThread(Remove(s, h), t, Thread(Idle, []))
      case Copying(dst, src, _) => SetThread(SetMode(s, h, Held(t, Spent)), t, Thread(Copying(dst, src, WritePtr), []))
      case Moving(dst, src, _) => SetThread(SetMode(s, h, Held(t, Spent)), t, Thread(Moving(dst, src, WritePtr), []))
      case Idle => SetThread(s, t, Thread(Idle, []))
  }

  function ReleaseStep(s: State, t: nat): State
    requires t in s.threads && s.threads[t].stack != []
  {
    var h := s.threads[t].stack[|s.threads[t].stack| - 1];
    if h !in s.handles || !s.handles[h].mode.Held? then Fault(s)
    else
      match s.handles[h].mode.phase
      case ToDecrement => Decrement(s, t, h)
      case AtMembers(k) => DestroyStep(s, t, h, k)
      case AtKfree => KfreeStep(s, t, h)
      case ToReturn => ReturnStep(s, t, h)
      case _ => Fault(s)
  }

  /** Copying after the old block is released: write ptr_, write cb_, increment. */
  function CopyStep(s: State, t: nat, dst: Slot, src: Slot, pc: Pc): State
    requires t in s.threads && dst in s.handles && src in s.handles
  {
    var d, o := s.handles[dst], s.handles[src];
    match pc
    case WritePtr =>
      SetThread(SetHandle(s, dst, Handle(o.ptr, d.cb, Held(t, Torn))), t, Thread(Copying(dst, src, WriteCb), []))
    case WriteCb =>
      SetThread(SetHandle(s, dst, Handle(d.ptr, o.cb, Held(t, Spent))), t, Thread(Copying(dst, src, Increment), []))
    case Increment =>
      if d.cb.To? && !Usable(s, d.cb) then Fault(s)
      else
        var counted :=
          if d.cb.Null? then s
          else SetBlock(s, d.cb.block, s.blocks[d.cb.block].(count := Wrap32(s.blocks[d.cb.block].count + 1)));
        var owned := SetMode(counted, dst, FREE);
        SetThread(if o.mode.Shared? then SetMode(owned, src, Shared(o.mode.readers - {t})) else owned, t,
                  Thread(Idle, []))
    case _ => Fault(s)
  }

  /** Moving: write ptr_, write cb_ (the reference changes hands), then null the source's two fields. */
  function MoveStep(s: State, t: nat, dst: Slot, src: Slot, pc: Pc): State
    requires t in s.threads && dst in s.handles && src in s.handles
  {
    var d, o := s.handles[dst], s.handles[src];
    match pc
    case WritePtr =>
      SetThread(SetHandle(s, dst, Handle(o.ptr, d.cb, Held(t, Torn))), t, Thread(Moving(dst, src, WriteCb), []))
    case WriteCb =>
      SetThread(SetHandle(SetHandle(s, dst, Handle(d.ptr, o.cb, Held(t, Steady))), src, o.(mode := Held(t, Spent))),
                t, Thread(Moving(dst, src, ClearPtr), []))
    case ClearPtr =>
      SetThread(SetHandle(s, src, Handle(Null, o.cb, Held(t, Torn))), t, Thread(Moving(dst, src, ClearCb), []))
    case ClearCb =>
      SetThread(SetHandle(SetMode(s, dst, FREE), src, Handle(o.ptr, Null, FREE)), t, Thread(Idle, []))
    case _ => Fault(s)
  }

  function Advance(s: State, t: nat): State
    requires t in s.threads
  {
    if s.threads[t].stack != [] then ReleaseStep(s, t)
    else
      match s.threads[t].activity
      case Copying(dst, src, pc) =>
        if dst in s.handles && src in s.handles then CopyStep(s, t, dst, src, pc) else Fault(s)
      case Moving(dst, src, pc) =>
        if dst in s.handles && src in s.handles then MoveStep(s, t, dst, src, pc) else Fault(s)
      case _ => s
  }

  datatype Step =
    | Continue
    | NewHandle(h: Slot)
    | MakeShared(h: Slot, block: nat, width: nat)
    | UseCount(h: Slot)
    | BeginDestroy(h: Slot)
    | BeginCopyNew(dst: Slot, src: Slot)
    | BeginMoveNew(dst: Slot, src: Slot)
    | BeginCopyAssign(dst: Slot, src: Slot)
    | BeginMoveAssign(dst: Slot, src: Slot)

  /** The members of a fresh object: handles that own nothing. */
  function FreshMembers(b: nat, width: nat): (members: map<Slot, Handle>)
    ensures forall s: Slot :: s in members <==> s.Member? && s.owner == b && s.index < width
    ensures forall s: Slot | s in members :: members[s] == Handle(Null, Null, FREE)
  {
    var slots := set i: nat | i < width :: Member(b, i);
    map m | m in slots :: Handle(Null, Null, FREE)
  }

  predicate IsNew(s: State, h: Slot) {
    h.Root? && h !in s.handles
  }

  predicate IsFree(s: State, h: Slot) {
    h in s.handles && s.handles[h].mode == FREE
  }

  predicate IsReadable(s: State, h: Slot) {
    h in s.handles && s.handles[h].mode.Shared?
  }

  /** Thread `t` is in `~T` and the next member handle to destroy is in use. */
  predicate AtUsedMember(s: State, t: nat) {
    && t in s.threads && s.threads[t].stack != []
    && var h := s.threads[t].stack[|s.threads[t].stack| - 1];
       && h in s.handles && s.handles[h].mode.Held? && s.handles[h].mode.phase.AtMembers?
       && s.handles[h].ptr.To?
       && var m := Member(s.handles[h].ptr.block, s.handles[h].mode.phase.next);
          m in s.handles && s.handles[m].mode != FREE
  }

  /** A thread starts an operation when it is idle; new handles are new, and handles to be changed are
      used by nobody.  Self-assignment is a no-op of the original and is no step here. */
  predicate Enabled(s: State, t: nat, step: Step) {
    && t in s.threads
    && match step
       case Continue => true
       case NewHandle(h) => IsNew(s, h)
       case MakeShared(h, b, _) => IsNew(s, h) && b !in s.blocks
       case UseCount(h) => IsReadable(s, h)
       case BeginDestroy(h) => s.threads[t] == IDLE && IsFree(s, h) && h.Root?
       case BeginCopyNew(dst, src) => s.threads[t] == IDLE && IsNew(s, dst) && IsReadable(s, src)
       case BeginMoveNew(dst, src) => s.threads[t] == IDLE && IsNew(s, dst) && IsFree(s, src)
       case BeginCopyAssign(dst, src) => s.threads[t] == IDLE && dst != src && IsFree(s, dst) && IsReadable(s, src)
       case BeginMoveAssign(dst, src) => s.threads[t] == IDLE && dst != src && IsFree(s, dst) && IsFree(s, src)
  }

  const IDLE := Thread(Idle, [])

  function AddReader(s: State, h: Slot, t: nat): State
    requires IsReadable(s, h)
  {
    SetMode(s, h, Shared(s.handles[h].mode.readers + {t}))
  }

  function Apply(s: State, t: nat, step: Step): State
    requires Enabled(s, t, step)
  {
    match step
    case Continue => Advance(s, t)
    case NewHandle(h) => SetHandle(s, h, Handle(Null, Null, FREE))
    case MakeShared(h, b, width) =>
      s.(handles := s.handles + FreshMembers(b, width) + map[h := Handle(To(b), To(b), FREE)],
         blocks := s.blocks[b := Block(1, width, Alive)])
    case UseCount(h) =>
      if s.handles[h].cb.To? && !Usable(s, s.handles[h].cb) then Fault(s) else s
    case BeginDestroy(h) =>
      SetThread(SetMode(s, h, Held(t, ToDecrement)), t, Thread(Destroying(h), [h]))
    case BeginCopyNew(dst, src) =>
      SetThread(SetHandle(AddReader(s, src, t), dst, Handle(Null, Null, Held(t, Spent))), t,
                Thread(Copying(dst, src, WritePtr), []))
    case BeginMoveNew(dst, src) =>
      SetThread(SetHandle(SetMode(s, src, Held(t, Steady)), dst, Handle(Null, Null, Held(t, Spent))), t,
                Thread(Moving(dst, src, WritePtr), []))
    case BeginCopyAssign(dst, src) =>
      SetThread(SetMode(AddReader(s, src, t), dst, Held(t, ToDecrement)), t,
                Thread(Copying(dst, src, Releasing), [dst]))
    case BeginMoveAssign(dst, src) =>
      SetThread(SetMode(SetMode(s, src, Held(t, Steady)), dst, Held(t, ToDecrement)), t,
                Thread(Moving(dst, src, Releasing), [dst]))
  }

  // ----- Invariant -----

  /** The reference that a handle owns. */
  function Token(x: Handle): Ptr {
    if Counts(x) then x.cb else Null
  }

  function TokenAt(handles: map<Slot, Handle>, h: Slot): Ptr {
    if h in handles then Token(handles[h]) else Null
  }

  /** The handles that hold one of the references counted for `b`. */
  function Counted(handles: map<Slot, Handle>, b: nat): set<Slot> {
    set h | h in handles && Token(handles[h]) == To(b)
  }

  predicate Reads(a: Activity, h: Slot) {
    a.Copying? && a.src == h
  }

  predicate Works(a: Activity, h: Slot) {
    (a.Copying? && a.dst == h) || (a.Moving? && (a.dst == h || a.src == h))
  }

  ghost predicate ModeOk(s: State, h: Slot, x: Handle) {
    match x.mode
    case Shared(readers) => forall u | u in readers :: u in s.threads && Reads(s.threads[u].activity, h)
    case Held(t, p) =>
      && t in s.threads
      && (InRelease(p) <==> h in s.threads[t].stack)
      && (!InRelease(p) ==> Works(s.threads[t].activity, h))
      && (p.AtMembers? ==>
            Usable(s, x.cb) && s.blocks[x.cb.block].life == Dying(t, h) && p.next <= s.blocks[x.cb.block].width)
      && (p.AtKfree? ==> Usable(s, x.cb) && s.blocks[x.cb.block].life == Destroyed(t, h))
  }

  ghost predicate HandleOk(s: State, h: Slot) {
    && h in s.handles
    && var x := s.handles[h];
       && (Counts(x) && x.cb.To? ==> x.cb.block in s.blocks)
       && (x.ptr == x.cb || (x.mode.Held? && x.mode.phase.Torn?))
       && (h.Member? ==> h.owner in s.blocks && h.index < s.blocks[h.owner].width
                         && (s.blocks[h.owner].life.Alive? || s.blocks[h.owner].life.Dying?))
       && ModeOk(s, h, x)
  }

  /** The member handles of block `b` that still exist are exactly those from `k` to `n - 1`. */
  ghost predicate MembersFrom(s: State, b: nat, k: nat, n: nat) {
    forall j: nat :: Member(b, j) in s.handles <==> k <= j < n
  }

  ghost predicate LifeOk(s: State, b: nat, x: Block) {
    match x.life
    case Alive => MembersFrom(s, b, 0, x.width)
    case Dying(t, h) =>
      && h in s.handles && s.handles[h].cb == To(b)
      && s.handles[h].mode.Held? && s.handles[h].mode.tid == t && s.handles[h].mode.phase.AtMembers?
      && MembersFrom(s, b, s.handles[h].mode.phase.next, x.width)
    case Destroyed(t, h) =>
      && h in s.handles && s.handles[h].cb == To(b)
      && s.handles[h].mode == Held(t, AtKfree)
      && MembersFrom(s, b, 0, 0)
    case Freed(_) => MembersFrom(s, b, 0, 0)
  }

  ghost predicate BlockOk(s: State, b: nat) {
    && b in s.blocks
    && s.blocks[b].count == |Counted(s.handles, b)|
    && (s.blocks[b].count > 0 <==> s.blocks[b].life.Alive?)
    && LifeOk(s, b, s.blocks[b])
  }

  /** Frame `i` is the member that the frame below it is destroying. */
  ghost predicate ParentOk(s: State, stack: seq<Slot>, i: int) {
    && 0 < i < |stack|
    && stack[i - 1] in s.handles
    && var x := s.handles[stack[i - 1]];
       && x.mode.Held? && x.mode.phase.AtMembers? && x.cb.To?
       && stack[i] == Member(x.cb.block, x.mode.phase.next)
  }

  ghost predicate StackOk(s: State, t: nat, stack: seq<Slot>) {
    && (forall h | h in stack :: h in s.handles && s.handles[h].mode.Held? && s.handles[h].mode.tid == t
                                && InRelease(s.handles[h].mode.phase))
    && (forall i, j | 0 <= i < j < |stack| :: stack[i] != stack[j])
    && (forall i {:trigger ParentOk(s, stack, i)} :: 0 < i < |stack| ==> ParentOk(s, stack, i))
  }

  ghost predicate HeldBy(s: State, h: Slot, t: nat, p: Phase) {
    h in s.handles && s.handles[h].mode == Held(t, p)
  }

  ghost predicate ActivityOk(s: State, t: nat, th: Thread) {
    match th.activity
    case Idle => th.stack == []
    case Destroying(h) => th.stack != [] && th.stack[0] == h && h.Root?
    case Copying(dst, src, pc) =>
      && dst != src && src in s.handles && s.handles[src].mode.Shared? && t in s.handles[src].mode.readers
      && (pc.Releasing? ==> th.stack != [] && th.stack[0] == dst)
      && (!pc.Releasing? ==> th.stack == [])
      && (pc.WritePtr? ==> HeldBy(s, dst, t, Spent))
      && (pc.WriteCb? ==> HeldBy(s, dst, t, Torn) && s.handles[dst].ptr == s.handles[src].ptr)
      && (pc.Increment? ==> HeldBy(s, dst, t, Spent) && s.handles[dst].cb == s.handles[src].cb)
      && !pc.ClearPtr? && !pc.ClearCb?
    case Moving(dst, src, pc) =>
      && dst != src && src in s.handles
      && (pc.Releasing? ==> th.stack != [] && th.stack[0] == dst && HeldBy(s, src, t, Steady))
      && (!pc.Releasing? ==> th.stack == [])
      && (pc.WritePtr? ==> HeldBy(s, dst, t, Spent) && HeldBy(s, src, t, Steady))
      && (pc.WriteCb? ==>
            HeldBy(s, dst, t, Torn) && HeldBy(s, src, t, Steady) && s.handles[dst].ptr == s.handles[src].ptr)
      && (pc.ClearPtr? ==> HeldBy(s, dst, t, Steady) && HeldBy(s, src, t, Spent))
      && (pc.ClearCb? ==> HeldBy(s, dst, t, Steady) && HeldBy(s, src, t, Torn) && s.handles[src].ptr == Null)
      && !pc.Increment?
  }

  ghost predicate ThreadOk(s: State, t: nat) {
    t in s.threads && StackOk(s, t, s.threads[t].stack) && ActivityOk(s, t, s.threads[t])
  }

  ghost predicate Handles(s: State) {
    forall h {:trigger HandleOk(s, h)} :: h in s.handles ==> HandleOk(s, h)
  }

  ghost predicate Blocks(s: State) {
    forall b {:trigger BlockOk(s, b)} :: b in s.blocks ==> BlockOk(s, b)
  }

  ghost predicate Threads(s: State) {
    forall t {:trigger ThreadOk(s, t)} :: t in s.threads ==> ThreadOk(s, t)
  }

  ghost predicate Inv(s: State) {
    !s.fault && Handles(s) && Blocks(s) && Threads(s) && LogOk(s)
  }

  // ----- The log -----

  /** The events of block `b`, in order. */
  function EventsOf(log: seq<Event>, b: nat): seq<Event> {
    if log == [] then []
    else
      var e := log[|log| - 1];
      EventsOf(log[..|log| - 1], b) + (if e.block == b then [e] else [])
  }

  function Story(b: nat, life: Life): seq<Event> {
    match life
    case Alive => []
    case Dying(t, _) => [Zero(t, b)]
    case Destroyed(t, _) => [Zero(t, b), Destroy(t, b)]
    case Freed(t) => [Zero(t, b), Destroy(t, b), Free(t, b)]
  }

  ghost predicate LogOk(s: State) {
    forall b {:trigger EventsOf(s.log, b)} ::
      EventsOf(s.log, b) == if b in s.blocks then Story(b, s.blocks[b].life) else []
  }

  lemma NoteEvent(log: seq<Event>, e: Event, b: nat)
    ensures EventsOf(log + [e], b) == EventsOf(log, b) + (if e.block == b then [e] else [])
  {
    assert (log + [e])[..|log|] == log;
  }

  /** A block moves on to the next stage of its life and the log gains the matching event. */
  lemma LogNoted(s: State, r: State, b: nat, e: Event)
    requires LogOk(s) && b in s.blocks && e.block == b && r.log == s.log + [e] && b in r.blocks
    requires r.blocks == s.blocks[b := r.blocks[b]]
    requires Story(b, r.blocks[b].life) == Story(b, s.blocks[b].life) + [e]
    ensures LogOk(r)
  {
    forall c: nat
      ensures EventsOf(r.log, c) == if c in r.blocks then Story(c, r.blocks[c].life) else []
    {
      NoteEvent(s.log, e, c);
    }
  }
}
