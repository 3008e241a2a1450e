/**
 NetDevice handles and XDP attachments: references on network devices and installed programs.
 `refs` is each device's reference count; `base` is what the rest of the kernel holds.  `status` is
 the answer of bpf_set_link_xdp_fd, 0 for success; the original looks at it when it attaches and
 ignores it when it detaches.  Dereferencing a null device sets `fault`.
 */
module NetDevices {
  import opened Common

  datatype Ptr = Null | To(dev: nat)

  datatype Attachment = Attachment(dev: Ptr, attached: bool)

  datatype State = State(
    refs: map<nat, int>,
    program: map<nat, Option<int>>,
    handles: map<nat, Ptr>,
    attachments: map<nat, Attachment>,
    fault: bool)

  // ----- Kernel calls -----

  function Count(s: State, p: Ptr, delta: int): State {
    if p.To? && p.dev in s.refs then s.(refs := s.refs[p.dev := s.refs[p.dev] + delta]) else s.(fault := true)
  }

  /** bpf_set_link_xdp_fd that succeeds: a negative descriptor removes the program. */
  function Install(s: State, p: Ptr, fd: int): State {
    if p.To? then s.(program := s.program[p.dev := if fd >= 0 then Some(fd) else None]) else s.(fault := true)
  }

  // ----- Operations -----

  datatype Op =
    | Find(h: nat, dev: Ptr)
    | MoveHandle(h: nat, other: nat)
    | AssignHandle(h: nat, other: nat)
    | DropHandle(h: nat)
    | Attach(x: nat, h: nat, fd: int, status: int)
    | MoveAttachment(x: nat, other: nat)
    | AssignAttachment(x: nat, other: nat, status: int)
    | DropAttachment(x: nat, status: int)

  function PutIfAny(s: State, p: Ptr): State {
    if p.Null? then s else Count(s, p, -1)
  }

  /** The program is removed if the kernel agrees; the reference is put in any case. */
  function DetachIfAttached(s: State, x: Attachment, status: int): State {
    if x.attached && x.dev.To? then
      Count(if status == 0 then Install(s, x.dev, -1) else s, x.dev, -1)
    else s
  }

  function Step(s: State, op: Op): State
    requires Legal(s, op)
  {
    match op
    case Find(h, dev) =>
      var r := s.(handles := s.handles[h := dev]);
      if dev.Null? then r else Count(r, dev, 1)
    case MoveHandle(h, other) => s.(handles := s.handles[h := s.handles[other]][other := Null])
    case AssignHandle(h, other) =>
      if h == other then s
      else
        var r := PutIfAny(s, s.handles[h]);
        r.(handles := r.handles[h := r.handles[other]][other := Null])
    case DropHandle(h) =>
      var r := PutIfAny(s, s.handles[h]);
      r.(handles := r.handles - {h})
    case Attach(x, h, fd, status) =>
      var dev := s.handles[h];
      if dev.Null? then s.(fault := true)
      else if status != 0 then s.(attachments := s.attachments[x := Attachment(dev, false)])
      else Count(Install(s.(attachments := s.attachments[x := Attachment(dev, true)]), dev, fd), dev, 1)
    case MoveAttachment(x, other) =>
      s.(attachments := s.attachments[x := s.attachments[other]][other := Attachment(Null, false)])
    case AssignAttachment(x, other, status) =>
      if x == other then s
      else
        var r := DetachIfAttached(s, s.attachments[x], status);
        r.(attachments := r.attachments[x := r.attachments[other]][other := Attachment(Null, false)])
    case DropAttachment(x, status) =>
      var r := DetachIfAttached(s, s.attachments[x], status);
      r.(attachments := r.attachments - {x})
  }

  /** New objects are new, used objects exist, and a device found by name is a known device. */
  predicate Legal(s: State, op: Op) {
    match op
    case Find(h, dev) => h !in s.handles && (dev.To? ==> dev.dev in s.refs)
    case MoveHandle(h, other) => h !in s.handles && other in s.handles
    case AssignHandle(h, other) => h in s.handles && other in s.handles
    case DropHandle(h) => h in s.handles
    case Attach(x, h, _, _) => x !in s.attachments && h in s.handles
    case MoveAttachment(x, other) => x !in s.attachments && other in s.attachments
    case AssignAttachment(x, other, _) => x in s.attachments && other in s.attachments
    case DropAttachment(x, _) => x in s.attachments
  }

  // ----- References -----

  function Handles(handles: map<nat, Ptr>, d: nat): set<nat> {
    set h | h in handles && handles[h] == To(d)
  }

  function Attached(attachments: map<nat, Attachment>, d: nat): set<nat> {
    set x | x in attachments && attachments[x] == Attachment(To(d), true)
  }

  ghost predicate RefsOk(s: State, base: nat -> int, d: nat) {
    d in s.refs ==> s.refs[d] == base(d) + |Handles(s.handles, d)| + |Attached(s.attachments, d)|
  }

  ghost predicate Inv(s: State, base: nat -> int) {
    && !s.fault
    && (forall d {:trigger RefsOk(s, base, d)} :: RefsOk(s, base, d))
    && (forall h | h in s.handles && s.handles[h].To? :: s.handles[h].dev in s.refs)
    && (forall x | x in s.attachments && s.attachments[x].attached ::
          s.attachments[x].dev.To? && s.attachments[x].dev.dev in s.refs)
  }

  lemma HandlesAfter(hs: map<nat, Ptr>, h: nat, p: Ptr, d: nat)
    ensures Handles(hs[h := p], d) == (Handles(hs, d) - {h}) + (if p == To(d) then {h} else {})
    ensures Handles(hs - {h}, d) == Handles(hs, d) - {h}
  {
  }

  lemma AttachedAfter(xs: map<nat, Attachment>, x: nat, y: Attachment, d: nat)
    ensures Attached(xs[x := y], d) == (Attached(xs, d) - {x}) + (if y == Attachment(To(d), true) then {x} else {})
    ensures Attached(xs - {x}, d) == Attached(xs, d) - {x}
  {
  }

  lemma AttachedAdded(xs: map<nat, Attachment>, x: nat, y: Attachment, d: nat)
    requires x !in xs
    ensures |Attached(xs[x := y], d)| == |Attached(xs, d)| + (if y == Attachment(To(d), true) then 1 else 0)
  {
    AttachedAfter(xs, x, y, d);
    assert x !in Attached(xs, d);
  }

  lemma HandlesMoved(hs: map<nat, Ptr>, h: nat, other: nat, d: nat)
    requires other in hs && h != other && (h in hs ==> hs[h].Null?)
    ensures |Handles(hs[h := hs[other]][other := Null], d)| == |Handles(hs, d)|
  {
    HandlesAfter(hs, h, hs[other], d);
    HandlesAfter(hs[h := hs[other]], other, Null, d);
    assert h !in Handles(hs, d);
    assert other in Handles(hs, d) <==> hs[other] == To(d);
  }

  lemma AttachedMoved(xs: map<nat, Attachment>, x: nat, other: nat, d: nat)
    requires other in xs && x != other && (x in xs ==> !xs[x].attached)
    ensures |Attached(xs[x := xs[other]][other := Attachment(Null, false)], d)| == |Attached(xs, d)|
  {
    AttachedAfter(xs, x, xs[other], d);
    AttachedAfter(xs[x := xs[other]], other, Attachment(Null, false), d);
    assert x !in Attached(xs, d);
    assert other in Attached(xs, d) <==> xs[other] == Attachment(To(d), true);
  }

  lemma FindRefs(s: State, base: nat -> int, h: nat, dev: Ptr, d: nat)
    requires Legal(s, Find(h, dev)) && RefsOk(s, base, d)
    ensures RefsOk(Step(s, Find(h, dev)), base, d)
  {
    HandlesAfter(s.handles, h, dev, d);
    assert h !in Handles(s.handles, d);
  }

  lemma FindOk(s: State, base: nat -> int, h: nat, dev: Ptr)
    requires Inv(s, base) && Legal(s, Find(h, dev))
    ensures Inv(Step(s, Find(h, dev)), base)
  {
    forall d: nat
      ensures RefsOk(Step(s, Find(h, dev)), base, d)
    {
      assert RefsOk(s, base, d);
      FindRefs(s, base, h, dev, d);
    }
  }

  lemma HandlesGone(hs: map<nat, Ptr>, h: nat, ks: map<nat, Ptr>, d: nat)
    requires h in hs && (ks == hs[h := Null] || ks == hs - {h})
    ensures |Handles(ks, d)| == |Handles(hs, d)| - (if hs[h] == To(d) then 1 else 0)
  {
    HandlesAfter(hs, h, Null, d);
    assert Handles(ks, d) == Handles(hs, d) - {h};
    assert h in Handles(hs, d) <==> hs[h] == To(d);
  }

  /** dev_put for the handle `h`, after which `h` is null or gone. */
  ghost predicate Put(s: State, h: nat, r: State) {
    && h in s.handles && (r.handles == s.handles[h := Null] || r.handles == s.handles - {h})
    && r == PutIfAny(s, s.handles[h]).(handles := r.handles)
  }

  lemma PutRefs(s: State, base: nat -> int, h: nat, r: State, d: nat)
    requires RefsOk(s, base, d) && Put(s, h, r) && (s.handles[h].To? ==> s.handles[h].dev in s.refs)
    ensures RefsOk(r, base, d)
  {
    HandlesGone(s.handles, h, r.handles, d);
  }

  lemma PutOk(s: State, base: nat -> int, h: nat, r: State)
    requires Inv(s, base) && Put(s, h, r)
    ensures Inv(r, base)
  {
    forall d
      ensures RefsOk(r, base, d)
    {
      assert RefsOk(s, base, d);
      PutRefs(s, base, h, r, d);
    }
  }

  lemma MoveHandleOk(s: State, base: nat -> int, h: nat, other: nat, r: State)
    requires Inv(s, base) && other in s.handles && h != other && (h in s.handles ==> s.handles[h].Null?)
    requires r == s.(handles := s.handles[h := s.handles[other]][other := Null])
    ensures Inv(r, base)
  {
    forall d
      ensures RefsOk(r, base, d)
    {
      assert RefsOk(s, base, d);
      HandlesMoved(s.handles, h, other, d);
    }
  }

  lemma AttachRefs(s: State, base: nat -> int, x: nat, h: nat, fd: int, status: int, d: nat)
    requires Legal(s, Attach(x, h, fd, status)) && s.handles[h].To? && RefsOk(s, base, d)
    ensures RefsOk(Step(s, Attach(x, h, fd, status)), base, d)
  {
    AttachedAdded(s.attachments, x, Attachment(s.handles[h], status == 0), d);
  }

  lemma AttachOk(s: State, base: nat -> int, x: nat, h: nat, fd: int, status: int)
    requires Inv(s, base) && Legal(s, Attach(x, h, fd, status)) && s.handles[h].To?
    ensures Inv(Step(s, Attach(x, h, fd, status)), base)
  {
    forall d: nat
      ensures RefsOk(Step(s, Attach(x, h, fd, status)), base, d)
    {
      assert RefsOk(s, base, d);
      AttachRefs(s, base, x, h, fd, status, d);
    }
  }

  /** `r` is `s` after attachment `x` is given up and empty or gone. */
  ghost predicate GivenUp(s: State, x: nat, status: int, r: State) {
    && x in s.attachments
    && (r.attachments == s.attachments[x := Attachment(Null, false)] || r.attachments == s.attachments - {x})
    && r == DetachIfAttached(s, s.attachments[x], status).(attachments := r.attachments)
  }

  lemma AttachedGone(xs: map<nat, Attachment>, x: nat, ys: map<nat, Attachment>, d: nat)
    requires x in xs && (ys == xs[x := Attachment(Null, false)] || ys == xs - {x})
    ensures |Attached(ys, d)| == |Attached(xs, d)| - (if xs[x] == Attachment(To(d), true) then 1 else 0)
  {
    AttachedAfter(xs, x, Attachment(Null, false), d);
    assert Attached(ys, d) == Attached(xs, d) - {x};
    assert x in Attached(xs, d) <==> xs[x] == Attachment(To(d), true);
  }

  lemma DetachRefs(s: State, base: nat -> int, x: nat, status: int, r: State, d: nat)
    requires RefsOk(s, base, d) && GivenUp(s, x, status, r)
    requires s.attachments[x].attached ==> s.attachments[x].dev.To? && s.attachments[x].dev.dev in s.refs
    ensures RefsOk(r, base, d)
  {
    AttachedGone(s.attachments, x, r.attachments, d);
  }

  lemma DetachOk(s: State, base: nat -> int, x: nat, status: int, r: State)
    requires Inv(s, base) && GivenUp(s, x, status, r)
    ensures Inv(r, base)
  {
    forall d
      ensures RefsOk(r, base, d)
    {
      assert RefsOk(s, base, d);
      DetachRefs(s, base, x, status, r, d);
    }
  }

  lemma MoveAttachmentOk(s: State, base: nat -> int, x: nat, other: nat, r: State)
    requires Inv(s, base) && other in s.attachments && x != other && (x in s.attachments ==> !s.attachments[x].attached)
    requires r == s.(attachments := s.attachments[x := s.attachments[other]][other := Attachment(Null, false)])
    ensures Inv(r, base)
  {
    forall d
      ensures RefsOk(r, base, d)
    {
      assert RefsOk(s, base, d);
      AttachedMoved(s.attachments, x, other, d);
    }
  }

  function EmptiedFor(s: State, x: nat, status: int): State
    requires x in s.attachments
  {
    DetachIfAttached(s, s.attachments[x], status).(attachments := s.attachments[x := Attachment(Null, false)])
  }

  /** Assignment is: give up the old, leave the target empty, then move. */
  lemma AssignSplits(s: State, x: nat, other: nat, status: int)
    requires Legal(s, AssignAttachment(x, other, status)) && x != other
    ensures var mid := EmptiedFor(s, x, status);
            Step(s, AssignAttachment(x, other, status)) ==
            mid.(attachments := mid.attachments[x := mid.attachments[other]][other := Attachment(Null, false)])
  {
    var xs := s.attachments;
    assert xs[x := Attachment(Null, false)][x := xs[other]] == xs[x := xs[other]];
  }

  lemma AssignHandleOk(s: State, base: nat -> int, h: nat, other: nat)
    requires Inv(s, base) && Legal(s, AssignHandle(h, other)) && h != other
    ensures Inv(Step(s, AssignHandle(h, other)), base)
  {
    var mid := PutIfAny(s, s.handles[h]).(handles := s.handles[h := Null]);
    PutOk(s, base, h, mid);
    assert s.handles[h := Null][h := s.handles[other]] == s.handles[h := s.handles[other]];
    MoveHandleOk(mid, base, h, other, Step(s, AssignHandle(h, other)));
  }

  lemma AssignAttachmentOk(s: State, base: nat -> int, x: nat, other: nat, status: int)
    requires Inv(s, base) && Legal(s, AssignAttachment(x, other, status)) && x != other
    ensures Inv(Step(s, AssignAttachment(x, other, status)), base)
  {
    AssignSplits(s, x, other, status);
    var mid := EmptiedFor(s, x, status);
    DetachOk(s, base, x, status, mid);
    MoveAttachmentOk(mid, base, x, other, Step(s, AssignAttachment(x, other, status)));
  }

  /** Each operation keeps the books, except that attaching through a null handle faults, exactly then. */
  lemma StepOk(s: State, base: nat -> int, op: Op)
    requires Inv(s, base) && Legal(s, op)
    ensures Step(s, op).fault <==> op.Attach? && s.handles[op.h].Null?
    ensures !Step(s, op).fault ==> Inv(Step(s, op), base)
  {
    match op
    case Find(h, dev) => FindOk(s, base, h, dev);
    case MoveHandle(h, other) => MoveHandleOk(s, base, h, other, Step(s, op));
    case AssignHandle(h, other) => if h != other { AssignHandleOk(s, base, h, other); }
    case DropHandle(h) => PutOk(s, base, h, Step(s, op));
    case Attach(x, h, fd, status) => if s.handles[h].To? { AttachOk(s, base, x, h, fd, status); }
    case MoveAttachment(x, other) => MoveAttachmentOk(s, base, x, other, Step(s, op));
    case AssignAttachment(x, other, status) => if x != other { AssignAttachmentOk(s, base, x, other, status); }
    case DropAttachment(x, status) => DetachOk(s, base, x, status, Step(s, op));
  }

  // ----- Installed programs -----

  predicate Installed(s: State, d: nat) {
    d in s.program && s.program[d].Some?
  }

  ghost predicate LawAt(s: State, d: nat) {
    Installed(s, d) <==> Attached(s.attachments, d) != {}
  }

  /** A program is installed exactly where an attached object points. */
  ghost predicate Law(s: State) {
    forall d {:trigger LawAt(s, d)} :: LawAt(s, d)
  }

  /** A successful attach installs exactly when the descriptor is not negative: that is the condition. */
  lemma AttachKeepsLawIff(s: State, x: nat, h: nat, fd: int, status: int)
    requires Law(s) && Legal(s, Attach(x, h, fd, status)) && s.handles[h].To? && s.handles[h].dev in s.refs
    ensures Law(Step(s, Attach(x, h, fd, status))) <==> status != 0 || fd >= 0
  {
    var r := Step(s, Attach(x, h, fd, status));
    var dev := s.handles[h].dev;
    forall d
      ensures LawAt(r, d) <==> d != dev || status != 0 || fd >= 0
    {
      assert LawAt(s, d);
      AttachedAfter(s.attachments, x, Attachment(s.handles[h], status == 0), d);
      assert x !in Attached(s.attachments, d);
    }
    assert LawAt(r, dev) <==> status != 0 || fd >= 0;
  }

  /** `x` is the only attachment of its device. */
  ghost predicate Sole(s: State, x: nat)
    requires x in s.attachments && s.attachments[x].dev.To?
  {
    Attached(s.attachments, s.attachments[x].dev.dev) == {x}
  }

  /** Giving up `x` is harmless: it was not attached, or its program goes exactly when nobody else is
      attached to the device. */
  ghost predicate MayGiveUp(s: State, x: nat, status: int)
    requires x in s.attachments
  {
    s.attachments[x].attached && s.attachments[x].dev.To? ==> (status == 0 <==> Sole(s, x))
  }

  /** Giving up an attachment removes the device's program even if another attachment is still there, and
      forgets the attachment even if the program could not be removed. */
  lemma DetachKeepsLawIff(s: State, x: nat, status: int, r: State)
    requires Law(s) && GivenUp(s, x, status, r)
    requires s.attachments[x].attached ==> s.attachments[x].dev.To? && s.attachments[x].dev.dev in s.refs
    ensures Law(r) <==> MayGiveUp(s, x, status)
  {
    var y := s.attachments[x];
    forall d
      ensures LawAt(r, d) <==> !y.attached || y.dev != To(d) || (status == 0 <==> Sole(s, x))
    {
      assert LawAt(s, d);
      AttachedAfter(s.attachments, x, Attachment(Null, false), d);
      assert x in Attached(s.attachments, d) <==> y == Attachment(To(d), true);
    }
    assert y.attached ==> (LawAt(r, y.dev.dev) <==> (status == 0 <==> Sole(s, x)));
  }

  lemma DropKeepsLawIff(s: State, base: nat -> int, x: nat, status: int)
    requires Inv(s, base) && Law(s) && Legal(s, DropAttachment(x, status))
    ensures Law(Step(s, DropAttachment(x, status))) <==> MayGiveUp(s, x, status)
  {
    DetachKeepsLawIff(s, x, status, Step(s, DropAttachment(x, status)));
  }

  /** Passing an attachment on changes neither what is installed nor where somebody is attached. */
  lemma MoveKeepsLawIff(s: State, x: nat, other: nat, r: State)
    requires other in s.attachments && x != other && (x in s.attachments ==> !s.attachments[x].attached)
    requires r == s.(attachments := s.attachments[x := s.attachments[other]][other := Attachment(Null, false)])
    ensures Law(r) <==> Law(s)
  {
    forall d
      ensures LawAt(r, d) <==> LawAt(s, d)
    {
      AttachedMoved(s.attachments, x, other, d);
    }
  }

  lemma AssignKeepsLawIff(s: State, base: nat -> int, x: nat, other: nat, status: int)
    requires Inv(s, base) && Law(s) && Legal(s, AssignAttachment(x, other, status)) && x != other
    ensures Law(Step(s, AssignAttachment(x, other, status))) <==> MayGiveUp(s, x, status)
  {
    AssignSplits(s, x, other, status);
    var mid := EmptiedFor(s, x, status);
    DetachKeepsLawIff(s, x, status, mid);
    MoveKeepsLawIff(mid, x, other, Step(s, AssignAttachment(x, other, status)));
  }

  lemma SameProgramsSameLaw(s: State, r: State)
    requires Law(s) && r.program == s.program && r.attachments == s.attachments
    ensures Law(r)
  {
    forall d
      ensures LawAt(r, d)
    {
      assert LawAt(s, d);
    }
  }

  /** The exact condition on an operation, decided on the state before it and the kernel's answer. */
  ghost predicate Careful(s: State, op: Op)
    requires Legal(s, op)
  {
    match op
    case Attach(_, _, fd, status) => status != 0 || fd >= 0
    case AssignAttachment(x, other, status) => x == other || MayGiveUp(s, x, status)
    case DropAttachment(x, status) => MayGiveUp(s, x, status)
    case _ => true
  }

  lemma StepKeepsLawIff(s: State, base: nat -> int, op: Op)
    requires Inv(s, base) && Law(s) && Legal(s, op) && (op.Attach? ==> s.handles[op.h].To?)
    ensures Law(Step(s, op)) <==> Careful(s, op)
  {
    match op
    case Attach(x, h, fd, status) => AttachKeepsLawIff(s, x, h, fd, status);
    case MoveAttachment(x, other) => MoveKeepsLawIff(s, x, other, Step(s, op));
    case AssignAttachment(x, other, status) =>
      if x != other {
        AssignKeepsLawIff(s, base, x, other, status);
      }
    case DropAttachment(x, status) => DropKeepsLawIff(s, base, x, status);
    case _ => SameProgramsSameLaw(s, Step(s, op));
  }

  // ----- What each operation does to handles and attachments -----

  /** A found device is what the handle names; a moved-to handle names what the other did, which is null
      afterwards; a destroyed handle is gone.  The references follow from the invariant. */
  lemma HandleEffects(s: State, base: nat -> int, op: Op)
    requires Inv(s, base) && Legal(s, op) && (op.Find? || op.MoveHandle? || op.AssignHandle? || op.DropHandle?)
    ensures var r := Step(s, op);
            && r.attachments == s.attachments && r.program == s.program && Inv(r, base)
            && (op.Find? ==> r.handles == s.handles[op.h := op.dev])
            && (op.MoveHandle? ==> r.handles == s.handles[op.h := s.handles[op.other]][op.other := Null])
            && (op.AssignHandle? && op.h == op.other ==> r == s)
            && (op.AssignHandle? && op.h != op.other ==>
                  r.handles == s.handles[op.h := s.handles[op.other]][op.other := Null])
            && (op.DropHandle? ==> r.handles == s.handles - {op.h})
  {
    StepOk(s, base, op);
  }

  /** An attach marks the object attached exactly if the kernel agrees, and then installs the program. */
  lemma AttachEffects(s: State, base: nat -> int, x: nat, h: nat, fd: int, status: int)
    requires Inv(s, base) && Legal(s, Attach(x, h, fd, status)) && s.handles[h].To?
    ensures var r := Step(s, Attach(x, h, fd, status));
            && r.handles == s.handles && Inv(r, base)
            && r.attachments == s.attachments[x := Attachment(s.handles[h], status == 0)]
            && r.program == (if status != 0 then s.program
                             else s.program[s.handles[h].dev := if fd >= 0 then Some(fd) else None])
  {
    StepOk(s, base, Attach(x, h, fd, status));
  }

  /** The programs after the attachment `x` is given up. */
  function ProgramsWithout(s: State, x: nat, status: int): map<nat, Option<int>>
    requires x in s.attachments
  {
    if s.attachments[x].attached && s.attachments[x].dev.To? && status == 0
    then s.program[s.attachments[x].dev.dev := None] else s.program
  }

  /** A moved-to attachment is what the other was, which is empty afterwards; an overwritten or destroyed
      one takes its device's program along if the kernel agrees. */
  lemma AttachmentEffects(s: State, base: nat -> int, op: Op)
    requires Inv(s, base) && Legal(s, op) && (op.MoveAttachment? || op.AssignAttachment? || op.DropAttachment?)
    ensures var r := Step(s, op);
            && r.handles == s.handles && Inv(r, base)
            && (op.MoveAttachment? ==>
                  && r.program == s.program
                  && r.attachments ==
                     s.attachments[op.x := s.attachments[op.other]][op.other := Attachment(Null, false)])
            && (op.AssignAttachment? && op.x == op.other ==> r == s)
            && (op.AssignAttachment? && op.x != op.other ==>
                  && r.program == ProgramsWithout(s, op.x, op.status)
                  && r.attachments ==
                     s.attachments[op.x := s.attachments[op.other]][op.other := Attachment(Null, false)])
            && (op.DropAttachment? ==>
                  r.program == ProgramsWithout(s, op.x, op.status) && r.attachments == s.attachments - {op.x})
  {
    StepOk(s, base, op);
  }

  // ----- Runs -----

  /** A run whose calls are legal and never attach through a null handle. */
  predicate LegalRun(s: State, ops: seq<Op>)
    decreases |ops|
  {
    ops == [] ||
    (Legal(s, ops[0]) && (ops[0].Attach? ==> s.handles[ops[0].h].To?) && LegalRun(Step(s, ops[0]), ops[1..]))
  }

  function Run(s: State, ops: seq<Op>): State
    requires LegalRun(s, ops)
    decreases |ops|
  {
    if ops == [] then s else Run(Step(s, ops[0]), ops[1..])
  }

  /** Over any run: references on a device = base + handles naming it + attachments naming it. */
  lemma {:induction false} RunConservesReferences(s: State, base: nat -> int, ops: seq<Op>)
    requires Inv(s, base) && LegalRun(s, ops)
    ensures Inv(Run(s, ops), base)
    decreases |ops|
  {
    if ops != [] {
      StepOk(s, base, ops[0]);
      RunConservesReferences(Step(s, ops[0]), base, ops[1..]);
    }
  }

  /** A program is installed exactly where an attached object points, now and after every operation. */
  ghost predicate LawThroughout(s: State, ops: seq<Op>)
    requires LegalRun(s, ops)
    decreases |ops|
  {
    Law(s) && (ops != [] ==> LawThroughout(Step(s, ops[0]), ops[1..]))
  }

  ghost predicate CarefulRun(s: State, ops: seq<Op>)
    requires LegalRun(s, ops)
    decreases |ops|
  {
    ops != [] ==> Careful(s, ops[0]) && CarefulRun(Step(s, ops[0]), ops[1..])
  }

  /** The law holds throughout a run exactly when every operation in it is careful. */
  lemma {:induction false} RunKeepsLawIff(s: State, base: nat -> int, ops: seq<Op>)
    requires Inv(s, base) && Law(s) && LegalRun(s, ops)
    ensures LawThroughout(s, ops) <==> CarefulRun(s, ops)
    decreases |ops|
  {
    if ops != [] {
      StepOk(s, base, ops[0]);
      StepKeepsLawIff(s, base, ops[0]);
      var r := Step(s, ops[0]);
      if Law(r) {
        RunKeepsLawIff(r, base, ops[1..]);
      }
    }
  }

  /** No device has two attachments at once. */
  ghost predicate OneEach(s: State) {
    forall d, x, y | x in Attached(s.attachments, d) && y in Attached(s.attachments, d) :: x == y
  }

  ghost predicate NeverTwo(s: State, ops: seq<Op>)
    requires LegalRun(s, ops)
    decreases |ops|
  {
    OneEach(s) && (ops != [] ==> NeverTwo(Step(s, ops[0]), ops[1..]))
  }

  /** Attaches that succeed have a descriptor, and detaches succeed. */
  predicate GoodAnswers(op: Op) {
    && (op.Attach? && op.status == 0 ==> op.fd >= 0)
    && (op.AssignAttachment? || op.DropAttachment? ==> op.status == 0)
  }

  lemma SoleIfOneEach(s: State, x: nat)
    requires x in s.attachments && OneEach(s)
    ensures MayGiveUp(s, x, 0)
  {
    var y := s.attachments[x];
    if y.attached && y.dev.To? {
      assert x in Attached(s.attachments, y.dev.dev);
    }
  }

  lemma GoodStepIsCareful(s: State, op: Op)
    requires Legal(s, op) && OneEach(s) && GoodAnswers(op)
    ensures Careful(s, op)
  {
    if op.AssignAttachment? || op.DropAttachment? {
      SoleIfOneEach(s, op.x);
    }
  }

  /** What a caller can arrange: one attachment for each device, real descriptors, detaches that succeed. */
  lemma {:induction false} RunKeepsLaw(s: State, base: nat -> int, ops: seq<Op>)
    requires Inv(s, base) && Law(s) && LegalRun(s, ops) && NeverTwo(s, ops) && forall op | op in ops :: GoodAnswers(op)
    ensures LawThroughout(s, ops) && CarefulRun(s, ops)
    decreases |ops|
  {
    if ops != [] {
      GoodStepIsCareful(s, ops[0]);
      StepOk(s, base, ops[0]);
      StepKeepsLawIff(s, base, ops[0]);
      RunKeepsLaw(Step(s, ops[0]), base, ops[1..]);
    }
  }

  // ----- Runs that break the law -----

  /** One device that nobody uses yet. */
  const START := State(map[0 := 0], map[], map[], map[], false)

  lemma StartOk()
    ensures Inv(START, d => 0) && Law(START)
  {
    forall d
      ensures RefsOk(START, d => 0, d) && LawAt(START, d)
    {
      assert Handles(START.handles, d) == {} && Attached(START.attachments, d) == {};
    }
  }

  lemma TakeOp(s: State, ops: seq<Op>)
    requires ops != [] && Legal(s, ops[0]) && (ops[0].Attach? ==> s.handles[ops[0].h].To?)
    requires LegalRun(Step(s, ops[0]), ops[1..])
    ensures LegalRun(s, ops) && Run(s, ops) == Run(Step(s, ops[0]), ops[1..])
  {
  }

  const FOUND := State(map[0 := 1], map[], map[0 := To(0)], map[], false)
  const ATTACHED := State(map[0 := 2], map[0 := Some(5)], map[0 := To(0)], map[0 := Attachment(To(0), true)], false)

  /** Finding a device and attaching program 5 to it, then `rest`. */
  lemma AttachThen(rest: seq<Op>)
    requires LegalRun(ATTACHED, rest)
    ensures var ops := [Find(0, To(0)), Attach(0, 0, 5, 0)] + rest;
            LegalRun(START, ops) && Run(START, ops) == Run(ATTACHED, rest)
  {
    var ops := [Find(0, To(0)), Attach(0, 0, 5, 0)] + rest;
    assert Step(START, ops[0]) == FOUND && Step(FOUND, ops[1]) == ATTACHED;
    assert ops[1..][1..] == rest;
    TakeOp(FOUND, ops[1..]);
    TakeOp(START, ops);
  }

  lemma NotLawAt(s: State, d: nat)
    requires !LawAt(s, d)
    ensures !Law(s)
  {
  }

  /** Two attachments on one device: after one of them is gone the other has no program. */
  lemma SecondAttachmentBreaksLaw()
    ensures var ops := [Find(0, To(0)), Attach(0, 0, 5, 0)] + [Attach(1, 0, 6, 0), DropAttachment(0, 0)];
            LegalRun(START, ops) && !Law(Run(START, ops))
  {
    var rest := [Attach(1, 0, 6, 0), DropAttachment(0, 0)];
    var both := Step(ATTACHED, rest[0]);
    var end := Step(both, rest[1]);
    assert rest[1..][1..] == [];
    TakeOp(both, rest[1..]);
    TakeOp(ATTACHED, rest);
    AttachThen(rest);
    assert 1 in Attached(end.attachments, 0);
    NotLawAt(end, 0);
  }

  /** The program could not be removed: it stays installed with nobody attached. */
  lemma FailedDetachBreaksLaw()
    ensures var ops := [Find(0, To(0)), Attach(0, 0, 5, 0)] + [DropAttachment(0, -1)];
            LegalRun(START, ops) && !Law(Run(START, ops))
  {
    var rest := [DropAttachment(0, -1)];
    var end := Step(ATTACHED, rest[0]);
    assert rest[1..] == [];
    TakeOp(ATTACHED, rest);
    AttachThen(rest);
    assert Attached(end.attachments, 0) == {};
    NotLawAt(end, 0);
  }

  /** A negative descriptor removes the program, and the object counts as attached. */
  lemma NegativeDescriptorBreaksLaw()
    ensures var ops := [Find(0, To(0)), Attach(0, 0, -1, 0)]; LegalRun(START, ops) && !Law(Run(START, ops))
  {
    var ops := [Find(0, To(0)), Attach(0, 0, -1, 0)];
    assert Step(START, ops[0]) == FOUND;
    var end := Step(FOUND, ops[1]);
    assert ops[1..][1..] == [];
    TakeOp(FOUND, ops[1..]);
    TakeOp(START, ops);
    assert 0 in Attached(end.attachments, 0);
    NotLawAt(end, 0);
  }

  /** A device that is not found gives a null handle; attaching through it dereferences null. */
  lemma NullAttachFaults()
    ensures Legal(START, Find(0, Null)) && Legal(Step(START, Find(0, Null)), Attach(0, 0, 5, 0))
    ensures Step(Step(START, Find(0, Null)), Attach(0, 0, 5, 0)).fault
  {
  }

  // ----- The operations as updates in place -----

  class Devices {
    var refs: map<nat, int>
    var program: map<nat, Option<int>>
    var handles: map<nat, Ptr>
    var attachments: map<nat, Attachment>
    var fault: bool

    ghost function Now(): State
      reads this
    {
      State(refs, program, handles, attachments, fault)
    }

    constructor (refs: map<nat, int>)
      ensures Now() == State(refs, map[], map[], map[], false)
    {
      this.refs, program, handles, attachments, fault := refs, map[], map[], map[], false;
    }

    method DevCount(p: Ptr, delta: int)
      modifies this
      ensures Now() == Count(old(Now()), p, delta)
    {
      if p.To? && p.dev in refs {
        refs := refs[p.dev := refs[p.dev] + delta];
      } else {
        fault := true;
      }
    }

    method SetLink(p: Ptr, fd: int)
      modifies this
      ensures Now() == Install(old(Now()), p, fd)
    {
      if p.To? {
        program := program[p.dev := if fd >= 0 then Some(fd) else None];
      } else {
        fault := true;
      }
    }

    /** The constructor of XDPAttachment. */
    method AttachTo(x: nat, h: nat, fd: int, status: int)
      requires Legal(Now(), Attach(x, h, fd, status))
      modifies this
      ensures Now() == Step(old(Now()), Attach(x, h, fd, status))
    {
      var dev := handles[h];
      if dev.Null? {
        fault := true;
        return;
      }
      attachments := attachments[x := Attachment(dev, false)];
      if status == 0 {
        SetLink(dev, fd);
        attachments := attachments[x := Attachment(dev, true)];
        DevCount(dev, 1);
      }
    }

    /** The call to remove the program, whose answer is ignored, and the put. */
    method Detach(x: nat, status: int)
      requires x in attachments
      modifies this
      ensures Now() == DetachIfAttached(old(Now()), old(attachments[x]), status)
    {
      var y := attachments[x];
      if y.attached && y.dev.To? {
        if status == 0 {
          SetLink(y.dev, -1);
        }
        DevCount(y.dev, -1);
      }
    }

    /** The destructor of XDPAttachment. */
    method DropAttached(x: nat, status: int)
      requires Legal(Now(), DropAttachment(x, status))
      modifies this
      ensures Now() == Step(old(Now()), DropAttachment(x, status))
    {
      Detach(x, status);
      attachments := attachments - {x};
    }

    method Assign(x: nat, other: nat, status: int)
      requires Legal(Now(), AssignAttachment(x, other, status))
      modifies this
      ensures Now() == Step(old(Now()), AssignAttachment(x, other, status))
    {
      if x != other {
        Detach(x, status);
        attachments := attachments[x := attachments[other]];
        attachments := attachments[other := Attachment(Null, false)];
      }
    }

    method AssignDevice(h: nat, other: nat)
      requires Legal(Now(), AssignHandle(h, other))
      modifies this
      ensures Now() == Step(old(Now()), AssignHandle(h, other))
    {
      if h != other {
        if handles[h].To? {
          DevCount(handles[h], -1);
        }
        handles := handles[h := handles[other]];
        handles := handles[other := Null];
      }
    }
  }
}
