/**
 Expected: a tagged union with placement new.  Every T and E that is ever constructed gets an
 identity; destroying one that is not alive, or building over one that is, sets `fault`.  A move
 constructs a new object from the old one, which stays alive in its moved-from state.
 */
module Expected {

  datatype Kind = Value | Error

  /** What the union's storage holds: nothing, or one living object. */
  datatype Storage = Raw | Holds(kind: Kind, id: nat)

  datatype Cell = Cell(storage: Storage, hasValue: bool)

  /** One constructed T or E, with what it carries. */
  datatype Object = Object(kind: Kind, payload: nat)

  /** `made[id]` is object `id`; `gone` lists destructor calls in order. */
  datatype State = State(cells: map<nat, Cell>, made: seq<Object>, gone: seq<nat>, fault: bool)

  // ----- Primitive steps on the storage of cell `c` -----

  function Fault(s: State): State {
    s.(fault := true)
  }

  /** Placement new of object `o` into cell `c`. */
  function Build(s: State, c: nat, o: Object): State {
    if c !in s.cells || s.cells[c].storage.Holds? then Fault(s)
    else s.(cells := s.cells[c := s.cells[c].(storage := Holds(o.kind, |s.made|))], made := s.made + [o])
  }

  /** An explicit destructor call for a `kind` in cell `c`. */
  function Unbuild(s: State, c: nat, kind: Kind): State {
    if c !in s.cells || s.cells[c].storage.Raw? || s.cells[c].storage.kind != kind then Fault(s)
    else s.(cells := s.cells[c := s.cells[c].(storage := Raw)], gone := s.gone + [s.cells[c].storage.id])
  }

  function SetTag(s: State, c: nat, hasValue: bool): State {
    if c !in s.cells then Fault(s) else s.(cells := s.cells[c := s.cells[c].(hasValue := hasValue)])
  }

  function KindOf(hasValue: bool): Kind {
    if hasValue then Value else Error
  }

  // ----- Operations -----

  /** `~Expected` without giving up the storage. */
  function Destruct(s: State, c: nat): State {
    if c !in s.cells then Fault(s) else Unbuild(s, c, KindOf(s.cells[c].hasValue))
  }

  /** Move construction into the raw storage of `c`: copy the tag, then build from the named alternative. */
  function MoveInto(s: State, c: nat, other: nat): State {
    if other !in s.cells then Fault(s)
    else
      var tag := s.cells[other].hasValue;
      if s.cells[other].storage.Raw? || s.cells[other].storage.kind != KindOf(tag) then Fault(s)
      else Build(SetTag(s, c, tag), c, Object(KindOf(tag), Payload(s, other)))
  }

  /** What the object in cell `c` carries. */
  function Payload(s: State, c: nat): nat {
    if c in s.cells && s.cells[c].storage.Holds? && s.cells[c].storage.id < |s.made|
    then s.made[s.cells[c].storage.id].payload else 0
  }

  datatype Op =
    | Construct(c: nat, kind: Kind, payload: nat)
    | MoveConstruct(c: nat, other: nat)
    | MoveAssign(c: nat, other: nat)
    | Destroy(c: nat)

  function Fresh(s: State, c: nat): State {
    s.(cells := s.cells[c := Cell(Raw, false)])
  }

  function Step(s: State, op: Op): State {
    match op
    case Construct(c, kind, payload) => Build(SetTag(Fresh(s, c), c, kind == Value), c, Object(kind, payload))
    case MoveConstruct(c, other) => MoveInto(Fresh(s, c), c, other)
    case MoveAssign(c, other) => if c == other then s else MoveInto(Destruct(s, c), c, other)
    case Destroy(c) => var r := Destruct(s, c); r.(cells := r.cells - {c})
  }

  /** New objects are new; moved and destroyed objects exist. */
  predicate Legal(s: State, op: Op) {
    match op
    case Construct(c, _, _) => c !in s.cells
    case MoveConstruct(c, other) => c !in s.cells && other in s.cells
    case MoveAssign(c, other) => c in s.cells && other in s.cells
    case Destroy(c) => c in s.cells
  }

  function Run(s: State, ops: seq<Op>): State
    decreases |ops|
  {
    if ops == [] then s else Run(Step(s, ops[0]), ops[1..])
  }

  predicate LegalRun(s: State, ops: seq<Op>)
    decreases |ops|
  {
    ops == [] || (Legal(s, ops[0]) && LegalRun(Step(s, ops[0]), ops[1..]))
  }

  // ----- Invariant -----

  /** The live alternative is the one has_value_ names; no object is in two cells or already gone; and
      every object made is in a cell or gone. */
  ghost predicate Inv(s: State) {
    && !s.fault
    && (forall c | c in s.cells ::
          && s.cells[c].storage.Holds? && s.cells[c].storage.kind == KindOf(s.cells[c].hasValue)
          && s.cells[c].storage.id < |s.made| && s.made[s.cells[c].storage.id].kind == s.cells[c].storage.kind
          && s.cells[c].storage.id !in s.gone)
    && (forall c, d | c in s.cells && d in s.cells && c != d :: s.cells[c].storage != s.cells[d].storage)
    && (forall i, j | 0 <= i < j < |s.gone| :: s.gone[i] != s.gone[j])
    && (forall i | i in s.gone :: i < |s.made|)
    && (forall i: nat | i < |s.made| :: i in s.gone || InSomeCell(s, i))
  }

  ghost predicate InSomeCell(s: State, i: nat) {
    exists c :: c in s.cells && s.cells[c].storage.Holds? && s.cells[c].storage.id == i
  }

  /** One operation, as its net effect: at most one object dies and at most one is born. */
  lemma ConstructOk(s: State, c: nat, o: Object, r: State)
    requires Inv(s) && c !in s.cells
    requires r == State(s.cells[c := Cell(Holds(o.kind, |s.made|), o.kind == Value)], s.made + [o], s.gone, false)
    ensures Inv(r)
  {
    forall i: nat | i < |r.made|
      ensures i in r.gone || InSomeCell(r, i)
    {
      if i == |s.made| {
        assert r.cells[c].storage.id == i;
      } else if i !in s.gone {
        var d :| d in s.cells && s.cells[d].storage.Holds? && s.cells[d].storage.id == i;
        assert r.cells[d].storage.id == i;
      }
    }
  }

  lemma DestroyOk(s: State, c: nat, r: State)
    requires Inv(s) && c in s.cells
    requires r == State(s.cells - {c}, s.made, s.gone + [s.cells[c].storage.id], false)
    ensures Inv(r)
  {
    forall i: nat | i < |r.made|
      ensures i in r.gone || InSomeCell(r, i)
    {
      if i !in s.gone {
        var d :| d in s.cells && s.cells[d].storage.Holds? && s.cells[d].storage.id == i;
        assert d == c || r.cells[d].storage.id == i;
        assert s.cells[c].storage.id in r.gone;
      }
    }
  }

  /** The tag of `other` names what its storage holds. */
  ghost predicate Tagged(s: State, other: nat) {
    other in s.cells && s.cells[other].storage.Holds? && s.cells[other].storage.kind == KindOf(s.cells[other].hasValue)
  }

  lemma MoveConstructNet(s: State, c: nat, other: nat)
    requires c !in s.cells && Tagged(s, other) && !s.fault
    ensures var o := Object(s.cells[other].storage.kind, Payload(s, other));
            Step(s, MoveConstruct(c, other)) ==
            State(s.cells[c := Cell(Holds(o.kind, |s.made|), o.kind == Value)], s.made + [o], s.gone, false)
  {
  }

  lemma MoveAssignNet(s: State, c: nat, other: nat)
    requires c != other && Tagged(s, c) && Tagged(s, other) && !s.fault
    ensures var o := Object(s.cells[other].storage.kind, Payload(s, other));
            Step(s, MoveAssign(c, other)) ==
            State((s.cells - {c})[c := Cell(Holds(o.kind, |s.made|), o.kind == Value)], s.made + [o],
                  s.gone + [s.cells[c].storage.id], false)
  {
  }

  lemma DestroyNet(s: State, c: nat)
    requires Tagged(s, c) && !s.fault
    ensures Step(s, Destroy(c)) == State(s.cells - {c}, s.made, s.gone + [s.cells[c].storage.id], false)
  {
  }

  lemma StepOk(s: State, op: Op)
    requires Inv(s) && Legal(s, op)
    ensures Inv(Step(s, op))
  {
    match op
    case Construct(c, kind, payload) => ConstructOk(s, c, Object(kind, payload), Step(s, op));
    case MoveConstruct(c, other) =>
      MoveConstructNet(s, c, other);
      ConstructOk(s, c, Object(s.cells[other].storage.kind, Payload(s, other)), Step(s, op));
    case MoveAssign(c, other) =>
      if c != other {
        MoveAssignOk(s, c, other);
      }
    case Destroy(c) =>
      DestroyNet(s, c);
      DestroyOk(s, c, Step(s, op));
  }

  lemma MoveAssignOk(s: State, c: nat, other: nat)
    requires Inv(s) && Legal(s, MoveAssign(c, other)) && c != other
    ensures Inv(Step(s, MoveAssign(c, other)))
  {
    MoveAssignNet(s, c, other);
    var mid := State(s.cells - {c}, s.made, s.gone + [s.cells[c].storage.id], false);
    DestroyOk(s, c, mid);
    ConstructOk(mid, c, Object(s.cells[other].storage.kind, Payload(s, other)), Step(s, MoveAssign(c, other)));
  }

  /** No object but the one in `c` changes. */
  ghost predicate OthersStay(s: State, r: State, c: nat) {
    && (forall d :: d != c ==> (d in r.cells <==> d in s.cells))
    && (forall d | d in s.cells && d != c :: r.cells[d] == s.cells[d] && Payload(r, d) == Payload(s, d))
  }

  /** A new object `o` in cell `c`, seen from the outside. */
  lemma Delivered(s: State, c: nat, o: Object, gone: seq<nat>, r: State)
    requires Inv(s) && r.cells == s.cells[c := Cell(Holds(o.kind, |s.made|), o.kind == Value)]
    requires r.made == s.made + [o] && r.gone == gone
    ensures Payload(r, c) == o.payload && OthersStay(s, r, c)
  {
    forall d | d in s.cells && d != c
      ensures r.cells[d] == s.cells[d] && Payload(r, d) == Payload(s, d)
    {
      assert s.cells[d].storage.id < |s.made|;
    }
  }

  /** A construction stores the given alternative with the given payload. */
  lemma ConstructDelivers(s: State, c: nat, kind: Kind, payload: nat)
    requires Inv(s) && Legal(s, Construct(c, kind, payload))
    ensures var r := Step(s, Construct(c, kind, payload));
            && c in r.cells && r.cells[c].storage.Holds? && r.cells[c].storage.kind == kind
            && (r.cells[c].hasValue <==> kind == Value) && Payload(r, c) == payload
            && r.made == s.made + [Object(kind, payload)] && r.gone == s.gone && OthersStay(s, r, c)
  {
    Delivered(s, c, Object(kind, payload), s.gone, Step(s, Construct(c, kind, payload)));
  }

  /** A move delivers the alternative and the payload of the source, which stays as it is; an assignment
      destroys exactly the object it overwrites. */
  lemma MoveDelivers(s: State, op: Op)
    requires Inv(s) && Legal(s, op) && (op.MoveConstruct? || op.MoveAssign?)
    ensures var r := Step(s, op);
            && op.c in r.cells && r.cells[op.c].hasValue == s.cells[op.other].hasValue
            && r.cells[op.c].storage.Holds? && r.cells[op.c].storage.kind == s.cells[op.other].storage.kind
            && Payload(r, op.c) == Payload(s, op.other)
            && OthersStay(s, r, op.c)
            && (op.c == op.other ==> r == s)
            && (op.c != op.other ==>
                  && r.made == s.made + [Object(s.cells[op.other].storage.kind, Payload(s, op.other))]
                  && r.gone == (if op.MoveAssign? then s.gone + [s.cells[op.c].storage.id] else s.gone))
  {
    var r, o := Step(s, op), Object(s.cells[op.other].storage.kind, Payload(s, op.other));
    if op.MoveConstruct? {
      MoveConstructNet(s, op.c, op.other);
      Delivered(s, op.c, o, s.gone, r);
    } else if op.c != op.other {
      MoveAssignNet(s, op.c, op.other);
      assert (s.cells - {op.c})[op.c := r.cells[op.c]] == s.cells[op.c := r.cells[op.c]];
      Delivered(s, op.c, o, s.gone + [s.cells[op.c].storage.id], r);
    }
  }

  /** A destruction removes the object and destroys what it held, once. */
  lemma DestroyDelivers(s: State, c: nat)
    requires Inv(s) && Legal(s, Destroy(c))
    ensures var r := Step(s, Destroy(c));
            && c !in r.cells && r.made == s.made && r.gone == s.gone + [s.cells[c].storage.id] && OthersStay(s, r, c)
  {
    DestroyNet(s, c);
  }

  const EMPTY := State(map[], [], [], false)

  /** Every run keeps the tag and the live alternative in step, moved-from objects included. */
  lemma {:induction false} RunOk(s: State, ops: seq<Op>)
    requires Inv(s) && LegalRun(s, ops)
    ensures Inv(Run(s, ops))
    decreases |ops|
  {
    if ops != [] {
      StepOk(s, ops[0]);
      RunOk(Step(s, ops[0]), ops[1..]);
    }
  }

  /** A run does its operations one after the other. */
  lemma {:induction false} RunComposes(s: State, ops: seq<Op>, op: Op)
    ensures Run(s, ops + [op]) == Step(Run(s, ops), op)
    decreases |ops|
  {
    if ops == [] {
      assert ([] + [op])[1..] == [];
    } else {
      assert (ops + [op])[1..] == ops[1..] + [op];
      RunComposes(Step(s, ops[0]), ops[1..], op);
    }
  }

  /** Once all objects are destroyed, every T and E ever constructed was destroyed exactly once. */
  lemma AllDestroyedOnce(ops: seq<Op>)
    requires LegalRun(EMPTY, ops) && Run(EMPTY, ops).cells == map[]
    ensures var r := Run(EMPTY, ops);
            && !r.fault
            && (forall i: nat :: i < |r.made| <==> i in r.gone)
            && (forall i, j | 0 <= i < j < |r.gone| :: r.gone[i] != r.gone[j])
  {
    RunOk(EMPTY, ops);
  }

  // ----- The operations as updates in place -----

  class Storages {
    var cells: map<nat, Cell>
    var made: seq<Object>
    var gone: seq<nat>
    var fault: bool

    ghost function Now(): State
      reads this
    {
      State(cells, made, gone, fault)
    }

    constructor ()
      ensures Now() == EMPTY
    {
      cells, made, gone, fault := map[], [], [], false;
    }

    method PlacementNew(c: nat, o: Object)
      modifies this
      ensures Now() == Build(old(Now()), c, o)
    {
      if c !in cells || cells[c].storage.Holds? {
        fault := true;
        return;
      }
      cells := cells[c := cells[c].(storage := Holds(o.kind, |made|))];
      made := made + [o];
    }

    /** `~Expected`: runs the destructor that the tag selects. */
    method RunDestructor(c: nat)
      modifies this
      ensures Now() == Destruct(old(Now()), c)
    {
      if c !in cells {
        fault := true;
        return;
      }
      var kind := if cells[c].hasValue then Value else Error;
      if cells[c].storage.Raw? || cells[c].storage.kind != kind {
        fault := true;
        return;
      }
      gone := gone + [cells[c].storage.id];
      cells := cells[c := cells[c].(storage := Raw)];
    }

    method RunMoveConstructor(c: nat, other: nat)
      modifies this
      ensures Now() == MoveInto(old(Now()), c, other)
    {
      if other !in cells {
        fault := true;
        return;
      }
      var tag := cells[other].hasValue;
      if cells[other].storage.Raw? || cells[other].storage.kind != KindOf(tag) {
        fault := true;
        return;
      }
      var payload := if cells[other].storage.id < |made| then made[cells[other].storage.id].payload else 0;
      if c in cells {
        cells := cells[c := cells[c].(hasValue := tag)];
      } else {
        fault := true;
      }
      if tag {
        PlacementNew(c, Object(Value, payload));
      } else {
        PlacementNew(c, Object(Error, payload));
      }
    }

    /** Destroy in place, then move-construct in place, unless it is the same object. */
    method Assign(c: nat, other: nat)
      modifies this
      ensures Now() == Step(old(Now()), MoveAssign(c, other))
    {
      if c != other {
        RunDestructor(c);
        RunMoveConstructor(c, other);
      }
    }
  }
}
