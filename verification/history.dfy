/** Sequences of model operations, as issued by the example programs, and the
    ids they mint. Because the counters only grow and are never reset by a
    removal, no id is minted twice, not even after its object was deleted. */
module History {
  import opened Wrappers
  import opened LinkedMaps
  import opened Entities
  import opened IndoorModel
  import opened ModelInvariant

  datatype Op =
    | AddCellSpaceOp(polygons: seq<Polygon>)
    | RemoveCellSpaceOp(cell: CellId)
    | AddTransitionOp(a: StatePoint, b: StatePoint)
    | RemoveStateOp(state: StateId)
    | RemoveTransitionOp(transition: TransitionId)

  /** An id handed out by the model, tagged with the kind of object it names. */
  datatype MintedId =
    | MintedCell(cell: CellId)
    | MintedState(state: StateId)
    | MintedTransition(transition: TransitionId)
    | MintedPolygon(polygon: PolygonId)

  function Number(x: MintedId): nat
  {
    match x
    case MintedCell(c) => c.n
    case MintedState(s) => s.n
    case MintedTransition(t) => t.n
    case MintedPolygon(p) => p.n
  }

  /** The counter that mints ids of the kind of `x`. */
  function CounterFor(x: MintedId, m: Model): nat
  {
    match x
    case MintedCell(_) => m.cellCounter
    case MintedState(_) => m.stateCounter
    case MintedTransition(_) => m.transitionCounter
    case MintedPolygon(_) => m.polygonCounter
  }

  /** No counter of `m'` is smaller than the same counter of `m`. */
  predicate CountersGrow(m: Model, m': Model)
  {
    && m.cellCounter <= m'.cellCounter
    && m.stateCounter <= m'.stateCounter
    && m.transitionCounter <= m'.transitionCounter
    && m.polygonCounter <= m'.polygonCounter
  }

  /** One operation. Removal of a cell space uses the checked version. */
  function Apply(m: Model, op: Op, centroid: Centroid): (r: Model)
    ensures CountersGrow(m, r)
    ensures op.RemoveCellSpaceOp? || op.RemoveStateOp? || op.RemoveTransitionOp? ==> SameCounters(m, r)
  {
    match op
    case AddCellSpaceOp(polygons) => AddCellSpace(m, polygons, centroid).model
    case RemoveCellSpaceOp(id) => RemoveCellSpaceChecked(m, id)
    case AddTransitionOp(a, b) => AddTransition(m, a, b).model
    case RemoveStateOp(sid) => RemoveState(m, sid)
    case RemoveTransitionOp(tid) => RemoveTransition(m, tid)
  }

  /** The ids carried by the objects one operation returns. */
  function MintedBy(m: Model, op: Op, centroid: Centroid): seq<MintedId>
  {
    match op
    case AddCellSpaceOp(polygons) =>
      var cell := AddCellSpace(m, polygons, centroid).result;
      [MintedCell(cell.id), MintedState(cell.state.value.id)]
        + seq(|cell.polygons|, i requires 0 <= i < |cell.polygons| => MintedPolygon(cell.polygons[i].id.value))
    case AddTransitionOp(a, b) => [MintedTransition(AddTransition(m, a, b).result.id)]
    case _ => []
  }

  function Run(m: Model, ops: seq<Op>, centroid: Centroid): Model
    decreases |ops|
  {
    if |ops| == 0 then m else Run(Apply(m, ops[0], centroid), ops[1..], centroid)
  }

  /** Every id minted while running `ops`, in minting order. */
  function Minted(m: Model, ops: seq<Op>, centroid: Centroid): seq<MintedId>
    decreases |ops|
  {
    if |ops| == 0 then []
    else MintedBy(m, ops[0], centroid) + Minted(Apply(m, ops[0], centroid), ops[1..], centroid)
  }

  /** Counters only grow along a run. */
  lemma {:induction false} RunCountersGrow(m: Model, ops: seq<Op>, centroid: Centroid)
    ensures CountersGrow(m, Run(m, ops, centroid))
    decreases |ops|
  {
    if |ops| > 0 {
      RunCountersGrow(Apply(m, ops[0], centroid), ops[1..], centroid);
    }
  }

  /** Every operation keeps a valid model valid. */
  lemma ApplyPreservesValid(m: Model, op: Op, centroid: Centroid)
    requires Valid(m)
    ensures Valid(Apply(m, op, centroid))
  {
    match op {
      case AddCellSpaceOp(polygons) => AddCellSpacePreservesValid(m, polygons, centroid);
      case RemoveCellSpaceOp(id) => RemoveCellSpaceCheckedPreservesValid(m, id);
      case AddTransitionOp(a, b) => AddTransitionPreservesValid(m, a, b);
      case RemoveStateOp(sid) => RemoveStatePreservesValid(m, sid);
      case RemoveTransitionOp(tid) => RemoveTransitionPreservesValid(m, tid);
    }
  }

  /** A run from a valid model ends in a valid model. */
  lemma {:induction false} RunPreservesValid(m: Model, ops: seq<Op>, centroid: Centroid)
    requires Valid(m)
    ensures Valid(Run(m, ops, centroid))
    decreases |ops|
  {
    if |ops| > 0 {
      ApplyPreservesValid(m, ops[0], centroid);
      RunPreservesValid(Apply(m, ops[0], centroid), ops[1..], centroid);
    }
  }

  /** No id occurs twice in `ids`. */
  predicate Distinct(ids: seq<MintedId>)
  {
    forall i, j :: 0 <= i < j < |ids| ==> ids[i] != ids[j]
  }

  /** Every id of `ids` lies at or above the counter of its kind in `m`. */
  predicate AtOrAbove(ids: seq<MintedId>, m: Model)
  {
    forall x :: x in ids ==> CounterFor(x, m) <= Number(x)
  }

  /** Every id of `ids` lies below the counter of its kind in `m`. */
  predicate Below(ids: seq<MintedId>, m: Model)
  {
    forall x :: x in ids ==> Number(x) < CounterFor(x, m)
  }

  /** Ids below a counter differ from ids at or above it. */
  lemma SeparatedByCounters(a: seq<MintedId>, b: seq<MintedId>, m: Model)
    requires Below(a, m) && AtOrAbove(b, m)
    ensures forall x, y :: x in a && y in b ==> x != y
  {
    forall x, y | x in a && y in b ensures x != y {
      assert Number(x) < CounterFor(x, m) && CounterFor(y, m) <= Number(y);
    }
  }

  lemma ConcatDistinct(a: seq<MintedId>, b: seq<MintedId>)
    requires Distinct(a) && Distinct(b)
    requires forall x, y :: x in a && y in b ==> x != y
    ensures Distinct(a + b)
  {
    var ab := a + b;
    forall i, j | 0 <= i < j < |ab| ensures ab[i] != ab[j] {
      if i < |a| && |a| <= j {
        assert ab[i] in a && ab[j] in b;
      } else if |a| <= i {
        assert ab[i] == b[i - |a|] && ab[j] == b[j - |a|];
      }
    }
  }

  /** One operation mints distinct ids, all at or above the counters before
      it and below the counters after it. */
  lemma MintedByIsFreshAndDistinct(m: Model, op: Op, centroid: Centroid)
    ensures var ids := MintedBy(m, op, centroid);
      var m' := Apply(m, op, centroid);
      Distinct(ids) && AtOrAbove(ids, m) && Below(ids, m')
  {
    if op.AddCellSpaceOp? {
      AddCellSpaceMintsFresh(m, op.polygons, centroid);
    }
  }

  /** Adding a cell space mints its cell id, its state id and one polygon id
      per polygon, each from its own counter. */
  lemma AddCellSpaceMintsFresh(m: Model, polygons: seq<Polygon>, centroid: Centroid)
    ensures var ids := MintedBy(m, AddCellSpaceOp(polygons), centroid);
      var m' := AddCellSpace(m, polygons, centroid).model;
      Distinct(ids) && AtOrAbove(ids, m) && Below(ids, m')
  {
    var ids := MintedBy(m, AddCellSpaceOp(polygons), centroid);
    var m' := AddCellSpace(m, polygons, centroid).model;
    assert |ids| == |polygons| + 2;
    assert ids[0] == MintedCell(Room(m.cellCounter));
    assert ids[1] == MintedState(S(m.stateCounter));
    assert forall k :: 2 <= k < |ids| ==> ids[k] == MintedPolygon(P(m.polygonCounter + k - 2));
    forall x | x in ids ensures CounterFor(x, m) <= Number(x) < CounterFor(x, m') {
      var k :| 0 <= k < |ids| && ids[k] == x;
    }
  }

  /** No id is minted twice along a run, and each minted id lies at or above
      the counters the run started from and below those it ends with. */
  lemma {:induction false} MintedIdsAreDistinct(m: Model, ops: seq<Op>, centroid: Centroid)
    ensures var ids := Minted(m, ops, centroid);
      Distinct(ids) && AtOrAbove(ids, m) && Below(ids, Run(m, ops, centroid))
    decreases |ops|
  {
    if |ops| > 0 {
      var m1 := Apply(m, ops[0], centroid);
      var mEnd := Run(m1, ops[1..], centroid);
      var step := MintedBy(m, ops[0], centroid);
      var rest := Minted(m1, ops[1..], centroid);
      assert Minted(m, ops, centroid) == step + rest;
      assert Run(m, ops, centroid) == mEnd;
      MintedByIsFreshAndDistinct(m, ops[0], centroid);
      MintedIdsAreDistinct(m1, ops[1..], centroid);
      RunCountersGrow(m1, ops[1..], centroid);
      SeparatedByCounters(step, rest, m1);
      ConcatDistinct(step, rest);
      AtOrAboveLowerCounters(rest, m, m1);
      BelowHigherCounters(step, m1, mEnd);
    }
  }

  /** Ids at or above the counters of `m'` are at or above any smaller counters. */
  lemma AtOrAboveLowerCounters(ids: seq<MintedId>, m: Model, m': Model)
    requires CountersGrow(m, m') && AtOrAbove(ids, m')
    ensures AtOrAbove(ids, m)
  {
    forall x | x in ids ensures CounterFor(x, m) <= Number(x) {
      assert CounterFor(x, m') <= Number(x);
    }
  }

  /** Ids below the counters of `m` stay below any larger counters. */
  lemma BelowHigherCounters(ids: seq<MintedId>, m: Model, m': Model)
    requires CountersGrow(m, m') && Below(ids, m)
    ensures Below(ids, m')
  {
    forall x | x in ids ensures Number(x) < CounterFor(x, m') {
      assert Number(x) < CounterFor(x, m);
    }
  }

  /** The id `x` names an object present in `m`. */
  ghost predicate InUse(x: MintedId, m: Model)
  {
    match x
    case MintedCell(c) => c in Keys(m.cellSpaces)
    case MintedState(s) => s in Keys(m.states)
    case MintedTransition(t) => t in Keys(m.transitions)
    case MintedPolygon(p) => exists e, q :: e in m.cellSpaces && q in e.value.polygons && q.id == Some(p)
  }

  /** In a valid model, an id at or above the counter of its kind is not in use. */
  lemma UnmintedIdNotInUse(x: MintedId, m: Model)
    requires Valid(m) && CounterFor(x, m) <= Number(x)
    ensures !InUse(x, m)
  {
    match x {
      case MintedCell(c) => KeysOfEntries(m.cellSpaces);
      case MintedState(s) => KeysOfEntries(m.states);
      case MintedTransition(t) => KeysOfEntries(m.transitions);
      case MintedPolygon(p) =>
    }
  }

  /** Starting from a valid model, every id a run mints names nothing that
      was present at the start, nor anything minted earlier in the run. */
  lemma MintedIdsAreFresh(m: Model, ops: seq<Op>, centroid: Centroid)
    requires Valid(m)
    ensures var ids := Minted(m, ops, centroid);
      (forall x :: x in ids ==> !InUse(x, m)) && Distinct(ids)
  {
    var ids := Minted(m, ops, centroid);
    MintedIdsAreDistinct(m, ops, centroid);
    forall x | x in ids ensures !InUse(x, m) {
      UnmintedIdNotInUse(x, m);
    }
  }
}
