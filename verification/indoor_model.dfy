/** The model manager: three insertion-ordered maps (cell spaces, states,
    transitions) and four counters from which every id is minted. Each
    operation is a pure function from the model before to the model after. */
module IndoorModel {
  import opened Wrappers
  import opened Sequences
  import opened LinkedMaps
  import opened Entities

  datatype Model = Model(
    cellSpaces: LinkedMap<CellId, CellSpace>,
    states: LinkedMap<StateId, StatePoint>,
    transitions: LinkedMap<TransitionId, Transition>,
    cellCounter: nat,
    stateCounter: nat,
    transitionCounter: nat,
    polygonCounter: nat)

  /** The model after an adding operation, and the object the operation returns. */
  datatype Step<R> = Step(model: Model, result: R)

  /** How a removal ends: normally, or with a NullPointerException that
      leaves behind the changes made before it was raised. */
  datatype Outcome = Completed(model: Model) | NullPointerThrown(model: Model)

  /** The centroid of a polygon list; its numeric value is not modelled. */
  type Centroid = seq<Polygon> -> Vec3

  /** The state of cell space `c` is the state with id `sid`. */
  predicate LinksTo(c: CellSpace, sid: StateId)
  {
    c.state.Some? && c.state.value.id == sid
  }

  /** Transition `t` starts or ends at the state with id `sid`. */
  predicate Touches(t: Transition, sid: StateId)
  {
    t.stateA.id == sid || t.stateB.id == sid
  }

  /** Some cell space links to the state with id `sid`. */
  ghost predicate HasCellFor(cells: LinkedMap<CellId, CellSpace>, sid: StateId)
  {
    exists e :: e in cells && LinksTo(e.value, sid)
  }

  /** `Touches` as a test on transitions, the form `removeIf` takes. */
  function TouchesState(sid: StateId): Transition -> bool
  {
    t => Touches(t, sid)
  }

  predicate SameCounters(m: Model, m': Model)
  {
    && m'.cellCounter == m.cellCounter
    && m'.stateCounter == m.stateCounter
    && m'.transitionCounter == m.transitionCounter
    && m'.polygonCounter == m.polygonCounter
  }

  // ---------------------------------------------------------------------
  // The invariant every operation preserves
  // ---------------------------------------------------------------------

  /** Every map is keyed by its values' own ids, each key once. */
  ghost predicate KeyedByIds(m: Model)
  {
    && DistinctKeys(m.cellSpaces)
    && DistinctKeys(m.states)
    && DistinctKeys(m.transitions)
    && (forall e :: e in m.cellSpaces ==> e.key == e.value.id)
    && (forall e :: e in m.states ==> e.key == e.value.id)
    && (forall e :: e in m.transitions ==> e.key == e.value.id)
  }

  /** Every id in use was minted earlier: its number lies in [1, counter). */
  ghost predicate IdsBelowCounters(m: Model)
  {
    && 1 <= m.cellCounter && 1 <= m.stateCounter
    && 1 <= m.transitionCounter && 1 <= m.polygonCounter
    && (forall e :: e in m.cellSpaces ==> 1 <= e.key.n < m.cellCounter)
    && (forall e :: e in m.states ==> 1 <= e.key.n < m.stateCounter)
    && (forall e :: e in m.transitions ==> 1 <= e.key.n < m.transitionCounter)
    && (forall e, q :: e in m.cellSpaces && q in e.value.polygons ==>
          q.id.Some? && 1 <= q.id.value.n < m.polygonCounter)
  }

  /** The states map holds exactly the states the cell spaces link to, and
      no two cell spaces share a state. */
  ghost predicate StatesMatchCells(m: Model)
  {
    && (forall e :: e in m.cellSpaces && e.value.state.Some? ==>
          Entry(e.value.state.value.id, e.value.state.value) in m.states)
    && (forall s :: s in m.states ==> HasCellFor(m.cellSpaces, s.key))
    && (forall a, b ::
          (a in m.cellSpaces && b in m.cellSpaces && a.value.state.Some? && b.value.state.Some?
           && a.value.state.value.id == b.value.state.value.id) ==> a == b)
  }

  ghost predicate Valid(m: Model)
  {
    KeyedByIds(m) && IdsBelowCounters(m) && StatesMatchCells(m)
  }

  // ---------------------------------------------------------------------
  // Operations
  // ---------------------------------------------------------------------

  /** A fresh model: empty maps, every counter at 1. */
  function NewModel(): (m: Model)
    ensures Valid(m)
    ensures m.cellSpaces == [] && m.states == [] && m.transitions == []
    ensures m.cellCounter == 1 && m.stateCounter == 1
    ensures m.transitionCounter == 1 && m.polygonCounter == 1
  {
    Model([], [], [], 1, 1, 1, 1)
  }

  /** The polygons with ids P(first), P(first+1), ... in list order. */
  function StampPolygons(polygons: seq<Polygon>, first: nat): seq<Polygon>
  {
    seq(|polygons|, i requires 0 <= i < |polygons| => polygons[i].(id := Some(P(first + i))))
  }

  /** `addCellSpace`: registers a room made of `polygons` and its state,
      placed at the centroid of the polygons. */
  function AddCellSpace(m: Model, polygons: seq<Polygon>, centroid: Centroid): (r: Step<CellSpace>)
    ensures r.result.id == Room(m.cellCounter)
    ensures |r.result.polygons| == |polygons|
    ensures forall i :: 0 <= i < |polygons| ==>
              r.result.polygons[i].id == Some(P(m.polygonCounter + i))
              && r.result.polygons[i].vertices == polygons[i].vertices
              && r.result.polygons[i].indices == polygons[i].indices
    ensures r.result.state == Some(StatePoint(S(m.stateCounter), centroid(r.result.polygons)))
    ensures r.model.cellCounter == m.cellCounter + 1
    ensures r.model.stateCounter == m.stateCounter + 1
    ensures r.model.polygonCounter == m.polygonCounter + |polygons|
    ensures r.model.transitionCounter == m.transitionCounter
    ensures r.model.transitions == m.transitions
    ensures Entry(r.result.id, r.result) in r.model.cellSpaces
    ensures Entry(r.result.state.value.id, r.result.state.value) in r.model.states
    ensures Valid(m) ==>
              && r.model.cellSpaces == m.cellSpaces + [Entry(r.result.id, r.result)]
              && r.model.states == m.states + [Entry(r.result.state.value.id, r.result.state.value)]
  {
    var stamped := StampPolygons(polygons, m.polygonCounter);
    var state := StatePoint(S(m.stateCounter), centroid(stamped));
    var cell := CellSpace(Room(m.cellCounter), stamped, Some(state));
    assert Valid(m) ==> cell.id !in Keys(m.cellSpaces) && state.id !in Keys(m.states);
    var m' := m.(
      states := Put(m.states, state.id, state),
      cellSpaces := Put(m.cellSpaces, cell.id, cell),
      cellCounter := m.cellCounter + 1,
      stateCounter := m.stateCounter + 1,
      polygonCounter := m.polygonCounter + |polygons|);
    Step(m', cell)
  }

  /** The cascade shared by `removeCellSpace` and `removeState`: drop the
      state with id `sid` and every transition touching it. Cell spaces and
      counters are left alone. */
  function Cascade(m: Model, sid: StateId): (r: Model)
    ensures SameCounters(m, r) && r.cellSpaces == m.cellSpaces
    ensures SubSeq(r.states, m.states)
    ensures SubSeq(r.transitions, m.transitions)
    ensures DistinctKeys(m.states) ==>
              forall e :: e in r.states <==> e in m.states && e.key != sid
    ensures forall e :: e in r.transitions <==> e in m.transitions && !Touches(e.value, sid)
  {
    RemoveMembers(m.states, sid);
    RemoveWhereMembers(m.transitions, TouchesState(sid));
    m.(
      states := Remove(m.states, sid),
      transitions := RemoveWhere(m.transitions, TouchesState(sid)))
  }

  /** `removeCellSpace` as written: the cell is taken out of the map first;
      its state is then dereferenced, which throws when `removeState` has
      cleared it. Otherwise the state and every transition touching it go too. */
  function RemoveCellSpace(m: Model, id: CellId): (r: Outcome)
    ensures SameCounters(m, r.model)
    ensures id !in Keys(m.cellSpaces) ==> r == Completed(m)
    ensures r.NullPointerThrown? <==>
              id in Keys(m.cellSpaces) && Get(m.cellSpaces, id).value.state.None?
    ensures r.NullPointerThrown? ==>
              r.model.states == m.states && r.model.transitions == m.transitions
    ensures SubSeq(r.model.cellSpaces, m.cellSpaces)
    ensures SubSeq(r.model.states, m.states)
    ensures SubSeq(r.model.transitions, m.transitions)
    ensures Valid(m) ==>
              forall e :: e in r.model.cellSpaces <==> e in m.cellSpaces && e.key != id
    ensures Valid(m) && r.Completed? && id in Keys(m.cellSpaces) ==>
              var sid := Get(m.cellSpaces, id).value.state.value.id;
              && (forall e :: e in r.model.states <==> e in m.states && e.key != sid)
              && (forall e :: e in r.model.transitions <==>
                    e in m.transitions && !Touches(e.value, sid))
  {
    match Get(m.cellSpaces, id)
    case None =>
      SubSeqRefl(m.cellSpaces); SubSeqRefl(m.states); SubSeqRefl(m.transitions);
      KeysOfEntries(m.cellSpaces);
      Completed(m)
    case Some(cell) =>
      var cells := Remove(m.cellSpaces, id);
      RemoveMembers(m.cellSpaces, id);
      match cell.state
      case None =>
        SubSeqRefl(m.states); SubSeqRefl(m.transitions);
        NullPointerThrown(m.(cellSpaces := cells))
      case Some(st) => Completed(Cascade(m.(cellSpaces := cells), st.id))
  }

  /** `removeCellSpace` with the null check that `removeState` performs
      (IndoorGMLModel.java line 84): a cell space whose state was cleared is
      removed on its own, and the removal never throws. */
  function RemoveCellSpaceChecked(m: Model, id: CellId): (r: Model)
    ensures SameCounters(m, r)
    ensures id !in Keys(m.cellSpaces) ==> r == m
    ensures DistinctKeys(m.cellSpaces) ==> id !in Keys(r.cellSpaces)
    ensures SubSeq(r.cellSpaces, m.cellSpaces)
    ensures SubSeq(r.states, m.states)
    ensures SubSeq(r.transitions, m.transitions)
    ensures Valid(m) ==>
              forall e :: e in r.cellSpaces <==> e in m.cellSpaces && e.key != id
    ensures id in Keys(m.cellSpaces) && Get(m.cellSpaces, id).value.state.None? ==>
              r.states == m.states && r.transitions == m.transitions
    ensures Valid(m) && id in Keys(m.cellSpaces) && Get(m.cellSpaces, id).value.state.Some? ==>
              var sid := Get(m.cellSpaces, id).value.state.value.id;
              && (forall e :: e in r.states <==> e in m.states && e.key != sid)
              && (forall e :: e in r.transitions <==>
                    e in m.transitions && !Touches(e.value, sid))
  {
    match Get(m.cellSpaces, id)
    case None =>
      SubSeqRefl(m.cellSpaces); SubSeqRefl(m.states); SubSeqRefl(m.transitions);
      KeysOfEntries(m.cellSpaces);
      m
    case Some(cell) =>
      var cells := Remove(m.cellSpaces, id);
      RemoveMembers(m.cellSpaces, id);
      if cell.state.None? then
        SubSeqRefl(m.states); SubSeqRefl(m.transitions);
        m.(cellSpaces := cells)
      else
        Cascade(m.(cellSpaces := cells), cell.state.value.id)
  }

  /** `addTransition`: a new edge from `a` to `b`, drawn as the segment between
      their positions. Neither state needs to be registered. */
  function AddTransition(m: Model, a: StatePoint, b: StatePoint): (r: Step<Transition>)
    ensures r.result.id == T(m.transitionCounter)
    ensures r.result.stateA == a && r.result.stateB == b
    ensures r.result.geometry.vertices == [a.position, b.position]
    ensures r.model.transitionCounter == m.transitionCounter + 1
    ensures r.model.cellCounter == m.cellCounter
    ensures r.model.stateCounter == m.stateCounter
    ensures r.model.polygonCounter == m.polygonCounter
    ensures r.model.cellSpaces == m.cellSpaces && r.model.states == m.states
    ensures Entry(r.result.id, r.result) in r.model.transitions
    ensures Valid(m) ==> r.model.transitions == m.transitions + [Entry(r.result.id, r.result)]
  {
    var t := Transition(T(m.transitionCounter), a, b, LineString([a.position, b.position]));
    assert Valid(m) ==> t.id !in Keys(m.transitions);
    Step(m.(
      transitions := Put(m.transitions, t.id, t),
      transitionCounter := m.transitionCounter + 1), t)
  }

  /** Clears the state of `c` when it is the state with id `sid`. */
  function Unlink(c: CellSpace, sid: StateId): CellSpace
  {
    if LinksTo(c, sid) then c.(state := None) else c
  }

  /** `removeState`: drops the state, unlinks it from its cell spaces (which
      stay) and drops every transition touching it. */
  function RemoveState(m: Model, sid: StateId): (r: Model)
    ensures SameCounters(m, r)
    ensures Keys(r.cellSpaces) == Keys(m.cellSpaces)
    ensures forall i :: 0 <= i < |m.cellSpaces| ==>
              && !LinksTo(r.cellSpaces[i].value, sid)
              && r.cellSpaces[i].value.id == m.cellSpaces[i].value.id
              && r.cellSpaces[i].value.polygons == m.cellSpaces[i].value.polygons
              && (!LinksTo(m.cellSpaces[i].value, sid) ==> r.cellSpaces[i] == m.cellSpaces[i])
              && (LinksTo(m.cellSpaces[i].value, sid) ==>
                    r.cellSpaces[i].value == m.cellSpaces[i].value.(state := None))
    ensures SubSeq(r.states, m.states)
    ensures SubSeq(r.transitions, m.transitions)
    ensures DistinctKeys(m.states) ==>
              forall e :: e in r.states <==> e in m.states && e.key != sid
    ensures forall e :: e in r.transitions <==> e in m.transitions && !Touches(e.value, sid)
  {
    Cascade(m, sid).(cellSpaces := MapValues(m.cellSpaces, c => Unlink(c, sid)))
  }

  /** `removeTransition`: drops one transition; nothing else changes. */
  function RemoveTransition(m: Model, tid: TransitionId): (r: Model)
    ensures SameCounters(m, r)
    ensures r.cellSpaces == m.cellSpaces && r.states == m.states
    ensures tid !in Keys(m.transitions) ==> r == m
    ensures SubSeq(r.transitions, m.transitions)
    ensures DistinctKeys(m.transitions) ==>
              forall e :: e in r.transitions <==> e in m.transitions && e.key != tid
  {
    RemoveMembers(m.transitions, tid);
    m.(transitions := Remove(m.transitions, tid))
  }

  /** `getCellSpaces`, `getStates`, `getTransitions`: the values in insertion order. */
  function GetCellSpaces(m: Model): seq<CellSpace> { Values(m.cellSpaces) }
  function GetStates(m: Model): seq<StatePoint> { Values(m.states) }
  function GetTransitions(m: Model): seq<Transition> { Values(m.transitions) }
}
