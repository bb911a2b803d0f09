/** Every operation of the model manager preserves `Valid`: maps keyed by
    ids, ids below their counters, and states matching cell spaces one to one. */
module ModelInvariant {
  import opened Wrappers
  import opened Sequences
  import opened LinkedMaps
  import opened Entities
  import opened IndoorModel

  /** `m'` is `m` with cell space `ce` and its state `se` appended under
      fresh ids, with the counters advanced past them. */
  ghost predicate WithNewCell(m: Model, ce: Entry<CellId, CellSpace>, se: Entry<StateId, StatePoint>, m': Model)
  {
    && m'.cellSpaces == m.cellSpaces + [ce]
    && m'.states == m.states + [se]
    && m'.transitions == m.transitions
    && ce.key == ce.value.id == Room(m.cellCounter)
    && se.key == se.value.id == S(m.stateCounter)
    && ce.value.state == Some(se.value)
    && m'.cellCounter == m.cellCounter + 1
    && m'.stateCounter == m.stateCounter + 1
    && m'.transitionCounter == m.transitionCounter
    && m.polygonCounter <= m'.polygonCounter
    && (forall q :: q in ce.value.polygons ==>
          q.id.Some? && m.polygonCounter <= q.id.value.n < m'.polygonCounter)
  }

  lemma NewCellKeepsKeysAndIds(m: Model, ce: Entry<CellId, CellSpace>, se: Entry<StateId, StatePoint>, m': Model)
    requires Valid(m) && WithNewCell(m, ce, se, m')
    ensures KeyedByIds(m') && IdsBelowCounters(m')
  {
    KeysOfEntries(m.cellSpaces);
    KeysOfEntries(m.states);
    assert ce.key !in Keys(m.cellSpaces) && se.key !in Keys(m.states);
    assert m'.cellSpaces == Put(m.cellSpaces, ce.key, ce.value);
    assert m'.states == Put(m.states, se.key, se.value);
  }

  lemma NewCellKeepsStatesMatch(m: Model, ce: Entry<CellId, CellSpace>, se: Entry<StateId, StatePoint>, m': Model)
    requires Valid(m) && WithNewCell(m, ce, se, m')
    ensures StatesMatchCells(m')
  {
    forall s | s in m'.states
      ensures HasCellFor(m'.cellSpaces, s.key)
    {
      if s == se {
        assert ce in m'.cellSpaces && LinksTo(ce.value, s.key);
      } else {
        var e :| e in m.cellSpaces && LinksTo(e.value, s.key);
        assert e in m'.cellSpaces;
      }
    }
  }

  lemma AddCellSpacePreservesValid(m: Model, polygons: seq<Polygon>, centroid: Centroid)
    requires Valid(m)
    ensures Valid(AddCellSpace(m, polygons, centroid).model)
  {
    var r := AddCellSpace(m, polygons, centroid);
    var cell := r.result;
    var ce, se := Entry(cell.id, cell), Entry(cell.state.value.id, cell.state.value);
    forall q | q in cell.polygons
      ensures q.id.Some? && m.polygonCounter <= q.id.value.n < r.model.polygonCounter
    {
      var i :| 0 <= i < |cell.polygons| && cell.polygons[i] == q;
    }
    assert WithNewCell(m, ce, se, r.model);
    NewCellKeepsKeysAndIds(m, ce, se, r.model);
    NewCellKeepsStatesMatch(m, ce, se, r.model);
  }

  lemma AddTransitionPreservesValid(m: Model, a: StatePoint, b: StatePoint)
    requires Valid(m)
    ensures Valid(AddTransition(m, a, b).model)
  {
    var r := AddTransition(m, a, b);
    assert r.model.transitions == m.transitions + [Entry(r.result.id, r.result)];
    assert forall s :: HasCellFor(m.cellSpaces, s) ==> HasCellFor(r.model.cellSpaces, s);
  }

  lemma RemoveTransitionPreservesValid(m: Model, tid: TransitionId)
    requires Valid(m)
    ensures Valid(RemoveTransition(m, tid))
  {
    var r := RemoveTransition(m, tid);
    SubSeqRefl(m.cellSpaces);
    SubSeqRefl(m.states);
    ShrinkKeepsKeysAndIds(m, r);
    assert forall s :: HasCellFor(m.cellSpaces, s) ==> HasCellFor(r.cellSpaces, s);
  }

  /** `m'` keeps the counters of `m` and a subsequence of each of its maps. */
  ghost predicate Shrinks(m: Model, m': Model)
  {
    && SameCounters(m, m')
    && SubSeq(m'.cellSpaces, m.cellSpaces)
    && SubSeq(m'.states, m.states)
    && SubSeq(m'.transitions, m.transitions)
  }

  /** Deleting entries cannot break key uniqueness or the counter bounds. */
  lemma ShrinkKeepsKeysAndIds(m: Model, m': Model)
    requires Valid(m) && Shrinks(m, m')
    ensures KeyedByIds(m') && IdsBelowCounters(m')
  {
    SubSeqKeepsDistinctKeys(m'.cellSpaces, m.cellSpaces);
    SubSeqKeepsDistinctKeys(m'.states, m.states);
    SubSeqKeepsDistinctKeys(m'.transitions, m.transitions);
    SubSeqMembers(m'.cellSpaces, m.cellSpaces);
    SubSeqMembers(m'.states, m.states);
    SubSeqMembers(m'.transitions, m.transitions);
  }

  /** The cell spaces of `m'` are those of `m` except `ce`; its states are
      those of `m` except the state of `ce`, when it has one. */
  ghost predicate WithoutCell(m: Model, ce: Entry<CellId, CellSpace>, m': Model)
  {
    && (forall e :: e in m'.cellSpaces <==> e in m.cellSpaces && e.key != ce.key)
    && (ce.value.state.None? ==> m'.states == m.states)
    && (ce.value.state.Some? ==>
          forall s :: s in m'.states <==> s in m.states && s.key != ce.value.state.value.id)
  }

  lemma CellRemovalKeepsLinksRegistered(m: Model, ce: Entry<CellId, CellSpace>, m': Model)
    requires Valid(m) && ce in m.cellSpaces && WithoutCell(m, ce, m')
    ensures forall e :: e in m'.cellSpaces && e.value.state.Some? ==>
              Entry(e.value.state.value.id, e.value.state.value) in m'.states
  {
    forall e | e in m'.cellSpaces && e.value.state.Some?
      ensures Entry(e.value.state.value.id, e.value.state.value) in m'.states
    {
      assert e in m.cellSpaces && e != ce;
      assert Entry(e.value.state.value.id, e.value.state.value) in m.states;
    }
  }

  lemma CellRemovalKeepsStatesOwned(m: Model, ce: Entry<CellId, CellSpace>, m': Model)
    requires Valid(m) && ce in m.cellSpaces && WithoutCell(m, ce, m')
    ensures forall s :: s in m'.states ==> HasCellFor(m'.cellSpaces, s.key)
  {
    forall s | s in m'.states
      ensures HasCellFor(m'.cellSpaces, s.key)
    {
      assert s in m.states;
      var e :| e in m.cellSpaces && LinksTo(e.value, s.key);
      if e.key == ce.key {
        EntryOfKeyIsUnique(m.cellSpaces, e, ce);
      }
      assert e in m'.cellSpaces;
    }
  }

  lemma CellRemovalKeepsStatesUnshared(m: Model, ce: Entry<CellId, CellSpace>, m': Model)
    requires Valid(m) && WithoutCell(m, ce, m')
    ensures forall a, b ::
              (a in m'.cellSpaces && b in m'.cellSpaces && a.value.state.Some? && b.value.state.Some?
               && a.value.state.value.id == b.value.state.value.id) ==> a == b
  {
  }

  /** Removing the cell space `id` together with its state (when it has one)
      keeps states and cell spaces matched. */
  lemma CellRemovalKeepsStatesMatch(m: Model, ce: Entry<CellId, CellSpace>, m': Model)
    requires Valid(m) && ce in m.cellSpaces && WithoutCell(m, ce, m')
    ensures StatesMatchCells(m')
  {
    CellRemovalKeepsLinksRegistered(m, ce, m');
    CellRemovalKeepsStatesOwned(m, ce, m');
    CellRemovalKeepsStatesUnshared(m, ce, m');
  }

  /** Removing one cell space, and possibly its state and the transitions
      touching it, keeps the invariant. Shared by both versions of the removal. */
  lemma CellRemovalPreservesValid(m: Model, id: CellId, m': Model)
    requires Valid(m) && id in Keys(m.cellSpaces)
    requires SameCounters(m, m')
    requires m'.cellSpaces == Remove(m.cellSpaces, id)
    requires SubSeq(m'.transitions, m.transitions)
    requires Get(m.cellSpaces, id).value.state.None? ==> m'.states == m.states
    requires Get(m.cellSpaces, id).value.state.Some? ==>
               m'.states == Remove(m.states, Get(m.cellSpaces, id).value.state.value.id)
    ensures Valid(m')
  {
    var ce := Entry(id, Get(m.cellSpaces, id).value);
    SubSeqRefl(m.states);
    ShrinkKeepsKeysAndIds(m, m');
    RemoveMembers(m.cellSpaces, id);
    if ce.value.state.Some? {
      RemoveMembers(m.states, ce.value.state.value.id);
    }
    assert WithoutCell(m, ce, m');
    CellRemovalKeepsStatesMatch(m, ce, m');
  }

  lemma RemoveCellSpacePreservesValid(m: Model, id: CellId)
    requires Valid(m)
    ensures Valid(RemoveCellSpace(m, id).model)
  {
    if id in Keys(m.cellSpaces) {
      CellRemovalPreservesValid(m, id, RemoveCellSpace(m, id).model);
    }
  }

  /** Unlinking a state leaves the cell spaces' keys, ids and polygons alone. */
  lemma RemoveStateKeepsCellIds(m: Model, sid: StateId)
    requires Valid(m)
    ensures var r := RemoveState(m, sid);
      && DistinctKeys(r.cellSpaces)
      && (forall e :: e in r.cellSpaces ==> e.key == e.value.id && 1 <= e.key.n < r.cellCounter)
      && (forall e, q :: e in r.cellSpaces && q in e.value.polygons ==>
            q.id.Some? && 1 <= q.id.value.n < r.polygonCounter)
  {
    var r := RemoveState(m, sid);
    forall e | e in r.cellSpaces
      ensures e.key == e.value.id && 1 <= e.key.n < r.cellCounter
      ensures forall q :: q in e.value.polygons ==> q.id.Some? && 1 <= q.id.value.n < r.polygonCounter
    {
      var i :| 0 <= i < |r.cellSpaces| && r.cellSpaces[i] == e;
      assert Keys(r.cellSpaces)[i] == Keys(m.cellSpaces)[i];
      assert m.cellSpaces[i] in m.cellSpaces;
    }
    forall i, j | 0 <= i < j < |r.cellSpaces|
      ensures r.cellSpaces[i].key != r.cellSpaces[j].key
    {
      assert Keys(r.cellSpaces)[i] == Keys(m.cellSpaces)[i];
      assert Keys(r.cellSpaces)[j] == Keys(m.cellSpaces)[j];
    }
  }

  /** Entry `i` of the cell spaces after `RemoveState` is entry `i` before, unlinked. */
  lemma RemoveStateCellAt(m: Model, sid: StateId, i: int)
    requires 0 <= i < |m.cellSpaces|
    ensures |RemoveState(m, sid).cellSpaces| == |m.cellSpaces|
    ensures RemoveState(m, sid).cellSpaces[i] ==
              Entry(m.cellSpaces[i].key, Unlink(m.cellSpaces[i].value, sid))
  {
    var r := RemoveState(m, sid);
    assert Keys(r.cellSpaces)[i] == Keys(m.cellSpaces)[i];
  }

  /** After `RemoveState`, every remaining link points at a remaining state. */
  lemma RemoveStateKeepsLinksRegistered(m: Model, sid: StateId)
    requires Valid(m)
    ensures var r := RemoveState(m, sid);
      forall e :: e in r.cellSpaces && e.value.state.Some? ==>
        Entry(e.value.state.value.id, e.value.state.value) in r.states
  {
    var r := RemoveState(m, sid);
    forall e | e in r.cellSpaces && e.value.state.Some?
      ensures Entry(e.value.state.value.id, e.value.state.value) in r.states
    {
      var i :| 0 <= i < |r.cellSpaces| && r.cellSpaces[i] == e;
      RemoveStateCellAt(m, sid, i);
      assert m.cellSpaces[i] in m.cellSpaces;
    }
  }

  /** After `RemoveState`, every remaining state still has its cell space. */
  lemma RemoveStateKeepsStatesOwned(m: Model, sid: StateId)
    requires Valid(m)
    ensures var r := RemoveState(m, sid);
      forall s :: s in r.states ==> HasCellFor(r.cellSpaces, s.key)
  {
    var r := RemoveState(m, sid);
    forall s | s in r.states
      ensures HasCellFor(r.cellSpaces, s.key)
    {
      var e :| e in m.cellSpaces && LinksTo(e.value, s.key);
      var i :| 0 <= i < |m.cellSpaces| && m.cellSpaces[i] == e;
      RemoveStateCellAt(m, sid, i);
      assert r.cellSpaces[i] in r.cellSpaces && LinksTo(r.cellSpaces[i].value, s.key);
    }
  }

  /** After `RemoveState`, no two cell spaces share a state. */
  lemma RemoveStateKeepsStatesUnshared(m: Model, sid: StateId)
    requires StatesMatchCells(m)
    ensures var r := RemoveState(m, sid);
      forall a, b ::
        (a in r.cellSpaces && b in r.cellSpaces && a.value.state.Some? && b.value.state.Some?
         && a.value.state.value.id == b.value.state.value.id) ==> a == b
  {
    var r := RemoveState(m, sid).cellSpaces;
    forall i, j | 0 <= i < |r| && 0 <= j < |r|
      ensures (r[i].value.state.Some? && r[j].value.state.Some? &&
               r[i].value.state.value.id == r[j].value.state.value.id) ==> r[i] == r[j]
    {
      RemoveStateKeepsPairUnshared(m, sid, i, j);
    }
  }

  /** Entries `i` and `j` after `RemoveState` do not share a state unless equal. */
  lemma RemoveStateKeepsPairUnshared(m: Model, sid: StateId, i: nat, j: nat)
    requires StatesMatchCells(m)
    requires i < |m.cellSpaces| && j < |m.cellSpaces|
    ensures var r := RemoveState(m, sid).cellSpaces;
      |r| == |m.cellSpaces| &&
      ((r[i].value.state.Some? && r[j].value.state.Some? &&
        r[i].value.state.value.id == r[j].value.state.value.id) ==> r[i] == r[j])
  {
    RemoveStateCellAt(m, sid, i);
    RemoveStateCellAt(m, sid, j);
    assert m.cellSpaces[i] in m.cellSpaces && m.cellSpaces[j] in m.cellSpaces;
  }

  lemma RemoveStatePreservesValid(m: Model, sid: StateId)
    requires Valid(m)
    ensures Valid(RemoveState(m, sid))
  {
    var r := RemoveState(m, sid);
    SubSeqKeepsDistinctKeys(r.states, m.states);
    SubSeqKeepsDistinctKeys(r.transitions, m.transitions);
    SubSeqMembers(r.transitions, m.transitions);
    RemoveStateKeepsCellIds(m, sid);
    RemoveStateKeepsLinksRegistered(m, sid);
    RemoveStateKeepsStatesOwned(m, sid);
    RemoveStateKeepsStatesUnshared(m, sid);
  }

  lemma RemoveCellSpaceCheckedPreservesValid(m: Model, id: CellId)
    requires Valid(m)
    ensures Valid(RemoveCellSpaceChecked(m, id))
  {
    if id in Keys(m.cellSpaces) {
      CellRemovalPreservesValid(m, id, RemoveCellSpaceChecked(m, id));
    }
  }
}
