/** Properties that relate several operations of the model manager: id
    freshness, the insertion order seen through the getters, and the two
    versions of cell-space removal. */
module ModelProperties {
  import opened Wrappers
  import opened Sequences
  import opened LinkedMaps
  import opened Entities
  import opened IndoorModel

  /** The next ids the counters will mint are not in use. */
  lemma NextIdsAreFresh(m: Model)
    requires Valid(m)
    ensures Room(m.cellCounter) !in Keys(m.cellSpaces)
    ensures S(m.stateCounter) !in Keys(m.states)
    ensures T(m.transitionCounter) !in Keys(m.transitions)
    ensures forall e, q, n :: e in m.cellSpaces && q in e.value.polygons && n >= m.polygonCounter ==>
              q.id != Some(P(n))
  {
    KeysOfEntries(m.cellSpaces);
    KeysOfEntries(m.states);
    KeysOfEntries(m.transitions);
    forall k | k in Keys(m.cellSpaces) ensures k != Room(m.cellCounter) {
      var i :| 0 <= i < |Keys(m.cellSpaces)| && Keys(m.cellSpaces)[i] == k;
      assert m.cellSpaces[i] in m.cellSpaces;
    }
    forall k | k in Keys(m.states) ensures k != S(m.stateCounter) {
      var i :| 0 <= i < |Keys(m.states)| && Keys(m.states)[i] == k;
      assert m.states[i] in m.states;
    }
    forall k | k in Keys(m.transitions) ensures k != T(m.transitionCounter) {
      var i :| 0 <= i < |Keys(m.transitions)| && Keys(m.transitions)[i] == k;
      assert m.transitions[i] in m.transitions;
    }
  }

  /** `getCellSpaces` and `getStates` end with the new cell space and its
      state after `addCellSpace`; `getTransitions` is unchanged. */
  lemma AddCellSpaceAppendsToGetters(m: Model, polygons: seq<Polygon>, centroid: Centroid)
    requires Valid(m)
    ensures var r := AddCellSpace(m, polygons, centroid);
      && GetCellSpaces(r.model) == GetCellSpaces(m) + [r.result]
      && GetStates(r.model) == GetStates(m) + [r.result.state.value]
      && GetTransitions(r.model) == GetTransitions(m)
  {
  }

  /** `getTransitions` ends with the new transition after `addTransition`. */
  lemma AddTransitionAppendsToGetters(m: Model, a: StatePoint, b: StatePoint)
    requires Valid(m)
    ensures var r := AddTransition(m, a, b);
      && GetTransitions(r.model) == GetTransitions(m) + [r.result]
      && GetCellSpaces(r.model) == GetCellSpaces(m)
      && GetStates(r.model) == GetStates(m)
  {
  }

  /** Every removal keeps the survivors of each getter in their relative order. */
  lemma RemovalsKeepGetterOrder(m: Model, cid: CellId, sid: StateId, tid: TransitionId)
    ensures var r := RemoveCellSpace(m, cid).model;
      && SubSeq(GetCellSpaces(r), GetCellSpaces(m))
      && SubSeq(GetStates(r), GetStates(m))
      && SubSeq(GetTransitions(r), GetTransitions(m))
    ensures var r := RemoveCellSpaceChecked(m, cid);
      && SubSeq(GetCellSpaces(r), GetCellSpaces(m))
      && SubSeq(GetStates(r), GetStates(m))
      && SubSeq(GetTransitions(r), GetTransitions(m))
    ensures var r := RemoveState(m, sid);
      && |GetCellSpaces(r)| == |GetCellSpaces(m)|
      && (forall i :: 0 <= i < |GetCellSpaces(m)| ==> GetCellSpaces(r)[i].id == GetCellSpaces(m)[i].id)
      && SubSeq(GetStates(r), GetStates(m))
      && SubSeq(GetTransitions(r), GetTransitions(m))
    ensures var r := RemoveTransition(m, tid);
      && GetCellSpaces(r) == GetCellSpaces(m)
      && GetStates(r) == GetStates(m)
      && SubSeq(GetTransitions(r), GetTransitions(m))
  {
    var r1 := RemoveCellSpace(m, cid).model;
    SubSeqValues(r1.cellSpaces, m.cellSpaces);
    SubSeqValues(r1.states, m.states);
    SubSeqValues(r1.transitions, m.transitions);
    var r2 := RemoveCellSpaceChecked(m, cid);
    SubSeqValues(r2.cellSpaces, m.cellSpaces);
    SubSeqValues(r2.states, m.states);
    SubSeqValues(r2.transitions, m.transitions);
    var r3 := RemoveState(m, sid);
    SubSeqValues(r3.states, m.states);
    SubSeqValues(r3.transitions, m.transitions);
    var r4 := RemoveTransition(m, tid);
    SubSeqValues(r4.transitions, m.transitions);
  }

  /** As written, removing a cell space whose state was removed before throws:
      `removeState` clears the cell's state, `removeCellSpace` dereferences it. */
  lemma RemoveCellSpaceThrowsAfterRemoveState(m: Model, polygons: seq<Polygon>, centroid: Centroid)
    requires Valid(m)
    ensures var added := AddCellSpace(m, polygons, centroid);
      var cleared := RemoveState(added.model, added.result.state.value.id);
      RemoveCellSpace(cleared, added.result.id).NullPointerThrown?
  {
    var added := AddCellSpace(m, polygons, centroid);
    var cell := added.result;
    var cleared := RemoveState(added.model, cell.state.value.id);
    var n := |m.cellSpaces|;
    assert added.model.cellSpaces[n] == Entry(cell.id, cell);
    assert Keys(cleared.cellSpaces)[n] == cell.id;
    assert cleared.cellSpaces[n].value.state.None?;
    NextIdsAreFresh(m);
    assert Get(cleared.cellSpaces, cell.id).value.state.None? by {
      GetOfKeyAt(cleared.cellSpaces, n);
    }
  }

  /** The checked removal agrees with the removal as written whenever the
      latter completes, and when it throws it leaves exactly what the
      as-written removal left behind: the model without the cell space. */
  lemma CheckedRemovalMatchesAsWritten(m: Model, id: CellId)
    ensures RemoveCellSpaceChecked(m, id) == RemoveCellSpace(m, id).model
  {
  }

  /** `removeTransition` undoes `addTransition`: only the advanced counter
      remains, so the id is never handed out again. */
  lemma RemoveTransitionUndoesAdd(m: Model, a: StatePoint, b: StatePoint)
    requires Valid(m)
    ensures var r := AddTransition(m, a, b);
      RemoveTransition(r.model, r.result.id) == m.(transitionCounter := m.transitionCounter + 1)
  {
    var r := AddTransition(m, a, b);
    NextIdsAreFresh(m);
    RemoveAppended(m.transitions, r.result.id, r.result);
  }

  /** `removeCellSpace` undoes `addCellSpace` unless some transition already
      points at the state id about to be minted (a transition may name a
      state that was never registered). Only the advanced counters remain. */
  lemma {:induction false} RemoveCellSpaceUndoesAdd(m: Model, polygons: seq<Polygon>, centroid: Centroid)
    requires Valid(m)
    requires forall e :: e in m.transitions ==> !Touches(e.value, S(m.stateCounter))
    ensures var r := AddCellSpace(m, polygons, centroid);
      RemoveCellSpace(r.model, r.result.id)
        == Completed(m.(cellCounter := m.cellCounter + 1,
                        stateCounter := m.stateCounter + 1,
                        polygonCounter := m.polygonCounter + |polygons|))
  {
    var r := AddCellSpace(m, polygons, centroid);
    var cell := r.result;
    assert cell.id !in Keys(m.cellSpaces) && cell.state.value.id !in Keys(m.states) by {
      NextIdsAreFresh(m);
    }
    assert forall i :: 0 <= i < |m.transitions| ==> !Touches(m.transitions[i].value, cell.state.value.id) by {
      forall i | 0 <= i < |m.transitions| ensures !Touches(m.transitions[i].value, S(m.stateCounter)) {
        assert m.transitions[i] in m.transitions;
      }
    }
    RemoveAppendedCell(m, r.model, cell);
    assert r.model.(cellSpaces := m.cellSpaces, states := m.states)
      == m.(cellCounter := m.cellCounter + 1,
            stateCounter := m.stateCounter + 1,
            polygonCounter := m.polygonCounter + |polygons|);
  }

  /** Removing the cell space last appended, together with its state, when
      no transition touches that state, restores the maps. */
  lemma RemoveAppendedCell(m: Model, m': Model, cell: CellSpace)
    requires cell.state.Some?
    requires cell.id !in Keys(m.cellSpaces) && cell.state.value.id !in Keys(m.states)
    requires m'.cellSpaces == m.cellSpaces + [Entry(cell.id, cell)]
    requires m'.states == m.states + [Entry(cell.state.value.id, cell.state.value)]
    requires m'.transitions == m.transitions
    requires forall i :: 0 <= i < |m.transitions| ==> !Touches(m.transitions[i].value, cell.state.value.id)
    ensures RemoveCellSpace(m', cell.id) == Completed(m'.(cellSpaces := m.cellSpaces, states := m.states))
  {
    var st := cell.state.value;
    GetAppended(m.cellSpaces, cell.id, cell);
    RemoveCellSpaceOfLinked(m', cell.id, cell);
    RemoveAppended(m.cellSpaces, cell.id, cell);
    RemoveAppended(m.states, st.id, st);
    RemoveWhereKeepsAll(m.transitions, TouchesState(st.id));
  }

  /** Removing a present cell space that has a state removes that state's
      key and the transitions touching it. */
  lemma RemoveCellSpaceOfLinked(m: Model, id: CellId, cell: CellSpace)
    requires Get(m.cellSpaces, id) == Some(cell) && cell.state.Some?
    ensures RemoveCellSpace(m, id) ==
              Completed(Cascade(m.(cellSpaces := Remove(m.cellSpaces, id)), cell.state.value.id))
  {
  }
}
