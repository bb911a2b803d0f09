/** The model-building part of the sample program: add one cell space per
    room, then connect the states, in the order `getStates` returns them,
    into a ring. The coordinate data and the rescaling are not modelled; the
    rooms arrive as polygon lists. */
module RingExample {
  import opened Wrappers
  import opened LinkedMaps
  import opened Entities
  import opened IndoorModel
  import opened ModelInvariant

  /** `cell` was made from the polygon list `room`: same polygons in the same
      order (ids aside), and its state `state` sits at their centroid. */
  predicate BuiltFrom(cell: CellSpace, state: StatePoint, room: seq<Polygon>, centroid: Centroid)
  {
    && |cell.polygons| == |room|
    && (forall j :: 0 <= j < |room| ==>
          cell.polygons[j].vertices == room[j].vertices && cell.polygons[j].indices == room[j].indices)
    && state.position == centroid(cell.polygons)
  }

  /** Cell space i is Room(i+1), built from `rooms[i]`, and links state i,
      which is S(i+1), for every position i. Stated recursively on the last
      position so that a loop appending one room at a time can maintain it. */
  predicate Numbered(cells: LinkedMap<CellId, CellSpace>, states: LinkedMap<StateId, StatePoint>,
                     rooms: seq<seq<Polygon>>, centroid: Centroid)
    decreases |cells|
  {
    && |cells| == |states| == |rooms|
    && (|cells| > 0 ==>
          && Numbered(cells[..|cells| - 1], states[..|states| - 1], rooms[..|rooms| - 1], centroid)
          && cells[|cells| - 1].value.id == Room(|cells|)
          && states[|states| - 1].value.id == S(|states|)
          && cells[|cells| - 1].value.state == Some(states[|states| - 1].value)
          && BuiltFrom(cells[|cells| - 1].value, states[|states| - 1].value, rooms[|rooms| - 1], centroid))
  }

  /** What `Numbered` says about one position. */
  lemma {:induction false} NumberedAt(cells: LinkedMap<CellId, CellSpace>, states: LinkedMap<StateId, StatePoint>,
                                      rooms: seq<seq<Polygon>>, centroid: Centroid, i: nat)
    requires Numbered(cells, states, rooms, centroid) && i < |cells|
    ensures cells[i].value.id == Room(i + 1)
    ensures states[i].value.id == S(i + 1)
    ensures cells[i].value.state == Some(states[i].value)
    ensures BuiltFrom(cells[i].value, states[i].value, rooms[i], centroid)
    decreases |cells|
  {
    if i < |cells| - 1 {
      NumberedAt(cells[..|cells| - 1], states[..|states| - 1], rooms[..|rooms| - 1], centroid, i);
    }
  }

  /** Adds one room; its cell space and state are appended to their maps. */
  method AddRoom(m: Model, polygons: seq<Polygon>, centroid: Centroid) returns (m': Model)
    requires Valid(m)
    ensures Valid(m')
    ensures m'.transitions == m.transitions && m'.transitionCounter == m.transitionCounter
    ensures m'.cellCounter == m.cellCounter + 1 && m'.stateCounter == m.stateCounter + 1
    ensures |m'.cellSpaces| == |m.cellSpaces| + 1 && m'.cellSpaces[..|m.cellSpaces|] == m.cellSpaces
    ensures |m'.states| == |m.states| + 1 && m'.states[..|m.states|] == m.states
    ensures m'.cellSpaces[|m.cellSpaces|].value.id == Room(m.cellCounter)
    ensures m'.states[|m.states|].value.id == S(m.stateCounter)
    ensures m'.cellSpaces[|m.cellSpaces|].value.state == Some(m'.states[|m.states|].value)
    ensures BuiltFrom(m'.cellSpaces[|m.cellSpaces|].value, m'.states[|m.states|].value, polygons, centroid)
  {
    AddCellSpacePreservesValid(m, polygons, centroid);
    m' := AddCellSpace(m, polygons, centroid).model;
  }

  /** Adds room `k` to a model numbered after the first `k` rooms. */
  method AddNumberedRoom(m: Model, rooms: seq<seq<Polygon>>, k: nat, centroid: Centroid) returns (m': Model)
    requires Valid(m) && k < |rooms| && |m.cellSpaces| == k && m.transitions == []
    requires m.cellCounter == k + 1 && m.stateCounter == k + 1 && m.transitionCounter == 1
    requires Numbered(m.cellSpaces, m.states, rooms[..k], centroid)
    ensures Valid(m') && |m'.cellSpaces| == k + 1 && m'.transitions == []
    ensures m'.cellCounter == k + 2 && m'.stateCounter == k + 2 && m'.transitionCounter == 1
    ensures Numbered(m'.cellSpaces, m'.states, rooms[..k + 1], centroid)
  {
    m' := AddRoom(m, rooms[k], centroid);
    assert rooms[..k + 1][..k] == rooms[..k];
  }

  /** Adds one cell space per room to a fresh model. */
  method AddRooms(rooms: seq<seq<Polygon>>, centroid: Centroid) returns (m: Model)
    ensures Valid(m)
    ensures |m.cellSpaces| == |rooms| && m.transitions == []
    ensures m.transitionCounter == 1
    ensures Numbered(m.cellSpaces, m.states, rooms, centroid)
  {
    m := NewModel();
    var k := 0;
    while k < |rooms|
      invariant 0 <= k <= |rooms|
      invariant Valid(m)
      invariant |m.cellSpaces| == k && m.transitions == []
      invariant m.cellCounter == k + 1 && m.stateCounter == k + 1 && m.transitionCounter == 1
      invariant Numbered(m.cellSpaces, m.states, rooms[..k], centroid)
    {
      m := AddNumberedRoom(m, rooms, k, centroid);
      k := k + 1;
    }
    assert rooms[..k] == rooms;
  }

  /** The ring successor of position `i` among `n`, written without `%`. */
  function Next(i: nat, n: nat): (j: nat)
    requires i < n
    ensures j < n && j == (i + 1) % n
  {
    if i + 1 < n then i + 1 else 0
  }

  /** The transition from state `i` to its ring successor, as `addTransition`
      builds it when the transition counter stands at `i + 1`. */
  function RingEdge(states: seq<StatePoint>, i: nat): Entry<TransitionId, Transition>
    requires i < |states|
  {
    var a, b := states[i], states[Next(i, |states|)];
    Entry(T(i + 1), Transition(T(i + 1), a, b, LineString([a.position, b.position])))
  }

  /** The first `k` edges of the ring, in insertion order. */
  function RingPrefix(states: seq<StatePoint>, k: nat): (r: seq<Entry<TransitionId, Transition>>)
    requires k <= |states|
    ensures |r| == k
  {
    if k == 0 then [] else RingPrefix(states, k - 1) + [RingEdge(states, k - 1)]
  }

  /** Edge `j` of any ring prefix that contains it is `RingEdge(states, j)`. */
  lemma {:induction false} RingPrefixAt(states: seq<StatePoint>, k: nat, j: nat)
    requires j < k <= |states|
    ensures RingPrefix(states, k)[j] == RingEdge(states, j)
    decreases k
  {
    if j < k - 1 {
      RingPrefixAt(states, k - 1, j);
    } else if k > 1 {
      RingPrefixAt(states, k - 1, 0);
    }
  }

  /** Adds the ring edge leaving state `i`. */
  method AddRingEdge(m: Model, states: seq<StatePoint>, i: nat) returns (m': Model)
    requires Valid(m) && i < |states| && m.transitionCounter == i + 1
    ensures Valid(m')
    ensures m'.cellSpaces == m.cellSpaces && m'.states == m.states
    ensures m'.transitionCounter == i + 2
    ensures m'.transitions == m.transitions + [RingEdge(states, i)]
  {
    var a, b := states[i], states[Next(i, |states|)];
    AddTransitionPreservesValid(m, a, b);
    m' := AddTransition(m, a, b).model;
  }

  /** Connects state i to state i+1 (and the last back to the first), in the
      order `getStates` returns them. */
  method ConnectRing(m0: Model) returns (m: Model)
    requires Valid(m0) && m0.transitions == [] && m0.transitionCounter == 1
    ensures Valid(m)
    ensures m.cellSpaces == m0.cellSpaces && m.states == m0.states
    ensures m.transitions == RingPrefix(GetStates(m0), |GetStates(m0)|)
  {
    m := m0;
    var states := GetStates(m);
    var n := |states|;
    var i := 0;
    while i < n
      invariant 0 <= i <= n
      invariant Valid(m)
      invariant m.cellSpaces == m0.cellSpaces && m.states == m0.states
      invariant m.transitionCounter == i + 1
      invariant m.transitions == RingPrefix(states, i)
    {
      m := AddRingEdge(m, states, i);
      i := i + 1;
    }
  }

  /** `createModel` without the coordinate data: rooms, then the ring. */
  method CreateModel(rooms: seq<seq<Polygon>>, centroid: Centroid) returns (m: Model)
    ensures Valid(m)
    ensures |GetCellSpaces(m)| == |rooms| && |GetStates(m)| == |rooms|
    ensures |GetTransitions(m)| == |rooms|
    ensures forall i :: 0 <= i < |rooms| ==>
              && GetCellSpaces(m)[i].id == Room(i + 1)
              && GetStates(m)[i].id == S(i + 1)
              && GetCellSpaces(m)[i].state == Some(GetStates(m)[i])
              && BuiltFrom(GetCellSpaces(m)[i], GetStates(m)[i], rooms[i], centroid)
    ensures forall i :: 0 <= i < |rooms| ==>
              && GetTransitions(m)[i].id == T(i + 1)
              && GetTransitions(m)[i].stateA == GetStates(m)[i]
              && GetTransitions(m)[i].stateB == GetStates(m)[(i + 1) % |rooms|]
  {
    var withRooms := AddRooms(rooms, centroid);
    m := ConnectRing(withRooms);
    var states := GetStates(m);
    assert |states| == |rooms|;
    forall i | 0 <= i < |rooms|
      ensures GetCellSpaces(m)[i].id == Room(i + 1)
      ensures states[i].id == S(i + 1)
      ensures GetCellSpaces(m)[i].state == Some(states[i])
      ensures BuiltFrom(GetCellSpaces(m)[i], states[i], rooms[i], centroid)
    {
      NumberedAt(withRooms.cellSpaces, withRooms.states, rooms, centroid, i);
      assert GetCellSpaces(m)[i] == withRooms.cellSpaces[i].value;
      assert states[i] == withRooms.states[i].value;
    }
    forall i | 0 <= i < |rooms|
      ensures GetTransitions(m)[i].id == T(i + 1)
      ensures GetTransitions(m)[i].stateA == states[i]
      ensures GetTransitions(m)[i].stateB == states[(i + 1) % |rooms|]
    {
      RingPrefixAt(states, |rooms|, i);
      assert GetTransitions(m)[i] == m.transitions[i].value;
    }
  }
}
