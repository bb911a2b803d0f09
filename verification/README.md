# IndoorGML model manager in Dafny

This project models `IndoorGMLModel`, the in-memory manager behind the IndoorGML
viewer. It keeps three insertion-ordered maps and four counters:

- cell spaces: rooms made of polygons, each linked to at most one state
  (`removeState` can clear the link);
- states: navigation nodes placed at a room's centroid;
- transitions: edges between two states, drawn as a two-point line;
- counters for rooms, states, transitions and polygons. Every id is minted from
  one of them, and no operation ever lowers them.

The operations are `addCellSpace`, `removeCellSpace`, `addTransition`,
`removeState`, `removeTransition` and the three getters. The model also covers
the part of the sample program `createModel` that builds a model and connects
its states in a ring.

Layout:

- `wrappers.dfy`: `Option`.
- `sequences.dfy`: order-preserving subsequences (`SubSeq`) and `Filter`.
- `linked_maps.dfy`: a `LinkedHashMap` as a sequence of entries.
  - `Put` replaces a value in place or appends a new entry.
  - `Remove` drops the entry with the given key.
  - `RemoveWhere` is `values().removeIf`.
  - `MapValues` is `values().forEach` with a setter.
- `entities.dfy`: the records `CellSpace`, `StatePoint`, `Transition`,
  `LineString` and `Polygon`. Ids are tagged naturals: `Room(n)`, `S(n)`,
  `T(n)` and `P(n)` stand for the strings `"Room"+n`, `"S"+n`, `"T"+n` and
  `"P"+n`.
- `indoor_model.dfy`: the model, its invariant `Valid`, and one pure function
  per operation.
- `model_invariant.dfy`: every operation preserves `Valid`.
- `model_properties.dfy`: freshness of the next ids, getter order, removals
  that undo additions, and the failing removal sequence.
- `history.dfy`: arbitrary operation sequences and the ids they mint.
- `ring_example.dfy`: the model-building part of `createModel`.

`Valid` has three parts:

- every map is keyed by its values' own ids, with each key once;
- every id in use (polygon ids included) lies in `[1, counter)`;
- the states map holds exactly the states that cell spaces link to, and no two
  cell spaces share a state.

The centroid is a parameter `centroid: seq<Polygon> -> Vec3`. It is applied to
the polygons after they receive their ids, and its value is never inspected.

`removeCellSpace` is modelled twice:

- `RemoveCellSpace` follows the code as written. A cell space whose state was
  cleared by `removeState` makes it throw a `NullPointerException`. It throws
  only after the cell space has already been taken out of the map.
- `RemoveCellSpaceChecked` is the corrected version. The operation sequences in
  `history.dfy` use it.

## Model

| member | source | states |
|---|---|---|
| IndoorModel.NewModel | src/main/java/org/indoorgml/model/IndoorGMLModel.java:9-15 | A new model has three empty maps and all four counters at 1, so the first ids minted are `Room(1)`, `S(1)`, `T(1)` and `P(1)`. It satisfies the invariant. |
| IndoorModel.AddCellSpace | src/main/java/org/indoorgml/model/IndoorGMLModel.java:20-36 | The new cell space is `Room(c)`. Its k polygons keep their vertices and indices and get ids `P(p)`..`P(p+k-1)` in list order. Its state is `S(s)` at the centroid of those polygons. The cell and state counters advance by 1 and the polygon counter by k. Transitions are untouched. In a valid model, exactly one cell space and one state are appended. |
| IndoorModel.RemoveCellSpace | src/main/java/org/indoorgml/model/IndoorGMLModel.java:41-51 | As written: an unknown id changes nothing. It throws exactly when the cell space is present with a cleared state, and then only the cell space has been removed. Otherwise exactly that cell space, exactly its state's key and exactly the transitions with that state as an endpoint go. Survivors keep their order and no counter changes. |
| IndoorModel.RemoveCellSpaceChecked | src/main/java/org/indoorgml/model/IndoorGMLModel.java:41-51 | Corrected removal: it never throws. A cell space with a cleared state is removed on its own. Otherwise it removes the same exact sets as the as-written removal, survivors keep their order, and no counter changes. |
| IndoorModel.Cascade | src/main/java/org/indoorgml/model/IndoorGMLModel.java:47-50 | The cascade shared by both removals drops exactly the states with that key and exactly the transitions with that state as an endpoint. Survivors keep their order. Cell spaces and counters are untouched. |
| IndoorModel.AddTransition | src/main/java/org/indoorgml/model/IndoorGMLModel.java:53-67 | Adds one transition `T(t)` from `a` to `b` in that order. Its line has exactly the two positions of `a` and `b`. Only the transition counter advances, by 1. Cell spaces and states are unchanged. Neither endpoint needs to be registered. |
| IndoorModel.RemoveState | src/main/java/org/indoorgml/model/IndoorGMLModel.java:81-91 | Removes exactly that key from the states map and exactly the transitions touching that state. Every cell space stays at its position. A cell space linked to the state gets an empty state and is otherwise unchanged. Cell spaces not linked to it are unchanged. No counter changes. |
| IndoorModel.RemoveTransition | src/main/java/org/indoorgml/model/IndoorGMLModel.java:93-95 | An unknown id changes nothing. Otherwise exactly that key goes. Cell spaces, states and counters are unchanged. |
| ModelInvariant.AddCellSpacePreservesValid | src/main/java/org/indoorgml/model/IndoorGMLModel.java:20-36 | `addCellSpace` keeps the model valid: fresh keys, ids below counters, and the state registered and owned by its new cell. |
| ModelInvariant.AddTransitionPreservesValid | src/main/java/org/indoorgml/model/IndoorGMLModel.java:53-67 | `addTransition` keeps the model valid. |
| ModelInvariant.RemoveCellSpacePreservesValid | src/main/java/org/indoorgml/model/IndoorGMLModel.java:41-51 | The as-written removal leaves a valid model whether it completes or throws. |
| ModelInvariant.RemoveCellSpaceCheckedPreservesValid | src/main/java/org/indoorgml/model/IndoorGMLModel.java:41-51 | The corrected removal keeps the model valid. |
| ModelInvariant.RemoveStatePreservesValid | src/main/java/org/indoorgml/model/IndoorGMLModel.java:81-91 | `removeState` keeps the model valid: unlinked cell spaces no longer claim the removed state. |
| ModelInvariant.RemoveTransitionPreservesValid | src/main/java/org/indoorgml/model/IndoorGMLModel.java:93-95 | `removeTransition` keeps the model valid. |
| ModelInvariant.NewCellKeepsKeysAndIds | src/main/java/org/indoorgml/model/IndoorGMLModel.java:21-34 | Appending a cell space and its state under the current counters keeps keys distinct and ids below the advanced counters. |
| ModelInvariant.NewCellKeepsStatesMatch | src/main/java/org/indoorgml/model/IndoorGMLModel.java:29-34 | Appending a cell space with its own new state keeps every state owned by exactly one cell space. |
| ModelInvariant.CellRemovalPreservesValid | src/main/java/org/indoorgml/model/IndoorGMLModel.java:42-50 | Removing one present cell space, together with its state's key when it has a state, and keeping any order-preserving subset of the transitions, leaves a valid model. Both removals reduce to this: the completing one, the one that throws after line 42, and the corrected one. |
| ModelProperties.NextIdsAreFresh | src/main/java/org/indoorgml/model/IndoorGMLModel.java:12-15 | In a valid model, the next `Room`, `S` and `T` ids and every polygon id at or above the polygon counter are not in use. |
| ModelProperties.AddCellSpaceAppendsToGetters | src/main/java/org/indoorgml/model/IndoorGMLModel.java:69-79 | After `addCellSpace`, `getCellSpaces` and `getStates` return the old values followed by the new cell space and its state. `getTransitions` is unchanged. |
| ModelProperties.AddTransitionAppendsToGetters | src/main/java/org/indoorgml/model/IndoorGMLModel.java:69-79 | After `addTransition`, `getTransitions` returns the old transitions followed by the new one. The other getters are unchanged. |
| ModelProperties.RemovalsKeepGetterOrder | src/main/java/org/indoorgml/model/IndoorGMLModel.java:9-11 | Every removal keeps what the getters return as an order-preserving subsequence. `removeState` keeps every cell space at its position. |
| ModelProperties.RemoveCellSpaceThrowsAfterRemoveState | src/main/java/org/indoorgml/model/IndoorGMLModel.java:46 | In any valid model, `addCellSpace`, then `removeState` of its state, then `removeCellSpace` of the new cell space throws. |
| ModelProperties.RemoveTransitionUndoesAdd | src/main/java/org/indoorgml/model/IndoorGMLModel.java:93-95 | In a valid model, removing the transition just added restores the model. Only the advanced transition counter remains, so the id is not reused. |
| ModelProperties.RemoveCellSpaceUndoesAdd | src/main/java/org/indoorgml/model/IndoorGMLModel.java:41-51 | In a valid model, removing the cell space just added restores the model, up to the advanced counters. This needs no existing transition to name the new state's id already, since `addTransition` accepts unregistered states. |
| ModelProperties.CheckedRemovalMatchesAsWritten | src/main/java/org/indoorgml/model/IndoorGMLModel.java:41-51 | The corrected removal leaves exactly the model the as-written removal leaves, whether that one completes or throws. |
| History.Apply | src/main/java/org/indoorgml/model/IndoorGMLModel.java:12-15 | No operation lowers a counter, and removals leave every counter unchanged. |
| History.RunCountersGrow | src/main/java/org/indoorgml/model/IndoorGMLModel.java:12-15 | Along any operation sequence, the counters never decrease. |
| History.ApplyPreservesValid | src/main/java/org/indoorgml/model/IndoorGMLModel.java:20-95 | Each of the five operations keeps the model valid. |
| History.RunPreservesValid | src/main/java/org/indoorgml/model/IndoorGMLModel.java:20-95 | Any sequence of operations from a valid model ends valid. |
| History.AddCellSpaceMintsFresh | src/main/java/org/indoorgml/model/IndoorGMLModel.java:21-30 | The room, state and polygon ids of one `addCellSpace` are distinct. Each lies at or above its counter before the call and below it after. |
| History.MintedByIsFreshAndDistinct | src/main/java/org/indoorgml/model/IndoorGMLModel.java:20-66 | Any single operation mints distinct ids, each at or above its counter before the call and below it after. |
| History.MintedIdsAreDistinct | src/main/java/org/indoorgml/model/IndoorGMLModel.java:12-15 | Along any operation sequence, no id is minted twice, including ids of objects deleted in between. Every minted id lies between the starting and final counters. |
| History.UnmintedIdNotInUse | src/main/java/org/indoorgml/model/IndoorGMLModel.java:12-15 | In a valid model, an id at or above its counter names no cell space, state, transition or polygon. |
| History.MintedIdsAreFresh | src/main/java/org/indoorgml/model/IndoorGMLModel.java:12-15 | Starting from a valid model, every id a sequence mints names nothing present at the start, and no two minted ids are equal. |
| LinkedMaps.Put | src/main/java/org/indoorgml/model/IndoorGMLModel.java:33-34 | A `LinkedHashMap` put appends an absent key and replaces a present key's value in place. Other entries are untouched and keys stay distinct. |
| LinkedMaps.Remove | src/main/java/org/indoorgml/model/IndoorGMLModel.java:42 | Removing an absent key changes nothing. Every other entry survives, in order, and with distinct keys the key is gone. |
| LinkedMaps.RemoveAppended | src/main/java/org/indoorgml/model/IndoorGMLModel.java:42 | Removing a key that was just appended as new restores the map. |
| LinkedMaps.RemoveMembers | src/main/java/org/indoorgml/model/IndoorGMLModel.java:47 | With distinct keys, the entries left after a remove are exactly those with a different key. |
| LinkedMaps.RemoveWhere | src/main/java/org/indoorgml/model/IndoorGMLModel.java:48-50 | `values().removeIf` keeps exactly the entries whose value fails the test, in order, and keeps keys distinct. |
| LinkedMaps.RemoveIsFilter | src/main/java/org/indoorgml/model/IndoorGMLModel.java:42 | With distinct keys, removing a key is the same as filtering out the entries with that key. |
| RingExample.AddRooms | src/main/java/org/indoorgml/example/CreateModel.java:50-53 | Adding one cell space per room to a new model, in list order, gives cell space i the id `Room(i+1)`. It is built from the polygons of room i, in order, with their vertices and indices. It links state i, which is `S(i+1)` and sits at the centroid of those polygons. |
| RingExample.ConnectRing | src/main/java/org/indoorgml/example/CreateModel.java:56-61 | The loop adds exactly the ring edges, in order, and leaves cell spaces and states unchanged. |
| RingExample.CreateModel | src/main/java/org/indoorgml/example/CreateModel.java:50-61 | The built model is valid. It has one cell space, state and transition per room. Cell space i is `Room(i+1)`, built from room i's polygons, and links state `S(i+1)` at their centroid. Transition `T(i+1)` goes from state i to state (i+1) mod n, in `getStates` order. |

## Left out

- Rendering and the interactive examples. The jMonkeyEngine visualizer and the three sample applications (camera, picking, highlighting) are left out. Their delete dispatch only calls the operations modelled here.
- Floating-point geometry. Bounding boxes, scaling and translation in `GeometryUtils` and the examples are left out, as is the `float` cast of the scale in `createModel`.
- The centroid's numeric value. `computeCentroid` averages doubles and gives NaN for an empty polygon list. Here it is an opaque parameter.
- `createModel`'s coordinate data and rescaling. `RingExample.CreateModel` takes the rooms as polygon lists.
- Id strings. `"Room"+n` and the other formats are tagged naturals. A cell space or transition id that is not one of these formats, or is `null`, matches no key, so removing by it changes nothing. The model covers that case as an absent id. States whose ids are not of the form `"S"+n` are left out. Such a state can only be a foreign state given to `addTransition`, and `removeState` on its id would still drop the transitions that name it.
- `Vector3d` is not part of this model. Positions are triples of reals that nothing inspects.
- Aliasing. `addCellSpace` stamps ids into the caller's polygon objects, and the cell space keeps the caller's list. The model returns stamped copies instead.
- `Polygon.java` declares no id field, although `addCellSpace` calls `setId`. The model gives polygons the optional id that `IndoorGMLModel` evidently intends.
- Foreign states. `addTransition` accepts any two states, including ones never registered. Their ids are still modelled as `S(n)`; states with a `null` id are left out.
- IndoorModel.AddCellSpace: counters are unbounded naturals. The 32-bit `int` wrap-around after 2^31-1 calls is not modelled, and neither is the resulting reuse of ids.
- IndoorModel.AddTransition: the transition counter is unbounded for the same reason.
- IndoorModel.AddCellSpace: a `null` polygon list, a `null` polygon or a polygon with `null` vertices makes `addCellSpace` throw. By then `cellCounter` has already advanced (line 21). Depending on where it throws, `polygonCounter` (line 25) and `stateCounter` (line 30) have advanced too, and some polygons are stamped, but nothing is put (lines 33-34). The model has no null values and does not express ids burnt without an object being added.
- IndoorModel.AddTransition: a `null` state or a state with a `null` position makes `addTransition` throw at lines 61-62. `transitionCounter` has already advanced (line 54) and nothing is put. Null arguments are left out, as above.
- IndoorModel.RemoveCellSpace: the exact sets of surviving cell spaces, states and transitions are stated for valid models, whose keys are distinct. For an arbitrary map, only order preservation is stated.
- IndoorModel.RemoveCellSpaceChecked: the exact surviving sets are likewise stated only for valid models.
- IndoorModel.RemoveState: the exact surviving states are stated only for maps with distinct keys.
- IndoorModel.RemoveTransition: the exact surviving transitions are stated only for maps with distinct keys.

## Findings

| source | as written | input that shows it | evidently intended | confidence | as-written member | corrected member |
|---|---|---|---|---|---|---|
| src/main/java/org/indoorgml/model/IndoorGMLModel.java:46 | `removeCellSpace` calls `getId()` on the cell's state without a null check. `removeState` sets that state to `null` (lines 83-86). The cell space is already out of the map (line 42) when the exception is raised. | `addCellSpace(polys)` returns Room1 with state S1; then `removeState("S1")`; then `removeCellSpace("Room1")` | remove the cell space whose state was cleared, without throwing, as `removeState`'s own null check at line 84 suggests | not executed | ModelProperties.RemoveCellSpaceThrowsAfterRemoveState | IndoorModel.RemoveCellSpaceChecked |
