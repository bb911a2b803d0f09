/** The plain data records of the IndoorGML model: cell spaces (rooms made of
    polygons), state points (graph nodes) and transitions (graph edges). */
module Entities {
  import opened Wrappers

  /** A 3D coordinate. Its numeric value is never inspected by the model. */
  datatype Vec3 = Vec3(x: real, y: real, z: real)

  /** Identifiers minted by the model: "Room"+n, "S"+n, "T"+n and "P"+n. */
  datatype CellId = Room(n: nat)
  datatype StateId = S(n: nat)
  datatype TransitionId = T(n: nat)
  datatype PolygonId = P(n: nat)

  /** A boundary polygon: vertices and triangle indices. Its id is unset until
      the polygon is registered with a model. */
  datatype Polygon = Polygon(id: Option<PolygonId>, vertices: seq<Vec3>, indices: seq<int>)

  /** A navigation node at a position (the centroid of its cell). */
  datatype StatePoint = StatePoint(id: StateId, position: Vec3)

  /** An ordered list of vertices. */
  datatype LineString = LineString(vertices: seq<Vec3>)

  /** A room: its polygons and, unless it was cleared, its state. */
  datatype CellSpace = CellSpace(id: CellId, polygons: seq<Polygon>, state: Option<StatePoint>)

  /** An edge from `stateA` to `stateB`, drawn along `geometry`. */
  datatype Transition = Transition(id: TransitionId, stateA: StatePoint, stateB: StatePoint, geometry: LineString)
}
