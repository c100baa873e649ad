/**
 * The mesh element records.  They refer to each other only through handles.
 */
module Elements {
  import opened Handles

  newtype uint16 = x: int | 0 <= x < 0x1_0000

  /** Whether an element contributes to the topology of a mesh. */
  datatype Status = Active | Inactive

  /** The value each status is encoded as. */
  function StatusCode(s: Status): (code: uint16)
    ensures s == Active ==> code == 0x0000
    ensures s == Inactive ==> code == 0x8000
  {
    match s
    case Active => 0x0000
    case Inactive => 0x8000
  }

  /** The fields every element carries. */
  datatype MeshElement = MeshElement(status: Status, tag: uint16, generation: nat)

  /**
   * A position is only stored and handed back by the kernel, so real
   * coordinates stand for the source's single-precision vector.
   */
  datatype Position = Position(x: real, y: real, z: real)

  const Origin: Position := Position(0.0, 0.0, 0.0)

  datatype HalfEdge = HalfEdge(
    meta: MeshElement,
    vertex: VertexIndex,
    face: FaceIndex,
    next: EdgeIndex,
    prev: EdgeIndex,
    adjacent: EdgeIndex)

  datatype FaceTriangle = FaceTriangle(v0: VertexIndex, v1: VertexIndex, v2: VertexIndex)

  datatype Face = Face(meta: MeshElement, rootEdge: EdgeIndex, triangles: seq<FaceTriangle>)

  datatype Vertex = Vertex(meta: MeshElement, point: PointIndex, edge: EdgeIndex)

  /** The associated vertices are kept as a set of vertex handles. */
  datatype Point = Point(meta: MeshElement, position: Position, vertices: set<VertexIndex>)

  /** The default member initialisers of the common fields. */
  function DefaultMeta(): (m: MeshElement)
    ensures m.status == Active && StatusCode(m.status) == 0 && m.tag == 0
    ensures m.generation == 1 && m.generation != IGNORED_GENERATION
  {
    MeshElement(Active, 0, 1)
  }

  function DefaultHalfEdge(): (e: HalfEdge)
    ensures e.meta == DefaultMeta()
    ensures e.vertex == Invalid() && e.face == Invalid()
    ensures e.next == Invalid() && e.prev == Invalid() && e.adjacent == Invalid()
    ensures !IsTruthy(e.face)
  {
    HalfEdge(DefaultMeta(), Invalid(), Invalid(), Invalid(), Invalid(), Invalid())
  }

  function DefaultFaceTriangle(): (t: FaceTriangle)
    ensures t.v0 == Invalid() && t.v1 == Invalid() && t.v2 == Invalid()
  {
    FaceTriangle(Invalid(), Invalid(), Invalid())
  }

  function DefaultFace(): (f: Face)
    ensures f.meta == DefaultMeta()
    ensures f.rootEdge == Invalid() && !IsTruthy(f.rootEdge)
    ensures f.triangles == []
  {
    Face(DefaultMeta(), Invalid(), [])
  }

  function DefaultVertex(): (v: Vertex)
    ensures v.meta == DefaultMeta()
    ensures v.point == Invalid() && v.edge == Invalid()
  {
    Vertex(DefaultMeta(), Invalid(), Invalid())
  }

  /** A point built from a position: no vertices are associated with it yet. */
  function PointAt(position: Position): (p: Point)
    ensures p.meta == DefaultMeta()
    ensures p.position == position
    ensures p.vertices == {} && |p.vertices| == 0
  {
    Point(DefaultMeta(), position, {})
  }

  /** The default point; the source leaves its vector uninitialised, the model uses the origin. */
  function DefaultPoint(): (p: Point)
    ensures p == PointAt(Origin)
  {
    Point(DefaultMeta(), Origin, {})
  }
}
