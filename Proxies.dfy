/**
 * Element proxies: a kernel, possibly null, and a handle into one of its
 * buffers.  Every read goes through the kernel's `Get`, so it is only
 * defined on a non-null kernel at a valid handle; the returned proxies stay
 * on the same kernel.
 */
module Proxies {
  import opened Handles
  import opened Elements
  import opened Buffers
  import opened Topology
  import opened Kernel

  /** FPxElement<Index, Element>. */
  datatype Px<K> = Px(kernel: HedgeKernel?, index: ElementIndex<K>)

  type PxHalfEdge = Px<EdgeKind>
  type PxFace = Px<FaceKind>
  type PxVertex = Px<VertexKind>
  type PxPoint = Px<PointKind>

  // ---------------------------------------------------------------------
  // FPxElement: truthiness and comparison

  /** `operator bool`: a kernel is attached and the handle is truthy. */
  predicate PxTruthy<K>(px: Px<K>) {
    px.kernel != null && IsTruthy(px.index)
  }

  /** `operator==`: the same handle, strictly, on the same kernel. */
  predicate PxEqual<K>(a: Px<K>, b: Px<K>) {
    Equal(a.index, b.index) && a.kernel == b.kernel
  }

  /** `operator!=` as written: both the handle and the kernel differ. */
  predicate PxNotEqualAsWritten<K>(a: Px<K>, b: Px<K>) {
    NotEqual(a.index, b.index) && a.kernel != b.kernel
  }

  /** `operator!=` as evidently intended: the handle or the kernel differs. */
  predicate PxNotEqual<K>(a: Px<K>, b: Px<K>) {
    NotEqual(a.index, b.index) || a.kernel != b.kernel
  }

  lemma PxTruthyIffKernelAndOffset<K>(px: Px<K>)
    ensures PxTruthy(px) <==> px.kernel != null && px.index.offset != INVALID_OFFSET
    ensures !PxTruthy(Px(px.kernel, Invalid<K>())) && !PxTruthy(Px(null, px.index))
  {
  }

  /** Proxy equality is equality of the pair. */
  lemma PxEqualIsIdentity<K>(a: Px<K>, b: Px<K>)
    ensures PxEqual(a, b) <==> a == b
  {
    EqualIsIdentity(a.index, b.index);
  }

  /** Two proxies on one kernel with different handles are neither == nor != as written. */
  lemma PxNotEqualAsWrittenMissesSameKernel<K>(k: HedgeKernel, h1: ElementIndex<K>, h2: ElementIndex<K>)
    requires h1 != h2
    ensures !PxEqual(Px(k, h1), Px(k, h2)) && !PxNotEqualAsWritten(Px(k, h1), Px(k, h2))
  {
    EqualIsIdentity(h1, h2);
  }

  /** The corrected != is the negation of ==, and as written it only implies it. */
  lemma PxNotEqualIsNegation<K>(a: Px<K>, b: Px<K>)
    ensures PxNotEqual(a, b) <==> !PxEqual(a, b)
    ensures PxNotEqualAsWritten(a, b) ==> PxNotEqual(a, b)
  {
    EqualIsIdentity(a.index, b.index);
  }

  // ---------------------------------------------------------------------
  // GetElement: the kernel's Get at a valid handle

  predicate ValidEdge(px: PxHalfEdge)
    reads if px.kernel != null then {px.kernel.edges} else {}
  {
    px.kernel != null && px.kernel.IsValidEdge(px.index)
  }

  predicate ValidFace(px: PxFace)
    reads if px.kernel != null then {px.kernel.faces} else {}
  {
    px.kernel != null && px.kernel.IsValidFace(px.index)
  }

  predicate ValidVertex(px: PxVertex)
    reads if px.kernel != null then {px.kernel.vertices} else {}
  {
    px.kernel != null && px.kernel.IsValidVertex(px.index)
  }

  predicate ValidPoint(px: PxPoint)
    reads if px.kernel != null then {px.kernel.points} else {}
  {
    px.kernel != null && px.kernel.IsValidPoint(px.index)
  }

  function EdgeElement(px: PxHalfEdge): (e: HalfEdge)
    requires ValidEdge(px)
    reads px.kernel.edges
    ensures IsValid(px.kernel.edges.Model(), px.index) && e == Get(px.kernel.edges.Model(), px.index.offset)
  {
    px.kernel.GetEdge(px.index)
  }

  function FaceElement(px: PxFace): (f: Face)
    requires ValidFace(px)
    reads px.kernel.faces
    ensures IsValid(px.kernel.faces.Model(), px.index) && f == Get(px.kernel.faces.Model(), px.index.offset)
  {
    px.kernel.GetFace(px.index)
  }

  function VertexElement(px: PxVertex): (v: Vertex)
    requires ValidVertex(px)
    reads px.kernel.vertices
    ensures IsValid(px.kernel.vertices.Model(), px.index) && v == Get(px.kernel.vertices.Model(), px.index.offset)
  {
    px.kernel.GetVertex(px.index)
  }

  function PointElement(px: PxPoint): (p: Point)
    requires ValidPoint(px)
    reads px.kernel.points
    ensures IsValid(px.kernel.points.Model(), px.index) && p == Get(px.kernel.points.Model(), px.index.offset)
  {
    px.kernel.GetPoint(px.index)
  }

  // ---------------------------------------------------------------------
  // FPxHalfEdge

  function EdgeVertex(e: PxHalfEdge): PxVertex
    requires ValidEdge(e)
    reads e.kernel.edges
  {
    Px(e.kernel, EdgeElement(e).vertex)
  }

  function EdgeFace(e: PxHalfEdge): PxFace
    requires ValidEdge(e)
    reads e.kernel.edges
  {
    Px(e.kernel, EdgeElement(e).face)
  }

  function EdgeNext(e: PxHalfEdge): PxHalfEdge
    requires ValidEdge(e)
    reads e.kernel.edges
  {
    Px(e.kernel, EdgeElement(e).next)
  }

  function EdgePrev(e: PxHalfEdge): PxHalfEdge
    requires ValidEdge(e)
    reads e.kernel.edges
  {
    Px(e.kernel, EdgeElement(e).prev)
  }

  function EdgeAdjacent(e: PxHalfEdge): PxHalfEdge
    requires ValidEdge(e)
    reads e.kernel.edges
  {
    Px(e.kernel, EdgeElement(e).adjacent)
  }

  /** Each edge navigation stays on the kernel and wraps the matching link of the edge. */
  lemma EdgeNavigationWrapsLinks(e: PxHalfEdge)
    requires ValidEdge(e)
    ensures var x := Get(e.kernel.edges.Model(), e.index.offset);
      && EdgeVertex(e) == Px(e.kernel, x.vertex) && EdgeFace(e) == Px(e.kernel, x.face)
      && EdgeNext(e) == Px(e.kernel, x.next) && EdgePrev(e) == Px(e.kernel, x.prev)
      && EdgeAdjacent(e) == Px(e.kernel, x.adjacent)
  {
  }

  /** On consistent twins, Adjacent leads to another live edge whose Adjacent leads back. */
  lemma AdjacentIsInvolution(e: PxHalfEdge)
    requires ValidEdge(e) && TwinsConsistent(e.kernel.edges.Model())
    ensures ValidEdge(EdgeAdjacent(e))
    ensures EdgeAdjacent(e).index.offset != e.index.offset
    ensures ValidEdge(EdgeAdjacent(EdgeAdjacent(e)))
    ensures EdgeAdjacent(EdgeAdjacent(e)).index.offset == e.index.offset
    ensures EdgeElement(EdgeAdjacent(EdgeAdjacent(e))) == EdgeElement(e)
  {
    assert TwinLinked(e.kernel.edges.Model(), e.index.offset);
  }

  // IsBoundary, on the value of the edge and face buffers

  /** The boundary test as written: the edge's face, then its twin's face, is falsy. */
  predicate BoundaryAsWritten(es: Store<HalfEdge>, e: nat)
    requires IsAllocated(es, e)
    requires IsTruthy(Get(es, e).face) ==> IsValid(es, Get(es, e).adjacent)
  {
    var x := Get(es, e);
    !IsTruthy(x.face) || !IsTruthy(Get(es, x.adjacent.offset).face)
  }

  /** The boundary test as intended: the edge's face, then its twin's face, is not a live face. */
  predicate Boundary(es: Store<HalfEdge>, fs: Store<Face>, e: nat)
    requires IsAllocated(es, e)
    requires IsValid(fs, Get(es, e).face) ==> IsValid(es, Get(es, e).adjacent)
  {
    var x := Get(es, e);
    !IsValid(fs, x.face) || !IsValid(fs, Get(es, x.adjacent.offset).face)
  }

  /** A boundary edge is one of a pair that does not have a live face on both sides. */
  lemma BoundaryIsSymmetric(es: Store<HalfEdge>, fs: Store<Face>, e: nat)
    requires TwinsConsistent(es) && IsAllocated(es, e)
    ensures var a := Get(es, e).adjacent.offset;
      IsAllocated(es, a) && (Boundary(es, fs, e) <==> Boundary(es, fs, a))
    ensures !IsValid(fs, Get(es, e).face) ==> Boundary(es, fs, e)
  {
    assert TwinLinked(es, e);
    var a := Get(es, e).adjacent.offset;
    assert TwinLinked(es, a);
  }

  /** An edge and its twin on the live faces at offsets 0 and 1: as written, the edge reads as a boundary. */
  lemma BoundaryAsWrittenMisreadsFaceZero()
    ensures var x := HalfEdge(DefaultMeta(), Invalid(), FromOffsetAndGeneration(0, 1), Invalid(), Invalid(), FromOffsetAndGeneration(1, 1));
      var y := HalfEdge(DefaultMeta(), Invalid(), FromOffsetAndGeneration(1, 1), Invalid(), Invalid(), FromOffsetAndGeneration(0, 1));
      var es := Store([Some(x), Some(y)], FIRST_GENERATION);
      var fs := Store([Some(DefaultFace()), Some(DefaultFace())], FIRST_GENERATION);
      && TwinsConsistent(es) && IsAllocated(es, 0)
      && BoundaryAsWritten(es, 0) && !Boundary(es, fs, 0)
  {
    var x := HalfEdge(DefaultMeta(), Invalid(), FromOffsetAndGeneration(0, 1), Invalid(), Invalid(), FromOffsetAndGeneration(1, 1));
    var y := HalfEdge(DefaultMeta(), Invalid(), FromOffsetAndGeneration(1, 1), Invalid(), Invalid(), FromOffsetAndGeneration(0, 1));
    var es := Store([Some(x), Some(y)], FIRST_GENERATION);
    assert TwinLinked(es, 0) && TwinLinked(es, 1);
  }

  /** The two tests differ only where a face handle's truthiness and its validity differ. */
  lemma BoundaryTestsAgreeWhereTruthyMeansValid(es: Store<HalfEdge>, fs: Store<Face>, e: nat)
    requires IsAllocated(es, e) && IsValid(es, Get(es, e).adjacent)
    requires IsTruthy(Get(es, e).face) <==> IsValid(fs, Get(es, e).face)
    requires var y := Get(es, Get(es, e).adjacent.offset); IsTruthy(y.face) <==> IsValid(fs, y.face)
    ensures BoundaryAsWritten(es, e) <==> Boundary(es, fs, e)
  {
  }

  /** FPxHalfEdge::IsBoundary as written: reads the twin only when the edge's face is truthy. */
  predicate EdgeIsBoundaryAsWritten(e: PxHalfEdge)
    requires ValidEdge(e)
    requires IsTruthy(EdgeElement(e).face) ==> ValidEdge(EdgeAdjacent(e))
    reads e.kernel.edges
  {
    BoundaryAsWritten(e.kernel.edges.Model(), e.index.offset)
  }

  /** FPxHalfEdge::IsBoundary with the face handles checked against the kernel. */
  predicate EdgeIsBoundary(e: PxHalfEdge)
    requires ValidEdge(e)
    requires e.kernel.IsValidFace(EdgeElement(e).face) ==> ValidEdge(EdgeAdjacent(e))
    reads e.kernel.edges, e.kernel.faces
  {
    Boundary(e.kernel.edges.Model(), e.kernel.faces.Model(), e.index.offset)
  }

  /** In a consistent kernel an edge is a boundary exactly when its twin is. */
  lemma EdgeIsBoundaryOfTwin(e: PxHalfEdge)
    requires ValidEdge(e) && TwinsConsistent(e.kernel.edges.Model())
    ensures ValidEdge(EdgeAdjacent(e)) && ValidEdge(EdgeAdjacent(EdgeAdjacent(e)))
    ensures EdgeIsBoundary(e) <==> EdgeIsBoundary(EdgeAdjacent(e))
    ensures !ValidFace(EdgeFace(e)) ==> EdgeIsBoundary(e)
  {
    AdjacentIsInvolution(e);
    BoundaryIsSymmetric(e.kernel.edges.Model(), e.kernel.faces.Model(), e.index.offset);
  }

  // GetPoints and GetVertices

  /** The proxies GetPoints needs to be defined: the edge, its next edge and both their vertices. */
  predicate HasEndpoints(e: PxHalfEdge)
    reads if e.kernel != null then {e.kernel.edges, e.kernel.vertices} else {}
  {
    && ValidEdge(e) && ValidVertex(EdgeVertex(e))
    && ValidEdge(EdgeNext(e)) && ValidVertex(EdgeVertex(EdgeNext(e)))
  }

  /** GetVertices reads only the edge and its next edge; the vertex handles are not dereferenced. */
  function EdgeGetVertices(e: PxHalfEdge): (r: seq<PxVertex>)
    requires ValidEdge(e) && ValidEdge(EdgeNext(e))
    reads e.kernel.edges
    ensures |r| == 2
    ensures r[0].kernel == e.kernel && r[1].kernel == e.kernel
    ensures r[0].index == EdgeElement(e).vertex && r[1].index == EdgeElement(EdgeNext(e)).vertex
  {
    [EdgeVertex(e), EdgeVertex(EdgeNext(e))]
  }

  function EdgeGetPoints(e: PxHalfEdge): (r: seq<PxPoint>)
    requires HasEndpoints(e)
    reads e.kernel.edges, e.kernel.vertices
    ensures |r| == 2
  {
    [VertexPoint(EdgeVertex(e)), VertexPoint(EdgeVertex(EdgeNext(e)))]
  }

  /** GetPoints pairs the points under GetVertices, and an edge ends where its next edge starts. */
  lemma GetPointsFollowsNext(e: PxHalfEdge)
    requires HasEndpoints(e) && HasEndpoints(EdgeNext(e))
    ensures EdgeGetPoints(e)[0] == VertexPoint(EdgeGetVertices(e)[0])
    ensures EdgeGetPoints(e)[1] == VertexPoint(EdgeGetVertices(e)[1])
    ensures EdgeGetVertices(e)[1] == EdgeGetVertices(EdgeNext(e))[0]
    ensures EdgeGetPoints(e)[1] == EdgeGetPoints(EdgeNext(e))[0]
    ensures forall k :: 0 <= k < 2 ==> EdgeGetPoints(e)[k].kernel == e.kernel
  {
  }

  // ---------------------------------------------------------------------
  // FPxFace and FPxVertex

  function FaceRootEdge(f: PxFace): PxHalfEdge
    requires ValidFace(f)
    reads f.kernel.faces
  {
    Px(f.kernel, FaceElement(f).rootEdge)
  }

  function VertexEdge(v: PxVertex): PxHalfEdge
    requires ValidVertex(v)
    reads v.kernel.vertices
  {
    Px(v.kernel, VertexElement(v).edge)
  }

  function VertexPoint(v: PxVertex): PxPoint
    requires ValidVertex(v)
    reads v.kernel.vertices
  {
    Px(v.kernel, VertexElement(v).point)
  }

  /** A face MakeFace created: its root edge is the one given, and that edge is on the face. */
  lemma RootEdgeOfMadeFace(m: Mesh, root: EdgeIndex, f: PxFace)
    requires f.kernel != null && CanAllocate(m.faces, f.index.offset)
    requires f.index == ElementIndex(f.index.offset, m.faces.generation)
    requires f.kernel.Model() == MakeFace(m, root, f.index.offset)
    ensures ValidFace(f) && FaceRootEdge(f) == Px(f.kernel, root)
    ensures IsValid(m.edges, root) ==> ValidEdge(FaceRootEdge(f)) && EdgeFace(FaceRootEdge(f)) == f
  {
    MakeFaceProperties(m, root, f.index.offset);
    if IsValid(m.edges, root) {
      var loop := Loop(m.edges, root.offset);
      assert loop[0] == root.offset;
    }
  }

  /**
   * The vertex ConnectEdges created sits on the point given and starts the
   * second edge, whose Vertex leads back to it; a live point lists it.
   */
  lemma VertexOfConnectedEdges(m: Mesh, a: EdgeIndex, p: PointIndex, b: EdgeIndex, v: PxVertex)
    requires v.kernel != null
    requires IsAllocated(m.edges, a.offset) && IsValid(m.edges, b) && CanAllocate(m.vertices, v.index.offset)
    requires v.index == ElementIndex(v.index.offset, m.vertices.generation)
    requires v.kernel.Model() == ConnectEdges(m, a, p, b, v.index.offset)
    ensures ValidVertex(v) && VertexEdge(v) == Px(v.kernel, b) && VertexPoint(v) == Px(v.kernel, p)
    ensures ValidEdge(VertexEdge(v)) && EdgeVertex(VertexEdge(v)) == v
    ensures IsValid(m.points, p) ==> ValidPoint(VertexPoint(v)) && v.index in PointVertices(VertexPoint(v))
  {
    ConnectEdgesLinks(m, a, p, b, v.index.offset);
  }

  // ---------------------------------------------------------------------
  // FPxPoint

  function PointPosition(p: PxPoint): Position
    requires ValidPoint(p)
    reads p.kernel.points
  {
    PointElement(p).position
  }

  /** The vertex set `Vertices()` hands out, read at the time of the call. */
  function PointVertices(p: PxPoint): set<VertexIndex>
    requires ValidPoint(p)
    reads p.kernel.points
  {
    PointElement(p).vertices
  }

  /** Every vertex a point of a consistent kernel lists is live and leads back to the point. */
  lemma PointVerticesLeadBack(p: PxPoint, h: VertexIndex)
    requires ValidPoint(p) && p.kernel.Valid() && PointsListOwnVertices(p.kernel.Model())
    requires h in PointVertices(p)
    ensures ValidVertex(Px(p.kernel, h))
    ensures ValidPoint(VertexPoint(Px(p.kernel, h)))
    ensures VertexPoint(Px(p.kernel, h)).index.offset == p.index.offset
  {
  }

  /** The value of the buffers after a point's position is overwritten. */
  function MovePoint(m: Mesh, p: nat, position: Position): Mesh
    requires IsAllocated(m.points, p)
  {
    m.(points := UpdateAt(m.points, p, Get(m.points, p).(position := position)))
  }

  /** Moving a point changes its position and nothing else. */
  lemma MovePointProperties(m: Mesh, p: nat, position: Position)
    requires IsAllocated(m.points, p)
    ensures var r := MovePoint(m, p, position);
      && r.edges == m.edges && r.vertices == m.vertices && r.faces == m.faces
      && r.points.generation == m.points.generation && Size(r.points) == Size(m.points)
      && (forall k: nat :: IsAllocated(r.points, k) <==> IsAllocated(m.points, k))
      && Get(r.points, p).position == position
      && Get(r.points, p).vertices == Get(m.points, p).vertices
      && Get(r.points, p).meta == Get(m.points, p).meta
      && (forall k: nat :: k != p && IsAllocated(m.points, k) ==> Get(r.points, k) == Get(m.points, k))
  {
    UpdateAtProperties(m.points, p, Get(m.points, p).(position := position));
  }

  lemma {:induction false} MovePointPreservesConsistency(m: Mesh, p: nat, position: Position)
    requires Consistent(m) && IsAllocated(m.points, p)
    ensures Consistent(MovePoint(m, p, position))
  {
    var r := MovePoint(m, p, position);
    MovePointProperties(m, p, position);
    forall q: nat, h: VertexIndex | IsAllocated(r.points, q) && h in Get(r.points, q).vertices
      ensures IsValid(r.vertices, h) && Designates(r.points, Get(r.vertices, h.offset).point, q)
    {
      assert IsAllocated(m.points, q) && h in Get(m.points, q).vertices;
    }
  }

  /** FPxPoint::SetPosition writes through the reference `Get` hands back. */
  method PointSetPosition(p: PxPoint, position: Position)
    requires ValidPoint(p) && p.kernel.Valid()
    modifies p.kernel.points
    ensures p.kernel.Valid() && ValidPoint(p)
    ensures p.kernel.Model() == MovePoint(old(p.kernel.Model()), p.index.offset, position)
    ensures PointPosition(p) == position
  {
    var pt := p.kernel.GetPoint(p.index);
    p.kernel.points.Update(p.index, pt.(position := position));
    UpdateAtProperties(old(p.kernel.points.Model()), p.index.offset, pt.(position := position));
  }
}
