/**
 * The kernel scenarios of the automation tests, stated over HedgeKernel.  Each
 * scenario builds its own kernel and hands back what the test inspects; the
 * postconditions are the test's expectations.  The kernel's state after each
 * call is recorded as a Mesh value, and the reasoning is done on those values.
 */
module KernelTests {
  import opened Handles
  import opened Elements
  import opened Buffers
  import opened Topology
  import opened Kernel

  // ---------------------------------------------------------------------
  // One kernel call, as its postcondition relates the states before and after

  /** AddPoint and NewPoint: p is stored at a free slot, and h is stamped with the buffer's generation. */
  ghost predicate PointAdded(m: Mesh, r: Mesh, h: PointIndex, p: Point) {
    CanAllocate(m.points, h.offset) && h.generation == m.points.generation
    && r == m.(points := AddAt(m.points, p, h.offset))
  }

  /** AddFace and NewFace. */
  ghost predicate FaceAdded(m: Mesh, r: Mesh, h: FaceIndex, f: Face) {
    CanAllocate(m.faces, h.offset) && h.generation == m.faces.generation
    && r == m.(faces := AddAt(m.faces, f, h.offset))
  }

  /** MakeEdgePair: h is the first half, and its twin link names the slot of the second. */
  ghost predicate EdgePairMade(m: Mesh, r: Mesh, face: FaceIndex, h: EdgeIndex) {
    && CanAllocate(m.edges, h.offset) && h.generation == m.edges.generation
    && IsAllocated(r.edges, h.offset)
    && CanAllocate(AddAt(m.edges, DefaultHalfEdge(), h.offset), Get(r.edges, h.offset).adjacent.offset)
    && r == Topology.MakeEdgePair(m, face, h.offset, Get(r.edges, h.offset).adjacent.offset)
  }

  /** ConnectEdges: v is the new vertex. */
  ghost predicate EdgesConnected(m: Mesh, r: Mesh, a: EdgeIndex, p: PointIndex, b: EdgeIndex, v: VertexIndex) {
    && IsAllocated(m.edges, a.offset) && IsAllocated(m.edges, b.offset)
    && CanAllocate(m.vertices, v.offset) && v.generation == m.vertices.generation
    && r == Topology.ConnectEdges(m, a, p, b, v.offset)
  }

  // ---------------------------------------------------------------------
  // Allocation on buffers without gaps

  lemma PointAppended(m: Mesh, r: Mesh, h: PointIndex, p: Point)
    requires PointAdded(m, r, h, p) && !HasFreeSlot(m.points.slots)
    ensures h == ElementIndex(|m.points.slots|, m.points.generation)
    ensures r.points.slots == m.points.slots + [Some(p)] && r.points.generation == m.points.generation
    ensures !HasFreeSlot(r.points.slots)
    ensures r.edges == m.edges && r.vertices == m.vertices && r.faces == m.faces
    ensures Consistent(m) && p.vertices == {} ==> Consistent(r)
  {
    AddAtDense(m.points, p, h.offset);
    if Consistent(m) && p.vertices == {} {
      AddPointPreservesConsistency(m, p, h.offset);
    }
  }

  lemma FaceAppended(m: Mesh, r: Mesh, h: FaceIndex, f: Face)
    requires FaceAdded(m, r, h, f) && !HasFreeSlot(m.faces.slots)
    ensures h == ElementIndex(|m.faces.slots|, m.faces.generation)
    ensures r.faces.slots == m.faces.slots + [Some(f)] && r.faces.generation == m.faces.generation
    ensures !HasFreeSlot(r.faces.slots)
    ensures r.edges == m.edges && r.vertices == m.vertices && r.points == m.points
    ensures Consistent(m) ==> Consistent(r)
  {
    AddAtDense(m.faces, f, h.offset);
    if Consistent(m) {
      AddFacePreservesConsistency(m, f, h.offset);
    }
  }

  lemma EdgePairAppended(m: Mesh, r: Mesh, face: FaceIndex, h: EdgeIndex)
    requires EdgePairMade(m, r, face, h) && !HasFreeSlot(m.edges.slots)
    ensures h == ElementIndex(|m.edges.slots|, m.edges.generation)
    ensures |r.edges.slots| == |m.edges.slots| + 2 && !HasFreeSlot(r.edges.slots)
    ensures r.edges.generation == m.edges.generation
    ensures forall i :: 0 <= i < |m.edges.slots| ==> r.edges.slots[i] == m.edges.slots[i]
    ensures Get(r.edges, h.offset) == FirstHalf(face, ElementIndex(h.offset + 1, h.generation))
    ensures Get(r.edges, h.offset + 1) == SecondHalf(h)
    ensures Size(r.edges) == Size(m.edges) + 2
    ensures r.vertices == m.vertices && r.faces == m.faces && r.points == m.points
    ensures Consistent(m) ==> Consistent(r)
  {
    var j := Get(r.edges, h.offset).adjacent.offset;
    MakeEdgePairOnDenseBuffer(m, face, h.offset, j);
    MakeEdgePairCreatesTwins(m, face, h.offset, j);
    if Consistent(m) {
      MakeEdgePairPreservesConsistency(m, face, h.offset, j);
    }
    forall i | 0 <= i < |m.edges.slots|
      ensures r.edges.slots[i] == m.edges.slots[i]
    {
      assert IsAllocated(m.edges, i);
    }
  }

  // ---------------------------------------------------------------------
  // Hedge.Kernel.AddAndRemoveElements

  /**
   * Four points take offsets 0 to 3; the one removed goes invalid, and the
   * next point added reuses its slot, which makes the stale handle valid again
   * and designate the new point.
   */
  method AddAndRemoveElements()
    returns (offsets: seq<nat>, added: nat, point1: Point, remaining: nat,
             validAfterRemove: bool, reusedOffset: nat, validAgain: bool, position: Position)
    ensures offsets == [0, 1, 2, 3] && added == 4
    ensures point1.vertices == {} && point1.position == Position(1.0, 0.0, 0.0)
    ensures remaining == 3 && !validAfterRemove
    ensures reusedOffset == 2 && validAgain
    ensures position == Position(2.0, 2.0, 2.0)
  {
    var k, p0, p1, p2, p3 := BuildFourPoints();
    ghost var m4 := k.Model();
    offsets := [p0.offset, p1.offset, p2.offset, p3.offset];
    added := k.NumPoints();
    point1 := k.GetPoint(p1);

    k.RemovePoint(p2);
    ghost var m5 := k.Model();
    RemovePointProperties(m4, p2);
    remaining := k.NumPoints();
    validAfterRemove := k.IsValidPoint(p2);

    var p4 := k.AddPoint(PointAt(Position(2.0, 2.0, 2.0)));
    SingleFreeSlotIsReused(m5.points, 2, p4.offset);
    reusedOffset := p4.offset;
    validAgain := k.IsValidPoint(p2);
    position := k.GetPoint(p2).position;
  }

  /** The four points of the add-and-remove test, added to a new kernel. */
  method BuildFourPoints() returns (k: HedgeKernel, p0: PointIndex, p1: PointIndex, p2: PointIndex, p3: PointIndex)
    ensures fresh(k.edges) && fresh(k.vertices) && fresh(k.faces) && fresh(k.points)
    ensures k.Valid()
    ensures FourPointsAdded(k.Model(), p0, p1, p2, p3)
  {
    k := new HedgeKernel();
    ghost var m0 := k.Model();
    p0 := k.AddPoint(PointAt(Position(0.0, 0.0, 0.0)));
    ghost var m1 := k.Model();
    p1 := k.AddPoint(PointAt(Position(1.0, 0.0, 0.0)));
    ghost var m2 := k.Model();
    p2 := k.AddPoint(PointAt(Position(0.0, 1.0, 0.0)));
    ghost var m3 := k.Model();
    p3 := k.AddPoint(PointAt(Position(0.0, 0.0, 1.0)));
    FourPoints(m0, m1, m2, m3, k.Model(), p0, p1, p2, p3);
  }

  ghost predicate FourPointsAdded(m4: Mesh, p0: PointIndex, p1: PointIndex, p2: PointIndex, p3: PointIndex) {
    && p0.offset == 0 && p1.offset == 1 && p2.offset == 2 && p3.offset == 3
    && p0.generation == p1.generation == p2.generation == p3.generation == m4.points.generation
    && |m4.points.slots| == 4 && Size(m4.points) == 4
    && IsAllocated(m4.points, 1) && Get(m4.points, 1) == PointAt(Position(1.0, 0.0, 0.0))
    && IsAllocated(m4.points, 2)
  }

  /** The four points of the add-and-remove test, on an empty kernel. */
  lemma FourPoints(m0: Mesh, m1: Mesh, m2: Mesh, m3: Mesh, m4: Mesh,
                   p0: PointIndex, p1: PointIndex, p2: PointIndex, p3: PointIndex)
    requires m0 == EmptyMesh()
    requires PointAdded(m0, m1, p0, PointAt(Position(0.0, 0.0, 0.0)))
    requires PointAdded(m1, m2, p1, PointAt(Position(1.0, 0.0, 0.0)))
    requires PointAdded(m2, m3, p2, PointAt(Position(0.0, 1.0, 0.0)))
    requires PointAdded(m3, m4, p3, PointAt(Position(0.0, 0.0, 1.0)))
    ensures FourPointsAdded(m4, p0, p1, p2, p3)
  {
    PointAppended(m0, m1, p0, PointAt(Position(0.0, 0.0, 0.0)));
    PointAppended(m1, m2, p1, PointAt(Position(1.0, 0.0, 0.0)));
    PointAppended(m2, m3, p2, PointAt(Position(0.0, 1.0, 0.0)));
    PointAppended(m3, m4, p3, PointAt(Position(0.0, 0.0, 1.0)));
    CountFull(m4.points.slots);
  }

  // ---------------------------------------------------------------------
  // Hedge.Kernel.CreateTriangle

  /**
   * Three edge pairs on one face, connected into a loop through three new
   * vertices, one on each point; the face is then rooted at the first edge.
   */
  method CreateTriangle()
    returns (numPoints: nat, numEdges: nat, numVertices: nat, numFaces: nat,
             e0: EdgeIndex, e1: EdgeIndex, e2: EdgeIndex,
             v0: VertexIndex, v1: VertexIndex, v2: VertexIndex, face: FaceIndex,
             point0: Point, point1: Point, point2: Point,
             edge0: HalfEdge, edge1: HalfEdge, edge2: HalfEdge,
             linksValid: bool, root: EdgeIndex, loop: seq<nat>)
    ensures e0.offset == 0 && e1.offset == 2 && e2.offset == 4
    ensures numPoints == 3 && numEdges == 6 && numVertices == 3 && numFaces == 1
    ensures v2 in point0.vertices && v0 in point1.vertices && v1 in point2.vertices
    ensures linksValid
    ensures edge0.face == face && edge0.prev == e2 && edge0.next == e1 && edge0.vertex == v2
    ensures edge1.face == face && edge1.prev == e0 && edge1.next == e2 && edge1.vertex == v0
    ensures edge2.face == face && edge2.prev == e1 && edge2.next == e0 && edge2.vertex == v1
    ensures root == e0 && loop == [e0.offset, e1.offset, e2.offset]
  {
    var k, p0, p1, p2;
    k, p0, p1, p2, face, e0, e1, e2 := BuildTriangleParts();
    ghost var m7 := k.Model();

    v0 := k.ConnectEdges(e0, p1, e1);
    ghost var m8 := k.Model();
    v1 := k.ConnectEdges(e1, p2, e2);
    ghost var m9 := k.Model();
    v2 := k.ConnectEdges(e2, p0, e0);
    ghost var m10 := k.Model();
    TriangleConnected(m7, m8, m9, m10, p0, p1, p2, e0, e1, e2, v0, v1, v2);

    k.SetRootEdge(face, e0);
    ghost var m11 := k.Model();
    TriangleRooted(m7, m10, m11, p0, p1, p2, face, e0, e1, e2, v0, v1, v2);
    root := k.GetFace(face).rootEdge;
    numPoints := k.NumPoints();
    numEdges := k.NumEdges();
    numVertices := k.NumVertices();
    numFaces := k.NumFaces();
    point0 := k.GetPoint(p0);
    point1 := k.GetPoint(p1);
    point2 := k.GetPoint(p2);
    linksValid := k.IsValidEdge(e0) && k.IsValidEdge(e1) && k.IsValidEdge(e2);
    edge0 := k.GetEdge(e0);
    edge1 := k.GetEdge(e1);
    edge2 := k.GetEdge(e2);
    loop := k.LoopOf(e0.offset);
  }

  /** The state the triangle test inspects, once the face is rooted at the first edge. */
  lemma TriangleRooted(m7: Mesh, m10: Mesh, m11: Mesh, p0: PointIndex, p1: PointIndex, p2: PointIndex,
                       face: FaceIndex, e0: EdgeIndex, e1: EdgeIndex, e2: EdgeIndex,
                       v0: VertexIndex, v1: VertexIndex, v2: VertexIndex)
    requires TrianglePartsBuilt(m7, p0, p1, p2, face, e0, e1, e2)
    requires m10.edges.generation == m7.edges.generation
    requires forall i: nat :: IsAllocated(m10.edges, i) <==> IsAllocated(m7.edges, i)
    requires Get(m10.edges, e0.offset) == Get(m7.edges, e0.offset).(next := e1, prev := e2, vertex := v2)
    requires Get(m10.edges, e1.offset) == Get(m7.edges, e1.offset).(next := e2, prev := e0, vertex := v0)
    requires Get(m10.edges, e2.offset) == Get(m7.edges, e2.offset).(next := e0, prev := e1, vertex := v1)
    requires IsValid(m10.points, p0) && IsValid(m10.points, p1) && IsValid(m10.points, p2)
    requires v2 in Get(m10.points, p0.offset).vertices && v0 in Get(m10.points, p1.offset).vertices
    requires v1 in Get(m10.points, p2.offset).vertices
    requires Size(m10.vertices) == Size(m7.vertices) + 3
    requires Size(m10.edges) == Size(m7.edges) && Size(m10.points) == Size(m7.points)
    requires m10.faces == m7.faces
    requires m11 == m10.(faces := UpdateAt(m10.faces, face.offset, Get(m10.faces, face.offset).(rootEdge := e0)))
    ensures IsValid(m11.faces, face) && Get(m11.faces, face.offset).rootEdge == e0
    ensures Size(m11.points) == 3 && Size(m11.edges) == 6 && Size(m11.vertices) == 3 && Size(m11.faces) == 1
    ensures IsValid(m11.points, p0) && IsValid(m11.points, p1) && IsValid(m11.points, p2)
    ensures v2 in Get(m11.points, p0.offset).vertices && v0 in Get(m11.points, p1.offset).vertices
    ensures v1 in Get(m11.points, p2.offset).vertices
    ensures IsValid(m11.edges, e0) && IsValid(m11.edges, e1) && IsValid(m11.edges, e2)
    ensures var x := Get(m11.edges, e0.offset); x.face == face && x.prev == e2 && x.next == e1 && x.vertex == v2
    ensures var x := Get(m11.edges, e1.offset); x.face == face && x.prev == e0 && x.next == e2 && x.vertex == v0
    ensures var x := Get(m11.edges, e2.offset); x.face == face && x.prev == e1 && x.next == e0 && x.vertex == v1
    ensures Loop(m11.edges, e0.offset) == [e0.offset, e1.offset, e2.offset]
  {
    UpdateAtProperties(m10.faces, face.offset, Get(m10.faces, face.offset).(rootEdge := e0));
    TriangleLoop(m11.edges, e0.offset, e1.offset, e2.offset);
  }

  /** The points, the face and the edge pairs of the triangle test, on a new kernel. */
  method BuildTriangleParts()
    returns (k: HedgeKernel, p0: PointIndex, p1: PointIndex, p2: PointIndex, face: FaceIndex,
             e0: EdgeIndex, e1: EdgeIndex, e2: EdgeIndex)
    ensures fresh(k.edges) && fresh(k.vertices) && fresh(k.faces) && fresh(k.points)
    ensures k.Valid()
    ensures TrianglePartsBuilt(k.Model(), p0, p1, p2, face, e0, e1, e2)
  {
    k := new HedgeKernel();
    ghost var m0 := k.Model();
    var q0, q1, q2, f;
    p0, q0 := k.NewPoint(Position(0.0, 0.0, 0.0));
    ghost var m1 := k.Model();
    p1, q1 := k.NewPoint(Position(1.0, 0.0, 0.0));
    ghost var m2 := k.Model();
    p2, q2 := k.NewPoint(Position(0.0, 1.0, 0.0));
    ghost var m3 := k.Model();
    face, f := k.NewFace();
    ghost var m4 := k.Model();
    e0 := k.MakeEdgePair(face);
    ghost var m5 := k.Model();
    e1 := k.MakeEdgePair(face);
    ghost var m6 := k.Model();
    e2 := k.MakeEdgePair(face);
    TriangleParts(m0, m1, m2, m3, m4, m5, m6, k.Model(), p0, p1, p2, face, e0, e1, e2);
  }

  /** Where the triangle test's elements are before they are connected. */
  ghost predicate TrianglePartsBuilt(m7: Mesh, p0: PointIndex, p1: PointIndex, p2: PointIndex, face: FaceIndex,
                                     e0: EdgeIndex, e1: EdgeIndex, e2: EdgeIndex) {
    && p0.offset == 0 && p1.offset == 1 && p2.offset == 2
    && IsValid(m7.points, p0) && IsValid(m7.points, p1) && IsValid(m7.points, p2)
    && IsValid(m7.faces, face)
    && e0 == ElementIndex(0, m7.edges.generation) && e1 == ElementIndex(2, m7.edges.generation)
    && e2 == ElementIndex(4, m7.edges.generation)
    && IsAllocated(m7.edges, 0) && IsAllocated(m7.edges, 2) && IsAllocated(m7.edges, 4)
    && Get(m7.edges, 0).face == face && Get(m7.edges, 2).face == face && Get(m7.edges, 4).face == face
    && Size(m7.points) == 3 && Size(m7.edges) == 6 && Size(m7.faces) == 1 && Size(m7.vertices) == 0
  }

  /** The elements of the triangle test before they are connected. */
  lemma TriangleParts(m0: Mesh, m1: Mesh, m2: Mesh, m3: Mesh, m4: Mesh, m5: Mesh, m6: Mesh, m7: Mesh,
                      p0: PointIndex, p1: PointIndex, p2: PointIndex, face: FaceIndex,
                      e0: EdgeIndex, e1: EdgeIndex, e2: EdgeIndex)
    requires m0 == EmptyMesh()
    requires PointAdded(m0, m1, p0, PointAt(Position(0.0, 0.0, 0.0)))
    requires PointAdded(m1, m2, p1, PointAt(Position(1.0, 0.0, 0.0)))
    requires PointAdded(m2, m3, p2, PointAt(Position(0.0, 1.0, 0.0)))
    requires FaceAdded(m3, m4, face, DefaultFace())
    requires EdgePairMade(m4, m5, face, e0) && EdgePairMade(m5, m6, face, e1) && EdgePairMade(m6, m7, face, e2)
    ensures TrianglePartsBuilt(m7, p0, p1, p2, face, e0, e1, e2)
  {
    PointAppended(m0, m1, p0, PointAt(Position(0.0, 0.0, 0.0)));
    PointAppended(m1, m2, p1, PointAt(Position(1.0, 0.0, 0.0)));
    PointAppended(m2, m3, p2, PointAt(Position(0.0, 1.0, 0.0)));
    CountFull(m3.points.slots);
    FaceAppended(m3, m4, face, DefaultFace());
    CountFull(m4.faces.slots);
    EdgePairAppended(m4, m5, face, e0);
    EdgePairAppended(m5, m6, face, e1);
    EdgePairAppended(m6, m7, face, e2);
    CountFull(m7.edges.slots);
    assert m7.edges.slots[0] == m6.edges.slots[0] == m5.edges.slots[0];
    assert m7.edges.slots[2] == m6.edges.slots[2];
  }

  /** The three ConnectEdges calls of the triangle test link the edges into a cycle. */
  lemma TriangleConnected(m7: Mesh, m8: Mesh, m9: Mesh, m10: Mesh,
                          p0: PointIndex, p1: PointIndex, p2: PointIndex,
                          e0: EdgeIndex, e1: EdgeIndex, e2: EdgeIndex,
                          v0: VertexIndex, v1: VertexIndex, v2: VertexIndex)
    requires IsAllocated(m7.edges, e0.offset) && IsAllocated(m7.edges, e1.offset) && IsAllocated(m7.edges, e2.offset)
    requires e0.offset != e1.offset && e1.offset != e2.offset && e2.offset != e0.offset
    requires IsValid(m7.points, p0) && IsValid(m7.points, p1) && IsValid(m7.points, p2)
    requires p0.offset != p1.offset && p1.offset != p2.offset && p2.offset != p0.offset
    requires EdgesConnected(m7, m8, e0, p1, e1, v0)
    requires EdgesConnected(m8, m9, e1, p2, e2, v1)
    requires EdgesConnected(m9, m10, e2, p0, e0, v2)
    ensures m10.edges.generation == m7.edges.generation && m10.points.generation == m7.points.generation
    ensures forall i: nat :: IsAllocated(m10.edges, i) <==> IsAllocated(m7.edges, i)
    ensures Get(m10.edges, e0.offset) == Get(m7.edges, e0.offset).(next := e1, prev := e2, vertex := v2)
    ensures Get(m10.edges, e1.offset) == Get(m7.edges, e1.offset).(next := e2, prev := e0, vertex := v0)
    ensures Get(m10.edges, e2.offset) == Get(m7.edges, e2.offset).(next := e0, prev := e1, vertex := v1)
    ensures IsValid(m10.points, p0) && IsValid(m10.points, p1) && IsValid(m10.points, p2)
    ensures v2 in Get(m10.points, p0.offset).vertices && v0 in Get(m10.points, p1.offset).vertices
    ensures v1 in Get(m10.points, p2.offset).vertices
    ensures Size(m10.vertices) == Size(m7.vertices) + 3
    ensures Size(m10.edges) == Size(m7.edges) && Size(m10.points) == Size(m7.points)
    ensures m10.faces == m7.faces
    ensures forall i: nat :: IsAllocated(m7.edges, i) && i != e0.offset && i != e1.offset && i != e2.offset ==>
      Get(m10.edges, i) == Get(m7.edges, i)
    ensures forall i: nat :: IsAllocated(m10.points, i) <==> IsAllocated(m7.points, i)
    ensures forall i: nat :: IsAllocated(m7.points, i) ==> Get(m10.points, i).position == Get(m7.points, i).position
  {
    ConnectEdgesLinks(m7, e0, p1, e1, v0.offset);
    ConnectEdgesLinks(m8, e1, p2, e2, v1.offset);
    ConnectEdgesLinks(m9, e2, p0, e0, v2.offset);
  }

  // ---------------------------------------------------------------------
  // Hedge.Kernel.Defrag

  /**
   * Points, faces and edge pairs are added and some of each removed, so every
   * buffer has gaps; a triangle is connected over what is left.  After Defrag
   * the old handles are stale, every element sits at its rank, the links
   * designate the new places, and the counts are unchanged.
   */
  method DefragElements()
    returns (pointOffsets: seq<nat>, faceOffset: nat, edgeOffsets: seq<nat>, countsBefore: seq<nat>,
             staleValid: bool, renewedValid: bool, position: Position,
             edge0Next: EdgeIndex, edge1Prev: EdgeIndex, countsAfter: seq<nat>)
    ensures pointOffsets == [0, 2, 4] && faceOffset == 2 && edgeOffsets == [0, 6, 8]
    ensures countsBefore == [3, 6, 1, 3] && countsAfter == [3, 6, 1, 3]
    ensures !staleValid && renewedValid
    ensures position == Position(0.5, 0.0, 0.0)
    ensures edge0Next.generation == 2 && edge1Prev.generation == 2
    ensures edge0Next == FromOffsetAndGeneration(2, 2)
    ensures edge1Prev == FromOffsetAndGeneration(0, 2)
  {
    var k, p0, p1, p2, f0, e0, e1, e2 := BuildDefragScene();
    ghost var m := k.Model();
    pointOffsets := [p0.offset, p1.offset, p2.offset];
    faceOffset := f0.offset;
    edgeOffsets := [e0.offset, e1.offset, e2.offset];
    countsBefore := [k.NumPoints(), k.NumEdges(), k.NumFaces(), k.NumVertices()];

    k.Defrag();
    ghost var r := k.Model();
    DefragStaleness(m, r, p0, p1, p2, f0, e0, e1, e2);
    DefragPointsOutcome(m, r, p0, p1, p2, f0, e0, e1, e2);
    DefragEdge0Next(m, r, p0, p1, p2, f0, e0, e1, e2);
    DefragEdge1Prev(m, r, p0, p1, p2, f0, e0, e1, e2);
    staleValid := k.IsValidPoint(p0) || k.IsValidPoint(p1) || k.IsValidPoint(p2) || k.IsValidFace(f0)
      || k.IsValidEdge(e0) || k.IsValidEdge(e1) || k.IsValidEdge(e2);
    renewedValid := k.IsValidPoint(FromOffset(0)) && k.IsValidPoint(FromOffset(1)) && k.IsValidPoint(FromOffset(2))
      && k.IsValidEdge(FromOffsetAndGeneration(0, 2)) && k.IsValidEdge(FromOffsetAndGeneration(1, 2));
    position := k.GetPoint(FromOffset(2)).position;
    edge0Next := k.GetEdge(FromOffsetAndGeneration(0, 2)).next;
    edge1Prev := k.GetEdge(FromOffsetAndGeneration(1, 2)).prev;
    countsAfter := [k.NumPoints(), k.NumEdges(), k.NumFaces(), k.NumVertices()];
  }

  /** The elements of the Defrag test on a new kernel, with the face rooted and the triangle connected. */
  method BuildDefragScene()
    returns (k: HedgeKernel, p0: PointIndex, p1: PointIndex, p2: PointIndex, f0: FaceIndex,
             e0: EdgeIndex, e1: EdgeIndex, e2: EdgeIndex)
    ensures fresh(k.edges) && fresh(k.vertices) && fresh(k.faces) && fresh(k.points)
    ensures k.Valid() && DefragScene(k.Model(), p0, p1, p2, f0, e0, e1, e2)
  {
    k, p0, p1, p2, f0, e0, e1, e2 := BuildGappedBuffers();
    ConnectScene(k, p0, p1, p2, f0, e0, e1, e2);
  }

  /** The face rooted at the first edge, and the triangle connected over the gapped buffers. */
  method ConnectScene(k: HedgeKernel, p0: PointIndex, p1: PointIndex, p2: PointIndex, f0: FaceIndex,
                      e0: EdgeIndex, e1: EdgeIndex, e2: EdgeIndex)
    requires k.Valid() && GappedBuffers(k.Model(), p0, p1, p2, f0, e0, e1, e2)
    modifies k.edges, k.vertices, k.faces, k.points
    ensures k.Valid() && DefragScene(k.Model(), p0, p1, p2, f0, e0, e1, e2)
  {
    ghost var m0 := k.Model();
    k.SetRootEdge(f0, e0);
    ghost var m1 := k.Model();
    var v0 := k.ConnectEdges(e0, p1, e1);
    ghost var m2 := k.Model();
    var v1 := k.ConnectEdges(e1, p2, e2);
    ghost var m3 := k.Model();
    var v2 := k.ConnectEdges(e2, p0, e0);
    SceneConnected(m0, m1, m2, m3, k.Model(), p0, p1, p2, f0, e0, e1, e2, v0, v1, v2);
  }

  /** The points, faces and edge pairs of the Defrag test, each buffer with gaps. */
  method BuildGappedBuffers()
    returns (k: HedgeKernel, p0: PointIndex, p1: PointIndex, p2: PointIndex, f0: FaceIndex,
             e0: EdgeIndex, e1: EdgeIndex, e2: EdgeIndex)
    ensures fresh(k.edges) && fresh(k.vertices) && fresh(k.faces) && fresh(k.points)
    ensures k.Valid() && GappedBuffers(k.Model(), p0, p1, p2, f0, e0, e1, e2)
  {
    k, p0, p1, p2 := BuildGappedPoints();
    f0 := AddGappedFaces(k);
    ghost var m := k.Model();
    e0, e1, e2 := AddGappedEdges(k, f0);
  }

  ghost predicate GappedBuffers(m: Mesh, p0: PointIndex, p1: PointIndex, p2: PointIndex, f0: FaceIndex,
                                e0: EdgeIndex, e1: EdgeIndex, e2: EdgeIndex) {
    && Consistent(m) && Size(m.vertices) == 0
    && PointsGapped(m.points, p0, p1, p2) && FacesGapped(m.faces, f0) && EdgesGapped(m.edges, e0, e1, e2)
  }

  /** Three live points at offsets 0, 2 and 4 around two freed slots; the last one is at (0.5, 0, 0). */
  ghost predicate PointsGapped(ps: Store<Point>, p0: PointIndex, p1: PointIndex, p2: PointIndex) {
    && ps.generation == FIRST_GENERATION
    && p0 == ElementIndex(0, ps.generation) && p1 == ElementIndex(2, ps.generation)
    && p2 == ElementIndex(4, ps.generation)
    && IsAllocated(ps, 0) && !IsAllocated(ps, 1) && IsAllocated(ps, 2) && !IsAllocated(ps, 3) && IsAllocated(ps, 4)
    && Size(ps) == 3
    && Get(ps, 4).position == Position(0.5, 0.0, 0.0)
  }

  /** One live face at offset 2 after two freed slots. */
  ghost predicate FacesGapped(fs: Store<Face>, f0: FaceIndex) {
    && fs.generation == FIRST_GENERATION
    && f0 == ElementIndex(2, fs.generation)
    && IsAllocated(fs, 2) && Size(fs) == 1
  }

  /**
   * Live edges at 0, 1 and 6 to 9 around four freed slots; the twin at 1 has
   * no previous edge.
   */
  ghost predicate EdgesGapped(es: Store<HalfEdge>, e0: EdgeIndex, e1: EdgeIndex, e2: EdgeIndex) {
    && es.generation == FIRST_GENERATION
    && e0 == ElementIndex(0, es.generation) && e1 == ElementIndex(6, es.generation)
    && e2 == ElementIndex(8, es.generation)
    && IsAllocated(es, 0) && IsAllocated(es, 1)
    && !IsAllocated(es, 2) && !IsAllocated(es, 3) && !IsAllocated(es, 4) && !IsAllocated(es, 5)
    && IsAllocated(es, 6) && IsAllocated(es, 7) && IsAllocated(es, 8) && IsAllocated(es, 9)
    && Size(es) == 6
    && Get(es, 1).prev == Invalid()
  }

  /** Five points on a new kernel, the second and the fourth removed again. */
  method BuildGappedPoints() returns (k: HedgeKernel, p0: PointIndex, p1: PointIndex, p2: PointIndex)
    ensures fresh(k.edges) && fresh(k.vertices) && fresh(k.faces) && fresh(k.points)
    ensures k.Valid() && Consistent(k.Model())
    ensures PointsGapped(k.Model().points, p0, p1, p2)
    ensures k.Model().edges == EmptyStore() && k.Model().faces == EmptyStore() && Size(k.Model().vertices) == 0
  {
    k := new HedgeKernel();
    ghost var m0 := k.Model();
    var q0, q1, q2, q3, q4, x;
    q0, x := k.NewPoint(Position(-0.5, 0.0, 0.0));
    ghost var m1 := k.Model();
    q1, x := k.NewPoint(Position(0.0, 1.0, 0.0));
    ghost var m2 := k.Model();
    q2, x := k.NewPoint(Position(1.0, 1.0, 0.0));
    ghost var m3 := k.Model();
    q3, x := k.NewPoint(Position(0.0, 1.0, 0.0));
    ghost var m4 := k.Model();
    q4, x := k.NewPoint(Position(0.5, 0.0, 0.0));
    ghost var m5 := k.Model();
    k.RemovePoint(q1);
    ghost var m6 := k.Model();
    k.RemovePoint(q3);
    GappedPoints(m0, m1, m2, m3, m4, m5, m6, k.Model(), q0, q1, q2, q3, q4);
    p0, p1, p2 := q0, q2, q4;
  }

  lemma GappedPoints(m0: Mesh, m1: Mesh, m2: Mesh, m3: Mesh, m4: Mesh, m5: Mesh, m6: Mesh, m7: Mesh,
                     q0: PointIndex, q1: PointIndex, q2: PointIndex, q3: PointIndex, q4: PointIndex)
    requires m0 == EmptyMesh()
    requires PointAdded(m0, m1, q0, PointAt(Position(-0.5, 0.0, 0.0)))
    requires PointAdded(m1, m2, q1, PointAt(Position(0.0, 1.0, 0.0)))
    requires PointAdded(m2, m3, q2, PointAt(Position(1.0, 1.0, 0.0)))
    requires PointAdded(m3, m4, q3, PointAt(Position(0.0, 1.0, 0.0)))
    requires PointAdded(m4, m5, q4, PointAt(Position(0.5, 0.0, 0.0)))
    requires m6 == Topology.RemovePoint(m5, q1) && m7 == Topology.RemovePoint(m6, q3)
    ensures Consistent(m7) && PointsGapped(m7.points, q0, q2, q4)
    ensures m7.edges == EmptyStore() && m7.faces == EmptyStore() && Size(m7.vertices) == 0
  {
    PointAppended(m0, m1, q0, PointAt(Position(-0.5, 0.0, 0.0)));
    PointAppended(m1, m2, q1, PointAt(Position(0.0, 1.0, 0.0)));
    PointAppended(m2, m3, q2, PointAt(Position(1.0, 1.0, 0.0)));
    PointAppended(m3, m4, q3, PointAt(Position(0.0, 1.0, 0.0)));
    PointAppended(m4, m5, q4, PointAt(Position(0.5, 0.0, 0.0)));
    CountFull(m5.points.slots);
    RemovePointProperties(m5, q1);
    RemovePointPreservesConsistency(m5, q1);
    RemovePointProperties(m6, q3);
    RemovePointPreservesConsistency(m6, q3);
    assert m7.points.slots[4] == m6.points.slots[4] == m5.points.slots[4];
  }

  /** Three faces added to the kernel, the first two removed again. */
  method AddGappedFaces(k: HedgeKernel) returns (f0: FaceIndex)
    requires k.Valid() && Consistent(k.Model())
    requires k.Model().edges == EmptyStore() && k.Model().faces == EmptyStore()
    modifies k.edges, k.faces
    ensures k.Valid() && Consistent(k.Model())
    ensures FacesGapped(k.Model().faces, f0)
    ensures k.Model().edges == EmptyStore()
    ensures k.Model().vertices == old(k.Model().vertices) && k.Model().points == old(k.Model().points)
  {
    ghost var m0 := k.Model();
    var r0, r1, x;
    r0, x := k.NewFace();
    ghost var m1 := k.Model();
    r1, x := k.NewFace();
    ghost var m2 := k.Model();
    f0, x := k.NewFace();
    ghost var m3 := k.Model();
    k.RemoveFace(r0);
    ghost var m4 := k.Model();
    k.RemoveFace(r1);
    GappedFaces(m0, m1, m2, m3, m4, k.Model(), r0, r1, f0);
  }

  lemma GappedFaces(m0: Mesh, m1: Mesh, m2: Mesh, m3: Mesh, m4: Mesh, m5: Mesh,
                    r0: FaceIndex, r1: FaceIndex, r2: FaceIndex)
    requires Consistent(m0) && m0.edges == EmptyStore() && m0.faces == EmptyStore()
    requires FaceAdded(m0, m1, r0, DefaultFace()) && FaceAdded(m1, m2, r1, DefaultFace())
    requires FaceAdded(m2, m3, r2, DefaultFace())
    requires m4 == Topology.RemoveFace(m3, r0) && m5 == Topology.RemoveFace(m4, r1)
    ensures Consistent(m5) && FacesGapped(m5.faces, r2)
    ensures m5.edges == EmptyStore() && m5.vertices == m0.vertices && m5.points == m0.points
  {
    FaceAppended(m0, m1, r0, DefaultFace());
    FaceAppended(m1, m2, r1, DefaultFace());
    FaceAppended(m2, m3, r2, DefaultFace());
    CountFull(m3.faces.slots);
    RemoveFaceProperties(m3, r0);
    RemoveFacePreservesConsistency(m3, r0);
    RemoveFaceProperties(m4, r1);
    RemoveFacePreservesConsistency(m4, r1);
  }

  /** Five edge pairs on face f0, the second and the third removed again with their twins. */
  method AddGappedEdges(k: HedgeKernel, f0: FaceIndex) returns (e0: EdgeIndex, e1: EdgeIndex, e2: EdgeIndex)
    requires k.Valid() && Consistent(k.Model()) && k.Model().edges == EmptyStore() && Size(k.Model().vertices) == 0
    requires FacesGapped(k.Model().faces, f0)
    modifies k.edges, k.vertices, k.faces, k.points
    ensures k.Valid() && Consistent(k.Model())
    ensures EdgesGapped(k.Model().edges, e0, e1, e2) && FacesGapped(k.Model().faces, f0)
    ensures k.Model().points == old(k.Model().points) && Size(k.Model().vertices) == Size(old(k.Model().vertices))
  {
    ghost var m0 := k.Model();
    var q0 := k.MakeEdgePair(f0);
    ghost var m1 := k.Model();
    var q1 := k.MakeEdgePair(f0);
    ghost var m2 := k.Model();
    var q2 := k.MakeEdgePair(f0);
    ghost var m3 := k.Model();
    var q3 := k.MakeEdgePair(f0);
    ghost var m4 := k.Model();
    var q4 := k.MakeEdgePair(f0);
    ghost var m5 := k.Model();
    k.RemoveEdge(q1);
    ghost var m6 := k.Model();
    k.RemoveEdge(q2);
    GappedEdges(m0, m1, m2, m3, m4, m5, m6, k.Model(), f0, q0, q1, q2, q3, q4);
    e0, e1, e2 := q0, q3, q4;
  }

  lemma GappedEdges(m0: Mesh, m1: Mesh, m2: Mesh, m3: Mesh, m4: Mesh, m5: Mesh, m6: Mesh, m7: Mesh,
                    f0: FaceIndex, q0: EdgeIndex, q1: EdgeIndex, q2: EdgeIndex, q3: EdgeIndex, q4: EdgeIndex)
    requires Consistent(m0) && m0.edges == EmptyStore() && Size(m0.vertices) == 0 && FacesGapped(m0.faces, f0)
    requires EdgePairMade(m0, m1, f0, q0) && EdgePairMade(m1, m2, f0, q1) && EdgePairMade(m2, m3, f0, q2)
    requires EdgePairMade(m3, m4, f0, q3) && EdgePairMade(m4, m5, f0, q4)
    requires m6 == Topology.RemoveEdge(m5, q1) && m7 == Topology.RemoveEdge(m6, q2)
    ensures Consistent(m7) && EdgesGapped(m7.edges, q0, q3, q4) && FacesGapped(m7.faces, f0)
    ensures m7.points == m0.points && Size(m7.vertices) == Size(m0.vertices)
  {
    FiveEdgePairs(m0, m1, m2, m3, m4, m5, f0, q0, q1, q2, q3, q4);
    TwoEdgePairsRemoved(m5, m6, m7, f0, q0, q1, q2, q3, q4);
  }

  /** Where the five edge pairs of the Defrag test are before any is removed. */
  ghost predicate FiveEdgePairsMade(m: Mesh, q0: EdgeIndex, q1: EdgeIndex, q2: EdgeIndex, q3: EdgeIndex, q4: EdgeIndex) {
    && Consistent(m) && m.edges.generation == FIRST_GENERATION
    && q0 == ElementIndex(0, m.edges.generation) && q1 == ElementIndex(2, m.edges.generation)
    && q2 == ElementIndex(4, m.edges.generation) && q3 == ElementIndex(6, m.edges.generation)
    && q4 == ElementIndex(8, m.edges.generation)
    && |m.edges.slots| == 10 && Size(m.edges) == 10
    && (forall i :: 0 <= i < 10 ==> m.edges.slots[i].Some?)
    && Get(m.edges, 2).adjacent.offset == 3 && Get(m.edges, 4).adjacent.offset == 5
    && Get(m.edges, 1).prev == Invalid()
    && Size(m.vertices) == 0
  }

  lemma FiveEdgePairs(m0: Mesh, m1: Mesh, m2: Mesh, m3: Mesh, m4: Mesh, m5: Mesh,
                      f0: FaceIndex, q0: EdgeIndex, q1: EdgeIndex, q2: EdgeIndex, q3: EdgeIndex, q4: EdgeIndex)
    requires Consistent(m0) && m0.edges == EmptyStore() && Size(m0.vertices) == 0
    requires EdgePairMade(m0, m1, f0, q0) && EdgePairMade(m1, m2, f0, q1) && EdgePairMade(m2, m3, f0, q2)
    requires EdgePairMade(m3, m4, f0, q3) && EdgePairMade(m4, m5, f0, q4)
    ensures FiveEdgePairsMade(m5, q0, q1, q2, q3, q4)
    ensures m5.faces == m0.faces && m5.points == m0.points && m5.vertices == m0.vertices
  {
    EdgePairAppended(m0, m1, f0, q0);
    EdgePairAppended(m1, m2, f0, q1);
    EdgePairAppended(m2, m3, f0, q2);
    EdgePairAppended(m3, m4, f0, q3);
    EdgePairAppended(m4, m5, f0, q4);
    CountFull(m5.edges.slots);
    assert m5.edges.slots[1] == m1.edges.slots[1];
    assert m5.edges.slots[2] == m2.edges.slots[2];
    assert m5.edges.slots[4] == m3.edges.slots[4];
  }

  /** The second and the third pair removed: their four slots are free and the twin at 1 keeps its null `prev`. */
  lemma TwoEdgePairsRemoved(m5: Mesh, m6: Mesh, m7: Mesh,
                            f0: FaceIndex, q0: EdgeIndex, q1: EdgeIndex, q2: EdgeIndex, q3: EdgeIndex, q4: EdgeIndex)
    requires FiveEdgePairsMade(m5, q0, q1, q2, q3, q4) && FacesGapped(m5.faces, f0)
    requires m6 == Topology.RemoveEdge(m5, q1) && m7 == Topology.RemoveEdge(m6, q2)
    ensures Consistent(m7) && EdgesGapped(m7.edges, q0, q3, q4) && FacesGapped(m7.faces, f0)
    ensures m7.points == m5.points && Size(m7.vertices) == Size(m5.vertices)
  {
    SecondPairRemoved(m5, m6, f0, q0, q1, q2, q3, q4);
    ThirdPairRemoved(m6, m7, f0, q0, q1, q2, q3, q4);
  }

  /** The edges after the second pair, at offsets 2 and 3, is removed. */
  ghost predicate SecondPairGone(m: Mesh, q0: EdgeIndex, q2: EdgeIndex, q3: EdgeIndex, q4: EdgeIndex) {
    && Consistent(m) && m.edges.generation == FIRST_GENERATION
    && q0 == ElementIndex(0, m.edges.generation) && q2 == ElementIndex(4, m.edges.generation)
    && q3 == ElementIndex(6, m.edges.generation) && q4 == ElementIndex(8, m.edges.generation)
    && IsAllocated(m.edges, 0) && IsAllocated(m.edges, 1) && !IsAllocated(m.edges, 2) && !IsAllocated(m.edges, 3)
    && IsAllocated(m.edges, 4) && IsAllocated(m.edges, 5) && IsAllocated(m.edges, 6) && IsAllocated(m.edges, 7)
    && IsAllocated(m.edges, 8) && IsAllocated(m.edges, 9)
    && Size(m.edges) == 8
    && Get(m.edges, 4).adjacent.offset == 5 && Get(m.edges, 1).prev == Invalid()
    && Size(m.vertices) == 0
  }

  lemma SecondPairRemoved(m5: Mesh, m6: Mesh,
                          f0: FaceIndex, q0: EdgeIndex, q1: EdgeIndex, q2: EdgeIndex, q3: EdgeIndex, q4: EdgeIndex)
    requires FiveEdgePairsMade(m5, q0, q1, q2, q3, q4) && FacesGapped(m5.faces, f0)
    requires m6 == Topology.RemoveEdge(m5, q1)
    ensures SecondPairGone(m6, q0, q2, q3, q4) && FacesGapped(m6.faces, f0)
    ensures m6.points == m5.points && Size(m6.vertices) == Size(m5.vertices)
  {
    PairRemovalKeepsVertices(m5, m6, q1);
    SecondPairSlots(m5, m6, q0, q1, q2, q3, q4);
  }

  /** Without vertices, removing a pair keeps the invariants and changes no vertex or point. */
  lemma PairRemovalKeepsVertices(m: Mesh, r: Mesh, h: EdgeIndex)
    requires Consistent(m) && Size(m.vertices) == 0
    requires r == Topology.RemoveEdge(m, h)
    ensures Consistent(r) && r.vertices == m.vertices && r.points == m.points
  {
    CountEmpty(m.vertices.slots);
    if IsValid(m.edges, h) {
      RemoveEdgeFreesSoleOrigins(m, h);
    }
    RemoveEdgePreservesConsistency(m, h);
  }

  /** Which edge slots are live once the pair at offsets 2 and 3 is removed. */
  lemma SecondPairSlots(m5: Mesh, m6: Mesh, q0: EdgeIndex, q1: EdgeIndex, q2: EdgeIndex, q3: EdgeIndex, q4: EdgeIndex)
    requires FiveEdgePairsMade(m5, q0, q1, q2, q3, q4)
    requires m6 == Topology.RemoveEdge(m5, q1)
    ensures m6.edges.generation == FIRST_GENERATION && Size(m6.edges) == 8
    ensures IsAllocated(m6.edges, 0) && IsAllocated(m6.edges, 1) && !IsAllocated(m6.edges, 2) && !IsAllocated(m6.edges, 3)
    ensures IsAllocated(m6.edges, 4) && IsAllocated(m6.edges, 5) && IsAllocated(m6.edges, 6) && IsAllocated(m6.edges, 7)
    ensures IsAllocated(m6.edges, 8) && IsAllocated(m6.edges, 9)
    ensures m6.faces.generation == m5.faces.generation && Size(m6.faces) == Size(m5.faces)
    ensures forall k: nat :: IsAllocated(m6.faces, k) <==> IsAllocated(m5.faces, k)
    ensures Get(m6.edges, 4).adjacent.offset == 5 && Get(m6.edges, 1).prev == Invalid()
  {
    RemoveEdgeRemovesTwin(m5, q1);
    RemoveEdgeOnlyClearsLinks(m5, q1);
    var x, y := Get(m5.edges, 4), Get(m6.edges, 4);
    assert OnlyClears(x, y);
    assert y.adjacent == y.(next := x.next, prev := x.prev).adjacent;
    assert OnlyClears(Get(m5.edges, 1), Get(m6.edges, 1));
  }

  lemma ThirdPairRemoved(m6: Mesh, m7: Mesh,
                         f0: FaceIndex, q0: EdgeIndex, q1: EdgeIndex, q2: EdgeIndex, q3: EdgeIndex, q4: EdgeIndex)
    requires SecondPairGone(m6, q0, q2, q3, q4) && FacesGapped(m6.faces, f0)
    requires m7 == Topology.RemoveEdge(m6, q2)
    ensures Consistent(m7) && EdgesGapped(m7.edges, q0, q3, q4) && FacesGapped(m7.faces, f0)
    ensures m7.points == m6.points && Size(m7.vertices) == Size(m6.vertices)
  {
    PairRemovalKeepsVertices(m6, m7, q2);
    ThirdPairSlots(m6, m7, q0, q2, q3, q4);
  }

  /** Which edge slots are live once the pair at offsets 4 and 5 is removed as well. */
  lemma ThirdPairSlots(m6: Mesh, m7: Mesh, q0: EdgeIndex, q2: EdgeIndex, q3: EdgeIndex, q4: EdgeIndex)
    requires SecondPairGone(m6, q0, q2, q3, q4)
    requires m7 == Topology.RemoveEdge(m6, q2)
    ensures m7.edges.generation == FIRST_GENERATION && Size(m7.edges) == 6
    ensures IsAllocated(m7.edges, 0) && IsAllocated(m7.edges, 1)
    ensures !IsAllocated(m7.edges, 2) && !IsAllocated(m7.edges, 3) && !IsAllocated(m7.edges, 4) && !IsAllocated(m7.edges, 5)
    ensures IsAllocated(m7.edges, 6) && IsAllocated(m7.edges, 7) && IsAllocated(m7.edges, 8) && IsAllocated(m7.edges, 9)
    ensures m7.faces.generation == m6.faces.generation && Size(m7.faces) == Size(m6.faces)
    ensures forall k: nat :: IsAllocated(m7.faces, k) <==> IsAllocated(m6.faces, k)
    ensures Get(m7.edges, 1).prev == Invalid()
  {
    RemoveEdgeRemovesTwin(m6, q2);
    RemoveEdgeOnlyClearsLinks(m6, q2);
    assert OnlyClears(Get(m6.edges, 1), Get(m7.edges, 1));
  }

  /** The state before Defrag: the gapped buffers, with the triangle connected over them. */
  ghost predicate DefragScene(m: Mesh, p0: PointIndex, p1: PointIndex, p2: PointIndex, f0: FaceIndex,
                              e0: EdgeIndex, e1: EdgeIndex, e2: EdgeIndex) {
    && GenerationsIssued(m)
    && PointsGapped(m.points, p0, p1, p2) && FacesGapped(m.faces, f0) && EdgesGapped(m.edges, e0, e1, e2)
    && Get(m.edges, 0).next == e1
    && Size(m.vertices) == 3
  }

  /** Rooting the face and connecting the triangle keeps the gaps and links edge 0 to edge 6. */
  lemma SceneConnected(m0: Mesh, m1: Mesh, m2: Mesh, m3: Mesh, m4: Mesh,
                       p0: PointIndex, p1: PointIndex, p2: PointIndex, f0: FaceIndex,
                       e0: EdgeIndex, e1: EdgeIndex, e2: EdgeIndex,
                       v0: VertexIndex, v1: VertexIndex, v2: VertexIndex)
    requires GappedBuffers(m0, p0, p1, p2, f0, e0, e1, e2)
    requires m1 == m0.(faces := UpdateAt(m0.faces, f0.offset, Get(m0.faces, f0.offset).(rootEdge := e0)))
    requires EdgesConnected(m1, m2, e0, p1, e1, v0)
    requires EdgesConnected(m2, m3, e1, p2, e2, v1)
    requires EdgesConnected(m3, m4, e2, p0, e0, v2)
    ensures DefragScene(m4, p0, p1, p2, f0, e0, e1, e2)
  {
    UpdateAtProperties(m0.faces, f0.offset, Get(m0.faces, f0.offset).(rootEdge := e0));
    TriangleConnected(m1, m2, m3, m4, p0, p1, p2, e0, e1, e2, v0, v1, v2);
  }

  /** After Defrag the counts are unchanged and every handle taken before it is stale. */
  lemma DefragStaleness(m: Mesh, r: Mesh, p0: PointIndex, p1: PointIndex, p2: PointIndex, f0: FaceIndex,
                        e0: EdgeIndex, e1: EdgeIndex, e2: EdgeIndex)
    requires DefragScene(m, p0, p1, p2, f0, e0, e1, e2) && r == Topology.Defrag(m)
    ensures Size(r.points) == 3 && Size(r.edges) == 6 && Size(r.faces) == 1 && Size(r.vertices) == 3
    ensures !IsValid(r.points, p0) && !IsValid(r.points, p1) && !IsValid(r.points, p2) && !IsValid(r.faces, f0)
    ensures !IsValid(r.edges, e0) && !IsValid(r.edges, e1) && !IsValid(r.edges, e2)
  {
    DefragCountsAndStaleness(m, e0, Invalid(), f0, p0);
    DefragCountsAndStaleness(m, e1, Invalid(), f0, p1);
    DefragCountsAndStaleness(m, e2, Invalid(), f0, p2);
  }

  /** Offset 4 holds the third live point. */
  lemma GappedPointRank(ps: Store<Point>, p0: PointIndex, p1: PointIndex, p2: PointIndex)
    requires PointsGapped(ps, p0, p1, p2)
    ensures Rank(ps.slots, 4) == 2
  {
    RankStep(ps.slots, 0);
    RankStep(ps.slots, 1);
    RankStep(ps.slots, 2);
    RankStep(ps.slots, 3);
  }

  /** After Defrag the three points are at offsets 0 to 2, and the last one keeps its position. */
  lemma DefragPointsOutcome(m: Mesh, r: Mesh, p0: PointIndex, p1: PointIndex, p2: PointIndex, f0: FaceIndex,
                            e0: EdgeIndex, e1: EdgeIndex, e2: EdgeIndex)
    requires DefragScene(m, p0, p1, p2, f0, e0, e1, e2) && r == Topology.Defrag(m)
    ensures IsValid(r.points, FromOffset<PointKind>(0)) && IsValid(r.points, FromOffset<PointKind>(1))
    ensures IsValid(r.points, FromOffset<PointKind>(2)) && Get(r.points, 2).position == Position(0.5, 0.0, 0.0)
  {
    DefragCountsAndStaleness(m, e0, Invalid(), f0, p0);
    GappedPointRank(m.points, p0, p1, p2);
    DefragMovesPoint(m, 4);
  }

  /** Offsets 0 and 1 are the first two live edges, and offset 6 the third. */
  lemma GappedEdgeRanks(es: Store<HalfEdge>, e0: EdgeIndex, e1: EdgeIndex, e2: EdgeIndex)
    requires EdgesGapped(es, e0, e1, e2)
    ensures Rank(es.slots, 0) == 0 && Rank(es.slots, 1) == 1 && Rank(es.slots, 6) == 2
  {
    RankStep(es.slots, 0);
    RankStep(es.slots, 1);
    RankStep(es.slots, 2);
    RankStep(es.slots, 3);
    RankStep(es.slots, 4);
    RankStep(es.slots, 5);
  }

  /** After Defrag the first edge's next link designates offset 2, where edge 6 went, at the new generation. */
  lemma DefragEdge0Next(m: Mesh, r: Mesh, p0: PointIndex, p1: PointIndex, p2: PointIndex, f0: FaceIndex,
                        e0: EdgeIndex, e1: EdgeIndex, e2: EdgeIndex)
    requires DefragScene(m, p0, p1, p2, f0, e0, e1, e2) && r == Topology.Defrag(m)
    ensures IsValid(r.edges, FromOffsetAndGeneration<EdgeKind>(0, 2))
    ensures Get(r.edges, 0).next == FromOffsetAndGeneration(2, 2)
  {
    DefragCountsAndStaleness(m, e0, Invalid(), f0, p0);
    GappedEdgeRanks(m.edges, e0, e1, e2);
    DefragMovesEdge(m, 0);
  }

  /**
   * After Defrag the previous link of the twin at offset 1, which was the
   * null handle, designates offset 0 at the new generation.
   */
  lemma DefragEdge1Prev(m: Mesh, r: Mesh, p0: PointIndex, p1: PointIndex, p2: PointIndex, f0: FaceIndex,
                        e0: EdgeIndex, e1: EdgeIndex, e2: EdgeIndex)
    requires DefragScene(m, p0, p1, p2, f0, e0, e1, e2) && r == Topology.Defrag(m)
    ensures IsValid(r.edges, FromOffsetAndGeneration<EdgeKind>(1, 2))
    ensures Get(r.edges, 1).prev == FromOffsetAndGeneration(0, 2)
  {
    DefragCountsAndStaleness(m, e0, Invalid(), f0, p0);
    GappedEdgeRanks(m.edges, e0, e1, e2);
    DefragMovesEdge(m, 1);
    assert IsValid(m.edges, Get(m.edges, 1).prev);
  }
}
