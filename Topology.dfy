/**
 * What the kernel's operations do, as functions on the value of its four
 * buffers, and the connectivity invariants those operations keep.
 *
 * The kernel's own bodies are not part of the source; the behaviour here
 * follows the kernel's declarations and comments and the kernel tests.
 */
module Topology {
  import opened Handles
  import opened Elements
  import opened Buffers

  /** The value of the kernel: one store per element kind. */
  datatype Mesh = Mesh(edges: Store<HalfEdge>, vertices: Store<Vertex>, faces: Store<Face>, points: Store<Point>)

  // ---------------------------------------------------------------------
  // Invariants

  /** No buffer is at the ignored generation, so the handles it stamps can go stale. */
  predicate GenerationsIssued(m: Mesh) {
    && m.edges.generation != IGNORED_GENERATION
    && m.vertices.generation != IGNORED_GENERATION
    && m.faces.generation != IGNORED_GENERATION
    && m.points.generation != IGNORED_GENERATION
  }

  /** Edge i has a valid twin, other than itself, whose twin link designates i. */
  ghost predicate TwinLinked(es: Store<HalfEdge>, i: nat)
    requires IsAllocated(es, i)
  {
    var a := Get(es, i).adjacent;
    IsValid(es, a) && a.offset != i && Designates(es, Get(es, a.offset).adjacent, i)
  }

  /** Twins point back at each other. */
  ghost predicate TwinsConsistent(es: Store<HalfEdge>) {
    forall i: nat :: IsAllocated(es, i) ==> TwinLinked(es, i)
  }

  /** Every vertex a point lists is a live vertex sitting on that point. */
  ghost predicate PointsListOwnVertices(m: Mesh) {
    forall p: nat, h: VertexIndex :: IsAllocated(m.points, p) && h in Get(m.points, p).vertices ==>
      IsValid(m.vertices, h) && Designates(m.points, Get(m.vertices, h.offset).point, p)
  }

  /** Some valid handle of the set designates vertex slot k. */
  predicate Lists(vs: Store<Vertex>, listed: set<VertexIndex>, k: nat) {
    exists h :: h in listed && IsValid(vs, h) && h.offset == k
  }

  /**
   * Every vertex whose point handle is truthy sits on a live point that
   * lists it.  A falsy handle is left out: the nulled link `Invalid()` and a
   * link to the point at offset 0 are the same value.
   */
  ghost predicate VerticesListedByPoints(m: Mesh) {
    forall k: nat :: IsAllocated(m.vertices, k) && IsTruthy(Get(m.vertices, k).point) ==>
      && IsValid(m.points, Get(m.vertices, k).point)
      && Lists(m.vertices, Get(m.points, Get(m.vertices, k).point.offset).vertices, k)
  }

  ghost predicate Consistent(m: Mesh) {
    GenerationsIssued(m) && TwinsConsistent(m.edges) && PointsListOwnVertices(m) && VerticesListedByPoints(m)
  }

  /** Edges i and j are linked both ways: i's next designates j and j's prev designates i. */
  ghost predicate Mutual(es: Store<HalfEdge>, i: nat, j: nat) {
    IsAllocated(es, i) && Designates(es, Get(es, i).next, j) && Designates(es, Get(es, j).prev, i)
  }

  function EmptyMesh(): (m: Mesh)
    ensures Consistent(m)
    ensures Size(m.edges) == 0 && Size(m.vertices) == 0 && Size(m.faces) == 0 && Size(m.points) == 0
  {
    Mesh(EmptyStore(), EmptyStore(), EmptyStore(), EmptyStore())
  }

  // ---------------------------------------------------------------------
  // Frame lemmas

  /** s2 keeps every element of s1 where it was, at the same generation. */
  ghost predicate Extends<E>(s1: Store<E>, s2: Store<E>) {
    && s2.generation == s1.generation
    && forall k: nat :: IsAllocated(s1, k) ==> IsAllocated(s2, k) && Get(s2, k) == Get(s1, k)
  }

  /** s2 has the same slots allocated as s1, at the same generation, and the same twin links. */
  ghost predicate SameTwins(s1: Store<HalfEdge>, s2: Store<HalfEdge>) {
    && s2.generation == s1.generation
    && (forall k: nat :: IsAllocated(s2, k) <==> IsAllocated(s1, k))
    && forall k: nat :: IsAllocated(s1, k) ==> Get(s2, k).adjacent == Get(s1, k).adjacent
  }

  lemma ExtendsKeepsValid<E, K>(s1: Store<E>, s2: Store<E>, h: ElementIndex<K>)
    requires Extends(s1, s2) && IsValid(s1, h)
    ensures IsValid(s2, h) && Get(s2, h.offset) == Get(s1, h.offset)
  {
  }

  lemma AddAtExtends<E, K>(s: Store<E>, e: E, offset: nat)
    requires CanAllocate(s, offset)
    ensures Extends(s, AddAt(s, e, offset))
  {
    AddAtProperties<E, K>(s, e, offset);
  }

  lemma {:induction false} SameTwinsKeepsConsistency(s1: Store<HalfEdge>, s2: Store<HalfEdge>)
    requires SameTwins(s1, s2) && TwinsConsistent(s1)
    ensures TwinsConsistent(s2)
  {
    forall i: nat | IsAllocated(s2, i)
      ensures TwinLinked(s2, i)
    {
      assert TwinLinked(s1, i);
    }
  }

  /** The point lists only depend on the points, and on the allocation and point links of vertices. */
  lemma {:induction false} SamePointLinksKeepsConsistency(m1: Mesh, m2: Mesh)
    requires PointsListOwnVertices(m1) && VerticesListedByPoints(m1)
    requires m2.points == m1.points
    requires m2.vertices.generation == m1.vertices.generation
    requires forall k: nat :: IsAllocated(m2.vertices, k) <==> IsAllocated(m1.vertices, k)
    requires forall k: nat :: IsAllocated(m1.vertices, k) ==> Get(m2.vertices, k).point == Get(m1.vertices, k).point
    ensures PointsListOwnVertices(m2) && VerticesListedByPoints(m2)
  {
    forall k: nat | IsAllocated(m2.vertices, k) && IsTruthy(Get(m2.vertices, k).point)
      ensures IsValid(m2.points, Get(m2.vertices, k).point)
      ensures Lists(m2.vertices, Get(m2.points, Get(m2.vertices, k).point.offset).vertices, k)
    {
      var p := Get(m1.vertices, k).point;
      ListsKept(m1.vertices, m2.vertices, Get(m1.points, p.offset).vertices, Get(m1.points, p.offset).vertices, k);
    }
  }

  /** A listing survives while its vertex stays allocated at the same generation and its handles stay listed. */
  lemma ListsKept(vs1: Store<Vertex>, vs2: Store<Vertex>, listed1: set<VertexIndex>, listed2: set<VertexIndex>, k: nat)
    requires Lists(vs1, listed1, k)
    requires vs2.generation == vs1.generation && IsAllocated(vs2, k)
    requires forall h :: h in listed1 && h.offset == k ==> h in listed2
    ensures Lists(vs2, listed2, k)
  {
    var h :| h in listed1 && IsValid(vs1, h) && h.offset == k;
    assert h in listed2 && IsValid(vs2, h);
  }

  // ---------------------------------------------------------------------
  // Adding raw elements

  /**
   * Adding a vertex on no point keeps the invariants: no point lists the new
   * one yet.  (A vertex on a truthy point handle does not: ConnectEdges is the
   * operation that registers it.)
   */
  lemma AddVertexPreservesConsistency(m: Mesh, v: Vertex, vi: nat)
    requires Consistent(m) && CanAllocate(m.vertices, vi)
    requires !IsTruthy(v.point)
    ensures Consistent(m.(vertices := AddAt(m.vertices, v, vi)))
  {
    var r := m.(vertices := AddAt(m.vertices, v, vi));
    AddAtProperties<Vertex, VertexKind>(m.vertices, v, vi);
    forall q: nat, h: VertexIndex | IsAllocated(r.points, q) && h in Get(r.points, q).vertices
      ensures IsValid(r.vertices, h) && Designates(r.points, Get(r.vertices, h.offset).point, q)
    {
      assert IsValid(m.vertices, h);
    }
    forall k: nat | IsAllocated(r.vertices, k) && IsTruthy(Get(r.vertices, k).point)
      ensures IsValid(r.points, Get(r.vertices, k).point)
      ensures Lists(r.vertices, Get(r.points, Get(r.vertices, k).point.offset).vertices, k)
    {
      assert k != vi && IsAllocated(m.vertices, k);
      var p := Get(m.vertices, k).point;
      ListsKept(m.vertices, r.vertices, Get(m.points, p.offset).vertices, Get(m.points, p.offset).vertices, k);
    }
  }

  /** Adding a face keeps the invariants, which do not mention faces. */
  lemma AddFacePreservesConsistency(m: Mesh, f: Face, fi: nat)
    requires Consistent(m) && CanAllocate(m.faces, fi)
    ensures Consistent(m.(faces := AddAt(m.faces, f, fi)))
  {
  }

  /**
   * A raw edge added to a mesh whose twins are consistent never has a twin
   * naming it back: every live edge's twin is live, so none designates the
   * slot that was free.  Only MakeEdgePair adds edges that keep the invariant.
   */
  lemma AddEdgeBreaksTwins(m: Mesh, e: HalfEdge, ei: nat)
    requires TwinsConsistent(m.edges) && CanAllocate(m.edges, ei)
    ensures IsAllocated(AddAt(m.edges, e, ei), ei) && !TwinLinked(AddAt(m.edges, e, ei), ei)
    ensures !TwinsConsistent(AddAt(m.edges, e, ei))
  {
    var es := AddAt(m.edges, e, ei);
    AddAtProperties<HalfEdge, EdgeKind>(m.edges, e, ei);
    var a := e.adjacent;
    if IsValid(es, a) && a.offset != ei {
      assert IsAllocated(m.edges, a.offset);
      assert TwinLinked(m.edges, a.offset);
      assert Get(es, a.offset) == Get(m.edges, a.offset);
    }
  }

  /**
   * Adding a point that lists no vertices keeps the invariants.  (A raw edge
   * does not: it has no twin.)
   */
  lemma {:induction false} AddPointPreservesConsistency(m: Mesh, p: Point, pi: nat)
    requires Consistent(m) && CanAllocate(m.points, pi)
    requires p.vertices == {}
    ensures Consistent(m.(points := AddAt(m.points, p, pi)))
  {
    AddAtProperties<Point, PointKind>(m.points, p, pi);
    var m2 := m.(points := AddAt(m.points, p, pi));
    forall q: nat, h: VertexIndex | IsAllocated(m2.points, q) && h in Get(m2.points, q).vertices
      ensures IsValid(m2.vertices, h) && Designates(m2.points, Get(m2.vertices, h.offset).point, q)
    {
      assert q != pi;
      assert IsAllocated(m.points, q) && Get(m.points, q) == Get(m2.points, q);
    }
    forall k: nat | IsAllocated(m2.vertices, k) && IsTruthy(Get(m2.vertices, k).point)
      ensures IsValid(m2.points, Get(m2.vertices, k).point)
      ensures Lists(m2.vertices, Get(m2.points, Get(m2.vertices, k).point.offset).vertices, k)
    {
      var q := Get(m.vertices, k).point.offset;
      assert IsAllocated(m.points, q) && q != pi;
      assert Get(m2.points, q) == Get(m.points, q);
    }
  }

  /** Re-rooting a face through the reference `Get` hands back keeps the invariants. */
  lemma SetRootPreservesConsistency(m: Mesh, f: nat, root: EdgeIndex)
    requires Consistent(m) && IsAllocated(m.faces, f)
    ensures Consistent(m.(faces := UpdateAt(m.faces, f, Get(m.faces, f).(rootEdge := root))))
  {
  }

  // ---------------------------------------------------------------------
  // MakeEdgePair

  /** The first half of a new pair: tagged with the face, twinned with slot j. */
  function FirstHalf(face: FaceIndex, twin: EdgeIndex): HalfEdge {
    DefaultHalfEdge().(face := face, adjacent := twin)
  }

  /** The second half of a new pair: no face, twinned with slot i. */
  function SecondHalf(twin: EdgeIndex): HalfEdge {
    DefaultHalfEdge().(adjacent := twin)
  }

  /**
   * Two default half-edges are allocated, at i and then at j, the first is
   * tagged with the face, and each becomes the other's adjacent edge.
   */
  function MakeEdgePair(m: Mesh, face: FaceIndex, i: nat, j: nat): Mesh
    requires CanAllocate(m.edges, i)
    requires CanAllocate(AddAt(m.edges, DefaultHalfEdge(), i), j)
  {
    var g := m.edges.generation;
    var s1 := AddAt(m.edges, DefaultHalfEdge(), i);
    var s2 := AddAt(s1, DefaultHalfEdge(), j);
    AddAtProperties<HalfEdge, EdgeKind>(m.edges, DefaultHalfEdge(), i);
    AddAtProperties<HalfEdge, EdgeKind>(s1, DefaultHalfEdge(), j);
    var s3 := UpdateAt(s2, i, FirstHalf(face, ElementIndex(j, g)));
    var s4 := UpdateAt(s3, j, SecondHalf(ElementIndex(i, g)));
    m.(edges := s4)
  }

  /** The pair is two new, distinct, mutually adjacent edges; nothing else changes. */
  lemma MakeEdgePairCreatesTwins(m: Mesh, face: FaceIndex, i: nat, j: nat)
    requires CanAllocate(m.edges, i)
    requires CanAllocate(AddAt(m.edges, DefaultHalfEdge(), i), j)
    ensures var r := MakeEdgePair(m, face, i, j);
      && i != j && !IsAllocated(m.edges, i) && !IsAllocated(m.edges, j)
      && Get(r.edges, i) == FirstHalf(face, ElementIndex(j, m.edges.generation))
      && Get(r.edges, j) == SecondHalf(ElementIndex(i, m.edges.generation))
      && Designates(r.edges, Get(r.edges, i).adjacent, j)
      && Designates(r.edges, Get(r.edges, j).adjacent, i)
      && Size(r.edges) == Size(m.edges) + 2
      && (forall k: nat :: IsAllocated(r.edges, k) <==> IsAllocated(m.edges, k) || k == i || k == j)
      && (forall k: nat :: IsAllocated(m.edges, k) ==> Get(r.edges, k) == Get(m.edges, k))
      && r.vertices == m.vertices && r.faces == m.faces && r.points == m.points
  {
    var g := m.edges.generation;
    var s1 := AddAt(m.edges, DefaultHalfEdge(), i);
    var s2 := AddAt(s1, DefaultHalfEdge(), j);
    AddAtProperties<HalfEdge, EdgeKind>(m.edges, DefaultHalfEdge(), i);
    AddAtProperties<HalfEdge, EdgeKind>(s1, DefaultHalfEdge(), j);
    var s3 := UpdateAt(s2, i, FirstHalf(face, ElementIndex(j, g)));
    UpdateAtProperties(s2, i, FirstHalf(face, ElementIndex(j, g)));
    UpdateAtProperties(s3, j, SecondHalf(ElementIndex(i, g)));
  }

  /** On a buffer without gaps the pair is appended, at the two slots past the end. */
  lemma MakeEdgePairOnDenseBuffer(m: Mesh, face: FaceIndex, i: nat, j: nat)
    requires !HasFreeSlot(m.edges.slots)
    requires CanAllocate(m.edges, i)
    requires CanAllocate(AddAt(m.edges, DefaultHalfEdge(), i), j)
    ensures i == |m.edges.slots| && j == i + 1
    ensures |MakeEdgePair(m, face, i, j).edges.slots| == |m.edges.slots| + 2
    ensures !HasFreeSlot(MakeEdgePair(m, face, i, j).edges.slots)
  {
    AddAtDense(m.edges, DefaultHalfEdge(), i);
    AddAtDense(AddAt(m.edges, DefaultHalfEdge(), i), DefaultHalfEdge(), j);
    var r := MakeEdgePair(m, face, i, j);
    var s2 := AddAt(AddAt(m.edges, DefaultHalfEdge(), i), DefaultHalfEdge(), j);
    assert forall k :: 0 <= k < |s2.slots| ==> s2.slots[k].Some?;
    assert |r.edges.slots| == |s2.slots|;
    assert forall k :: 0 <= k < |r.edges.slots| ==> r.edges.slots[k].Some? by {
      forall k | 0 <= k < |r.edges.slots|
        ensures r.edges.slots[k].Some?
      {
        assert s2.slots[k].Some?;
      }
    }
  }

  lemma MakeEdgePairPreservesConsistency(m: Mesh, face: FaceIndex, i: nat, j: nat)
    requires Consistent(m)
    requires CanAllocate(m.edges, i)
    requires CanAllocate(AddAt(m.edges, DefaultHalfEdge(), i), j)
    ensures Consistent(MakeEdgePair(m, face, i, j))
  {
    var r := MakeEdgePair(m, face, i, j);
    MakeEdgePairCreatesTwins(m, face, i, j);
    forall k: nat | IsAllocated(r.edges, k)
      ensures TwinLinked(r.edges, k)
    {
      if k != i && k != j {
        assert TwinLinked(m.edges, k);
        var a := Get(m.edges, k).adjacent;
        assert IsAllocated(m.edges, a.offset);
      }
    }
  }

  // ---------------------------------------------------------------------
  // ConnectEdges

  /** Adds a vertex handle to a point's vertex set. */
  function Register(p: Point, v: VertexIndex): Point {
    p.(vertices := p.vertices + {v})
  }

  /**
   * (...)[a] -> (V<p>)[b]: a new vertex on point p becomes the origin of b,
   * a's next edge becomes b and b's previous edge becomes a; a valid point
   * records the new vertex.
   */
  function ConnectEdges(m: Mesh, a: EdgeIndex, p: PointIndex, b: EdgeIndex, v: nat): Mesh
    requires IsAllocated(m.edges, a.offset) && IsAllocated(m.edges, b.offset)
    requires CanAllocate(m.vertices, v)
  {
    var vh := ElementIndex(v, m.vertices.generation);
    var vs := AddAt(m.vertices, DefaultVertex().(point := p, edge := b), v);
    var es1 := UpdateAt(m.edges, a.offset, Get(m.edges, a.offset).(next := b));
    var es2 := UpdateAt(es1, b.offset, Get(es1, b.offset).(prev := a, vertex := vh));
    var ps := if IsValid(m.points, p) then UpdateAt(m.points, p.offset, Register(Get(m.points, p.offset), vh)) else m.points;
    Mesh(es2, vs, m.faces, ps)
  }

  /** What ConnectEdges links, creates and registers. */
  lemma ConnectEdgesLinks(m: Mesh, a: EdgeIndex, p: PointIndex, b: EdgeIndex, v: nat)
    requires IsAllocated(m.edges, a.offset) && IsAllocated(m.edges, b.offset)
    requires CanAllocate(m.vertices, v)
    ensures var r := ConnectEdges(m, a, p, b, v);
      var vh := ElementIndex(v, m.vertices.generation);
      && Get(r.edges, a.offset).next == b
      && Get(r.edges, b.offset).prev == a
      && Get(r.edges, b.offset).vertex == vh
      && IsValid(r.vertices, vh) && !IsAllocated(m.vertices, v)
      && Get(r.vertices, v) == DefaultVertex().(point := p, edge := b)
      && (IsValid(m.points, p) ==> vh in Get(r.points, p.offset).vertices)
      && Size(r.vertices) == Size(m.vertices) + 1
      && Size(r.edges) == Size(m.edges) && Size(r.points) == Size(m.points)
      && r.faces == m.faces
      && (forall k: nat :: k != a.offset && k != b.offset && IsAllocated(m.edges, k) ==> Get(r.edges, k) == Get(m.edges, k))
      && (a.offset != b.offset ==>
            && Get(r.edges, a.offset) == Get(m.edges, a.offset).(next := b)
            && Get(r.edges, b.offset) == Get(m.edges, b.offset).(prev := a, vertex := vh))
      && r.edges.generation == m.edges.generation
      && (forall k: nat :: IsAllocated(r.edges, k) <==> IsAllocated(m.edges, k))
      && (forall k: nat :: k != v ==> (IsAllocated(r.vertices, k) <==> IsAllocated(m.vertices, k)))
      && (forall k: nat :: IsAllocated(m.vertices, k) ==> Get(r.vertices, k) == Get(m.vertices, k))
      && r.points.generation == m.points.generation && r.vertices.generation == m.vertices.generation
      && (forall k: nat :: IsAllocated(r.points, k) <==> IsAllocated(m.points, k))
      && (forall k: nat :: k != p.offset && IsAllocated(m.points, k) ==> Get(r.points, k) == Get(m.points, k))
      && (IsValid(m.points, p) ==> Get(r.points, p.offset) == Register(Get(m.points, p.offset), vh))
  {
    var vh := ElementIndex(v, m.vertices.generation);
    AddAtProperties<Vertex, VertexKind>(m.vertices, DefaultVertex().(point := p, edge := b), v);
    var es1 := UpdateAt(m.edges, a.offset, Get(m.edges, a.offset).(next := b));
    UpdateAtProperties(m.edges, a.offset, Get(m.edges, a.offset).(next := b));
    UpdateAtProperties(es1, b.offset, Get(es1, b.offset).(prev := a, vertex := vh));
    if IsValid(m.points, p) {
      UpdateAtProperties(m.points, p.offset, Register(Get(m.points, p.offset), vh));
    }
  }

  /**
   * ConnectEdges keeps the invariants when the point handle is valid or
   * falsy (a truthy stale handle would leave the new vertex on a point that
   * does not list it).  It makes a and b a mutual next/prev pair and keeps
   * every other mutual pair that does not start at a or end at b.
   */
  lemma ConnectEdgesPreservesConsistency(m: Mesh, a: EdgeIndex, p: PointIndex, b: EdgeIndex, v: nat)
    requires Consistent(m)
    requires IsAllocated(m.edges, a.offset) && IsAllocated(m.edges, b.offset)
    requires CanAllocate(m.vertices, v)
    requires IsTruthy(p) ==> IsValid(m.points, p)
    ensures Consistent(ConnectEdges(m, a, p, b, v))
    ensures IsValid(m.edges, a) && IsValid(m.edges, b) ==> Mutual(ConnectEdges(m, a, p, b, v).edges, a.offset, b.offset)
    ensures forall i: nat, j: nat :: Mutual(m.edges, i, j) && i != a.offset && j != b.offset ==>
      Mutual(ConnectEdges(m, a, p, b, v).edges, i, j)
  {
    ConnectEdgesLinks(m, a, p, b, v);
    SameTwinsKeepsConsistency(m.edges, ConnectEdges(m, a, p, b, v).edges);
    ConnectEdgesKeepsPointLinks(m, a, p, b, v);
    ConnectEdgesKeepsMutual(m, a, p, b, v);
  }

  /** The new vertex is listed by its point, and every earlier listing survives. */
  lemma ConnectEdgesKeepsPointLinks(m: Mesh, a: EdgeIndex, p: PointIndex, b: EdgeIndex, v: nat)
    requires PointsListOwnVertices(m) && VerticesListedByPoints(m)
    requires IsAllocated(m.edges, a.offset) && IsAllocated(m.edges, b.offset)
    requires CanAllocate(m.vertices, v)
    requires IsTruthy(p) ==> IsValid(m.points, p)
    ensures PointsListOwnVertices(ConnectEdges(m, a, p, b, v)) && VerticesListedByPoints(ConnectEdges(m, a, p, b, v))
  {
    var r := ConnectEdges(m, a, p, b, v);
    var vh := ElementIndex(v, m.vertices.generation);
    ConnectEdgesLinks(m, a, p, b, v);
    AddAtProperties<Vertex, VertexKind>(m.vertices, DefaultVertex().(point := p, edge := b), v);
    forall q: nat, h: VertexIndex | IsAllocated(r.points, q) && h in Get(r.points, q).vertices
      ensures IsValid(r.vertices, h) && Designates(r.points, Get(r.vertices, h.offset).point, q)
    {
      if h == vh && IsValid(m.points, p) && q == p.offset {
      } else {
        assert IsAllocated(m.points, q) && h in Get(m.points, q).vertices;
        assert IsValid(m.vertices, h);
      }
    }
    forall k: nat | IsAllocated(r.vertices, k) && IsTruthy(Get(r.vertices, k).point)
      ensures IsValid(r.points, Get(r.vertices, k).point)
      ensures Lists(r.vertices, Get(r.points, Get(r.vertices, k).point.offset).vertices, k)
    {
      if k == v {
        assert Get(r.vertices, k).point == p && IsValid(m.points, p);
        assert vh in Get(r.points, p.offset).vertices && IsValid(r.vertices, vh);
      } else {
        var q := Get(m.vertices, k).point;
        var listed := Get(m.points, q.offset).vertices;
        assert IsValid(m.points, q) && Lists(m.vertices, listed, k);
        ListsKept(m.vertices, r.vertices, listed, Get(r.points, q.offset).vertices, k);
      }
    }
  }

  /** Connecting a to b makes them a mutual pair and keeps every pair that a's next or b's prev was not part of. */
  lemma ConnectEdgesKeepsMutual(m: Mesh, a: EdgeIndex, p: PointIndex, b: EdgeIndex, v: nat)
    requires IsAllocated(m.edges, a.offset) && IsAllocated(m.edges, b.offset)
    requires CanAllocate(m.vertices, v)
    ensures IsValid(m.edges, a) && IsValid(m.edges, b) ==> Mutual(ConnectEdges(m, a, p, b, v).edges, a.offset, b.offset)
    ensures forall i: nat, j: nat :: Mutual(m.edges, i, j) && i != a.offset && j != b.offset ==>
      Mutual(ConnectEdges(m, a, p, b, v).edges, i, j)
  {
    ConnectEdgesLinks(m, a, p, b, v);
  }

  // ---------------------------------------------------------------------
  // MakeFace

  /**
   * The edges met walking `next` links from `cur`: the walk stops after an
   * edge whose next link is not valid, leads back to `root` or to the edge
   * itself, and after `fuel` edges at the latest.
   */
  function Walk(es: Store<HalfEdge>, root: nat, cur: nat, fuel: nat): (w: seq<nat>)
    requires IsAllocated(es, cur)
    ensures |w| <= fuel
    ensures fuel > 0 ==> |w| > 0 && w[0] == cur
    ensures forall k :: 0 <= k < |w| ==> IsAllocated(es, w[k])
    decreases fuel
  {
    if fuel == 0 then []
    else
      var n := Get(es, cur).next;
      if IsValid(es, n) && n.offset != root && n.offset != cur then [cur] + Walk(es, root, n.offset, fuel - 1)
      else [cur]
  }

  /**
   * Each step of a walk follows a valid `next` link to an edge other than the
   * root, and a walk that ends before its fuel runs out ends at an edge whose
   * `next` is invalid, the root or itself.
   */
  lemma {:induction false} WalkFollowsNext(es: Store<HalfEdge>, root: nat, cur: nat, fuel: nat)
    requires IsAllocated(es, cur)
    ensures var w := Walk(es, root, cur, fuel);
      forall k :: 1 <= k < |w| ==> Designates(es, Get(es, w[k - 1]).next, w[k]) && w[k] != root
    ensures var w := Walk(es, root, cur, fuel);
      0 < |w| < fuel ==> StopsWalk(es, root, w[|w| - 1])
    decreases fuel
  {
    if fuel > 0 {
      var n := Get(es, cur).next;
      if IsValid(es, n) && n.offset != root && n.offset != cur {
        WalkFollowsNext(es, root, n.offset, fuel - 1);
        var w := Walk(es, root, cur, fuel);
        var t := Walk(es, root, n.offset, fuel - 1);
        assert w == [cur] + t;
        forall k | 1 <= k < |w|
          ensures Designates(es, Get(es, w[k - 1]).next, w[k]) && w[k] != root
        {
          assert w[k] == t[k - 1];
          if k > 1 {
            assert w[k - 1] == t[k - 2];
          }
        }
      }
    }
  }

  /** Where a walk stops: the edge's next link is invalid, back to the root, or itself. */
  ghost predicate StopsWalk(es: Store<HalfEdge>, root: nat, e: nat)
    requires IsAllocated(es, e)
  {
    var n := Get(es, e).next;
    !IsValid(es, n) || n.offset == root || n.offset == e
  }

  /** The loop of a root edge: at most one walk step per edge slot. */
  function Loop(es: Store<HalfEdge>, root: nat): seq<nat>
    requires IsAllocated(es, root)
  {
    Walk(es, root, root, |es.slots|)
  }

  /** Sets the face of every allocated edge listed in `loop` to f. */
  function StampFace(es: Store<HalfEdge>, loop: seq<nat>, f: FaceIndex): Store<HalfEdge> {
    Store(seq(|es.slots|, k requires 0 <= k < |es.slots| =>
      if k in loop && es.slots[k].Some? then Some(es.slots[k].value.(face := f)) else es.slots[k]), es.generation)
  }

  /** Stamping changes the face of exactly the listed edges, and nothing else. */
  lemma StampFaceProperties(es: Store<HalfEdge>, loop: seq<nat>, f: FaceIndex)
    ensures var r := StampFace(es, loop, f);
      && SameTwins(es, r) && Size(r) == Size(es)
      && (forall k: nat :: IsAllocated(es, k) && k in loop ==> Get(r, k) == Get(es, k).(face := f))
      && (forall k: nat :: IsAllocated(es, k) && k !in loop ==> Get(r, k) == Get(es, k))
  {
    CountSameShape(es.slots, StampFace(es, loop, f).slots);
  }

  /** Stamping one more edge is one update of that edge. */
  lemma StampFaceStep(es: Store<HalfEdge>, loop: seq<nat>, i: nat, f: FaceIndex)
    requires i < |loop|
    ensures IsAllocated(StampFace(es, loop[..i], f), loop[i]) == IsAllocated(es, loop[i])
    ensures var r := StampFace(es, loop[..i], f);
      StampFace(es, loop[..i + 1], f) ==
        if IsAllocated(es, loop[i]) then UpdateAt(r, loop[i], Get(r, loop[i]).(face := f)) else r
  {
    var r := StampFace(es, loop[..i], f);
    assert loop[..i + 1] == loop[..i] + [loop[i]];
    var lhs := StampFace(es, loop[..i + 1], f);
    var rhs := if IsAllocated(es, loop[i]) then UpdateAt(r, loop[i], Get(r, loop[i]).(face := f)) else r;
    assert |lhs.slots| == |rhs.slots|;
    forall k | 0 <= k < |lhs.slots|
      ensures lhs.slots[k] == rhs.slots[k]
    {
      assert k in loop[..i + 1] <==> k in loop[..i] || k == loop[i];
    }
  }

  /**
   * A new face rooted at `root`; when the root is valid, every edge of its
   * loop is tagged with the new face.  The triangle list is left empty.
   */
  function MakeFace(m: Mesh, root: EdgeIndex, f: nat): Mesh
    requires CanAllocate(m.faces, f)
  {
    var fh := ElementIndex(f, m.faces.generation);
    var fs := AddAt(m.faces, DefaultFace().(rootEdge := root), f);
    var es := if IsValid(m.edges, root) then StampFace(m.edges, Loop(m.edges, root.offset), fh) else m.edges;
    Mesh(es, m.vertices, fs, m.points)
  }

  lemma MakeFaceProperties(m: Mesh, root: EdgeIndex, f: nat)
    requires CanAllocate(m.faces, f)
    ensures var r := MakeFace(m, root, f);
      var fh := ElementIndex(f, m.faces.generation);
      && !IsAllocated(m.faces, f) && IsValid(r.faces, fh)
      && Get(r.faces, f).rootEdge == root && Get(r.faces, f).triangles == []
      && Size(r.faces) == Size(m.faces) + 1 && Size(r.edges) == Size(m.edges)
      && (IsValid(m.edges, root) ==> forall k :: 0 <= k < |Loop(m.edges, root.offset)| ==>
            var e := Loop(m.edges, root.offset)[k]; IsAllocated(r.edges, e) && Get(r.edges, e).face == fh)
      && (IsValid(m.edges, root) ==> forall k: nat :: IsAllocated(m.edges, k) && k !in Loop(m.edges, root.offset) ==>
            Get(r.edges, k) == Get(m.edges, k))
      && (!IsValid(m.edges, root) ==> r.edges == m.edges)
      && r.vertices == m.vertices && r.points == m.points
  {
    AddAtProperties<Face, FaceKind>(m.faces, DefaultFace().(rootEdge := root), f);
    var fh := ElementIndex(f, m.faces.generation);
    if IsValid(m.edges, root) {
      StampFaceProperties(m.edges, Loop(m.edges, root.offset), fh);
    }
  }

  lemma MakeFacePreservesConsistency(m: Mesh, root: EdgeIndex, f: nat)
    requires Consistent(m) && CanAllocate(m.faces, f)
    ensures Consistent(MakeFace(m, root, f))
  {
    var fh := ElementIndex(f, m.faces.generation);
    var r := MakeFace(m, root, f);
    AddAtProperties<Face, FaceKind>(m.faces, DefaultFace().(rootEdge := root), f);
    assert r.vertices == m.vertices && r.points == m.points;
    if IsValid(m.edges, root) {
      StampFaceProperties(m.edges, Loop(m.edges, root.offset), fh);
      SameTwinsKeepsConsistency(m.edges, r.edges);
    }
    assert PointsListOwnVertices(r);
  }

  /** Three distinct edges linked by `next` into a cycle are the loop of the first. */
  lemma TriangleLoop(es: Store<HalfEdge>, a: nat, b: nat, c: nat)
    requires IsAllocated(es, a) && IsAllocated(es, b) && IsAllocated(es, c)
    requires a != b && b != c && c != a
    requires Designates(es, Get(es, a).next, b) && Designates(es, Get(es, b).next, c)
    requires Designates(es, Get(es, c).next, a)
    ensures Loop(es, a) == [a, b, c]
  {
    var n := |es.slots|;
    assert 3 <= n;
    assert Walk(es, a, c, n - 2) == [c];
    assert Walk(es, a, b, n - 1) == [b, c];
  }

  // ---------------------------------------------------------------------
  // Remove(VertexHandle)

  /** A vertex set without any handle of one offset. */
  function Forget(vs: set<VertexIndex>, offset: nat): (r: set<VertexIndex>)
    ensures r <= vs
    ensures forall h :: h in vs ==> (h in r <==> h.offset != offset)
  {
    set h | h in vs && h.offset != offset
  }

  /**
   * Detaches a valid vertex from its point's vertex set (when the point is
   * valid) and from its edge (when the edge is valid and starts at it), then
   * frees it.  An invalid handle changes nothing.
   */
  function RemoveVertex(m: Mesh, h: VertexIndex): Mesh {
    if !IsValid(m.vertices, h) then m
    else
      var v := Get(m.vertices, h.offset);
      var ps := if IsValid(m.points, v.point)
        then UpdateAt(m.points, v.point.offset, Get(m.points, v.point.offset).(vertices := Forget(Get(m.points, v.point.offset).vertices, h.offset)))
        else m.points;
      var es := if IsValid(m.edges, v.edge) && Designates(m.vertices, Get(m.edges, v.edge.offset).vertex, h.offset)
        then UpdateAt(m.edges, v.edge.offset, Get(m.edges, v.edge.offset).(vertex := Invalid()))
        else m.edges;
      Mesh(es, RemoveAt(m.vertices, h.offset), m.faces, ps)
  }

  lemma RemoveVertexProperties(m: Mesh, h: VertexIndex)
    ensures !IsValid(m.vertices, h) ==> RemoveVertex(m, h) == m
    ensures IsValid(m.vertices, h) ==>
      var r := RemoveVertex(m, h);
      var v := Get(m.vertices, h.offset);
      && Size(r.vertices) == Size(m.vertices) - 1
      && !IsAllocated(r.vertices, h.offset)
      && (forall k: nat :: k != h.offset ==> (IsAllocated(r.vertices, k) <==> IsAllocated(m.vertices, k)))
      && (IsValid(m.points, v.point) ==> forall g :: g in Get(r.points, v.point.offset).vertices ==> g.offset != h.offset)
      && (IsValid(m.edges, v.edge) && Designates(m.vertices, Get(m.edges, v.edge.offset).vertex, h.offset) ==>
            Get(r.edges, v.edge.offset) == Get(m.edges, v.edge.offset).(vertex := Invalid()))
      && Size(r.edges) == Size(m.edges) && Size(r.points) == Size(m.points) && r.faces == m.faces
  {
    if IsValid(m.vertices, h) {
      var v := Get(m.vertices, h.offset);
      RemoveAtProperties<Vertex, VertexKind>(m.vertices, h.offset);
      if IsValid(m.points, v.point) {
        UpdateAtProperties(m.points, v.point.offset, Get(m.points, v.point.offset).(vertices := Forget(Get(m.points, v.point.offset).vertices, h.offset)));
      }
      if IsValid(m.edges, v.edge) && Designates(m.vertices, Get(m.edges, v.edge.offset).vertex, h.offset) {
        UpdateAtProperties(m.edges, v.edge.offset, Get(m.edges, v.edge.offset).(vertex := Invalid()));
      }
    }
  }

  /**
   * Removing a vertex keeps both directions of the point-vertex links, and
   * afterwards no point lists the removed vertex.
   */
  lemma RemoveVertexKeepsPointLinks(m: Mesh, h: VertexIndex)
    requires PointsListOwnVertices(m) && VerticesListedByPoints(m)
    ensures PointsListOwnVertices(RemoveVertex(m, h)) && VerticesListedByPoints(RemoveVertex(m, h))
    ensures IsValid(m.vertices, h) ==>
      var r := RemoveVertex(m, h);
      forall p: nat, g :: IsAllocated(r.points, p) && g in Get(r.points, p).vertices ==> g.offset != h.offset
  {
    if IsValid(m.vertices, h) {
      var r := RemoveVertex(m, h);
      var v := Get(m.vertices, h.offset);
      RemoveVertexProperties(m, h);
      RemoveAtProperties<Vertex, VertexKind>(m.vertices, h.offset);
      if IsValid(m.points, v.point) {
        UpdateAtProperties(m.points, v.point.offset, Get(m.points, v.point.offset).(vertices := Forget(Get(m.points, v.point.offset).vertices, h.offset)));
      }
      forall q: nat, g: VertexIndex | IsAllocated(r.points, q) && g in Get(r.points, q).vertices
        ensures IsValid(r.vertices, g) && Designates(r.points, Get(r.vertices, g.offset).point, q)
        ensures g.offset != h.offset
      {
        assert IsAllocated(m.points, q);
        assert g in Get(m.points, q).vertices;
        assert IsValid(m.vertices, g) && Designates(m.points, Get(m.vertices, g.offset).point, q);
      }
    }
  }

  /** Under the invariants, once a vertex is removed no point lists it any more. */
  lemma RemoveVertexPreservesConsistency(m: Mesh, h: VertexIndex)
    requires Consistent(m)
    ensures Consistent(RemoveVertex(m, h))
    ensures IsValid(m.vertices, h) ==>
      var r := RemoveVertex(m, h);
      forall p: nat, g :: IsAllocated(r.points, p) && g in Get(r.points, p).vertices ==> g.offset != h.offset
  {
    RemoveVertexKeepsPointLinks(m, h);
    if IsValid(m.vertices, h) {
      var v := Get(m.vertices, h.offset);
      if IsValid(m.edges, v.edge) && Designates(m.vertices, Get(m.edges, v.edge.offset).vertex, h.offset) {
        UpdateAtProperties(m.edges, v.edge.offset, Get(m.edges, v.edge.offset).(vertex := Invalid()));
      }
      SameTwinsKeepsConsistency(m.edges, RemoveVertex(m, h).edges);
    }
  }

  // ---------------------------------------------------------------------
  // Remove(PointHandle)

  /** Nulls the point of every vertex a valid handle of `listed` designates. */
  function DetachVertices(vs: Store<Vertex>, listed: set<VertexIndex>): Store<Vertex> {
    Store(seq(|vs.slots|, k requires 0 <= k < |vs.slots| =>
      if vs.slots[k].Some? && Lists(vs, listed, k) then Some(vs.slots[k].value.(point := Invalid())) else vs.slots[k]), vs.generation)
  }

  /** Detaching changes the point link of exactly the listed vertices; none is freed. */
  lemma DetachVerticesProperties(vs: Store<Vertex>, listed: set<VertexIndex>)
    ensures var r := DetachVertices(vs, listed);
      && r.generation == vs.generation && Size(r) == Size(vs)
      && (forall k: nat :: IsAllocated(r, k) <==> IsAllocated(vs, k))
      && (forall h :: h in listed && IsValid(vs, h) ==> Get(r, h.offset) == Get(vs, h.offset).(point := Invalid()))
      && (forall k: nat :: IsAllocated(vs, k) && !Lists(vs, listed, k) ==> Get(r, k) == Get(vs, k))
  {
    CountSameShape(vs.slots, DetachVertices(vs, listed).slots);
  }

  /** Detaching one more listed handle is at most one update. */
  lemma DetachVerticesStep(vs: Store<Vertex>, done: set<VertexIndex>, h: VertexIndex)
    ensures IsValid(DetachVertices(vs, done), h) == IsValid(vs, h)
    ensures var r := DetachVertices(vs, done);
      DetachVertices(vs, done + {h}) ==
        if IsValid(vs, h) then UpdateAt(r, h.offset, Get(r, h.offset).(point := Invalid())) else r
  {
    var r := DetachVertices(vs, done);
    var lhs := DetachVertices(vs, done + {h});
    if IsValid(vs, h) {
      var rhs := UpdateAt(r, h.offset, Get(r, h.offset).(point := Invalid()));
      forall k | 0 <= k < |vs.slots|
        ensures lhs.slots[k] == rhs.slots[k]
      {
        if k == h.offset {
          assert Lists(vs, done + {h}, k);
        } else {
          assert Lists(vs, done + {h}, k) <==> Lists(vs, done, k);
        }
      }
      assert lhs.slots == rhs.slots;
    } else {
      forall k | 0 <= k < |vs.slots|
        ensures lhs.slots[k] == r.slots[k]
      {
        assert Lists(vs, done + {h}, k) <==> Lists(vs, done, k);
      }
      assert lhs.slots == r.slots;
    }
  }

  /**
   * Nulls the point link of every vertex the point lists (the vertices stay),
   * then frees the point.  An invalid handle changes nothing.
   */
  function RemovePoint(m: Mesh, h: PointIndex): Mesh {
    if !IsValid(m.points, h) then m
    else Mesh(m.edges, DetachVertices(m.vertices, Get(m.points, h.offset).vertices), m.faces, RemoveAt(m.points, h.offset))
  }

  lemma RemovePointProperties(m: Mesh, h: PointIndex)
    ensures !IsValid(m.points, h) ==> RemovePoint(m, h) == m
    ensures IsValid(m.points, h) ==>
      var r := RemovePoint(m, h);
      var listed := Get(m.points, h.offset).vertices;
      && Size(r.points) == Size(m.points) - 1
      && !IsAllocated(r.points, h.offset)
      && (forall k: nat :: k != h.offset ==> (IsAllocated(r.points, k) <==> IsAllocated(m.points, k)))
      && Size(r.vertices) == Size(m.vertices)
      && (forall g :: g in listed && IsValid(m.vertices, g) ==> IsValid(r.vertices, g) && Get(r.vertices, g.offset).point == Invalid())
      && r.edges == m.edges && r.faces == m.faces
  {
    if IsValid(m.points, h) {
      RemoveAtProperties<Point, PointKind>(m.points, h.offset);
      DetachVerticesProperties(m.vertices, Get(m.points, h.offset).vertices);
    }
  }

  lemma RemovePointPreservesConsistency(m: Mesh, h: PointIndex)
    requires Consistent(m)
    ensures Consistent(RemovePoint(m, h))
  {
    if IsValid(m.points, h) {
      var r := RemovePoint(m, h);
      var listed := Get(m.points, h.offset).vertices;
      RemoveAtProperties<Point, PointKind>(m.points, h.offset);
      DetachVerticesProperties(m.vertices, listed);
      forall q: nat, g: VertexIndex | IsAllocated(r.points, q) && g in Get(r.points, q).vertices
        ensures IsValid(r.vertices, g) && Designates(r.points, Get(r.vertices, g.offset).point, q)
      {
        assert q != h.offset && IsAllocated(m.points, q);
        assert g in Get(m.points, q).vertices;
        assert Designates(m.points, Get(m.vertices, g.offset).point, q);
      }
    }
  }

  /**
   * Why VerticesListedByPoints leaves falsy point handles out: removing point
   * 1 nulls the link of the vertex on it, and the nulled link designates the
   * live point 0, which does not list that vertex.
   */
  lemma NulledPointLinkDesignatesPointZero()
    ensures var vh: VertexIndex := ElementIndex(0, FIRST_GENERATION);
      var m := Mesh(EmptyStore(),
        Store([Some(Vertex(DefaultMeta(), ElementIndex(1, FIRST_GENERATION), Invalid()))], FIRST_GENERATION),
        EmptyStore(),
        Store([Some(Point(DefaultMeta(), Origin, {})), Some(Point(DefaultMeta(), Origin, {vh}))], FIRST_GENERATION));
      var r := RemovePoint(m, ElementIndex(1, FIRST_GENERATION));
      && Consistent(m) && Consistent(r)
      && IsAllocated(r.vertices, 0) && IsAllocated(r.points, 0)
      && Designates(r.points, Get(r.vertices, 0).point, 0)
      && !Lists(r.vertices, Get(r.points, 0).vertices, 0)
  {
    var vh: VertexIndex := ElementIndex(0, FIRST_GENERATION);
    var m := Mesh(EmptyStore(),
      Store([Some(Vertex(DefaultMeta(), ElementIndex(1, FIRST_GENERATION), Invalid()))], FIRST_GENERATION),
      EmptyStore(),
      Store([Some(Point(DefaultMeta(), Origin, {})), Some(Point(DefaultMeta(), Origin, {vh}))], FIRST_GENERATION));
    assert Lists(m.vertices, Get(m.points, 1).vertices, 0) by {
      assert vh in Get(m.points, 1).vertices;
    }
    RemovePointPreservesConsistency(m, ElementIndex(1, FIRST_GENERATION));
  }

  // ---------------------------------------------------------------------
  // Remove(FaceHandle)

  /**
   * Clears the face of every edge on the loop of the face's root edge (the
   * edges stay), then frees the face.  An invalid handle changes nothing.
   */
  function RemoveFace(m: Mesh, h: FaceIndex): Mesh {
    if !IsValid(m.faces, h) then m
    else
      var root := Get(m.faces, h.offset).rootEdge;
      var es := if IsValid(m.edges, root) then StampFace(m.edges, Loop(m.edges, root.offset), Invalid()) else m.edges;
      Mesh(es, m.vertices, RemoveAt(m.faces, h.offset), m.points)
  }

  lemma RemoveFaceProperties(m: Mesh, h: FaceIndex)
    ensures !IsValid(m.faces, h) ==> RemoveFace(m, h) == m
    ensures IsValid(m.faces, h) ==>
      var r := RemoveFace(m, h);
      var root := Get(m.faces, h.offset).rootEdge;
      && Size(r.faces) == Size(m.faces) - 1
      && !IsAllocated(r.faces, h.offset)
      && (forall k: nat :: k != h.offset ==> (IsAllocated(r.faces, k) <==> IsAllocated(m.faces, k)))
      && Size(r.edges) == Size(m.edges)
      && (IsValid(m.edges, root) ==> forall k :: 0 <= k < |Loop(m.edges, root.offset)| ==>
            var e := Loop(m.edges, root.offset)[k]; IsAllocated(r.edges, e) && Get(r.edges, e).face == Invalid())
      && (IsValid(m.edges, root) ==> forall k: nat :: IsAllocated(m.edges, k) && k !in Loop(m.edges, root.offset) ==>
            Get(r.edges, k) == Get(m.edges, k))
      && r.vertices == m.vertices && r.points == m.points
  {
    if IsValid(m.faces, h) {
      var root := Get(m.faces, h.offset).rootEdge;
      RemoveAtProperties<Face, FaceKind>(m.faces, h.offset);
      if IsValid(m.edges, root) {
        StampFaceProperties(m.edges, Loop(m.edges, root.offset), Invalid());
      }
    }
  }

  lemma RemoveFacePreservesConsistency(m: Mesh, h: FaceIndex)
    requires Consistent(m)
    ensures Consistent(RemoveFace(m, h))
  {
    if IsValid(m.faces, h) {
      var r := RemoveFace(m, h);
      var root := Get(m.faces, h.offset).rootEdge;
      assert r.vertices == m.vertices && r.points == m.points;
      if IsValid(m.edges, root) {
        StampFaceProperties(m.edges, Loop(m.edges, root.offset), Invalid());
        SameTwinsKeepsConsistency(m.edges, r.edges);
      }
      assert PointsListOwnVertices(r);
    }
  }

  // ---------------------------------------------------------------------
  // Remove(EdgeHandle)

  /** Clears the `prev` link of edge n when it is a valid neighbour of e that links back to e. */
  function ClearPrevOf(es: Store<HalfEdge>, n: EdgeIndex, e: nat): (r: Store<HalfEdge>)
    ensures SameTwins(es, r) && Size(r) == Size(es) && |r.slots| == |es.slots|
    ensures forall k :: 0 <= k < |es.slots| && k != n.offset ==> r.slots[k] == es.slots[k]
    ensures IsValid(es, n) && n.offset != e && Designates(es, Get(es, n.offset).prev, e) ==>
      Get(r, n.offset) == Get(es, n.offset).(prev := Invalid())
  {
    if IsValid(es, n) && n.offset != e && Designates(es, Get(es, n.offset).prev, e) then
      UpdateAtProperties(es, n.offset, Get(es, n.offset).(prev := Invalid()));
      UpdateAt(es, n.offset, Get(es, n.offset).(prev := Invalid()))
    else es
  }

  /** Clears the `next` link of edge p when it is a valid neighbour of e that links on to e. */
  function ClearNextOf(es: Store<HalfEdge>, p: EdgeIndex, e: nat): (r: Store<HalfEdge>)
    ensures SameTwins(es, r) && Size(r) == Size(es) && |r.slots| == |es.slots|
    ensures forall k :: 0 <= k < |es.slots| && k != p.offset ==> r.slots[k] == es.slots[k]
    ensures IsValid(es, p) && p.offset != e && Designates(es, Get(es, p.offset).next, e) ==>
      Get(r, p.offset) == Get(es, p.offset).(next := Invalid())
  {
    if IsValid(es, p) && p.offset != e && Designates(es, Get(es, p.offset).next, e) then
      UpdateAtProperties(es, p.offset, Get(es, p.offset).(next := Invalid()));
      UpdateAt(es, p.offset, Get(es, p.offset).(next := Invalid()))
    else es
  }

  /**
   * Link n of edge e can take over as a face root when e goes: it is not the
   * null handle, it is live, and it names neither e nor e's live twin, which
   * RemoveEdge frees together with e.
   */
  predicate Survives(es: Store<HalfEdge>, e: nat, n: EdgeIndex)
    requires IsAllocated(es, e)
  {
    var a := Get(es, e).adjacent;
    && n != Invalid() && IsValid(es, n) && n.offset != e
    && !(IsValid(es, a) && n.offset == a.offset)
  }

  /** The root a face falls back on when edge e, its root, goes: e's next, else e's prev, else none. */
  function SuccessorRoot(es: Store<HalfEdge>, e: nat): (r: EdgeIndex)
    requires IsAllocated(es, e)
    ensures r == Invalid() || Survives(es, e, r)
    ensures Survives(es, e, Get(es, e).next) ==> r == Get(es, e).next
    ensures !Survives(es, e, Get(es, e).next) && !Survives(es, e, Get(es, e).prev) ==> r == Invalid()
    ensures Survives(es, e, Get(es, e).next) || Survives(es, e, Get(es, e).prev) ==> Survives(es, e, r)
  {
    var x := Get(es, e);
    if Survives(es, e, x.next) then x.next
    else if Survives(es, e, x.prev) then x.prev
    else Invalid()
  }

  /** Edge e starts at vertex k, and k's own edge is e: without e, k has no outgoing edge left. */
  predicate SoleOrigin(m: Mesh, e: nat, k: nat) {
    && IsAllocated(m.edges, e)
    && Designates(m.vertices, Get(m.edges, e).vertex, k)
    && Designates(m.edges, Get(m.vertices, k).edge, e)
  }

  /** Face fh is live and rooted at edge e; a null root names no edge. */
  predicate RootedAt(fs: Store<Face>, es: Store<HalfEdge>, fh: FaceIndex, e: nat) {
    && IsValid(fs, fh)
    && Get(fs, fh.offset).rootEdge != Invalid()
    && Designates(es, Get(fs, fh.offset).rootEdge, e)
  }

  /** Moves the root of face fh off edge e when it is rooted at e. */
  function RepairRoot(fs: Store<Face>, es: Store<HalfEdge>, fh: FaceIndex, e: nat): Store<Face>
    requires IsAllocated(es, e)
  {
    if RootedAt(fs, es, fh, e)
    then UpdateAt(fs, fh.offset, Get(fs, fh.offset).(rootEdge := SuccessorRoot(es, e)))
    else fs
  }

  /**
   * Removes one half-edge and the back-references to it: the neighbours'
   * `prev`/`next` and its face's root (repaired to SuccessorRoot).  The
   * vertex it starts at, when that vertex's own edge is e, has lost its only
   * outgoing edge and is removed as RemoveVertex removes it.  Each step is
   * guarded by a validity check.
   */
  function DetachEdge(m: Mesh, e: nat): Mesh
    requires IsAllocated(m.edges, e)
  {
    var x := Get(m.edges, e);
    var es := ClearNextOf(ClearPrevOf(m.edges, x.next, e), x.prev, e);
    var m1 := Mesh(RemoveAt(es, e), m.vertices, RepairRoot(m.faces, m.edges, x.face, e), m.points);
    if SoleOrigin(m, e, x.vertex.offset) then RemoveVertex(m1, x.vertex) else m1
  }

  /** y is x, except that its `next` or `prev` link may have been cleared. */
  predicate OnlyClears(x: HalfEdge, y: HalfEdge) {
    && y.(next := x.next, prev := x.prev) == x
    && (y.next == x.next || y.next == Invalid())
    && (y.prev == x.prev || y.prev == Invalid())
  }

  /** DetachEdge frees exactly slot e and only rewrites edge links that referred to e. */
  lemma DetachEdgeEdges(m: Mesh, e: nat)
    requires IsAllocated(m.edges, e)
    ensures var r := DetachEdge(m, e);
      var x := Get(m.edges, e);
      && Size(r.edges) == Size(m.edges) - 1 && r.edges.generation == m.edges.generation
      && !IsAllocated(r.edges, e)
      && (forall k: nat :: k != e ==> (IsAllocated(r.edges, k) <==> IsAllocated(m.edges, k)))
      && (forall k: nat :: k != e && IsAllocated(m.edges, k) ==> Get(r.edges, k).adjacent == Get(m.edges, k).adjacent)
      && (forall k: nat :: k != e && k != x.next.offset && k != x.prev.offset && IsAllocated(m.edges, k) ==>
            Get(r.edges, k) == Get(m.edges, k))
      && (IsValid(m.edges, x.next) && x.next.offset != e && Designates(m.edges, Get(m.edges, x.next.offset).prev, e) ==>
            Get(r.edges, x.next.offset).prev == Invalid())
      && (IsValid(m.edges, x.prev) && x.prev.offset != e && Designates(m.edges, Get(m.edges, x.prev.offset).next, e) ==>
            Get(r.edges, x.prev.offset).next == Invalid())
      && (forall k: nat :: k != e && IsAllocated(m.edges, k) ==> OnlyClears(Get(m.edges, k), Get(r.edges, k)))
      && (forall k: nat :: k != e && IsAllocated(m.edges, k) && !Designates(m.edges, Get(m.edges, k).next, e) ==>
            Get(r.edges, k).next == Get(m.edges, k).next)
      && (forall k: nat :: k != e && IsAllocated(m.edges, k) && !Designates(m.edges, Get(m.edges, k).prev, e) ==>
            Get(r.edges, k).prev == Get(m.edges, k).prev)
  {
    var x := Get(m.edges, e);
    var es1 := ClearPrevOf(m.edges, x.next, e);
    var es2 := ClearNextOf(es1, x.prev, e);
    RemoveAtProperties<HalfEdge, EdgeKind>(es2, e);
    assert !IsAllocated(RemoveAt(es2, e), e);
    assert DetachEdge(m, e).edges == RemoveAt(es2, e);
    if IsValid(m.edges, x.prev) && x.prev.offset != e && Designates(m.edges, Get(m.edges, x.prev.offset).next, e) {
      if x.next.offset == x.prev.offset {
        assert Get(es1, x.prev.offset).next == Get(m.edges, x.prev.offset).next;
      } else {
        assert Get(es1, x.prev.offset) == Get(m.edges, x.prev.offset);
      }
    }
  }

  /**
   * DetachEdge repairs the face's root and frees the vertex that e was the
   * only outgoing edge of, dropping it from its point's list; no other
   * vertex, face or point changes, and no face or point is freed.
   */
  lemma DetachEdgeLinks(m: Mesh, e: nat)
    requires IsAllocated(m.edges, e)
    ensures var r := DetachEdge(m, e);
      var x := Get(m.edges, e);
      && (RootedAt(m.faces, m.edges, x.face, e) ==> Get(r.faces, x.face.offset).rootEdge == SuccessorRoot(m.edges, e))
      && r.faces.generation == m.faces.generation && Size(r.faces) == Size(m.faces)
      && (forall k: nat :: IsAllocated(r.faces, k) <==> IsAllocated(m.faces, k))
      && (forall k: nat :: k != x.face.offset && IsAllocated(m.faces, k) ==> Get(r.faces, k) == Get(m.faces, k))
      && (forall k: nat :: SoleOrigin(m, e, k) ==> k == x.vertex.offset)
      && (SoleOrigin(m, e, x.vertex.offset) ==>
            && r.vertices == RemoveAt(m.vertices, x.vertex.offset)
            && Size(r.vertices) == Size(m.vertices) - 1
            && r.points == RemoveVertex(m, x.vertex).points)
      && (!SoleOrigin(m, e, x.vertex.offset) ==> r.vertices == m.vertices && r.points == m.points)
      && (forall k: nat :: IsAllocated(r.points, k) <==> IsAllocated(m.points, k))
      && r.points.generation == m.points.generation
  {
    var x := Get(m.edges, e);
    if RootedAt(m.faces, m.edges, x.face, e) {
      UpdateAtProperties(m.faces, x.face.offset, Get(m.faces, x.face.offset).(rootEdge := SuccessorRoot(m.edges, e)));
    }
    if SoleOrigin(m, e, x.vertex.offset) {
      RemoveAtProperties<Vertex, VertexKind>(m.vertices, x.vertex.offset);
      var v := Get(m.vertices, x.vertex.offset);
      if IsValid(m.points, v.point) {
        UpdateAtProperties(m.points, v.point.offset, Get(m.points, v.point.offset).(vertices := Forget(Get(m.points, v.point.offset).vertices, x.vertex.offset)));
      }
    }
  }

  /** Detaching an edge keeps both directions of the point-vertex links. */
  lemma DetachEdgeKeepsPointLinks(m: Mesh, e: nat)
    requires IsAllocated(m.edges, e)
    requires PointsListOwnVertices(m) && VerticesListedByPoints(m)
    ensures PointsListOwnVertices(DetachEdge(m, e)) && VerticesListedByPoints(DetachEdge(m, e))
  {
    var x := Get(m.edges, e);
    var es := ClearNextOf(ClearPrevOf(m.edges, x.next, e), x.prev, e);
    var m1 := Mesh(RemoveAt(es, e), m.vertices, RepairRoot(m.faces, m.edges, x.face, e), m.points);
    if SoleOrigin(m, e, x.vertex.offset) {
      assert PointsListOwnVertices(m1) && VerticesListedByPoints(m1);
      RemoveVertexKeepsPointLinks(m1, x.vertex);
    }
  }

  /** Detaching edge e keeps every mutual next/prev pair that does not involve e. */
  lemma DetachEdgeKeepsMutual(m: Mesh, e: nat)
    requires IsAllocated(m.edges, e)
    ensures forall i: nat, j: nat :: Mutual(m.edges, i, j) && i != e && j != e ==> Mutual(DetachEdge(m, e).edges, i, j)
  {
    DetachEdgeEdges(m, e);
  }

  /**
   * Removes a valid half-edge and its adjacent twin: the edge is detached
   * first, then its twin, so the removal descends at most one level.  An
   * invalid handle changes nothing.
   */
  function RemoveEdge(m: Mesh, h: EdgeIndex): Mesh {
    if !IsValid(m.edges, h) then m
    else
      var t := Get(m.edges, h.offset).adjacent;
      var m1 := DetachEdge(m, h.offset);
      if IsValid(m.edges, t) && t.offset != h.offset then
        DetachEdgeEdges(m, h.offset);
        DetachEdge(m1, t.offset)
      else m1
  }

  /**
   * Face f of r, which in m was rooted at edge e, is now rooted at e's first
   * surviving link, next before prev, or at none when neither survives; a
   * root it keeps is a live edge of r.
   */
  predicate MovedRoot(m: Mesh, r: Mesh, f: nat, e: nat) {
    && IsAllocated(m.edges, e) && IsAllocated(r.faces, f)
    && var x := Get(m.edges, e);
       var root := Get(r.faces, f).rootEdge;
       && (Survives(m.edges, e, x.next) ==> root == x.next)
       && (!Survives(m.edges, e, x.next) && Survives(m.edges, e, x.prev) ==> root == x.prev)
       && (!Survives(m.edges, e, x.next) && !Survives(m.edges, e, x.prev) ==> root == Invalid())
       && (root == Invalid() || IsValid(r.edges, root))
  }

  /**
   * Removing one half-edge of a pair removes both, and nothing else; a face
   * rooted at either edge moves its root to that edge's surviving next, else
   * its surviving prev, else to none, and a vertex is freed exactly when one
   * of the pair was its own edge.
   */
  lemma RemoveEdgeRemovesTwin(m: Mesh, h: EdgeIndex)
    requires Consistent(m) && IsValid(m.edges, h)
    ensures var r := RemoveEdge(m, h);
      var x := Get(m.edges, h.offset);
      var t := x.adjacent.offset;
      && t != h.offset && IsAllocated(m.edges, t)
      && Size(r.edges) == Size(m.edges) - 2
      && !IsAllocated(r.edges, h.offset) && !IsAllocated(r.edges, t)
      && (forall k: nat :: k != h.offset && k != t ==> (IsAllocated(r.edges, k) <==> IsAllocated(m.edges, k)))
      && (forall k: nat :: IsAllocated(r.faces, k) <==> IsAllocated(m.faces, k))
      && (RootedAt(m.faces, m.edges, x.face, h.offset) ==> MovedRoot(m, r, x.face.offset, h.offset))
      && (RootedAt(m.faces, m.edges, Get(m.edges, t).face, t) ==> MovedRoot(m, r, Get(m.edges, t).face.offset, t))
      && Size(r.faces) == Size(m.faces)
      && r.edges.generation == m.edges.generation && r.faces.generation == m.faces.generation
      && (forall k: nat :: IsAllocated(r.vertices, k) <==> IsAllocated(m.vertices, k) && !SoleOrigin(m, h.offset, k) && !SoleOrigin(m, t, k))
      && (forall k: nat :: IsAllocated(r.vertices, k) ==> Get(r.vertices, k) == Get(m.vertices, k))
      && (!SoleOrigin(m, h.offset, x.vertex.offset) && !SoleOrigin(m, t, Get(m.edges, t).vertex.offset) ==>
            r.vertices == m.vertices && r.points == m.points)
  {
    RemoveEdgeFreesPair(m, h);
    RemoveEdgeFreesSoleOrigins(m, h);
  }

  /** The edge and face half of RemoveEdgeRemovesTwin. */
  lemma RemoveEdgeFreesPair(m: Mesh, h: EdgeIndex)
    requires TwinsConsistent(m.edges) && IsValid(m.edges, h)
    ensures var r := RemoveEdge(m, h);
      var x := Get(m.edges, h.offset);
      var t := x.adjacent.offset;
      && t != h.offset && IsAllocated(m.edges, t)
      && Size(r.edges) == Size(m.edges) - 2
      && !IsAllocated(r.edges, h.offset) && !IsAllocated(r.edges, t)
      && (forall k: nat :: k != h.offset && k != t ==> (IsAllocated(r.edges, k) <==> IsAllocated(m.edges, k)))
      && (forall k: nat :: IsAllocated(r.faces, k) <==> IsAllocated(m.faces, k))
      && (RootedAt(m.faces, m.edges, x.face, h.offset) ==> MovedRoot(m, r, x.face.offset, h.offset))
      && (RootedAt(m.faces, m.edges, Get(m.edges, t).face, t) ==> MovedRoot(m, r, Get(m.edges, t).face.offset, t))
      && Size(r.faces) == Size(m.faces)
      && r.edges.generation == m.edges.generation && r.faces.generation == m.faces.generation
  {
    var x := Get(m.edges, h.offset);
    var t := x.adjacent.offset;
    assert TwinLinked(m.edges, h.offset);
    var m1 := DetachEdge(m, h.offset);
    DetachEdgeEdges(m, h.offset);
    DetachEdgeEdges(m1, t);
    DetachEdgeLinks(m, h.offset);
    DetachEdgeLinks(m1, t);
    RemoveEdgeMovesRoots(m, h);
  }

  /**
   * A face rooted at either edge of the removed pair ends up rooted at a
   * surviving neighbour of that edge, or at none when no neighbour survives.
   */
  lemma RemoveEdgeMovesRoots(m: Mesh, h: EdgeIndex)
    requires TwinsConsistent(m.edges) && IsValid(m.edges, h)
    ensures var r := RemoveEdge(m, h);
      var x := Get(m.edges, h.offset);
      var t := x.adjacent.offset;
      && IsAllocated(m.edges, t)
      && (RootedAt(m.faces, m.edges, x.face, h.offset) ==> MovedRoot(m, r, x.face.offset, h.offset))
      && (RootedAt(m.faces, m.edges, Get(m.edges, t).face, t) ==> MovedRoot(m, r, Get(m.edges, t).face.offset, t))
  {
    assert TwinLinked(m.edges, h.offset);
    var x := Get(m.edges, h.offset);
    if RootedAt(m.faces, m.edges, x.face, h.offset) {
      RemoveEdgeMovesEdgeRoot(m, h);
    }
    if RootedAt(m.faces, m.edges, Get(m.edges, x.adjacent.offset).face, x.adjacent.offset) {
      RemoveEdgeMovesTwinRoot(m, h);
    }
  }

  /** The root of the removed edge's face moves to a survivor of the removed edge. */
  lemma RemoveEdgeMovesEdgeRoot(m: Mesh, h: EdgeIndex)
    requires TwinsConsistent(m.edges) && IsValid(m.edges, h)
    requires RootedAt(m.faces, m.edges, Get(m.edges, h.offset).face, h.offset)
    ensures MovedRoot(m, RemoveEdge(m, h), Get(m.edges, h.offset).face.offset, h.offset)
  {
    var x := Get(m.edges, h.offset);
    var t := x.adjacent.offset;
    var y := Get(m.edges, t);
    assert TwinLinked(m.edges, h.offset);
    var m1 := DetachEdge(m, h.offset);
    assert RemoveEdge(m, h) == DetachEdge(m1, t);
    DetachEdgeEdges(m, h.offset);
    DetachEdgeEdges(m1, t);
    DetachEdgeLinks(m, h.offset);
    DetachEdgeLinks(m1, t);
    assert Get(m1.faces, x.face.offset).rootEdge == SuccessorRoot(m.edges, h.offset);
    assert !RootedAt(m1.faces, m1.edges, y.face, t) || y.face.offset != x.face.offset;
  }

  /**
   * A face rooted at an edge whose next is its own twin, and whose prev is
   * the twin or null, loses its root with the pair: it is left unrooted, not
   * rooted at the twin's freed slot.
   */
  lemma RemoveEdgeOntoTwinUnroots(m: Mesh, h: EdgeIndex)
    requires TwinsConsistent(m.edges) && IsValid(m.edges, h)
    requires RootedAt(m.faces, m.edges, Get(m.edges, h.offset).face, h.offset)
    requires Get(m.edges, h.offset).next.offset == Get(m.edges, h.offset).adjacent.offset
    requires Get(m.edges, h.offset).prev == Invalid() || Get(m.edges, h.offset).prev.offset == Get(m.edges, h.offset).adjacent.offset
    ensures IsAllocated(RemoveEdge(m, h).faces, Get(m.edges, h.offset).face.offset)
    ensures Get(RemoveEdge(m, h).faces, Get(m.edges, h.offset).face.offset).rootEdge == Invalid()
  {
    assert TwinLinked(m.edges, h.offset);
    RemoveEdgeMovesEdgeRoot(m, h);
  }

  /** The root of the twin's face moves to a survivor of the twin. */
  lemma RemoveEdgeMovesTwinRoot(m: Mesh, h: EdgeIndex)
    requires TwinsConsistent(m.edges) && IsValid(m.edges, h)
    requires IsAllocated(m.edges, Get(m.edges, h.offset).adjacent.offset)
    requires RootedAt(m.faces, m.edges, Get(m.edges, Get(m.edges, h.offset).adjacent.offset).face, Get(m.edges, h.offset).adjacent.offset)
    ensures MovedRoot(m, RemoveEdge(m, h), Get(m.edges, Get(m.edges, h.offset).adjacent.offset).face.offset, Get(m.edges, h.offset).adjacent.offset)
  {
    var x := Get(m.edges, h.offset);
    var t := x.adjacent.offset;
    var y := Get(m.edges, t);
    assert TwinLinked(m.edges, h.offset);
    var m1 := DetachEdge(m, h.offset);
    assert RemoveEdge(m, h) == DetachEdge(m1, t);
    DetachKeepsTwinSurvivors(m, h);
    DetachEdgeLinks(m, h.offset);
    assert !RootedAt(m.faces, m.edges, x.face, h.offset) || x.face.offset != y.face.offset;
    assert Get(m1.faces, y.face.offset) == Get(m.faces, y.face.offset);
    assert RootedAt(m1.faces, m1.edges, y.face, t);
    DetachEdgeEdges(m1, t);
    DetachEdgeLinks(m1, t);
  }

  /**
   * After the first half of a pair removal the twin's links survive exactly
   * as they did before it: the first edge is gone, so no link of the twin
   * can name it.
   */
  lemma DetachKeepsTwinSurvivors(m: Mesh, h: EdgeIndex)
    requires TwinsConsistent(m.edges) && IsValid(m.edges, h)
    ensures var x := Get(m.edges, h.offset);
      var t := x.adjacent.offset;
      var m1 := DetachEdge(m, h.offset);
      && IsAllocated(m.edges, t) && IsAllocated(m1.edges, t)
      && Get(m1.edges, t).face == Get(m.edges, t).face
      && (Survives(m1.edges, t, Get(m1.edges, t).next) <==> Survives(m.edges, t, Get(m.edges, t).next))
      && (Survives(m1.edges, t, Get(m1.edges, t).prev) <==> Survives(m.edges, t, Get(m.edges, t).prev))
      && (Survives(m.edges, t, Get(m.edges, t).next) ==> Get(m1.edges, t).next == Get(m.edges, t).next)
      && (Survives(m.edges, t, Get(m.edges, t).prev) ==> Get(m1.edges, t).prev == Get(m.edges, t).prev)
  {
    var x := Get(m.edges, h.offset);
    var t := x.adjacent.offset;
    assert TwinLinked(m.edges, h.offset);
    assert TwinLinked(m.edges, t);
    DetachEdgeEdges(m, h.offset);
  }

  /**
   * The vertices a pair removal frees are exactly those whose only outgoing
   * edge was one of the pair; every other vertex keeps its slot and content.
   */
  lemma RemoveEdgeFreesSoleOrigins(m: Mesh, h: EdgeIndex)
    requires TwinsConsistent(m.edges) && IsValid(m.edges, h)
    ensures var r := RemoveEdge(m, h);
      var x := Get(m.edges, h.offset);
      var t := x.adjacent.offset;
      && (forall k: nat :: IsAllocated(r.vertices, k) <==> IsAllocated(m.vertices, k) && !SoleOrigin(m, h.offset, k) && !SoleOrigin(m, t, k))
      && (forall k: nat :: IsAllocated(r.vertices, k) ==> Get(r.vertices, k) == Get(m.vertices, k))
      && (!SoleOrigin(m, h.offset, x.vertex.offset) && !SoleOrigin(m, t, Get(m.edges, t).vertex.offset) ==>
            r.vertices == m.vertices && r.points == m.points)
  {
    var x := Get(m.edges, h.offset);
    var t := x.adjacent.offset;
    assert TwinLinked(m.edges, h.offset);
    var m1 := DetachEdge(m, h.offset);
    var r := RemoveEdge(m, h);
    assert r == DetachEdge(m1, t);
    DetachEdgeEdges(m, h.offset);
    DetachEdgeLinks(m, h.offset);
    DetachEdgeLinks(m1, t);
    if SoleOrigin(m, h.offset, x.vertex.offset) {
      RemoveAtProperties<Vertex, VertexKind>(m.vertices, x.vertex.offset);
    }
    assert Get(m1.edges, t).vertex == Get(m.edges, t).vertex;
    forall k: nat | IsAllocated(m1.vertices, k)
      ensures SoleOrigin(m1, t, k) <==> SoleOrigin(m, t, k)
    {
      assert Get(m1.vertices, k) == Get(m.vertices, k);
    }
    if SoleOrigin(m1, t, Get(m1.edges, t).vertex.offset) {
      RemoveAtProperties<Vertex, VertexKind>(m1.vertices, Get(m1.edges, t).vertex.offset);
    }
  }

  /** Removing an edge never redirects a link of another edge: it can only clear a `next` or a `prev`. */
  lemma RemoveEdgeOnlyClearsLinks(m: Mesh, h: EdgeIndex)
    ensures var r := RemoveEdge(m, h);
      forall k: nat :: IsAllocated(r.edges, k) ==> IsAllocated(m.edges, k) && OnlyClears(Get(m.edges, k), Get(r.edges, k))
  {
    if IsValid(m.edges, h) {
      var t := Get(m.edges, h.offset).adjacent;
      var m1 := DetachEdge(m, h.offset);
      DetachEdgeEdges(m, h.offset);
      if IsValid(m.edges, t) && t.offset != h.offset {
        DetachEdgeEdges(m1, t.offset);
      }
    }
  }

  lemma RemoveEdgePreservesConsistency(m: Mesh, h: EdgeIndex)
    requires Consistent(m)
    ensures Consistent(RemoveEdge(m, h))
  {
    if IsValid(m.edges, h) {
      var r := RemoveEdge(m, h);
      var x := Get(m.edges, h.offset);
      var t := x.adjacent.offset;
      assert TwinLinked(m.edges, h.offset);
      var m1 := DetachEdge(m, h.offset);
      DetachEdgeEdges(m, h.offset);
      DetachEdgeEdges(m1, t);
      DetachEdgeLinks(m, h.offset);
      DetachEdgeLinks(m1, t);
      forall k: nat | IsAllocated(r.edges, k)
        ensures TwinLinked(r.edges, k)
      {
        assert TwinLinked(m.edges, k);
        var a := Get(m.edges, k).adjacent;
        assert a.offset != h.offset && a.offset != t;
      }
      DetachEdgeKeepsPointLinks(m, h.offset);
      DetachEdgeKeepsPointLinks(m1, t);
    }
  }

  /** Removing a pair keeps every mutual next/prev pair between edges that survive. */
  lemma RemoveEdgeKeepsMutual(m: Mesh, h: EdgeIndex)
    ensures var r := RemoveEdge(m, h);
      forall i: nat, j: nat :: Mutual(m.edges, i, j) && IsAllocated(r.edges, i) && IsAllocated(r.edges, j) ==> Mutual(r.edges, i, j)
  {
    if IsValid(m.edges, h) {
      var t := Get(m.edges, h.offset).adjacent;
      var m1 := DetachEdge(m, h.offset);
      DetachEdgeEdges(m, h.offset);
      DetachEdgeKeepsMutual(m, h.offset);
      if IsValid(m.edges, t) && t.offset != h.offset {
        DetachEdgeEdges(m1, t.offset);
        DetachEdgeKeepsMutual(m1, t.offset);
      }
    }
  }

  // ---------------------------------------------------------------------
  // Defrag

  /** The four remap tables of one Defrag, with the generations they translate from. */
  datatype Remapping = Remapping(
    edges: map<nat, EdgeIndex>, edgeGeneration: nat,
    vertices: map<nat, VertexIndex>, vertexGeneration: nat,
    faces: map<nat, FaceIndex>, faceGeneration: nat,
    points: map<nat, PointIndex>, pointGeneration: nat)

  /** The tables the four compactions of m hand back. */
  function RemappingOf(m: Mesh): Remapping {
    Remapping(
      RemapTable(m.edges), m.edges.generation,
      RemapTable(m.vertices), m.vertices.generation,
      RemapTable(m.faces), m.faces.generation,
      RemapTable(m.points), m.points.generation)
  }

  function RemapHalfEdge(t: Remapping, e: HalfEdge): HalfEdge {
    e.(vertex := Remap(t.vertices, t.vertexGeneration, e.vertex),
       face := Remap(t.faces, t.faceGeneration, e.face),
       next := Remap(t.edges, t.edgeGeneration, e.next),
       prev := Remap(t.edges, t.edgeGeneration, e.prev),
       adjacent := Remap(t.edges, t.edgeGeneration, e.adjacent))
  }

  function RemapTriangle(t: Remapping, tri: FaceTriangle): FaceTriangle {
    FaceTriangle(
      Remap(t.vertices, t.vertexGeneration, tri.v0),
      Remap(t.vertices, t.vertexGeneration, tri.v1),
      Remap(t.vertices, t.vertexGeneration, tri.v2))
  }

  function RemapFace(t: Remapping, f: Face): Face {
    f.(rootEdge := Remap(t.edges, t.edgeGeneration, f.rootEdge),
       triangles := seq(|f.triangles|, i requires 0 <= i < |f.triangles| => RemapTriangle(t, f.triangles[i])))
  }

  function RemapVertex(t: Remapping, v: Vertex): Vertex {
    v.(point := Remap(t.points, t.pointGeneration, v.point),
       edge := Remap(t.edges, t.edgeGeneration, v.edge))
  }

  function RemapPoint(t: Remapping, p: Point): Point {
    p.(vertices := set h | h in p.vertices :: Remap(t.vertices, t.vertexGeneration, h))
  }

  function EdgeRemapper(t: Remapping): HalfEdge -> HalfEdge { e => RemapHalfEdge(t, e) }
  function FaceRemapper(t: Remapping): Face -> Face { f => RemapFace(t, f) }
  function VertexRemapper(t: Remapping): Vertex -> Vertex { v => RemapVertex(t, v) }
  function PointRemapper(t: Remapping): Point -> Point { p => RemapPoint(t, p) }

  /**
   * Compacts all four buffers first, then rewrites every cross-reference of
   * every surviving element through the four tables.
   */
  function Defrag(m: Mesh): Mesh {
    var t := RemappingOf(m);
    Mesh(
      MapStore(Compacted(m.edges), EdgeRemapper(t)),
      MapStore(Compacted(m.vertices), VertexRemapper(t)),
      MapStore(Compacted(m.faces), FaceRemapper(t)),
      MapStore(Compacted(m.points), PointRemapper(t)))
  }

  /** A valid link h moved to h2: the new place of its element, at the new generation, valid in r. */
  ghost predicate Moved<E, K>(s: Store<E>, r: Store<E>, h: ElementIndex<K>, h2: ElementIndex<K>) {
    IsValid(s, h) ==>
      && h.offset < |s.slots|
      && h2 == ElementIndex(Rank(s.slots, h.offset), s.generation + 1)
      && IsValid(r, h2)
  }

  /** One buffer of a Defrag: dense, one generation on, every element moved to its rank and rewritten. */
  lemma {:induction false} DefragStore<E, K>(s: Store<E>, f: E -> E, h: ElementIndex<K>)
    requires s.generation != IGNORED_GENERATION
    ensures var r := MapStore(Compacted(s), f);
      && Size(r) == Size(s) && r.generation == s.generation + 1
      && (h.generation == s.generation ==> !IsValid(r, h))
      && (forall k: nat :: k < Size(s) <==> IsAllocated(r, k))
      && Moved(s, r, h, Remap(RemapTable(s), s.generation, h))
      && (IsValid(s, h) ==> Get(r, Rank(s.slots, h.offset)) == f(Get(s, h.offset)))
  {
    CompactedProperties<E, K>(s, h);
    MapStoreProperties(Compacted(s), f);
    RemapMovesValidHandles<E, K>(s, h);
  }

  /** Where the element at slot i of s ends up. */
  lemma {:induction false} DefragSlot<E>(s: Store<E>, f: E -> E, i: nat)
    requires IsAllocated(s, i)
    ensures Rank(s.slots, i) < Size(s)
    ensures IsAllocated(MapStore(Compacted(s), f), Rank(s.slots, i))
    ensures Get(MapStore(Compacted(s), f), Rank(s.slots, i)) == f(Get(s, i))
  {
    PackedAt(s.slots, i);
    PackedShape(s.slots);
    MapStoreProperties(Compacted(s), f);
  }

  /** Defrag keeps every count and makes every handle of the old generations invalid. */
  lemma DefragCountsAndStaleness(m: Mesh, e: EdgeIndex, v: VertexIndex, f: FaceIndex, p: PointIndex)
    requires GenerationsIssued(m)
    ensures var r := Defrag(m);
      && Size(r.edges) == Size(m.edges) && Size(r.vertices) == Size(m.vertices)
      && Size(r.faces) == Size(m.faces) && Size(r.points) == Size(m.points)
      && r.edges.generation == m.edges.generation + 1 && r.vertices.generation == m.vertices.generation + 1
      && r.faces.generation == m.faces.generation + 1 && r.points.generation == m.points.generation + 1
      && GenerationsIssued(r)
      && (e.generation == m.edges.generation ==> !IsValid(r.edges, e))
      && (v.generation == m.vertices.generation ==> !IsValid(r.vertices, v))
      && (f.generation == m.faces.generation ==> !IsValid(r.faces, f))
      && (p.generation == m.points.generation ==> !IsValid(r.points, p))
      && (forall k: nat :: k < Size(m.points) <==> IsAllocated(r.points, k))
      && (forall k: nat :: k < Size(m.edges) <==> IsAllocated(r.edges, k))
  {
    var t := RemappingOf(m);
    DefragStore(m.edges, EdgeRemapper(t), e);
    DefragStore(m.vertices, VertexRemapper(t), v);
    DefragStore(m.faces, FaceRemapper(t), f);
    DefragStore(m.points, PointRemapper(t), p);
  }

  /**
   * After Defrag every element sits at its rank with its data intact, and
   * each of its links that was valid now designates the new place of the
   * same element.
   */
  lemma DefragMovesEdge(m: Mesh, i: nat)
    requires GenerationsIssued(m) && IsAllocated(m.edges, i)
    ensures var r := Defrag(m);
      var x := Get(m.edges, i);
      var j := Rank(m.edges.slots, i);
      && IsAllocated(r.edges, j)
      && var y := Get(r.edges, j);
      && y.meta == x.meta
      && Moved(m.edges, r.edges, x.next, y.next)
      && Moved(m.edges, r.edges, x.prev, y.prev)
      && Moved(m.edges, r.edges, x.adjacent, y.adjacent)
      && Moved(m.vertices, r.vertices, x.vertex, y.vertex)
      && Moved(m.faces, r.faces, x.face, y.face)
  {
    var t := RemappingOf(m);
    var x := Get(m.edges, i);
    DefragSlot(m.edges, EdgeRemapper(t), i);
    DefragStore(m.edges, EdgeRemapper(t), x.next);
    DefragStore(m.edges, EdgeRemapper(t), x.prev);
    DefragStore(m.edges, EdgeRemapper(t), x.adjacent);
    DefragStore(m.vertices, VertexRemapper(t), x.vertex);
    DefragStore(m.faces, FaceRemapper(t), x.face);
  }

  lemma DefragMovesVertex(m: Mesh, i: nat)
    requires GenerationsIssued(m) && IsAllocated(m.vertices, i)
    ensures var r := Defrag(m);
      var x := Get(m.vertices, i);
      var j := Rank(m.vertices.slots, i);
      && IsAllocated(r.vertices, j)
      && var y := Get(r.vertices, j);
      && y.meta == x.meta
      && Moved(m.points, r.points, x.point, y.point)
      && Moved(m.edges, r.edges, x.edge, y.edge)
  {
    var t := RemappingOf(m);
    var x := Get(m.vertices, i);
    DefragSlot(m.vertices, VertexRemapper(t), i);
    DefragStore(m.points, PointRemapper(t), x.point);
    DefragStore(m.edges, EdgeRemapper(t), x.edge);
  }

  lemma DefragMovesFace(m: Mesh, i: nat)
    requires GenerationsIssued(m) && IsAllocated(m.faces, i)
    ensures var r := Defrag(m);
      var x := Get(m.faces, i);
      var j := Rank(m.faces.slots, i);
      && IsAllocated(r.faces, j)
      && var y := Get(r.faces, j);
      && y.meta == x.meta && |y.triangles| == |x.triangles|
      && Moved(m.edges, r.edges, x.rootEdge, y.rootEdge)
      && (forall k :: 0 <= k < |x.triangles| ==>
            && Moved(m.vertices, r.vertices, x.triangles[k].v0, y.triangles[k].v0)
            && Moved(m.vertices, r.vertices, x.triangles[k].v1, y.triangles[k].v1)
            && Moved(m.vertices, r.vertices, x.triangles[k].v2, y.triangles[k].v2))
  {
    var t := RemappingOf(m);
    var x := Get(m.faces, i);
    DefragSlot(m.faces, FaceRemapper(t), i);
    DefragStore(m.edges, EdgeRemapper(t), x.rootEdge);
    var y := Get(Defrag(m).faces, Rank(m.faces.slots, i));
    forall k | 0 <= k < |x.triangles|
      ensures Moved(m.vertices, Defrag(m).vertices, x.triangles[k].v0, y.triangles[k].v0)
      ensures Moved(m.vertices, Defrag(m).vertices, x.triangles[k].v1, y.triangles[k].v1)
      ensures Moved(m.vertices, Defrag(m).vertices, x.triangles[k].v2, y.triangles[k].v2)
    {
      DefragStore(m.vertices, VertexRemapper(t), x.triangles[k].v0);
      DefragStore(m.vertices, VertexRemapper(t), x.triangles[k].v1);
      DefragStore(m.vertices, VertexRemapper(t), x.triangles[k].v2);
    }
  }

  lemma DefragMovesPoint(m: Mesh, i: nat)
    requires GenerationsIssued(m) && IsAllocated(m.points, i)
    ensures var r := Defrag(m);
      var x := Get(m.points, i);
      var j := Rank(m.points.slots, i);
      && IsAllocated(r.points, j)
      && var y := Get(r.points, j);
      && y.meta == x.meta && y.position == x.position
      && (forall h :: h in x.vertices ==> exists h2 :: h2 in y.vertices && Moved(m.vertices, r.vertices, h, h2))
      && (forall h2 :: h2 in y.vertices ==> exists h :: h in x.vertices && h2 == Remap(RemappingOf(m).vertices, m.vertices.generation, h))
  {
    var t := RemappingOf(m);
    var x := Get(m.points, i);
    DefragSlot(m.points, PointRemapper(t), i);
    var y := Get(Defrag(m).points, Rank(m.points.slots, i));
    forall h | h in x.vertices
      ensures exists h2 :: h2 in y.vertices && Moved(m.vertices, Defrag(m).vertices, h, h2)
    {
      DefragStore(m.vertices, VertexRemapper(t), h);
      assert Remap(t.vertices, t.vertexGeneration, h) in y.vertices;
    }
  }

  /** Compaction sends distinct allocated slots to distinct offsets. */
  lemma RankInjective<E>(slots: seq<Option<E>>, i: nat, j: nat)
    requires i < |slots| && j < |slots| && slots[i].Some? && slots[j].Some? && i != j
    ensures Rank(slots, i) != Rank(slots, j)
  {
    if i < j {
      RankPreservesOrder(slots, i, j);
    } else {
      RankPreservesOrder(slots, j, i);
    }
  }

  /** The twin links survive Defrag. */
  lemma {:induction false} DefragKeepsTwins(m: Mesh)
    requires Consistent(m)
    ensures TwinsConsistent(Defrag(m).edges)
  {
    var r := Defrag(m);
    DefragCountsAndStaleness(m, Invalid(), Invalid(), Invalid(), Invalid());
    forall k: nat | IsAllocated(r.edges, k)
      ensures TwinLinked(r.edges, k)
    {
      var i := RankOnto(m.edges.slots, k);
      assert IsAllocated(m.edges, i) && TwinLinked(m.edges, i);
      var x := Get(m.edges, i);
      var a := x.adjacent.offset;
      DefragMovesEdge(m, i);
      DefragMovesEdge(m, a);
      RankInjective(m.edges.slots, i, a);
    }
  }

  /** The point lists survive Defrag. */
  lemma {:induction false} DefragKeepsPointLists(m: Mesh)
    requires Consistent(m)
    ensures PointsListOwnVertices(Defrag(m))
  {
    var r := Defrag(m);
    DefragCountsAndStaleness(m, Invalid(), Invalid(), Invalid(), Invalid());
    forall q: nat, g: VertexIndex | IsAllocated(r.points, q) && g in Get(r.points, q).vertices
      ensures IsValid(r.vertices, g) && Designates(r.points, Get(r.vertices, g.offset).point, q)
    {
      DefragKeepsPointListEntry(m, q, g);
    }
  }

  /** One entry of a point's vertex list after Defrag: a live vertex that sits on that point. */
  lemma DefragKeepsPointListEntry(m: Mesh, q: nat, g: VertexIndex)
    requires Consistent(m)
    requires IsAllocated(Defrag(m).points, q) && g in Get(Defrag(m).points, q).vertices
    ensures IsValid(Defrag(m).vertices, g) && Designates(Defrag(m).points, Get(Defrag(m).vertices, g.offset).point, q)
  {
    DefragCountsAndStaleness(m, Invalid(), Invalid(), Invalid(), Invalid());
    var i := RankOnto(m.points.slots, q);
    assert IsAllocated(m.points, i);
    DefragMovesPoint(m, i);
    var h :| h in Get(m.points, i).vertices && g == Remap(RemappingOf(m).vertices, m.vertices.generation, h);
    assert IsValid(m.vertices, h) && Designates(m.points, Get(m.vertices, h.offset).point, i);
    DefragStore(m.vertices, VertexRemapper(RemappingOf(m)), h);
    DefragMovesVertex(m, h.offset);
  }

  /** Every vertex on a truthy point is still listed by its point after Defrag. */
  lemma {:induction false} DefragKeepsVertexLinks(m: Mesh)
    requires Consistent(m)
    ensures VerticesListedByPoints(Defrag(m))
  {
    var r := Defrag(m);
    var t := RemappingOf(m);
    DefragStore(m.vertices, VertexRemapper(t), Invalid<VertexKind>());
    forall k: nat | IsAllocated(r.vertices, k) && IsTruthy(Get(r.vertices, k).point)
      ensures IsValid(r.points, Get(r.vertices, k).point)
      ensures Lists(r.vertices, Get(r.points, Get(r.vertices, k).point.offset).vertices, k)
    {
      DefragKeepsVertexLink(m, k);
    }
  }

  /** The vertex at slot k after Defrag, on a truthy point: that point is live and lists it. */
  lemma DefragKeepsVertexLink(m: Mesh, k: nat)
    requires Consistent(m)
    requires IsAllocated(Defrag(m).vertices, k) && IsTruthy(Get(Defrag(m).vertices, k).point)
    ensures IsValid(Defrag(m).points, Get(Defrag(m).vertices, k).point)
    ensures Lists(Defrag(m).vertices, Get(Defrag(m).points, Get(Defrag(m).vertices, k).point.offset).vertices, k)
  {
    var r := Defrag(m);
    var t := RemappingOf(m);
    DefragStore(m.vertices, VertexRemapper(t), Invalid<VertexKind>());
    var i := RankOnto(m.vertices.slots, k);
    var x := Get(m.vertices, i);
    DefragSlot(m.vertices, VertexRemapper(t), i);
    DefragStore(m.points, PointRemapper(t), x.point);
    assert m.points.slots[..0] == [];
    if !IsTruthy(x.point) {
      assert false;
    }
    var listed := Get(m.points, x.point.offset).vertices;
    var hw :| hw in listed && IsValid(m.vertices, hw) && hw.offset == i;
    DefragSlot(m.points, PointRemapper(t), x.point.offset);
    DefragStore(m.vertices, VertexRemapper(t), hw);
    assert Remap(t.vertices, t.vertexGeneration, hw) in Get(r.points, Rank(m.points.slots, x.point.offset)).vertices;
  }

  /**
   * Defrag keeps the invariants, and every mutual next/prev pair is still
   * mutual at the two edges' new offsets.
   */
  lemma DefragPreservesConsistency(m: Mesh)
    requires Consistent(m)
    ensures Consistent(Defrag(m))
    ensures forall i: nat, j: nat :: Mutual(m.edges, i, j) ==>
      Mutual(Defrag(m).edges, Rank(m.edges.slots, i), Rank(m.edges.slots, j))
  {
    DefragCountsAndStaleness(m, Invalid(), Invalid(), Invalid(), Invalid());
    DefragKeepsTwins(m);
    DefragKeepsPointLists(m);
    DefragKeepsVertexLinks(m);
    forall i: nat, j: nat | Mutual(m.edges, i, j)
      ensures Mutual(Defrag(m).edges, Rank(m.edges.slots, i), Rank(m.edges.slots, j))
    {
      DefragMovesEdge(m, i);
      DefragMovesEdge(m, j);
    }
  }
}
