/**
 * UHedgeKernel: four element buffers and the operations that keep their
 * cross-references consistent.  Every mutating method is proved to leave the
 * buffers in the state the corresponding Topology function describes, so the
 * invariant lemmas proved there apply to the kernel.
 */
module Kernel {
  import opened Handles
  import opened Elements
  import opened Buffers
  import opened Topology

  class HedgeKernel {
    const edges: ElementBuffer<HalfEdge, EdgeKind>
    const vertices: ElementBuffer<Vertex, VertexKind>
    const faces: ElementBuffer<Face, FaceKind>
    const points: ElementBuffer<Point, PointKind>

    ghost predicate Valid()
      reads this, edges, vertices, faces, points
    {
      && edges.Valid() && vertices.Valid() && faces.Valid() && points.Valid()
      && edges.blank == DefaultHalfEdge() && vertices.blank == DefaultVertex()
      && faces.blank == DefaultFace() && points.blank == DefaultPoint()
    }

    /** The value of the four buffers. */
    function Model(): Mesh
      reads this, edges, vertices, faces, points
    {
      Mesh(edges.Model(), vertices.Model(), faces.Model(), points.Model())
    }

    constructor ()
      ensures Valid() && Model() == EmptyMesh()
      ensures fresh(edges) && fresh(vertices) && fresh(faces) && fresh(points)
    {
      edges := new ElementBuffer(DefaultHalfEdge());
      vertices := new ElementBuffer(DefaultVertex());
      faces := new ElementBuffer(DefaultFace());
      points := new ElementBuffer(DefaultPoint());
    }

    // -------------------------------------------------------------------
    // Validity, Get and Num

    predicate IsValidEdge(h: EdgeIndex) reads edges { edges.IsValidHandle(h) }
    predicate IsValidVertex(h: VertexIndex) reads vertices { vertices.IsValidHandle(h) }
    predicate IsValidFace(h: FaceIndex) reads faces { faces.IsValidHandle(h) }
    predicate IsValidPoint(h: PointIndex) reads points { points.IsValidHandle(h) }

    function GetEdge(h: EdgeIndex): (e: HalfEdge)
      reads edges
      requires IsValidEdge(h)
      ensures IsAllocated(edges.Model(), h.offset) && e == Get(edges.Model(), h.offset)
    {
      edges.Get(h)
    }

    function GetVertex(h: VertexIndex): (v: Vertex)
      reads vertices
      requires IsValidVertex(h)
      ensures IsAllocated(vertices.Model(), h.offset) && v == Get(vertices.Model(), h.offset)
    {
      vertices.Get(h)
    }

    function GetFace(h: FaceIndex): (f: Face)
      reads faces
      requires IsValidFace(h)
      ensures IsAllocated(faces.Model(), h.offset) && f == Get(faces.Model(), h.offset)
    {
      faces.Get(h)
    }

    function GetPoint(h: PointIndex): (p: Point)
      reads points
      requires IsValidPoint(h)
      ensures IsAllocated(points.Model(), h.offset) && p == Get(points.Model(), h.offset)
    {
      points.Get(h)
    }

    function NumEdges(): (n: nat)
      reads edges
      ensures n == Size(edges.Model()) && n <= |edges.slots|
    {
      edges.Num()
    }

    function NumVertices(): (n: nat)
      reads vertices
      ensures n == Size(vertices.Model()) && n <= |vertices.slots|
    {
      vertices.Num()
    }

    function NumFaces(): (n: nat)
      reads faces
      ensures n == Size(faces.Model()) && n <= |faces.slots|
    {
      faces.Num()
    }

    function NumPoints(): (n: nat)
      reads points
      ensures n == Size(points.Model()) && n <= |points.slots|
    {
      points.Num()
    }

    // -------------------------------------------------------------------
    // Add and New

    method AddEdge(e: HalfEdge) returns (h: EdgeIndex)
      requires Valid()
      modifies edges
      ensures Valid()
      ensures CanAllocate(old(Model()).edges, h.offset) && h.generation == old(Model()).edges.generation
      ensures Model() == old(Model()).(edges := AddAt(old(Model()).edges, e, h.offset))
      ensures IsValid(Model().edges, h) && Get(Model().edges, h.offset) == e
      ensures Size(Model().edges) == Size(old(Model()).edges) + 1
    {
      h := edges.Add(e);
      AddAtProperties<HalfEdge, EdgeKind>(old(Model()).edges, e, h.offset);
    }

    method AddVertex(v: Vertex) returns (h: VertexIndex)
      requires Valid()
      modifies vertices
      ensures Valid()
      ensures CanAllocate(old(Model()).vertices, h.offset) && h.generation == old(Model()).vertices.generation
      ensures Model() == old(Model()).(vertices := AddAt(old(Model()).vertices, v, h.offset))
      ensures IsValid(Model().vertices, h) && Get(Model().vertices, h.offset) == v
      ensures Size(Model().vertices) == Size(old(Model()).vertices) + 1
    {
      h := vertices.Add(v);
      AddAtProperties<Vertex, VertexKind>(old(Model()).vertices, v, h.offset);
    }

    method AddFace(f: Face) returns (h: FaceIndex)
      requires Valid()
      modifies faces
      ensures Valid()
      ensures CanAllocate(old(Model()).faces, h.offset) && h.generation == old(Model()).faces.generation
      ensures Model() == old(Model()).(faces := AddAt(old(Model()).faces, f, h.offset))
      ensures IsValid(Model().faces, h) && Get(Model().faces, h.offset) == f
      ensures Size(Model().faces) == Size(old(Model()).faces) + 1
    {
      h := faces.Add(f);
      AddAtProperties<Face, FaceKind>(old(Model()).faces, f, h.offset);
    }

    method AddPoint(p: Point) returns (h: PointIndex)
      requires Valid()
      modifies points
      ensures Valid()
      ensures CanAllocate(old(Model()).points, h.offset) && h.generation == old(Model()).points.generation
      ensures Model() == old(Model()).(points := AddAt(old(Model()).points, p, h.offset))
      ensures IsValid(Model().points, h) && Get(Model().points, h.offset) == p
      ensures Size(Model().points) == Size(old(Model()).points) + 1
    {
      h := points.Add(p);
      AddAtProperties<Point, PointKind>(old(Model()).points, p, h.offset);
    }

    method NewEdge() returns (h: EdgeIndex, e: HalfEdge)
      requires Valid()
      modifies edges
      ensures Valid() && e == DefaultHalfEdge()
      ensures CanAllocate(old(Model()).edges, h.offset) && h.generation == old(Model()).edges.generation
      ensures Model() == old(Model()).(edges := AddAt(old(Model()).edges, e, h.offset))
    {
      h, e := edges.New();
    }

    method NewVertex() returns (h: VertexIndex, v: Vertex)
      requires Valid()
      modifies vertices
      ensures Valid() && v == DefaultVertex()
      ensures CanAllocate(old(Model()).vertices, h.offset) && h.generation == old(Model()).vertices.generation
      ensures Model() == old(Model()).(vertices := AddAt(old(Model()).vertices, v, h.offset))
    {
      h, v := vertices.New();
    }

    method NewFace() returns (h: FaceIndex, f: Face)
      requires Valid()
      modifies faces
      ensures Valid() && f == DefaultFace()
      ensures CanAllocate(old(Model()).faces, h.offset) && h.generation == old(Model()).faces.generation
      ensures Model() == old(Model()).(faces := AddAt(old(Model()).faces, f, h.offset))
    {
      h, f := faces.New();
    }

    /** A new point at a position; it lists no vertices. */
    method NewPoint(position: Position) returns (h: PointIndex, p: Point)
      requires Valid()
      modifies points
      ensures Valid() && p == PointAt(position)
      ensures CanAllocate(old(Model()).points, h.offset) && h.generation == old(Model()).points.generation
      ensures Model() == old(Model()).(points := AddAt(old(Model()).points, p, h.offset))
    {
      p := PointAt(position);
      h := points.Add(p);
    }

    /** Writing a face's root edge through the reference `Get` hands out. */
    method SetRootEdge(h: FaceIndex, root: EdgeIndex)
      requires Valid() && IsValidFace(h)
      modifies faces
      ensures Valid()
      ensures Model() == old(Model()).(faces := UpdateAt(old(Model()).faces, h.offset, old(GetFace(h)).(rootEdge := root)))
    {
      var f := faces.Get(h);
      faces.Update(h, f.(rootEdge := root));
    }

    // -------------------------------------------------------------------
    // MakeEdgePair, ConnectEdges, MakeFace

    /** Two new mutually adjacent half-edges, the first tagged with the face; returns the first. */
    method MakeEdgePair(face: FaceIndex) returns (h: EdgeIndex)
      requires Valid()
      modifies edges
      ensures Valid()
      ensures CanAllocate(old(Model()).edges, h.offset) && h.generation == old(Model()).edges.generation
      ensures IsAllocated(Model().edges, h.offset)
      ensures CanAllocate(AddAt(old(Model()).edges, DefaultHalfEdge(), h.offset), Get(Model().edges, h.offset).adjacent.offset)
      ensures Model() == Topology.MakeEdgePair(old(Model()), face, h.offset, Get(Model().edges, h.offset).adjacent.offset)
    {
      var g := edges.generation;
      var a, _ := edges.New();
      var b, _ := edges.New();
      edges.Update(a, FirstHalf(face, b));
      edges.Update(b, SecondHalf(a));
      h := a;
      MakeEdgePairCreatesTwins(old(Model()), face, a.offset, b.offset);
    }

    /** (...)[a] -> (V<p>)[b]: splices a to b through a new vertex on p and returns the vertex. */
    method ConnectEdges(a: EdgeIndex, p: PointIndex, b: EdgeIndex) returns (v: VertexIndex)
      requires Valid()
      requires edges.IsAllocated(a.offset) && edges.IsAllocated(b.offset)
      modifies edges, vertices, points
      ensures Valid()
      ensures CanAllocate(old(Model()).vertices, v.offset) && v.generation == old(Model()).vertices.generation
      ensures Model() == Topology.ConnectEdges(old(Model()), a, p, b, v.offset)
    {
      v := vertices.Add(DefaultVertex().(point := p, edge := b));
      var x := edges.Get(a);
      edges.Update(a, x.(next := b));
      var y := edges.Get(b);
      edges.Update(b, y.(prev := a, vertex := v));
      if points.IsValidHandle(p) {
        var q := points.Get(p);
        points.Update(p, Register(q, v));
      }
    }

    /** Walks the loop of a root edge. */
    method LoopOf(root: nat) returns (w: seq<nat>)
      requires edges.IsAllocated(root)
      ensures w == Loop(edges.Model(), root)
    {
      ghost var es := edges.Model();
      w := [];
      var cur := root;
      var fuel: nat := |edges.slots|;
      var going := true;
      while going && fuel > 0
        invariant IsAllocated(es, cur)
        invariant going ==> w + Walk(es, root, cur, fuel) == Loop(es, root)
        invariant !going ==> w == Loop(es, root)
        decreases fuel
      {
        var n := edges.Get(ElementIndex(cur, IGNORED_GENERATION)).next;
        assert Walk(es, root, cur, fuel) == [cur] + (if IsValid(es, n) && n.offset != root && n.offset != cur then Walk(es, root, n.offset, fuel - 1) else []);
        w := w + [cur];
        if edges.IsValidHandle(n) && n.offset != root && n.offset != cur {
          cur := n.offset;
        } else {
          going := false;
        }
        fuel := fuel - 1;
      }
    }

    /** Sets the face of every allocated edge listed in `loop`. */
    method StampLoop(loop: seq<nat>, f: FaceIndex)
      modifies edges
      ensures edges.Model() == StampFace(old(edges.Model()), loop, f)
    {
      ghost var es0 := edges.Model();
      var i := 0;
      while i < |loop|
        invariant 0 <= i <= |loop|
        invariant edges.Model() == StampFace(es0, loop[..i], f)
      {
        StampFaceStep(es0, loop, i, f);
        if edges.IsAllocated(loop[i]) {
          var h := ElementIndex(loop[i], IGNORED_GENERATION);
          var x := edges.Get(h);
          edges.Update(h, x.(face := f));
        }
        i := i + 1;
      }
      assert loop[..i] == loop;
    }

    /** A new face rooted at `root`, stamped onto every edge of the root's loop. */
    method MakeFace(root: EdgeIndex) returns (f: FaceIndex)
      requires Valid()
      modifies edges, faces
      ensures Valid()
      ensures CanAllocate(old(Model()).faces, f.offset) && f.generation == old(Model()).faces.generation
      ensures Model() == Topology.MakeFace(old(Model()), root, f.offset)
    {
      f := faces.Add(DefaultFace().(rootEdge := root));
      if edges.IsValidHandle(root) {
        var loop := LoopOf(root.offset);
        StampLoop(loop, f);
      }
    }

    // -------------------------------------------------------------------
    // Remove

    method RemovePoint(h: PointIndex)
      requires Valid()
      modifies vertices, points
      ensures Valid() && Model() == Topology.RemovePoint(old(Model()), h)
    {
      if points.IsValidHandle(h) {
        var listed := points.Get(h).vertices;
        ghost var vs0 := vertices.Model();
        var todo := listed;
        while todo != {}
          invariant todo <= listed
          invariant vertices.Model() == DetachVertices(vs0, listed - todo)
          invariant unchanged(points)
          decreases |todo|
        {
          var g :| g in todo;
          DetachVerticesStep(vs0, listed - todo, g);
          if vertices.IsValidHandle(g) {
            var v := vertices.Get(g);
            vertices.Update(g, v.(point := Invalid()));
          }
          assert (listed - todo) + {g} == listed - (todo - {g});
          todo := todo - {g};
        }
        assert listed - todo == listed;
        points.Remove(h);
      }
    }

    method RemoveVertex(h: VertexIndex)
      requires Valid()
      modifies edges, vertices, points
      ensures Valid() && Model() == Topology.RemoveVertex(old(Model()), h)
    {
      if vertices.IsValidHandle(h) {
        var v := vertices.Get(h);
        if points.IsValidHandle(v.point) {
          var p := points.Get(v.point);
          points.Update(v.point, p.(vertices := Forget(p.vertices, h.offset)));
        }
        if edges.IsValidHandle(v.edge) {
          var e := edges.Get(v.edge);
          if vertices.IsValidHandle(e.vertex) && e.vertex.offset == h.offset {
            edges.Update(v.edge, e.(vertex := Invalid()));
          }
        }
        vertices.Remove(h);
      }
    }

    method RemoveFace(h: FaceIndex)
      requires Valid()
      modifies edges, faces
      ensures Valid() && Model() == Topology.RemoveFace(old(Model()), h)
    {
      if faces.IsValidHandle(h) {
        var root := faces.Get(h).rootEdge;
        if edges.IsValidHandle(root) {
          var loop := LoopOf(root.offset);
          StampLoop(loop, Invalid());
        }
        faces.Remove(h);
      }
    }

    /** Clears the `prev` of neighbour n when it links back to e. */
    method ClearBackPrev(n: EdgeIndex, e: nat)
      modifies edges
      ensures edges.Model() == ClearPrevOf(old(edges.Model()), n, e)
    {
      if edges.IsValidHandle(n) && n.offset != e {
        var y := edges.Get(n);
        if edges.IsValidHandle(y.prev) && y.prev.offset == e {
          edges.Update(n, y.(prev := Invalid()));
        }
      }
    }

    /** Clears the `next` of neighbour p when it links on to e. */
    method ClearBackNext(p: EdgeIndex, e: nat)
      modifies edges
      ensures edges.Model() == ClearNextOf(old(edges.Model()), p, e)
    {
      if edges.IsValidHandle(p) && p.offset != e {
        var y := edges.Get(p);
        if edges.IsValidHandle(y.next) && y.next.offset == e {
          edges.Update(p, y.(next := Invalid()));
        }
      }
    }

    /** Moves the root of face fh off e, to e's next or prev edge, or to none; never to e's twin. */
    method RepairFaceRoot(fh: FaceIndex, e: nat)
      requires edges.IsAllocated(e)
      modifies faces
      ensures faces.Model() == RepairRoot(old(faces.Model()), edges.Model(), fh, e)
    {
      if faces.IsValidHandle(fh) {
        var f := faces.Get(fh);
        if f.rootEdge != Invalid() && edges.IsValidHandle(f.rootEdge) && f.rootEdge.offset == e {
          var x := edges.Get(ElementIndex(e, IGNORED_GENERATION));
          var twin := if edges.IsValidHandle(x.adjacent) then x.adjacent.offset else e;
          var root := if x.next != Invalid() && edges.IsValidHandle(x.next) && x.next.offset != e && x.next.offset != twin then x.next
            else if x.prev != Invalid() && edges.IsValidHandle(x.prev) && x.prev.offset != e && x.prev.offset != twin then x.prev
            else Invalid();
          faces.Update(fh, f.(rootEdge := root));
        }
      }
    }

    /**
     * Removes one half-edge and every back-reference to it; the vertex it
     * starts at goes too when e was that vertex's own edge.
     */
    method Detach(e: EdgeIndex)
      requires Valid() && edges.IsAllocated(e.offset)
      modifies edges, vertices, faces, points
      ensures Valid() && Model() == DetachEdge(old(Model()), e.offset)
    {
      var x := edges.Get(e);
      var orphan := false;
      if vertices.IsValidHandle(x.vertex) {
        var v := vertices.Get(x.vertex);
        orphan := edges.IsValidHandle(v.edge) && v.edge.offset == e.offset;
      }
      RepairFaceRoot(x.face, e.offset);
      ClearBackPrev(x.next, e.offset);
      ClearBackNext(x.prev, e.offset);
      edges.Remove(e);
      if orphan {
        RemoveVertex(x.vertex);
      }
    }

    /** Removes a half-edge and its adjacent twin. */
    method RemoveEdge(h: EdgeIndex)
      requires Valid()
      modifies edges, vertices, faces, points
      ensures Valid() && Model() == Topology.RemoveEdge(old(Model()), h)
    {
      if edges.IsValidHandle(h) {
        var t := edges.Get(h).adjacent;
        var twin := edges.IsValidHandle(t) && t.offset != h.offset;
        Detach(h);
        if twin {
          DetachEdgeEdges(old(Model()), h.offset);
          Detach(t);
        }
      }
    }

    // -------------------------------------------------------------------
    // Defrag

    /** Compacts the four buffers, then rewrites every cross-reference through their remap tables. */
    method Defrag()
      requires Valid()
      modifies edges, vertices, faces, points
      ensures Valid() && Model() == Topology.Defrag(old(Model()))
    {
      ghost var m0 := Model();
      var ge, gv, gf, gp := edges.generation, vertices.generation, faces.generation, points.generation;
      var te := edges.Compact();
      var tv := vertices.Compact();
      var tf := faces.Compact();
      var tp := points.Compact();
      var t := Remapping(te, ge, tv, gv, tf, gf, tp, gp);
      assert t == RemappingOf(m0);
      edges.Rewrite(EdgeRemapper(t));
      vertices.Rewrite(VertexRemapper(t));
      faces.Rewrite(FaceRemapper(t));
      points.Rewrite(PointRemapper(t));
    }
  }
}
