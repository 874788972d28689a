/**
 * The half-edge mesh as the kernel's tests build it: a fresh triangle, and
 * two triangles that share an edge. Two general facts about `make_face`
 * carry the examples: each collected half-edge runs along its vertex pair,
 * and every half-edge `make_face` makes is either collected or the twin of a
 * collected one.
 */
module HalfEdgeExamples {
  import opened Core
  import opened HalfEdgeMesh
  import opened HalfEdgeValidate

  /** The tables of `Mesh::new`. */
  const NoTables: Tables := Tables(map[], map[], map[], map[], map[], 0, 0, 0, 0, 0)

  /** Every half-edge of `H` that is not in `H0` is in `acc`, or is the twin of one that is. */
  ghost predicate PairedWith(H0: HalfEdges, H: HalfEdges, acc: seq<HalfEdgeId>) {
    forall h :: h in H && h !in H0 ==> h in acc || (H[h].twin.Some? && H[h].twin.value in acc)
  }

  /** One pair of the first phase keeps every new half-edge collected or twinned with a collected one. */
  lemma ResolveStepPaired(H0: HalfEdges, t: Tables, from: VertexId, to: VertexId, acc: seq<HalfEdgeId>)
    requires TablesWF(t) && from in t.V && to in t.V && PairedWith(H0, t.H, acc)
    ensures var (res, t1) := ResolveStep(t, from, to);
      res.Some? ==> PairedWith(H0, t1.H, acc + [res.value])
  {
    var (res, t1) := ResolveStep(t, from, to);
    if res.Some? {
      var acc1 := acc + [res.value];
      if Resolve(t.H, t.hcap, from, to).Fresh? {
        var ha, hb := t.hcap, t.hcap + 1;
        assert t1.H == WithTwinPair(t.H, from, to, ha, hb, t.ecap) && res.value == ha;
        forall h | h in t1.H && h !in H0 ensures h in acc1 || (t1.H[h].twin.Some? && t1.H[h].twin.value in acc1) {
          if h != ha && h != hb {
            assert t1.H[h] == t.H[h];
          }
        }
      }
    }
  }

  /** The first phase keeps every new half-edge collected or twinned with a collected one. */
  lemma {:induction false} CollectPaired(H0: HalfEdges, t: Tables, vs: seq<VertexId>, i: nat, acc: seq<HalfEdgeId>)
    requires TablesWF(t) && i <= |vs| && forall j :: 0 <= j < |vs| ==> vs[j] in t.V
    requires PairedWith(H0, t.H, acc)
    ensures var (_, fhs, t') := CollectFrom(t, vs, i, acc);
      PairedWith(H0, t'.H, fhs)
    decreases |vs| - i
  {
    if i < |vs| {
      var from, to := vs[i], vs[Succ(i, |vs|)];
      var (res, t1) := ResolveStep(t, from, to);
      if res.Some? {
        var acc1 := acc + [res.value];
        assert TablesWF(t1) && t1.V.Keys == t.V.Keys && PairedWith(H0, t1.H, acc1) by {
          ResolveStepFacts(t, from, to);
          ResolveStepPaired(H0, t, from, to, acc);
        }
        CollectPaired(H0, t1, vs, i + 1, acc1);
        assert CollectFrom(t, vs, i, acc) == CollectFrom(t1, vs, i + 1, acc1);
      } else {
        assert CollectFrom(t, vs, i, acc) == (true, acc, t);
      }
    } else {
      assert CollectFrom(t, vs, i, acc) == (false, acc, t);
    }
  }

  /**
   * Every half-edge a successful `make_face` adds is one of the face's
   * half-edges or the twin of one: it makes nothing else.
   */
  lemma MakeFacePaired(t: Tables, vs: seq<VertexId>)
    requires TablesWF(t)
    ensures var (r, t', hs) := MakeFaceSpec(t, vs);
      r.Ok? ==> PairedWith(t.H, t'.H, hs)
  {
    if |vs| >= 3 && forall i :: 0 <= i < |vs| ==> vs[i] in t.V {
      var (conflict, fhs, t1) := CollectFrom(t, vs, 0, []);
      assert PairedWith(t.H, t1.H, fhs) by {
        CollectPaired(t.H, t, vs, 0, []);
      }
      MakeFaceSplits(t, vs);
      if !conflict {
        var t' := FaceAdded(t1, fhs);
        FaceAddedFields(t1, fhs);
        LinkedFrame(t1.H, fhs, t1.fcap, t1.lcap, |fhs|);
        assert SameShape(t1.H, t'.H);
      }
    }
  }

  /** Over distinct vertices, each half-edge of a new face runs from its vertex to the next one. */
  lemma MakeFaceRuns(t: Tables, C: Cycles, vs: seq<VertexId>)
    requires Valid(t, C) && Distinct(vs)
    ensures var (r, t', hs) := MakeFaceSpec(t, vs);
      r.Ok? ==> |hs| == |vs| && forall j :: 0 <= j < |hs| ==> Runs(t'.H, hs[j], vs[j], vs[Succ(j, |vs|)])
  {
    if |vs| >= 3 && forall i :: 0 <= i < |vs| ==> vs[i] in t.V {
      var (conflict, fhs, t1) := CollectFrom(t, vs, 0, []);
      assert forall j :: 0 <= j < |fhs| ==> Runs(t1.H, fhs[j], vs[j], vs[Succ(j, |vs|)]) by {
        CollectKeepsValid(t, C, vs, 0, []);
      }
      MakeFaceSplits(t, vs);
      if !conflict {
        var t' := FaceAdded(t1, fhs);
        FaceAddedFields(t1, fhs);
        LinkedFrame(t1.H, fhs, t1.fcap, t1.lcap, |fhs|);
        assert SameShape(t1.H, t'.H);
        forall j | 0 <= j < |fhs| ensures Runs(t'.H, fhs[j], vs[j], vs[Succ(j, |vs|)]) {
          assert Runs(t1.H, fhs[j], vs[j], vs[Succ(j, |vs|)]);
        }
      }
    }
  }

  /**
   * Old half-edges keep their origin, twin and edge through a successful
   * `make_face`; only their links and tags may change.
   */
  lemma MakeFaceKeepsShape(t: Tables, vs: seq<VertexId>)
    requires TablesWF(t)
    ensures var (r, t', hs) := MakeFaceSpec(t, vs);
      r.Ok? ==> forall h :: h in t.H ==>
        h in t'.H && t'.H[h].origin == t.H[h].origin && t'.H[h].twin == t.H[h].twin && t'.H[h].edge == t.H[h].edge
  {
    if |vs| >= 3 && forall i :: 0 <= i < |vs| ==> vs[i] in t.V {
      var (conflict, fhs, t1) := CollectFrom(t, vs, 0, []);
      assert Extends(t.H, t1.H) by {
        CollectGrows(t, vs, 0, []);
      }
      MakeFaceSplits(t, vs);
      if !conflict {
        var t' := FaceAdded(t1, fhs);
        FaceAddedFields(t1, fhs);
        LinkedFrame(t1.H, fhs, t1.fcap, t1.lcap, |fhs|);
        assert SameShape(t1.H, t'.H);
      }
    }
  }

  // ----- Faces over untouched vertex pairs -----

  /** With no half-edge joining `from` and `to`, `make_face` makes a new edge for that pair. */
  lemma NoJoinFresh(H: HalfEdges, cap: nat, from: VertexId, to: VertexId)
    requires forall h :: h in H ==> !Joins(H, h, from, to)
    ensures Resolve(H, cap, from, to) == Fresh
  {
    var fwd, rev := FirstRun(H, from, to, cap), FirstRun(H, to, from, cap);
    if fwd.Some? {
      assert Joins(H, fwd.value, from, to);
    }
    if rev.Some? {
      assert Joins(H, rev.value, from, to);
    }
  }

  /** Pairs that all need a new edge each count once. */
  lemma {:induction false} AllFreshCount(H: HalfEdges, cap: nat, vs: seq<VertexId>, k: nat)
    requires k <= |vs| && forall j :: 0 <= j < k ==> ResolveAt(H, cap, vs, j).Fresh?
    ensures FreshCount(H, cap, vs, k) == k
  {
    if k > 0 {
      AllFreshCount(H, cap, vs, k - 1);
    }
  }

  /**
   * A face over distinct known vertices, no pair of which is joined by a
   * half-edge yet, succeeds and makes one edge (two half-edges) per side,
   * one loop and one face.
   */
  lemma FreshFace(t: Tables, vs: seq<VertexId>)
    requires TablesWF(t) && |vs| >= 3 && Distinct(vs) && forall i :: 0 <= i < |vs| ==> vs[i] in t.V
    requires forall h, j :: h in t.H && 0 <= j < |vs| ==> !Joins(t.H, h, vs[j], vs[Succ(j, |vs|)])
    ensures var (r, t', hs) := MakeFaceSpec(t, vs);
      r == Ok(t.fcap) && |hs| == |vs| &&
      |t'.E| == |t.E| + |vs| && |t'.H| == |t.H| + 2 * |vs| && |t'.L| == |t.L| + 1 && |t'.F| == |t.F| + 1
  {
    forall j | 0 <= j < |vs| ensures ResolveAt(t.H, t.hcap, vs, j).Fresh? {
      NoJoinFresh(t.H, t.hcap, vs[j], vs[Succ(j, |vs|)]);
    }
    AllFreshCount(t.H, t.hcap, vs, |vs|);
    MakeFaceResolution(t, vs);
    MakeFaceAdds(t, vs);
  }

  // ----- One triangle -----

  /** The tables of a new mesh after `add_vertex` at `p0`, `p1` and `p2`: vertex handles 0, 1 and 2. */
  function ThreeVertices(p0: Vec3, p1: Vec3, p2: Vec3): Tables {
    AddVertexSpec(AddVertexSpec(AddVertexSpec(NoTables, p0), p1), p2)
  }

  /** Tables with vertices only satisfy the construction invariant, with no face rings. */
  lemma VerticesOnlyValid(t: Tables)
    requires SlotsBounded(t) && t.H == map[] && t.E == map[] && t.L == map[] && t.F == map[]
    requires forall v :: v in t.V ==> t.V[v].halfedge.None?
    ensures Valid(t, map[])
  {
  }

  /**
   * `make_triangle(v0, v1, v2)` on a fresh mesh: it succeeds with 3 vertices,
   * 3 edges, 6 half-edges, one loop and one face, and the mesh validates.
   */
  lemma FreshTriangle(p0: Vec3, p1: Vec3, p2: Vec3)
    ensures var t := ThreeVertices(p0, p1, p2);
      var (r, t', hs) := MakeFaceSpec(t, [0, 1, 2]);
      r == Ok(0) && |t'.V| == 3 && |t'.E| == 3 && |t'.H| == 6 && |t'.L| == 1 && |t'.F| == 1 && Validates(t')
  {
    ThreeVerticesOnly(p0, p1, p2);
    FreshTriangleOn(ThreeVertices(p0, p1, p2));
  }

  /** Three `add_vertex` calls on a new mesh leave vertices 0, 1 and 2 and nothing else. */
  lemma ThreeVerticesOnly(p0: Vec3, p1: Vec3, p2: Vec3)
    ensures var t := ThreeVertices(p0, p1, p2); VerticesOnly(t) && t.V.Keys == {0, 1, 2} && t.fcap == 0
  {
    var t := ThreeVertices(p0, p1, p2);
    assert t.V == map[0 := Vertex(p0, None), 1 := Vertex(p1, None), 2 := Vertex(p2, None)];
  }

  /** `make_triangle(0, 1, 2)` on tables holding exactly the vertices 0, 1 and 2. */
  lemma FreshTriangleOn(t: Tables)
    requires VerticesOnly(t) && t.V.Keys == {0, 1, 2} && t.fcap == 0
    ensures var (r, t', hs) := MakeFaceSpec(t, [0, 1, 2]);
      r == Ok(0) && |t'.V| == 3 && |t'.E| == 3 && |t'.H| == 6 && |t'.L| == 1 && |t'.F| == 1 && Validates(t')
  {
    FreshTriangleCounts(t);
    FreshTriangleValidates(t);
  }

  /** The counts of that triangle: three vertices and edges, six half-edges, one loop and one face. */
  lemma FreshTriangleCounts(t: Tables)
    requires VerticesOnly(t) && t.V.Keys == {0, 1, 2} && t.fcap == 0
    ensures var (r, t', hs) := MakeFaceSpec(t, [0, 1, 2]);
      r == Ok(0) && |t'.V| == 3 && |t'.E| == 3 && |t'.H| == 6 && |t'.L| == 1 && |t'.F| == 1
  {
    VerticesOnlyValid(t);
    FreshFace(t, [0, 1, 2]);
    MakeFaceOutcome(t, [0, 1, 2]);
    var t' := MakeFaceSpec(t, [0, 1, 2]).1;
    assert |t'.V| == |t'.V.Keys| == 3;
  }

  /** Any face over distinct vertices made on tables holding vertices only validates. */
  lemma FreshTriangleValidates(t: Tables)
    requires VerticesOnly(t)
    ensures Validates(MakeFaceSpec(t, [0, 1, 2]).1)
  {
    VerticesOnlyValid(t);
    var (r, t', hs) := MakeFaceSpec(t, [0, 1, 2]);
    var C': Cycles := if r.Ok? then map[r.value := hs] else map[];
    MakeFaceBuilt(t, map[], [0, 1, 2], r, t', hs, C');
    BuiltValidates(t', C');
  }

  // ----- Two triangles sharing an edge -----

  /** Tables holding vertices only: no half-edge, edge, loop or face, and no vertex with an outgoing half-edge. */
  ghost predicate VerticesOnly(t: Tables) {
    SlotsBounded(t) && t.H == map[] && t.E == map[] && t.L == map[] && t.F == map[] &&
    forall v :: v in t.V ==> t.V[v].halfedge.None?
  }

  /** The state after a first face `[a, b, c]` on tables holding vertices only. */
  ghost predicate FirstFace(t5: Tables, C5: Cycles, f: FaceId, a: VertexId, b: VertexId, c: VertexId, hs: seq<HalfEdgeId>) {
    var vs := [a, b, c];
    Distinct(vs) && Valid(t5, C5) && C5 == map[f := hs] && |hs| == 3 && PairedWith(map[], t5.H, hs) &&
    forall j :: 0 <= j < 3 ==> Runs(t5.H, hs[j], vs[j], vs[Succ(j, 3)]) && t5.H[hs[j]].face == Some(f)
  }

  /** After the first face, every half-edge and its twin start at a vertex of that face. */
  lemma FirstFaceTouches(t5: Tables, C5: Cycles, f: FaceId, a: VertexId, b: VertexId, c: VertexId, hs: seq<HalfEdgeId>, h: HalfEdgeId)
    requires FirstFace(t5, C5, f, a, b, c, hs) && h in t5.H
    ensures t5.H[h].twin.Some? && t5.H[h].twin.value in t5.H
    ensures t5.H[h].origin in {a, b, c} && t5.H[t5.H[h].twin.value].origin in {a, b, c}
  {
    var vs := [a, b, c];
    assert TwinOk(t5.V, t5.H, t5.E, h);
    if h !in hs {
      var i :| 0 <= i < 3 && t5.H[h].twin.value == hs[i];
      assert Runs(t5.H, hs[i], vs[i], vs[Succ(i, 3)]);
      assert TwinOk(t5.V, t5.H, t5.E, hs[i]);
    } else {
      var i :| 0 <= i < 3 && h == hs[i];
      assert Runs(t5.H, hs[i], vs[i], vs[Succ(i, 3)]);
    }
  }

  /** After the first face, a pair with a vertex off that face needs a new edge. */
  lemma OffFaceFresh(t5: Tables, C5: Cycles, f: FaceId, a: VertexId, b: VertexId, c: VertexId, hs: seq<HalfEdgeId>,
                     u: VertexId, d: VertexId)
    requires FirstFace(t5, C5, f, a, b, c, hs) && d !in {a, b, c}
    ensures Resolve(t5.H, t5.hcap, u, d) == Fresh && Resolve(t5.H, t5.hcap, d, u) == Fresh
  {
    forall h | h in t5.H ensures !Joins(t5.H, h, u, d) && !Joins(t5.H, h, d, u) {
      FirstFaceTouches(t5, C5, f, a, b, c, hs, h);
    }
    NoJoinFresh(t5.H, t5.hcap, u, d);
    NoJoinFresh(t5.H, t5.hcap, d, u);
  }

  /**
   * After the first face `[a, b, c]`, the pair `b, a` reuses the faceless twin
   * of the face's half-edge from `a` to `b`.
   */
  lemma ReversedPairReused(t5: Tables, C5: Cycles, f: FaceId, a: VertexId, b: VertexId, c: VertexId, hs: seq<HalfEdgeId>)
    requires FirstFace(t5, C5, f, a, b, c, hs)
    ensures Resolve(t5.H, t5.hcap, b, a).Reuse?
    ensures var x := Resolve(t5.H, t5.hcap, b, a).h;
      x in t5.H && x !in hs && t5.H[x].twin == Some(hs[0]) && Runs(t5.H, x, b, a)
  {
    var vs := [a, b, c];
    assert Runs(t5.H, hs[0], a, b) && Runs(t5.H, hs[1], b, c);
    var tw := t5.H[hs[0]].twin.value;
    assert TwinOk(t5.V, t5.H, t5.E, hs[0]);
    assert Runs(t5.H, tw, b, a) && tw < t5.hcap;
    var found := FirstRun(t5.H, b, a, t5.hcap);
    assert found.Some?;
    var x := found.value;
    assert Runs(t5.H, x, b, a);
    assert t5.H[x].face.None?;
    assert Resolve(t5.H, t5.hcap, b, a) == Reuse(x);
    assert x !in hs;
    var y := t5.H[x].twin.value;
    assert TwinOk(t5.V, t5.H, t5.E, x);
    assert y in hs;
    var i :| 0 <= i < 3 && y == hs[i];
    assert Runs(t5.H, hs[i], vs[i], vs[Succ(i, 3)]);
    assert i == 0;
  }

  /** A first face on tables holding vertices only succeeds and takes the next face handle. */
  lemma FirstFaceCounts(t: Tables, a: VertexId, b: VertexId, c: VertexId)
    requires VerticesOnly(t) && Distinct([a, b, c]) && a in t.V && b in t.V && c in t.V
    ensures var (r, t5, hs) := MakeFaceSpec(t, [a, b, c]);
      r == Ok(t.fcap) && |t5.E| == 3 && |t5.H| == 6 && |t5.F| == 1 && t5.fcap == t.fcap + 1 && t5.V.Keys == t.V.Keys
  {
    var vs := [a, b, c];
    FreshFace(t, vs);
    MakeFaceOutcome(t, vs);
    assert MakeFaceSpec(t, vs).1.fcap == t.fcap + 1 by {
      MakeFaceSplits(t, vs);
      CollectGrows(t, vs, 0, []);
    }
  }

  /** The state after a first face on tables holding vertices only, as `FirstFace` states it. */
  lemma FirstFaceState(t: Tables, a: VertexId, b: VertexId, c: VertexId)
    requires VerticesOnly(t) && Distinct([a, b, c]) && a in t.V && b in t.V && c in t.V
    ensures var (r, t5, hs) := MakeFaceSpec(t, [a, b, c]);
      r == Ok(t.fcap) ==> FirstFace(t5, map[t.fcap := hs], t.fcap, a, b, c, hs)
  {
    var vs := [a, b, c];
    var (r, t5, hs) := MakeFaceSpec(t, vs);
    VerticesOnlyValid(t);
    if r == Ok(t.fcap) {
      assert Valid(t5, map[t.fcap := hs]) by {
        MakeFaceKeepsValid(t, map[], vs);
      }
      assert forall j :: 0 <= j < 3 ==> Runs(t5.H, hs[j], vs[j], vs[Succ(j, 3)]) by {
        MakeFaceRuns(t, map[], vs);
      }
      assert PairedWith(map[], t5.H, hs) by {
        MakeFacePaired(t, vs);
      }
      assert |hs| == 3 && forall j :: 0 <= j < 3 ==> t5.H[hs[j]].face == Some(t.fcap) by {
        MakeFaceAdds(t, vs);
      }
    }
  }

  /** The two faces of edge `e`, in either order, are `f` and `g`. */
  ghost predicate EdgeBetween(t: Tables, e: EdgeId, f: FaceId, g: FaceId) {
    e in t.E && t.E[e].halfedgeA in t.H && t.E[e].halfedgeB in t.H &&
    ((t.H[t.E[e].halfedgeA].face == Some(f) && t.H[t.E[e].halfedgeB].face == Some(g)) ||
     (t.H[t.E[e].halfedgeA].face == Some(g) && t.H[t.E[e].halfedgeB].face == Some(f)))
  }

  /** Some edge lies between faces `f` and `g`. */
  ghost predicate SharesEdge(t: Tables, f: FaceId, g: FaceId) {
    exists e :: EdgeBetween(t, e, f, g)
  }

  /**
   * `make_face([a, b, c])` then `make_face([b, a, d])` on vertices only: the
   * second face reuses the twin of the first face's side from `a` to `b`,
   * giving 5 edges (not 6), 10 half-edges and 2 faces, with one edge whose
   * two half-edges belong to the two faces; the mesh validates.
   */
  lemma TwoFacesShareEdge(t: Tables, a: VertexId, b: VertexId, c: VertexId, d: VertexId)
    requires VerticesOnly(t) && a in t.V && b in t.V && c in t.V && d in t.V
    requires a != b && a != c && a != d && b != c && b != d && c != d
    ensures var (r1, t5, hs1) := MakeFaceSpec(t, [a, b, c]);
      r1 == Ok(t.fcap) && TablesWF(t5) &&
      var (r2, t6, hs2) := MakeFaceSpec(t5, [b, a, d]);
      r2.Ok? && r2.value == t.fcap + 1 &&
      |t6.E| == 5 && |t6.H| == 10 && |t6.F| == 2 && Validates(t6) &&
      SharesEdge(t6, t.fcap, t.fcap + 1)
  {
    FirstOfTwo(t, a, b, c, d);
    SecondOfTwo(t, a, b, c, d);
  }

  /** The first face of `TwoFacesShareEdge`. */
  lemma FirstOfTwo(t: Tables, a: VertexId, b: VertexId, c: VertexId, d: VertexId)
    requires VerticesOnly(t) && a in t.V && b in t.V && c in t.V && d in t.V
    requires a != b && a != c && a != d && b != c && b != d && c != d
    ensures var (r1, t5, hs1) := MakeFaceSpec(t, [a, b, c]);
      r1.Ok? && r1.value == t.fcap && TablesWF(t5) && |t5.E| == 3 && |t5.H| == 6 && |t5.F| == 1 &&
      t5.fcap == t.fcap + 1
  {
    FourDistinct(a, b, c, d);
    FirstFaceCounts(t, a, b, c);
    MakeFaceOutcome(t, [a, b, c]);
  }

  /** The second face of `TwoFacesShareEdge`, relative to the tables after the first. */
  lemma SecondOfTwo(t: Tables, a: VertexId, b: VertexId, c: VertexId, d: VertexId)
    requires VerticesOnly(t) && a in t.V && b in t.V && c in t.V && d in t.V
    requires a != b && a != c && a != d && b != c && b != d && c != d
    ensures var t5 := MakeFaceSpec(t, [a, b, c]).1;
      TablesWF(t5) &&
      var (r2, t6, hs2) := MakeFaceSpec(t5, [b, a, d]);
      r2.Ok? && r2.value == t5.fcap && |t6.E| == |t5.E| + 2 && |t6.H| == |t5.H| + 4 && |t6.F| == |t5.F| + 1 &&
      Validates(t6) && SharesEdge(t6, t.fcap, t5.fcap)
  {
    var f := t.fcap;
    FourDistinct(a, b, c, d);
    FirstFaceCounts(t, a, b, c);
    MakeFaceOutcome(t, [a, b, c]);
    FirstFaceState(t, a, b, c);
    var (r1, t5, hs1) := MakeFaceSpec(t, [a, b, c]);
    var C5 := map[f := hs1];
    AfterFirstFace(t5, C5, f, a, b, c, d, hs1);
    var (r2, t6, hs2) := MakeFaceSpec(t5, [b, a, d]);
    BuiltValidates(t6, C5[t5.fcap := hs2]);
  }

  /** The second face `[b, a, d]` after a first face `[a, b, c]`, with `d` off that face. */
  lemma AfterFirstFace(t5: Tables, C5: Cycles, f: FaceId, a: VertexId, b: VertexId, c: VertexId, d: VertexId, hs1: seq<HalfEdgeId>)
    requires FirstFace(t5, C5, f, a, b, c, hs1) && d !in {a, b, c} && Distinct([b, a, d])
    requires a in t5.V && b in t5.V && d in t5.V
    ensures var (r, t', hs) := MakeFaceSpec(t5, [b, a, d]);
      r == Ok(t5.fcap) && |t'.E| == |t5.E| + 2 && |t'.H| == |t5.H| + 4 && |t'.F| == |t5.F| + 1 &&
      Valid(t', C5[t5.fcap := hs]) && SharesEdge(t', f, t5.fcap)
  {
    var vs := [b, a, d];
    SecondFaceResolves(t5, C5, f, a, b, c, d, hs1);
    var x := Resolve(t5.H, t5.hcap, b, a).h;
    var y := hs1[0];
    assert Valid(t5, C5) && y in t5.H && t5.H[y].face == Some(f) by {
      assert Runs(t5.H, hs1[0], a, b);
    }
    assert y != x;
    assert Distinct(vs) && forall i :: 0 <= i < 3 ==> vs[i] in t5.V;
    SecondFaceFrom(t5, C5, vs, x, y, f);
  }

  /** `SecondFace` from the resolution of the pairs. */
  lemma SecondFaceFrom(t: Tables, C: Cycles, vs: seq<VertexId>, x: HalfEdgeId, y: HalfEdgeId, g: FaceId)
    requires Valid(t, C) && |vs| == 3 && Distinct(vs) && forall i :: 0 <= i < 3 ==> vs[i] in t.V
    requires ResolveAt(t.H, t.hcap, vs, 0) == Reuse(x)
    requires ResolveAt(t.H, t.hcap, vs, 1) == Fresh && ResolveAt(t.H, t.hcap, vs, 2) == Fresh
    requires x in t.H && t.H[x].twin == Some(y) && y in t.H && y != x && t.H[y].face == Some(g)
    ensures var (r, t', hs) := MakeFaceSpec(t, vs);
      r == Ok(t.fcap) && |t'.E| == |t.E| + 2 && |t'.H| == |t.H| + 4 && |t'.F| == |t.F| + 1 &&
      Valid(t', C[t.fcap := hs]) && SharesEdge(t', g, t.fcap)
  {
    assert TablesWF(t);
    OneReusedCounts(t, vs, x);
    SecondFace(t, C, vs, x, y, g);
  }

  /** Four different vertices give the two vertex lists of the example distinct entries. */
  lemma FourDistinct(a: VertexId, b: VertexId, c: VertexId, d: VertexId)
    requires a != b && a != c && a != d && b != c && b != d && c != d
    ensures Distinct([a, b, c]) && Distinct([b, a, d]) && d !in {a, b, c}
  {
  }

  /** How the pairs of a second face `[b, a, d]` resolve after a first face `[a, b, c]`, with `d` off that face. */
  lemma SecondFaceResolves(t5: Tables, C5: Cycles, f: FaceId, a: VertexId, b: VertexId, c: VertexId, d: VertexId, hs1: seq<HalfEdgeId>)
    requires FirstFace(t5, C5, f, a, b, c, hs1) && d !in {a, b, c}
    ensures Resolve(t5.H, t5.hcap, b, a).Reuse?
    ensures var x := Resolve(t5.H, t5.hcap, b, a).h;
      ResolveAt(t5.H, t5.hcap, [b, a, d], 0) == Reuse(x) && x in t5.H && x !in hs1 && t5.H[x].twin == Some(hs1[0]) &&
      ResolveAt(t5.H, t5.hcap, [b, a, d], 1) == Fresh && ResolveAt(t5.H, t5.hcap, [b, a, d], 2) == Fresh
  {
    ReversedPairReused(t5, C5, f, a, b, c, hs1);
    OffFaceFresh(t5, C5, f, a, b, c, hs1, a, d);
    OffFaceFresh(t5, C5, f, a, b, c, hs1, b, d);
  }

  /** A triangle whose first pair reuses a half-edge and whose other two pairs are new succeeds with two new edges. */
  lemma OneReusedCounts(t: Tables, vs: seq<VertexId>, x: HalfEdgeId)
    requires TablesWF(t) && |vs| == 3 && Distinct(vs) && forall i :: 0 <= i < 3 ==> vs[i] in t.V
    requires ResolveAt(t.H, t.hcap, vs, 0) == Reuse(x)
    requires ResolveAt(t.H, t.hcap, vs, 1) == Fresh && ResolveAt(t.H, t.hcap, vs, 2) == Fresh
    ensures var (r, t', hs) := MakeFaceSpec(t, vs);
      r == Ok(t.fcap) && |t'.E| == |t.E| + 2 && |t'.H| == |t.H| + 4 && |t'.F| == |t.F| + 1 && |hs| == 3 &&
      hs[0] == x && hs[1] !in t.H && hs[2] !in t.H && forall h :: h in t.H && h != x ==> h !in hs
  {
    assert FreshCount(t.H, t.hcap, vs, 1) == 0;
    assert FreshCount(t.H, t.hcap, vs, 2) == 1;
    assert FreshCount(t.H, t.hcap, vs, 3) == 2;
    MakeFaceResolution(t, vs);
    MakeFaceAdds(t, vs);
    var (r, t', hs) := MakeFaceSpec(t, vs);
    assert ResolvedAs(t.H, t.hcap, vs, hs);
    assert ResolveAt(t.H, t.hcap, vs, 0) == Reuse(x);
  }

  /**
   * A successful face whose first half-edge `x` is old, with old twin `y`
   * kept out of the face, puts the edge of `x` between the face of `y` and
   * the new face.
   */
  lemma ReusedEdgeBetween(t: Tables, C: Cycles, vs: seq<VertexId>, x: HalfEdgeId, y: HalfEdgeId, g: FaceId)
    requires Valid(t, C) && Distinct(vs) && x in t.H && t.H[x].twin == Some(y) && y in t.H && t.H[y].face == Some(g)
    requires var (r, t', hs) := MakeFaceSpec(t, vs);
      r.Ok? && |hs| > 0 && hs[0] == x && y !in hs
    ensures var (r, t', hs) := MakeFaceSpec(t, vs);
      x in t'.H && t'.H[x].edge.Some? && EdgeBetween(t', t'.H[x].edge.value, g, r.value)
  {
    var (r, t', hs) := MakeFaceSpec(t, vs);
    assert t'.H[y] == t.H[y] by {
      MakeFaceKeepsOthers(t, vs);
    }
    assert t'.H[x].face == Some(r.value) by {
      MakeFaceAdds(t, vs);
    }
    assert Valid(t', C[r.value := hs]) by {
      MakeFaceKeepsValid(t, C, vs);
    }
    assert t'.H[x].twin == Some(y) by {
      MakeFaceKeepsShape(t, vs);
    }
    assert TwinOk(t'.V, t'.H, t'.E, x);
    assert EdgeOk(t'.H, t'.E, t'.H[x].edge.value);
    assert t'.H[y].face == Some(g);
  }

  /**
   * A triangle whose first half-edge is an old `x`, with old twin `y` of
   * face `g` kept out of it, keeps the construction invariant and shares
   * the edge of `x` with face `g`.
   */
  lemma SecondFace(t: Tables, C: Cycles, vs: seq<VertexId>, x: HalfEdgeId, y: HalfEdgeId, g: FaceId)
    requires Valid(t, C) && Distinct(vs) && x in t.H && t.H[x].twin == Some(y) && y in t.H && t.H[y].face == Some(g)
    requires var (r, t', hs) := MakeFaceSpec(t, vs);
      r == Ok(t.fcap) && |hs| == 3 && hs[0] == x && y !in hs
    ensures var (r, t', hs) := MakeFaceSpec(t, vs);
      Valid(t', C[t.fcap := hs]) && SharesEdge(t', g, t.fcap)
  {
    var (r, t', hs) := MakeFaceSpec(t, vs);
    ReusedEdgeBetween(t, C, vs, x, y, g);
    assert EdgeBetween(t', t'.H[x].edge.value, g, t.fcap);
    MakeFaceKeepsValid(t, C, vs);
  }

  /** The tables of a new mesh after `add_vertex` at four positions: vertex handles 0 to 3. */
  function FourVertices(p0: Vec3, p1: Vec3, p2: Vec3, p3: Vec3): Tables {
    AddVertexSpec(ThreeVertices(p0, p1, p2), p3)
  }

  /**
   * The two adjacent triangles `[v0, v1, v2]` and `[v1, v0, v3]` on a fresh
   * mesh of four vertices: 5 edges, 10 half-edges, 2 faces, the shared edge
   * reporting both faces, and the mesh validates.
   */
  lemma AdjacentTriangles(p0: Vec3, p1: Vec3, p2: Vec3, p3: Vec3)
    ensures var t := FourVertices(p0, p1, p2, p3);
      var (r1, t5, hs1) := MakeFaceSpec(t, [0, 1, 2]);
      r1 == Ok(0) && TablesWF(t5) &&
      var (r2, t6, hs2) := MakeFaceSpec(t5, [1, 0, 3]);
      r2 == Ok(1) && |t6.E| == 5 && |t6.H| == 10 && |t6.F| == 2 && Validates(t6) &&
      SharesEdge(t6, 0, 1)
  {
    var t := FourVertices(p0, p1, p2, p3);
    assert t.V == map[0 := Vertex(p0, None), 1 := Vertex(p1, None), 2 := Vertex(p2, None), 3 := Vertex(p3, None)];
    assert VerticesOnly(t);
    TwoFacesShareEdge(t, 0, 1, 2, 3);
  }
}
