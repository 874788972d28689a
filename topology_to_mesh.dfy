/**
 * `topology_mesh_to_triangles`: every face of a half-edge mesh, in slot
 * order, is walked with the face-vertex iterator; a face without an outer loop
 * or with fewer than three vertices is skipped, and every other face becomes
 * a fan over its vertex positions, merged into the result. Faces do not share
 * vertices in the result: each brings its own copies.
 *
 * The walk of a face is what its iterator yields in at most one step more
 * than there are half-edges, the cap the validator uses; on a closed ring
 * that is the whole ring.
 */
module TopologyToMesh {
  import opened Core
  import opened HalfEdgeMesh
  import opened HalfEdgeIter
  import opened HalfEdgeValidate
  import opened TriangleMeshes
  import opened FaceTessellator

  /** The vertices the face-vertex iterator of face `f` yields, or none when the face or its outer loop is missing. */
  function FaceLoop(t: Tables, f: FaceId): seq<VertexId> {
    match FaceStart(t.L, t.F, f)
    case None => []
    case Some(h) => VertexYield(t.H, h, Begin(h), |t.H| + 1)
  }

  /** Face `f` is turned into triangles: it exists and its walk has at least three vertices. */
  predicate Kept(t: Tables, f: FaceId) {
    f in t.F && |FaceLoop(t, f)| >= 3
  }

  /**
   * Every vertex a face walk yields is in the vertex table: the source looks
   * each one up by indexing, which panics on a missing vertex.
   */
  predicate KnownVertices(t: Tables) {
    forall f, k :: 0 <= f < t.fcap && 0 <= k < |FaceLoop(t, f)| ==> FaceLoop(t, f)[k] in t.V
  }

  /** The positions of the vertices `vs`, in order. */
  function Positions(V: Vertices, vs: seq<VertexId>): (r: seq<Vec3>)
    requires forall k :: 0 <= k < |vs| ==> vs[k] in V
    ensures |r| == |vs| && forall k :: 0 <= k < |vs| ==> r[k] == V[vs[k]].position
  {
    if vs == [] then [] else Positions(V, vs[..|vs| - 1]) + [V[vs[|vs| - 1]].position]
  }

  /** The faces below slot `n` that are turned into triangles, in slot order. */
  function KeptFaces(t: Tables, n: nat): seq<FaceId> {
    if n == 0 then []
    else KeptFaces(t, n - 1) + (if Kept(t, n - 1) then [n - 1] else [])
  }

  /** Every face in `fs` is a kept face below the slot count. */
  predicate KeptBelow(t: Tables, fs: seq<FaceId>) {
    forall i :: 0 <= i < |fs| ==> fs[i] < t.fcap && Kept(t, fs[i])
  }

  /** The positions of face `f`'s walk. */
  function FacePositions(t: Tables, f: FaceId): seq<Vec3>
    requires KnownVertices(t) && f < t.fcap
  {
    Positions(t.V, FaceLoop(t, f))
  }

  /** The fan of face `f`, as `tessellate_planar_face` builds it. */
  function FaceMesh(t: Tables, f: FaceId, unit: Vec3 -> Vec3): TriangleMesh
    requires KnownVertices(t) && f < t.fcap
  {
    PlanarFace(FacePositions(t, f), unit)
  }

  /** The fans of the faces `fs`, merged in order. */
  function FacesMesh(t: Tables, fs: seq<FaceId>, unit: Vec3 -> Vec3): TriangleMesh
    requires KnownVertices(t) && KeptBelow(t, fs)
  {
    if fs == [] then Empty
    else Merge(FacesMesh(t, fs[..|fs| - 1], unit), FaceMesh(t, fs[|fs| - 1], unit))
  }

  /** The faces below slot `n` that are kept are all kept and below the slot count. */
  lemma {:induction false} KeptFacesBelow(t: Tables, n: nat)
    requires n <= t.fcap
    ensures KeptBelow(t, KeptFaces(t, n))
  {
    if n > 0 {
      KeptFacesBelow(t, n - 1);
    }
  }

  /** What `topology_mesh_to_triangles` returns. */
  function MeshTriangles(t: Tables, unit: Vec3 -> Vec3): TriangleMesh
    requires KnownVertices(t)
  {
    KeptFacesBelow(t, t.fcap);
    FacesMesh(t, KeptFaces(t, t.fcap), unit)
  }

  /** `topology_mesh_to_triangles`, on a mesh whose face walks only reach known vertices. */
  method TopologyMeshToTriangles(m: Mesh, unit: Vec3 -> Vec3) returns (result: TriangleMesh)
    requires KnownVertices(m.Snapshot())
    ensures result == MeshTriangles(m.Snapshot(), unit)
  {
    ghost var t := m.Snapshot();
    result := Empty;
    var f: nat := 0;
    while f != m.faceSlots
      invariant f <= m.faceSlots && m.Snapshot() == t
      invariant KeptBelow(t, KeptFaces(t, f)) && result == FacesMesh(t, KeptFaces(t, f), unit)
    {
      KeptFacesBelow(t, f + 1);
      result := FaceStep(m, f, unit, result);
      f := f + 1;
    }
  }

  /** One pass of the face loop: face `f`'s fan merged into the result when the face is kept. */
  method FaceStep(m: Mesh, f: FaceId, unit: Vec3 -> Vec3, acc: TriangleMesh) returns (result: TriangleMesh)
    requires KnownVertices(m.Snapshot()) && f < m.faceSlots
    requires KeptBelow(m.Snapshot(), KeptFaces(m.Snapshot(), f)) && KeptBelow(m.Snapshot(), KeptFaces(m.Snapshot(), f + 1))
    requires acc == FacesMesh(m.Snapshot(), KeptFaces(m.Snapshot(), f), unit)
    ensures result == FacesMesh(m.Snapshot(), KeptFaces(m.Snapshot(), f + 1), unit)
  {
    ghost var t := m.Snapshot();
    result := acc;
    var it := FaceVertices(m, f);
    if it.None? {
      assert KeptFaces(t, f + 1) == KeptFaces(t, f) by {
        assert FaceLoop(t, f) == [];
      }
      return;
    }
    var vs := CollectVertices(it.value, |m.halfedges| + 1);
    assert vs == FaceLoop(t, f);
    var positions := Positions(m.vertices, vs);
    if |positions| < 3 {
      assert KeptFaces(t, f + 1) == KeptFaces(t, f) by {
        assert !Kept(t, f);
      }
      return;
    }
    var faceMesh := TessellatePlanarFace(positions, unit);
    assert faceMesh == FaceMesh(t, f, unit);
    result := Merge(result, faceMesh);
    assert KeptFaces(t, f + 1) == KeptFaces(t, f) + [f] by {
      assert Kept(t, f);
    }
    FacesMeshSnoc(t, KeptFaces(t, f), f, unit);
  }

  /** Merging one more face's fan onto the fans of `fs`. */
  lemma FacesMeshSnoc(t: Tables, fs: seq<FaceId>, f: FaceId, unit: Vec3 -> Vec3)
    requires KnownVertices(t) && KeptBelow(t, fs + [f])
    ensures KeptBelow(t, fs) && f < t.fcap
    ensures FacesMesh(t, fs + [f], unit) == Merge(FacesMesh(t, fs, unit), FaceMesh(t, f, unit))
  {
    assert (fs + [f])[..|fs|] == fs;
    assert (fs + [f])[|fs|] == f;
    assert KeptBelow(t, fs) by {
      forall i | 0 <= i < |fs| ensures fs[i] < t.fcap && Kept(t, fs[i]) {
        assert (fs + [f])[i] == fs[i];
      }
    }
  }

  // ----- properties -----

  /** A face is among the kept faces below `n` exactly when it is kept and below `n`; they are in increasing slot order. */
  lemma KeptFacesSpec(t: Tables, n: nat)
    ensures forall f: FaceId :: f in KeptFaces(t, n) <==> f < n && Kept(t, f)
    ensures forall i, j :: 0 <= i < j < |KeptFaces(t, n)| ==> KeptFaces(t, n)[i] < KeptFaces(t, n)[j]
  {
    KeptFacesMembers(t, n);
    KeptFacesIncrease(t, n);
  }

  /** The kept faces below `n` are exactly the faces below `n` that are kept. */
  lemma {:induction false} KeptFacesMembers(t: Tables, n: nat)
    ensures forall f: FaceId :: f in KeptFaces(t, n) <==> f < n && Kept(t, f)
  {
    if n > 0 {
      KeptFacesMembers(t, n - 1);
      var before := KeptFaces(t, n - 1);
      if Kept(t, n - 1) {
        assert KeptFaces(t, n) == before + [n - 1];
      } else {
        assert KeptFaces(t, n) == before;
      }
    }
  }

  /** The kept faces below `n` are listed in increasing slot order, all below `n`. */
  lemma {:induction false} KeptFacesIncrease(t: Tables, n: nat)
    ensures forall i :: 0 <= i < |KeptFaces(t, n)| ==> KeptFaces(t, n)[i] < n
    ensures forall i, j :: 0 <= i < j < |KeptFaces(t, n)| ==> KeptFaces(t, n)[i] < KeptFaces(t, n)[j]
  {
    if n > 0 {
      KeptFacesIncrease(t, n - 1);
      var before := KeptFaces(t, n - 1);
      if Kept(t, n - 1) {
        var after := before + [n - 1];
        assert KeptFaces(t, n) == after;
        assert forall i :: 0 <= i < |before| ==> after[i] == before[i];
      } else {
        assert KeptFaces(t, n) == before;
      }
    }
  }

  /** The number of vertices of the walks of the faces `fs`. */
  function LoopTotal(t: Tables, fs: seq<FaceId>): nat {
    if fs == [] then 0 else LoopTotal(t, fs[..|fs| - 1]) + |FaceLoop(t, fs[|fs| - 1])|
  }

  /** The positions of the faces `fs`, each face's own, one after the other. */
  function AllPositions(t: Tables, fs: seq<FaceId>): (r: seq<Vec3>)
    requires KnownVertices(t) && forall i :: 0 <= i < |fs| ==> fs[i] < t.fcap
  {
    if fs == [] then [] else AllPositions(t, fs[..|fs| - 1]) + FacePositions(t, fs[|fs| - 1])
  }

  /**
   * The merged fans hold each face's positions in turn, with no vertex shared
   * between faces, one normal per position, no texture coordinates, and
   * `size - 2` triangles per face, all naming positions.
   */
  lemma {:induction false} FacesMeshShape(t: Tables, fs: seq<FaceId>, unit: Vec3 -> Vec3)
    requires KnownVertices(t) && KeptBelow(t, fs)
    ensures var r := FacesMesh(t, fs, unit);
      Fans(r) && r.positions == AllPositions(t, fs) && |r.positions| == LoopTotal(t, fs) &&
      TriangleCount(r) == LoopTotal(t, fs) - 2 * |fs|
  {
    if fs != [] {
      var front, f := fs[..|fs| - 1], fs[|fs| - 1];
      assert KeptBelow(t, front) by {
        forall i | 0 <= i < |front| ensures front[i] < t.fcap && Kept(t, front[i]) {
          assert front[i] == fs[i];
        }
      }
      var acc, face := FacesMesh(t, front, unit), FaceMesh(t, f, unit);
      assert Fans(acc) && acc.positions == AllPositions(t, front) && |acc.positions| == LoopTotal(t, front) &&
        TriangleCount(acc) == LoopTotal(t, front) - 2 * |front| by {
        FacesMeshShape(t, front, unit);
      }
      assert Fans(face) && face.positions == FacePositions(t, f) && TriangleCount(face) == |FaceLoop(t, f)| - 2 by {
        assert Kept(t, f);
        PlanarFaceShape(FacePositions(t, f), unit);
      }
      MergeFans(acc, face);
    }
  }

  /** Fans merged so far: one normal per position, no texture coordinates, whole triangles naming positions. */
  predicate Fans(m: TriangleMesh) {
    |m.normals| == |m.positions| && m.uvs == [] && InRange(m) && WholeTriangles(m)
  }

  /** Merging two fans gives a fan with the positions of both and their triangles together. */
  lemma MergeFans(a: TriangleMesh, b: TriangleMesh)
    requires Fans(a) && Fans(b)
    ensures var r := Merge(a, b);
      Fans(r) && r.positions == a.positions + b.positions && TriangleCount(r) == TriangleCount(a) + TriangleCount(b)
  {
    MergeCounts(a, b);
    MergeInRange(a, b);
  }

  /** A mesh without faces gives the empty triangle mesh. */
  lemma EmptyTopology(t: Tables, unit: Vec3 -> Vec3)
    requires KnownVertices(t) && t.F == map[]
    ensures MeshTriangles(t, unit) == Empty
  {
    NothingKept(t, t.fcap);
  }

  /** Without faces nothing is kept. */
  lemma {:induction false} NothingKept(t: Tables, n: nat)
    requires t.F == map[]
    ensures KeptFaces(t, n) == []
  {
    if n > 0 {
      NothingKept(t, n - 1);
    }
  }

  /** The vertex and triangle counts of the converted mesh: the sizes of the kept faces' walks, and two fewer triangles per face. */
  lemma MeshTrianglesCounts(t: Tables, unit: Vec3 -> Vec3)
    requires KnownVertices(t)
    ensures var r := MeshTriangles(t, unit); var fs := KeptFaces(t, t.fcap);
      VertexCount(r) == LoopTotal(t, fs) && TriangleCount(r) == LoopTotal(t, fs) - 2 * |fs| &&
      InRange(r) && WholeTriangles(r)
  {
    KeptFacesBelow(t, t.fcap);
    FacesMeshShape(t, KeptFaces(t, t.fcap), unit);
  }

  // ----- on a built mesh -----

  /**
   * In a built mesh the walk of every face is the origins of its ring, so the
   * face is kept, and every vertex it reaches is known.
   */
  lemma BuiltFaceLoop(t: Tables, C: Cycles, f: FaceId)
    requires Valid(t, C) && f in t.F
    ensures forall k :: 0 <= k < |C[f]| ==> C[f][k] in t.H
    ensures FaceLoop(t, f) == Origins(t.H, C[f]) && |FaceLoop(t, f)| == |C[f]| >= 3 && Kept(t, f)
  {
    BuiltWalksRing(t, C, f);
    WalkIsLoop(t, f, C[f]);
  }

  /** The walk of a face of a built mesh runs along its ring. */
  lemma BuiltWalksRing(t: Tables, C: Cycles, f: FaceId)
    requires Valid(t, C) && f in t.F
    ensures WalksRing(t, f, C[f])
  {
    var ring := C[f];
    assert AllIn(t.H, ring) && 3 <= |ring| <= |t.H| by {
      RingInTable(t, C, f);
    }
    assert FaceStart(t.L, t.F, f) == Some(ring[0]) &&
      VertexYield(t.H, ring[0], Begin(ring[0]), |t.H| + 1) == Origins(t.H, ring) by {
      BuiltFaceWalk(t, C, f, |t.H| + 1);
    }
  }

  /** Every half-edge of `hs` is in the table. */
  ghost predicate AllIn(H: HalfEdges, hs: seq<HalfEdgeId>) {
    forall k :: 0 <= k < |hs| ==> hs[k] in H
  }

  /** Face `f`'s walk starts at the head of `ring`, a run of at least three half-edges of the table, and yields their origins. */
  ghost predicate WalksRing(t: Tables, f: FaceId, ring: seq<HalfEdgeId>) {
    f in t.F && |ring| >= 3 && AllIn(t.H, ring) &&
    FaceStart(t.L, t.F, f) == Some(ring[0]) &&
    VertexYield(t.H, ring[0], Begin(ring[0]), |t.H| + 1) == Origins(t.H, ring)
  }

  /** A face whose walk from the head of `ring` yields the ring's origins has those as its loop. */
  lemma WalkIsLoop(t: Tables, f: FaceId, ring: seq<HalfEdgeId>)
    requires WalksRing(t, f, ring)
    ensures forall k :: 0 <= k < |ring| ==> ring[k] in t.H
    ensures FaceLoop(t, f) == Origins(t.H, ring) && |FaceLoop(t, f)| == |ring| && Kept(t, f)
  {
  }

  /** The ring of a face of a built mesh has at least three distinct half-edges, all in the table, so it fits in the walk's cap. */
  lemma RingInTable(t: Tables, C: Cycles, f: FaceId)
    requires Valid(t, C) && f in t.F
    ensures AllIn(t.H, C[f]) && 3 <= |C[f]| <= |t.H|
  {
    assert FaceClosed(t.H, t.L, t.F, C, f);
    var l := t.F[f].outerLoop;
    forall k | 0 <= k < |C[f]| ensures C[f][k] in t.H {
      assert RingLink(t.H, C[f], k, f, l);
    }
    RingFits(t.H, C[f]);
  }

  /** Every face walk of a built mesh reaches only known vertices. */
  lemma BuiltKnownVertices(t: Tables, C: Cycles)
    requires Valid(t, C)
    ensures KnownVertices(t)
  {
    forall f | 0 <= f < t.fcap ensures forall k :: 0 <= k < |FaceLoop(t, f)| ==> FaceLoop(t, f)[k] in t.V {
      FaceLoopKnown(t, C, f);
    }
  }

  /** Every vertex the walk of a face of a built mesh reaches is known; a missing face reaches none. */
  lemma FaceLoopKnown(t: Tables, C: Cycles, f: FaceId)
    requires Valid(t, C)
    ensures forall k :: 0 <= k < |FaceLoop(t, f)| ==> FaceLoop(t, f)[k] in t.V
  {
    if f in t.F {
      BuiltFaceLoop(t, C, f);
      forall k | 0 <= k < |FaceLoop(t, f)| ensures FaceLoop(t, f)[k] in t.V {
        assert FaceLoop(t, f)[k] == t.H[C[f][k]].origin;
        assert TwinOk(t.V, t.H, t.E, C[f][k]);
      }
    }
  }

  /** In a built mesh every face is kept, in slot order. */
  lemma BuiltKeepsEveryFace(t: Tables, C: Cycles)
    requires Valid(t, C)
    ensures forall f :: f in KeptFaces(t, t.fcap) <==> f in t.F
  {
    KeptFacesSpec(t, t.fcap);
    forall f | f in t.F ensures Kept(t, f) && f < t.fcap {
      BuiltFaceLoop(t, C, f);
    }
  }

  /**
   * In a built mesh whose faces all have rings of `n` half-edges, the
   * converted mesh has `n` vertices and `n - 2` triangles per kept face.
   */
  lemma {:induction false} UniformFaces(t: Tables, C: Cycles, n: nat, fs: seq<FaceId>)
    requires Valid(t, C) && forall f :: f in t.F ==> |C[f]| == n
    requires forall i :: 0 <= i < |fs| ==> fs[i] in t.F
    ensures LoopTotal(t, fs) == n * |fs|
  {
    if fs != [] {
      var front, last := fs[..|fs| - 1], fs[|fs| - 1];
      var k := |front|;
      assert LoopTotal(t, front) == n * k by {
        assert forall i :: 0 <= i < |front| ==> front[i] == fs[i];
        UniformFaces(t, C, n, front);
      }
      assert |FaceLoop(t, last)| == n by {
        BuiltFaceLoop(t, C, last);
      }
      assert LoopTotal(t, fs) == n * k + n;
      assert n * |fs| == n * k + n by {
        assert |fs| == k + 1;
        MulSucc(n, k);
      }
    }
  }

  lemma MulSucc(n: nat, k: nat)
    ensures n * (k + 1) == n * k + n
  {
  }

  /** The number of kept faces of a built mesh is its number of faces. */
  lemma KeptCount(t: Tables, C: Cycles)
    requires Valid(t, C)
    ensures |KeptFaces(t, t.fcap)| == |t.F|
  {
    var fs := KeptFaces(t, t.fcap);
    BuiltKeepsEveryFace(t, C);
    KeptFacesSpec(t, t.fcap);
    assert Distinct(fs) by {
      forall i, j | 0 <= i < |fs| && 0 <= j < |fs| && i != j ensures fs[i] != fs[j] {
        if i < j { assert fs[i] < fs[j]; } else { assert fs[j] < fs[i]; }
      }
    }
    KeysFit(t.F.Keys, fs);
  }

  /** A sequence of distinct elements that lists exactly the elements of `S` is as long as `S` is large. */
  lemma {:induction false} KeysFit(S: set<FaceId>, fs: seq<FaceId>)
    requires Distinct(fs) && forall f :: f in fs <==> f in S
    ensures |fs| == |S|
  {
    if fs != [] {
      var rest := fs[1..];
      assert Distinct(rest) by {
        forall i, j | 0 <= i < |rest| && 0 <= j < |rest| && i != j ensures rest[i] != rest[j] {
          assert rest[i] == fs[i + 1] && rest[j] == fs[j + 1];
        }
      }
      forall f ensures f in rest <==> f in S - {fs[0]} {
        if f in rest {
          var i :| 0 <= i < |rest| && rest[i] == f;
          assert fs[i + 1] == f;
        }
        if f in S - {fs[0]} {
          assert f in fs;
          var i :| 0 <= i < |fs| && fs[i] == f;
          assert i != 0;
          assert rest[i - 1] == f;
        }
      }
      KeysFit(S - {fs[0]}, rest);
    } else {
      assert forall f :: f !in S;
      assert S == {};
    }
  }

  /**
   * A built mesh whose faces are all triangles gives three vertices and one
   * triangle per face: a lone triangle gives 3 and 1, and two triangles
   * sharing an edge give 6 and 2, since no vertex is shared between faces.
   */
  lemma BuiltTrianglesCount(t: Tables, C: Cycles, unit: Vec3 -> Vec3)
    requires Valid(t, C) && forall f :: f in t.F ==> |C[f]| == 3
    ensures KnownVertices(t)
    ensures VertexCount(MeshTriangles(t, unit)) == 3 * |t.F| && TriangleCount(MeshTriangles(t, unit)) == |t.F|
  {
    BuiltKnownVertices(t, C);
    ForFaces(t, C, 3, unit);
  }

  /** A built mesh whose faces are all quads gives four vertices and two triangles per face. */
  lemma BuiltQuadsCount(t: Tables, C: Cycles, unit: Vec3 -> Vec3)
    requires Valid(t, C) && forall f :: f in t.F ==> |C[f]| == 4
    ensures KnownVertices(t)
    ensures VertexCount(MeshTriangles(t, unit)) == 4 * |t.F| && TriangleCount(MeshTriangles(t, unit)) == 2 * |t.F|
  {
    BuiltKnownVertices(t, C);
    ForFaces(t, C, 4, unit);
  }

  /** In a built mesh whose rings all have `n` half-edges: `n` vertices and `n - 2` triangles per face. */
  lemma ForFaces(t: Tables, C: Cycles, n: nat, unit: Vec3 -> Vec3)
    requires Valid(t, C) && forall f :: f in t.F ==> |C[f]| == n
    requires KnownVertices(t)
    ensures VertexCount(MeshTriangles(t, unit)) == n * |t.F|
    ensures TriangleCount(MeshTriangles(t, unit)) == n * |t.F| - 2 * |t.F|
  {
    var fs := KeptFaces(t, t.fcap);
    MeshTrianglesCounts(t, unit);
    BuiltKeepsEveryFace(t, C);
    UniformFaces(t, C, n, fs);
    KeptCount(t, C);
  }
}
