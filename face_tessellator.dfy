/**
 * Face tessellation of the meshing crate: a planar polygon becomes a fan of
 * triangles around its first vertex, and a parametric surface becomes a
 * uniform grid with positions, normals and texture coordinates at every node.
 */
module FaceTessellator {
  import opened Core
  import opened Triangles
  import opened Tessellate
  import opened TriangleMeshes

  // ----- tessellate_planar_face -----

  /** The fan over the polygon, before normals: the vertices as they are and the fan's indices. */
  function FanMesh(vertices: seq<Vec3>): (m: TriangleMesh)
    ensures InRange(m) && TrianglesInRange(m)
  {
    FanBelow(|vertices|);
    InRangeTriangles(TriangleMesh(vertices, [], Flatten(Fan(|vertices|)), []));
    TriangleMesh(vertices, [], Flatten(Fan(|vertices|)), [])
  }

  /** What `tessellate_planar_face` returns: the fan mesh with its normals computed. */
  function PlanarFace(vertices: seq<Vec3>, unit: Vec3 -> Vec3): TriangleMesh {
    FanMesh(vertices).(normals := Normals(FanMesh(vertices), unit))
  }

  /**
   * `tessellate_planar_face`. The source panics for fewer than three
   * vertices; callers must not pass them.
   */
  method TessellatePlanarFace(vertices: seq<Vec3>, unit: Vec3 -> Vec3) returns (mesh: TriangleMesh)
    requires |vertices| >= 3
    ensures mesh == PlanarFace(vertices, unit)
  {
    var n := |vertices|;
    var indices := [];
    var i := 1;
    while i < n - 1
      invariant 1 <= i <= n - 1
      invariant indices == Flatten(Fan(i + 1))
    {
      FlattenSnoc(Fan(i + 1), Triple(0, i, i + 1));
      indices := indices + [0, i, i + 1];
      i := i + 1;
    }
    FanBelow(n);
    mesh := TriangleMesh(vertices, [], indices, []);
    InRangeTriangles(mesh);
    mesh := ComputeNormals(mesh, unit);
  }

  /**
   * The planar face keeps the vertices as its positions, has one normal per
   * vertex and n - 2 triangles, the k-th of them `[0, k + 1, k + 2]`.
   */
  lemma PlanarFaceShape(vertices: seq<Vec3>, unit: Vec3 -> Vec3)
    requires |vertices| >= 3
    ensures var m := PlanarFace(vertices, unit);
      m.positions == vertices && |m.normals| == |vertices| && m.uvs == [] &&
      InRange(m) && WholeTriangles(m) && TriangleCount(m) == |vertices| - 2 &&
      forall k :: 0 <= k < |vertices| - 2 ==> FanCornersAt(m.indices, k)
  {
    var n := |vertices|;
    assert PlanarFace(vertices, unit).indices == Flatten(Fan(n));
    FanShape(n);
    FanTriangleAt(n);
  }

  /** A triangle gives indices [0, 1, 2]; a quad gives [0, 1, 2, 0, 2, 3]. */
  lemma PlanarFaceExamples(tri: seq<Vec3>, quad: seq<Vec3>, unit: Vec3 -> Vec3)
    requires |tri| == 3 && |quad| == 4
    ensures PlanarFace(tri, unit).indices == [0, 1, 2]
    ensures PlanarFace(quad, unit).indices == [0, 1, 2, 0, 2, 3]
  {
    assert PlanarFace(tri, unit).indices == Flatten(Fan(3));
    assert PlanarFace(quad, unit).indices == Flatten(Fan(4));
    FanExamples();
  }

  /** The fans of a triangle and of a quad. */
  lemma FanExamples()
    ensures Flatten(Fan(3)) == [0, 1, 2]
    ensures Flatten(Fan(4)) == [0, 1, 2, 0, 2, 3]
  {
    var t3 := [Triple(0, 1, 2)];
    var t4 := t3 + [Triple(0, 2, 3)];
    assert Fan(2) == [];
    assert Fan(3) == t3;
    assert Fan(4) == t4;
    assert t3[..0] == [];
    assert Flatten(t3) == [0, 1, 2];
    assert t4[..1] == t3;
    assert Flatten(t4) == [0, 1, 2] + [0, 2, 3];
  }

  // ----- tessellate_surface -----

  /** The texture coordinate of grid node (i, j): its fraction of the way along each direction. */
  function GridUv(uDivs: nat, vDivs: nat): (nat, nat) -> Vec2 {
    (i: nat, j: nat) => Vec2(Quotient(i as real, uDivs as real), Quotient(j as real, vDivs as real))
  }

  /** What `tessellate_surface` returns. */
  function SurfaceMesh(s: Surface, uDivs: nat, vDivs: nat): TriangleMesh {
    TriangleMesh(Rows(SurfacePoint(s, uDivs, vDivs), uDivs + 1, vDivs + 1),
                 Rows(SurfaceNormal(s, uDivs, vDivs), uDivs + 1, vDivs + 1),
                 Flatten(CellRows(uDivs, vDivs)),
                 UvRows(uDivs, vDivs, uDivs + 1))
  }

  /** `tessellate_surface`. */
  method TessellateSurface(s: Surface, uDivs: nat, vDivs: nat) returns (mesh: TriangleMesh)
    ensures mesh == SurfaceMesh(s, uDivs, vDivs)
  {
    var positions, normals, uvs := [], [], [];
    var i := 0;
    while i < uDivs + 1
      invariant i <= uDivs + 1
      invariant positions == Rows(SurfacePoint(s, uDivs, vDivs), i, vDivs + 1)
      invariant normals == Rows(SurfaceNormal(s, uDivs, vDivs), i, vDivs + 1)
      invariant uvs == UvRows(uDivs, vDivs, i)
    {
      var ps, ns, ts := NodeRow(s, uDivs, vDivs, i);
      positions, normals, uvs := positions + ps, normals + ns, uvs + ts;
      i := i + 1;
    }
    var indices := GridIndices(uDivs, vDivs);
    mesh := TriangleMesh(positions, normals, indices, uvs);
  }

  /** One pass of the outer vertex loop: point, normal and texture coordinate at each node of row `i`. */
  method NodeRow(s: Surface, uDivs: nat, vDivs: nat, i: nat) returns (ps: seq<Vec3>, ns: seq<Vec3>, ts: seq<Vec2>)
    ensures ps == RowPrefix(SurfacePoint(s, uDivs, vDivs), i, vDivs + 1)
    ensures ns == RowPrefix(SurfaceNormal(s, uDivs, vDivs), i, vDivs + 1)
    ensures ts == RowPrefix(GridUv(uDivs, vDivs), i, vDivs + 1)
  {
    var u := s.uMin + Quotient((s.uMax - s.uMin) * (i as real), uDivs as real);
    ps, ns, ts := [], [], [];
    var j: nat := 0;
    while j < vDivs + 1
      invariant j <= vDivs + 1
      invariant ps == RowPrefix(SurfacePoint(s, uDivs, vDivs), i, j)
      invariant ns == RowPrefix(SurfaceNormal(s, uDivs, vDivs), i, j)
      invariant ts == RowPrefix(GridUv(uDivs, vDivs), i, j)
    {
      var v := s.vMin + Quotient((s.vMax - s.vMin) * (j as real), vDivs as real);
      NodeRowStep(s, uDivs, vDivs, i, j, u, v);
      ps := ps + [s.pointAt(u, v)];
      ns := ns + [s.normalAt(u, v)];
      ts := ts + [Vec2(Quotient(i as real, uDivs as real), Quotient(j as real, vDivs as real))];
      j := j + 1;
    }
  }

  /** Extending row `i` by node `j`, whose parameters are `u` and `v`. */
  lemma NodeRowStep(s: Surface, uDivs: nat, vDivs: nat, i: nat, j: nat, u: real, v: real)
    requires u == GridParam(s.uMin, s.uMax, i, uDivs) && v == GridParam(s.vMin, s.vMax, j, vDivs)
    ensures RowPrefix(SurfacePoint(s, uDivs, vDivs), i, j + 1) == RowPrefix(SurfacePoint(s, uDivs, vDivs), i, j) + [s.pointAt(u, v)]
    ensures RowPrefix(SurfaceNormal(s, uDivs, vDivs), i, j + 1) == RowPrefix(SurfaceNormal(s, uDivs, vDivs), i, j) + [s.normalAt(u, v)]
    ensures RowPrefix(GridUv(uDivs, vDivs), i, j + 1)
      == RowPrefix(GridUv(uDivs, vDivs), i, j) + [Vec2(Quotient(i as real, uDivs as real), Quotient(j as real, vDivs as real))]
  {
  }

  /** The index loops of `tessellate_surface`: six indices per cell, row after row. */
  method GridIndices(uDivs: nat, vDivs: nat) returns (indices: seq<nat>)
    ensures indices == Flatten(CellRows(uDivs, vDivs))
  {
    indices := [];
    var i := 0;
    while i < uDivs
      invariant i <= uDivs && indices == Flatten(CellRows(i, vDivs))
    {
      var row := CellRowIndices(i, vDivs);
      FlattenConcat(CellRows(i, vDivs), CellRow(i, vDivs, vDivs + 1));
      indices := indices + row;
      i := i + 1;
    }
  }

  /** One pass of the outer index loop: the six indices of each cell of cell row `i`. */
  method CellRowIndices(i: nat, vDivs: nat) returns (row: seq<nat>)
    ensures row == Flatten(CellRow(i, vDivs, vDivs + 1))
  {
    var vCount := vDivs + 1;
    row := [];
    var j := 0;
    while j < vDivs
      invariant j <= vDivs && row == Flatten(CellRow(i, j, vCount))
    {
      var a, b, c, d := i * vCount + j, (i + 1) * vCount + j, (i + 1) * vCount + j + 1, i * vCount + j + 1;
      assert CellTriangles(i, j, vCount) == [Triple(a, b, c), Triple(a, c, d)];
      assert Flatten([Triple(a, b, c), Triple(a, c, d)]) == [a, b, c, a, c, d] by {
        FlattenSnoc([Triple(a, b, c)], Triple(a, c, d));
        assert Flatten([Triple(a, b, c)]) == [a, b, c];
      }
      FlattenConcat(CellRow(i, j, vCount), CellTriangles(i, j, vCount));
      row := row + [a, b, c, a, c, d];
      j := j + 1;
    }
  }

  /** Flattened triangles whose corners lie below `n` give indices below `n`. */
  lemma SurfaceIndicesBelow(uDivs: nat, vDivs: nat)
    ensures forall k :: 0 <= k < |Flatten(CellRows(uDivs, vDivs))| ==>
      Flatten(CellRows(uDivs, vDivs))[k] < (uDivs + 1) * (vDivs + 1)
  {
    CellRowsBelow(uDivs, vDivs);
    FlattenBelow(CellRows(uDivs, vDivs), (uDivs + 1) * (vDivs + 1));
  }

  /**
   * The surface mesh has (uDivs + 1) * (vDivs + 1) positions, as many normals
   * and texture coordinates, 2 * uDivs * vDivs triangles, and every index in
   * range.
   */
  lemma SurfaceMeshShape(s: Surface, uDivs: nat, vDivs: nat)
    ensures var m := SurfaceMesh(s, uDivs, vDivs);
      VertexCount(m) == (uDivs + 1) * (vDivs + 1) &&
      |m.normals| == VertexCount(m) && |m.uvs| == VertexCount(m) &&
      TriangleCount(m) == 2 * uDivs * vDivs && WholeTriangles(m) && InRange(m)
  {
    SurfaceIndicesBelow(uDivs, vDivs);
  }

  /** The texture coordinate lies in the unit square. */
  predicate InUnitSquare(t: Vec2) {
    0.0 <= t.x <= 1.0 && 0.0 <= t.y <= 1.0
  }

  /** The texture coordinates of the first `rows` grid rows. */
  function UvRows(uDivs: nat, vDivs: nat, rows: nat): seq<Vec2> {
    Rows(GridUv(uDivs, vDivs), rows, vDivs + 1)
  }

  /**
   * Every texture coordinate of the first `rows` grid rows lies in the unit
   * square, for a grid with at least one division each way (with zero
   * divisions the source divides by zero).
   */
  lemma {:induction false} UvsInUnitSquare(uDivs: nat, vDivs: nat, rows: nat)
    requires uDivs > 0 && vDivs > 0 && rows <= uDivs + 1
    ensures forall k :: 0 <= k < |UvRows(uDivs, vDivs, rows)| ==> InUnitSquare(UvRows(uDivs, vDivs, rows)[k])
  {
    if rows > 0 {
      var f := GridUv(uDivs, vDivs);
      UvsInUnitSquare(uDivs, vDivs, rows - 1);
      var front, back := UvRows(uDivs, vDivs, rows - 1), RowPrefix(f, rows - 1, vDivs + 1);
      assert UvRows(uDivs, vDivs, rows) == front + back;
      forall k | 0 <= k < |front| + |back| ensures InUnitSquare((front + back)[k]) {
        if k < |front| {
          assert (front + back)[k] == front[k];
          assert InUnitSquare(front[k]);
        } else {
          assert (front + back)[k] == back[k - |front|] == f(rows - 1, k - |front|);
          FractionInUnit(rows - 1, uDivs);
          FractionInUnit(k - |front|, vDivs);
        }
      }
    }
  }

  /** i / divs lies in [0, 1] for i at most divs. */
  lemma FractionInUnit(i: nat, divs: nat)
    requires 0 < divs && i <= divs
    ensures 0.0 <= Quotient(i as real, divs as real) <= 1.0
  {
  }

  /** A 16 by 8 grid has 17 * 9 positions and 256 triangles. */
  lemma SurfaceExample(s: Surface)
    ensures VertexCount(SurfaceMesh(s, 16, 8)) == 17 * 9 && TriangleCount(SurfaceMesh(s, 16, 8)) == 16 * 8 * 2
  {
    SurfaceMeshShape(s, 16, 8);
  }
}
