/**
 * The GPU-ready triangle mesh of the meshing crate: positions, normals,
 * indices three per triangle, and texture coordinates. A mesh is a value that
 * is built, moved and cloned; merging and normal computation give the updated
 * mesh back.
 */
module TriangleMeshes {
  import opened Core
  import opened Triangles
  import opened Aabb

  datatype TriangleMesh = TriangleMesh(positions: seq<Vec3>, normals: seq<Vec3>, indices: seq<nat>, uvs: seq<Vec2>)

  /** `TriangleMesh::default`. */
  const Empty: TriangleMesh := TriangleMesh([], [], [], [])

  /** `vertex_count`. */
  function VertexCount(m: TriangleMesh): (r: nat)
    ensures InRange(m) && m.indices != [] ==> r > 0
  {
    assert InRange(m) && m.indices != [] ==> m.indices[0] < |m.positions|;
    |m.positions|
  }

  /** `triangle_count`: complete index triples only. */
  function TriangleCount(m: TriangleMesh): (r: nat)
    ensures 3 * r <= |m.indices| < 3 * r + 3
  {
    |m.indices| / 3
  }

  /** Every index names a position. */
  predicate InRange(m: TriangleMesh) {
    forall i :: 0 <= i < |m.indices| ==> m.indices[i] < |m.positions|
  }

  /** Every index of a complete triple names a position; a trailing partial triple may hold anything. */
  predicate TrianglesInRange(m: TriangleMesh) {
    forall i :: 0 <= i < 3 * (|m.indices| / 3) ==> m.indices[i] < |m.positions|
  }

  lemma InRangeTriangles(m: TriangleMesh)
    requires InRange(m)
    ensures TrianglesInRange(m)
  {
  }

  /** The indices come in whole triangles. */
  predicate WholeTriangles(m: TriangleMesh) {
    |m.indices| % 3 == 0
  }

  // ----- merge -----

  /**
   * `merge`: the other mesh's positions, normals and texture coordinates
   * appended, and its indices moved past the positions already present.
   */
  function Merge(m: TriangleMesh, other: TriangleMesh): (r: TriangleMesh)
    ensures |r.positions| == |m.positions| + |other.positions|
    ensures |r.indices| == |m.indices| + |other.indices|
  {
    TriangleMesh(m.positions + other.positions, m.normals + other.normals,
                 m.indices + Shift(other.indices, |m.positions|), m.uvs + other.uvs)
  }

  /**
   * After merging, the first mesh's data comes first and unchanged, and every
   * index of the other mesh names the same vertex as before, now past the
   * first mesh's positions.
   */
  lemma MergeKeepsBoth(m: TriangleMesh, other: TriangleMesh)
    ensures var r := Merge(m, other);
      r.positions[..|m.positions|] == m.positions && r.positions[|m.positions|..] == other.positions &&
      r.indices[..|m.indices|] == m.indices &&
      forall k :: 0 <= k < |other.indices| ==>
        r.indices[|m.indices| + k] == other.indices[k] + |m.positions| &&
        (other.indices[k] < |other.positions| ==> r.positions[r.indices[|m.indices| + k]] == other.positions[other.indices[k]])
  {
  }

  /** Merging meshes whose indices are in range gives a mesh whose indices are in range. */
  lemma MergeInRange(m: TriangleMesh, other: TriangleMesh)
    requires InRange(m) && InRange(other)
    ensures InRange(Merge(m, other))
  {
    var r := Merge(m, other);
    forall i | 0 <= i < |r.indices| ensures r.indices[i] < |r.positions| {
      if i >= |m.indices| {
        assert r.indices[i] == Shift(other.indices, |m.positions|)[i - |m.indices|];
      }
    }
  }

  /** Merging adds vertex counts, and triangle counts when the first mesh has whole triangles. */
  lemma MergeCounts(m: TriangleMesh, other: TriangleMesh)
    ensures VertexCount(Merge(m, other)) == VertexCount(m) + VertexCount(other)
    ensures WholeTriangles(m) ==> TriangleCount(Merge(m, other)) == TriangleCount(m) + TriangleCount(other)
  {
  }

  /** The empty mesh is a neutral element of merging on either side. */
  lemma MergeEmpty(m: TriangleMesh)
    ensures Merge(Empty, m) == m && Merge(m, Empty) == m
  {
    assert Shift(m.indices, 0) == m.indices;
  }

  /** Merging is associative: the order of grouping does not matter, only the order of meshes. */
  lemma MergeAssociative(a: TriangleMesh, b: TriangleMesh, c: TriangleMesh)
    ensures Merge(Merge(a, b), c) == Merge(a, Merge(b, c))
  {
    var pa, pb := |a.positions|, |b.positions|;
    ShiftConcat(b.indices, Shift(c.indices, pb), pa);
    ShiftTwice(c.indices, pb, pa);
    assert Merge(a, Merge(b, c)).indices == a.indices + (Shift(b.indices, pa) + Shift(c.indices, pb + pa));
    assert Merge(Merge(a, b), c).indices == (a.indices + Shift(b.indices, pa)) + Shift(c.indices, pa + pb);
    var left, right := Merge(Merge(a, b), c), Merge(a, Merge(b, c));
    assert left.positions == right.positions && left.normals == right.normals && left.uvs == right.uvs;
    assert left.indices == right.indices;
  }

  lemma ShiftConcat(xs: seq<nat>, ys: seq<nat>, k: nat)
    ensures Shift(xs + ys, k) == Shift(xs, k) + Shift(ys, k)
  {
  }

  lemma ShiftTwice(xs: seq<nat>, j: nat, k: nat)
    ensures Shift(Shift(xs, j), k) == Shift(xs, j + k)
  {
  }

  /** Two single triangles merge into a mesh of six vertices and indices 0 to 5. */
  lemma MergeTwoTriangles(p: seq<Vec3>, q: seq<Vec3>)
    requires |p| == 3 && |q| == 3
    ensures var r := Merge(TriangleMesh(p, [], [0, 1, 2], []), TriangleMesh(q, [], [0, 1, 2], []));
      VertexCount(r) == 6 && TriangleCount(r) == 2 && r.indices == [0, 1, 2, 3, 4, 5]
  {
    var r := Merge(TriangleMesh(p, [], [0, 1, 2], []), TriangleMesh(q, [], [0, 1, 2], []));
    assert r.indices[3] == 3 && r.indices[4] == 4 && r.indices[5] == 5;
  }

  // ----- compute_normals -----

  /** `v` added to the vector at index `i`. */
  function AddAt(vs: seq<Vec3>, i: nat, v: Vec3): (r: seq<Vec3>)
    requires i < |vs|
    ensures |r| == |vs|
  {
    vs[i := Add(vs[i], v)]
  }

  /** The unnormalised normal of the triangle p0 p1 p2: (p1 - p0) x (p2 - p0). */
  function FaceNormal(p0: Vec3, p1: Vec3, p2: Vec3): Vec3 {
    Cross(Sub(p1, p0), Sub(p2, p0))
  }

  /**
   * The per-vertex sums after the first `t` triangles: every triangle adds
   * its face normal to each of its three corners.
   */
  function Sums(m: TriangleMesh, t: nat): (r: seq<Vec3>)
    requires TrianglesInRange(m) && 3 * t <= |m.indices|
    ensures |r| == |m.positions|
  {
    if t == 0 then seq(|m.positions|, _ => Origin)
    else
      var i0, i1, i2 := m.indices[3 * t - 3], m.indices[3 * t - 2], m.indices[3 * t - 1];
      var n := FaceNormal(m.positions[i0], m.positions[i1], m.positions[i2]);
      AddAt(AddAt(AddAt(Sums(m, t - 1), i0, n), i1, n), i2, n)
  }

  /**
   * A summed normal scaled to unit length by `unit`, when its length exceeds
   * 1e-12; left as it is otherwise.
   */
  function Normalized(v: Vec3, unit: Vec3 -> Vec3): Vec3 {
    if LengthSquared(v) > 0.000000000000000000000001 then unit(v) else v
  }

  /** The normals `compute_normals` assigns: one per position. */
  function Normals(m: TriangleMesh, unit: Vec3 -> Vec3): (r: seq<Vec3>)
    requires TrianglesInRange(m)
    ensures |r| == |m.positions|
  {
    var sums := Sums(m, |m.indices| / 3);
    seq(|m.positions|, i requires 0 <= i < |m.positions| => Normalized(sums[i], unit))
  }

  /**
   * `compute_normals`: the normals replaced by one per position, summing the
   * face normals of the complete triangles around it. Indexing a position
   * that is not there panics in the source, hence the precondition on the
   * indices of complete triples (the others are never read).
   */
  method ComputeNormals(m: TriangleMesh, unit: Vec3 -> Vec3) returns (r: TriangleMesh)
    requires TrianglesInRange(m)
    ensures r == m.(normals := Normals(m, unit))
  {
    var n := |m.positions|;
    var normals := new Vec3[n](_ => Origin);
    assert normals[..] == Sums(m, 0);
    var t := 0;
    while t < |m.indices| / 3
      invariant t <= |m.indices| / 3
      invariant normals[..] == Sums(m, t)
    {
      AccumulateTriangle(m, normals, t);
      t := t + 1;
    }
    NormalizeAll(normals, unit);
    r := m.(normals := normals[..]);
  }

  /** The last loop of `compute_normals`: every summed normal scaled to unit length, in place. */
  method NormalizeAll(normals: array<Vec3>, unit: Vec3 -> Vec3)
    modifies normals
    ensures normals[..] == seq(normals.Length, i requires 0 <= i < normals.Length => Normalized(old(normals[i]), unit))
  {
    var i := 0;
    while i < normals.Length
      invariant i <= normals.Length
      invariant forall k :: 0 <= k < i ==> normals[k] == Normalized(old(normals[k]), unit)
      invariant forall k :: i <= k < normals.Length ==> normals[k] == old(normals[k])
    {
      normals[i] := Normalized(normals[i], unit);
      i := i + 1;
    }
  }

  /** One pass of the triangle loop: the face normal of triangle `t` added at its three corners. */
  method AccumulateTriangle(m: TriangleMesh, normals: array<Vec3>, t: nat)
    requires TrianglesInRange(m) && 3 * t + 3 <= |m.indices|
    requires normals[..] == Sums(m, t)
    modifies normals
    ensures normals[..] == Sums(m, t + 1)
  {
    var i0, i1, i2 := m.indices[3 * t], m.indices[3 * t + 1], m.indices[3 * t + 2];
    var normal := FaceNormal(m.positions[i0], m.positions[i1], m.positions[i2]);
    normals[i0] := Add(normals[i0], normal);
    normals[i1] := Add(normals[i1], normal);
    normals[i2] := Add(normals[i2], normal);
  }

  /** A vertex that no complete triangle uses keeps a zero sum. */
  lemma {:induction false} UnusedStaysZero(m: TriangleMesh, t: nat, v: nat)
    requires TrianglesInRange(m) && 3 * t <= |m.indices| && v < |m.positions|
    requires forall k :: 0 <= k < 3 * t ==> m.indices[k] != v
    ensures Sums(m, t)[v] == Origin
  {
    if t > 0 {
      UnusedStaysZero(m, t - 1, v);
    }
  }

  /** The sums read only complete triangles: indices past the last whole triple change nothing. */
  lemma {:induction false} SumsIgnoreRest(m: TriangleMesh, m': TriangleMesh, t: nat)
    requires TrianglesInRange(m) && TrianglesInRange(m') && m'.positions == m.positions
    requires 3 * t <= |m.indices| && 3 * t <= |m'.indices| && m.indices[..3 * t] == m'.indices[..3 * t]
    ensures Sums(m, t) == Sums(m', t)
  {
    if t > 0 {
      assert m.indices[..3 * t - 3] == m.indices[..3 * t][..3 * t - 3];
      assert m'.indices[..3 * t - 3] == m'.indices[..3 * t][..3 * t - 3];
      SumsIgnoreRest(m, m', t - 1);
      assert m.indices[3 * t - 3] == m.indices[..3 * t][3 * t - 3] == m'.indices[3 * t - 3];
      assert m.indices[3 * t - 2] == m.indices[..3 * t][3 * t - 2] == m'.indices[3 * t - 2];
      assert m.indices[3 * t - 1] == m.indices[..3 * t][3 * t - 1] == m'.indices[3 * t - 1];
    }
  }

  /**
   * Trailing indices that do not make a whole triangle are ignored by
   * `compute_normals`, whatever positions they name.
   */
  lemma NormalsIgnoreIncomplete(m: TriangleMesh, extra: seq<nat>, unit: Vec3 -> Vec3)
    requires TrianglesInRange(m) && WholeTriangles(m) && |extra| < 3
    ensures TrianglesInRange(m.(indices := m.indices + extra))
    ensures Normals(m.(indices := m.indices + extra), unit) == Normals(m, unit)
  {
    var m' := m.(indices := m.indices + extra);
    assert |m'.indices| / 3 == |m.indices| / 3;
    assert m'.indices[..|m.indices|] == m.indices;
    assert m.indices[..|m.indices|] == m.indices;
    SumsIgnoreRest(m, m', |m.indices| / 3);
  }

  /** Every corner of a single triangle gets that triangle's normal. */
  lemma SingleTriangleNormals(p: seq<Vec3>, unit: Vec3 -> Vec3)
    requires |p| == 3
    ensures var m := TriangleMesh(p, [], [0, 1, 2], []);
      TrianglesInRange(m) &&
      Normals(m, unit) == seq(3, _ => Normalized(FaceNormal(p[0], p[1], p[2]), unit))
  {
    var m := TriangleMesh(p, [], [0, 1, 2], []);
    var n := FaceNormal(p[0], p[1], p[2]);
    assert Sums(m, 0) == [Origin, Origin, Origin];
    assert Add(Origin, n) == n;
    assert Sums(m, 1) == [n, n, n];
  }

  // ----- bounding_box -----

  /** `bounding_box`: the box of the positions, or the origin twice for a mesh without any. */
  method BoundingBox(m: TriangleMesh) returns (b: Aabb3)
    ensures m.positions == [] ==> b == Aabb3(Origin, Origin)
    ensures m.positions != [] ==> b == BoxOf(m.positions)
  {
    var r := FromPoints(m.positions);
    b := if r.Some? then r.value else Aabb3(Origin, Origin);
  }
}
