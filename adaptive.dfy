/**
 * Adaptive tessellation of a parametric surface: the parameter domain is cut
 * into a 4 by 4 grid of patches, and each patch is split into four while the
 * surface point at its centre lies farther than the tolerance from the
 * average of its four corner points, up to depth 8. Every patch that is not
 * split becomes four vertices and two triangles.
 */
module Adaptive {
  import opened Core
  import opened Tessellate
  import opened TriangleMeshes

  /** Patches are split no deeper than this. */
  const AdaptiveMaxDepth: nat := 8

  /** The starting grid has this many patches along each parameter. */
  const InitialDivisions: nat := 4

  /** A patch of the parameter domain: [u0, u1] by [v0, v1]. */
  datatype Patch = Patch(u0: real, u1: real, v0: real, v1: real)

  /** The surface point at the patch's centre lies farther than `tolerance` from the average of its corners. */
  predicate Deviates(s: Surface, p: Patch, tolerance: real) {
    var p00, p10 := s.pointAt(p.u0, p.v0), s.pointAt(p.u1, p.v0);
    var p01, p11 := s.pointAt(p.u0, p.v1), s.pointAt(p.u1, p.v1);
    var approx := Scale(Add(Add(Add(p00, p10), p01), p11), 0.25);
    LongerThan(Sub(s.pointAt(Mid(p.u0, p.u1), Mid(p.v0, p.v1)), approx), tolerance)
  }

  /** The split decision `subdivide` takes for each patch: whether it deviates by more than `tolerance`. */
  function Splits(s: Surface, tolerance: real): Patch -> bool {
    (p: Patch) => Deviates(s, p, tolerance)
  }

  /**
   * The patches `subdivide` emits for `p` at `depth` when `split` decides
   * which patches to split, in emission order: the patch itself, or the
   * leaves of its lower-left, lower-right, upper-left and upper-right
   * quarters.
   */
  function Leaves(split: Patch -> bool, p: Patch, depth: nat): seq<Patch>
    decreases AdaptiveMaxDepth - depth
  {
    if split(p) && depth < AdaptiveMaxDepth then
      var um, vm := Mid(p.u0, p.u1), Mid(p.v0, p.v1);
      Leaves(split, Patch(p.u0, um, p.v0, vm), depth + 1) +
      Leaves(split, Patch(um, p.u1, p.v0, vm), depth + 1) +
      Leaves(split, Patch(p.u0, um, vm, p.v1), depth + 1) +
      Leaves(split, Patch(um, p.u1, vm, p.v1), depth + 1)
    else [p]
  }

  /** The leaves of the patch's four quarters one level deeper, in the order `subdivide` visits them. */
  function QuarterLeaves(split: Patch -> bool, p: Patch, depth: nat): seq<Patch> {
    var um, vm := Mid(p.u0, p.u1), Mid(p.v0, p.v1);
    Leaves(split, Patch(p.u0, um, p.v0, vm), depth + 1) +
    Leaves(split, Patch(um, p.u1, p.v0, vm), depth + 1) +
    Leaves(split, Patch(p.u0, um, vm, p.v1), depth + 1) +
    Leaves(split, Patch(um, p.u1, vm, p.v1), depth + 1)
  }

  /** A patch that is split below the depth limit has the leaves of its four quarters. */
  lemma LeavesSplit(split: Patch -> bool, p: Patch, depth: nat)
    requires split(p) && depth < AdaptiveMaxDepth
    ensures Leaves(split, p, depth) == QuarterLeaves(split, p, depth)
  {
  }

  /** The four corners `emit_quad` visits, counter-clockwise from (u0, v0). */
  function Corners(p: Patch): seq<(real, real)> {
    [(p.u0, p.v0), (p.u1, p.v0), (p.u1, p.v1), (p.u0, p.v1)]
  }

  /** The texture coordinate of (u, v): its fraction of the way across each domain. */
  function UvAt(s: Surface): (real, real) -> Vec2 {
    (u: real, v: real) => Vec2(Quotient(u - s.uMin, s.uMax - s.uMin), Quotient(v - s.vMin, s.vMax - s.vMin))
  }

  /** `f` at each of the patch's corners, in the order `emit_quad` visits them. */
  function AtCorners<T>(f: (real, real) -> T, p: Patch): (r: seq<T>)
    ensures |r| == 4 && forall k :: 0 <= k < 4 ==> r[k] == f(Corners(p)[k].0, Corners(p)[k].1)
  {
    [f(p.u0, p.v0), f(p.u1, p.v0), f(p.u1, p.v1), f(p.u0, p.v1)]
  }

  /** The corner values up to corner k + 1 extend those up to corner k by corner k's. */
  lemma AtCornersStep<T>(f: (real, real) -> T, p: Patch, k: nat)
    requires k < 4
    ensures AtCorners(f, p)[..k + 1] == AtCorners(f, p)[..k] + [f(Corners(p)[k].0, Corners(p)[k].1)]
    ensures AtCorners(f, p)[..4] == AtCorners(f, p)
  {
  }

  /** The two triangles of a patch whose first vertex is `base`. */
  function QuadIndices(base: nat): seq<nat> {
    [base, base + 1, base + 2, base, base + 2, base + 3]
  }

  /** The mesh data after `emit_quad` appends patch `p`. */
  function Emit(s: Surface, m: TriangleMesh, p: Patch): TriangleMesh {
    TriangleMesh(m.positions + AtCorners(s.pointAt, p),
                 m.normals + AtCorners(s.normalAt, p),
                 m.indices + QuadIndices(|m.positions|),
                 m.uvs + AtCorners(UvAt(s), p))
  }

  /** The mesh data after emitting each patch in turn. */
  function EmitAll(s: Surface, m: TriangleMesh, ps: seq<Patch>): TriangleMesh {
    if ps == [] then m else Emit(s, EmitAll(s, m, ps[..|ps| - 1]), ps[|ps| - 1])
  }

  /** The state of `MeshBuilder`: a surface, a tolerance and the mesh data collected so far. */
  class MeshBuilder {
    const surface: Surface
    const tolerance: real
    var positions: seq<Vec3>
    var normals: seq<Vec3>
    var uvs: seq<Vec2>
    var indices: seq<nat>

    /** The collected data as a mesh. */
    function State(): TriangleMesh
      reads this
    {
      TriangleMesh(positions, normals, indices, uvs)
    }

    /** `MeshBuilder::new`: nothing collected yet. */
    constructor(surface: Surface, tolerance: real)
      ensures this.surface == surface && this.tolerance == tolerance
      ensures State() == Empty
    {
      this.surface := surface;
      this.tolerance := tolerance;
      positions, normals, uvs, indices := [], [], [], [];
    }

    /** `subdivide`: emits the leaves of the patch at `depth`. */
    method Subdivide(u0: real, u1: real, v0: real, v1: real, depth: nat)
      modifies this
      ensures State() == EmitAll(surface, old(State()), Leaves(Splits(surface, tolerance), Patch(u0, u1, v0, v1), depth))
      decreases AdaptiveMaxDepth - depth, 1
    {
      var uMid := (u0 + u1) * 0.5;
      var vMid := (v0 + v1) * 0.5;
      var p00 := surface.pointAt(u0, v0);
      var p10 := surface.pointAt(u1, v0);
      var p01 := surface.pointAt(u0, v1);
      var p11 := surface.pointAt(u1, v1);
      var midTrue := surface.pointAt(uMid, vMid);
      var midApprox := Scale(Add(Add(Add(p00, p10), p01), p11), 0.25);
      var deviates := LongerThan(Sub(midTrue, midApprox), tolerance);
      assert deviates == Splits(surface, tolerance)(Patch(u0, u1, v0, v1));
      if deviates && depth < AdaptiveMaxDepth {
        SubdivideQuarters(u0, u1, v0, v1, depth);
        LeavesSplit(Splits(surface, tolerance), Patch(u0, u1, v0, v1), depth);
      } else {
        EmitQuad(u0, u1, v0, v1);
        assert EmitAll(surface, old(State()), [Patch(u0, u1, v0, v1)]) == Emit(surface, old(State()), Patch(u0, u1, v0, v1));
      }
    }

    /** The four recursive calls of `subdivide`, one per quarter of the patch. */
    method SubdivideQuarters(u0: real, u1: real, v0: real, v1: real, depth: nat)
      requires depth < AdaptiveMaxDepth
      modifies this
      ensures State() == EmitAll(surface, old(State()), QuarterLeaves(Splits(surface, tolerance), Patch(u0, u1, v0, v1), depth))
      decreases AdaptiveMaxDepth - depth, 0
    {
      var uMid, vMid := Mid(u0, u1), Mid(v0, v1);
      ghost var m0 := State();
      ghost var split := Splits(surface, tolerance);
      ghost var a := Leaves(split, Patch(u0, uMid, v0, vMid), depth + 1);
      ghost var b := Leaves(split, Patch(uMid, u1, v0, vMid), depth + 1);
      ghost var c := Leaves(split, Patch(u0, uMid, vMid, v1), depth + 1);
      ghost var d := Leaves(split, Patch(uMid, u1, vMid, v1), depth + 1);
      Subdivide(u0, uMid, v0, vMid, depth + 1);
      Subdivide(uMid, u1, v0, vMid, depth + 1);
      EmitAllConcat(surface, m0, a, b);
      Subdivide(u0, uMid, vMid, v1, depth + 1);
      EmitAllConcat(surface, m0, a + b, c);
      Subdivide(uMid, u1, vMid, v1, depth + 1);
      EmitAllConcat(surface, m0, a + b + c, d);
      assert QuarterLeaves(split, Patch(u0, u1, v0, v1), depth) == a + b + c + d;
    }

    /** `emit_quad`: four vertices at the patch's corners and the two triangles between them. */
    method EmitQuad(u0: real, u1: real, v0: real, v1: real)
      modifies this
      ensures State() == Emit(surface, old(State()), Patch(u0, u1, v0, v1))
    {
      var base := |positions|;
      var uRange := surface.uMax - surface.uMin;
      var vRange := surface.vMax - surface.vMin;
      var p := Patch(u0, u1, v0, v1);
      var corners := Corners(p);
      var k := 0;
      while k < 4
        invariant 0 <= k <= 4
        invariant positions == old(positions) + AtCorners(surface.pointAt, p)[..k]
        invariant normals == old(normals) + AtCorners(surface.normalAt, p)[..k]
        invariant uvs == old(uvs) + AtCorners(UvAt(surface), p)[..k]
        invariant indices == old(indices)
      {
        var u, v := corners[k].0, corners[k].1;
        AtCornersStep(surface.pointAt, p, k);
        AtCornersStep(surface.normalAt, p, k);
        AtCornersStep(UvAt(surface), p, k);
        assert UvAt(surface)(u, v) == Vec2(Quotient(u - surface.uMin, uRange), Quotient(v - surface.vMin, vRange));
        positions := positions + [surface.pointAt(u, v)];
        normals := normals + [surface.normalAt(u, v)];
        uvs := uvs + [Vec2(Quotient(u - surface.uMin, uRange), Quotient(v - surface.vMin, vRange))];
        k := k + 1;
      }
      assert AtCorners(surface.pointAt, p)[..4] == AtCorners(surface.pointAt, p);
      assert AtCorners(surface.normalAt, p)[..4] == AtCorners(surface.normalAt, p);
      assert AtCorners(UvAt(surface), p)[..4] == AtCorners(UvAt(surface), p);
      indices := indices + [base, base + 1, base + 2, base, base + 2, base + 3];
    }

    /** `into_mesh`: the collected data as a mesh. */
    method IntoMesh() returns (mesh: TriangleMesh)
      ensures mesh == State()
    {
      mesh := TriangleMesh(positions, normals, indices, uvs);
    }
  }

  /** Emitting two runs of patches is emitting the first, then the second. */
  lemma {:induction false} EmitAllConcat(s: Surface, m: TriangleMesh, ps: seq<Patch>, qs: seq<Patch>)
    ensures EmitAll(s, m, ps + qs) == EmitAll(s, EmitAll(s, m, ps), qs)
    decreases |qs|
  {
    if qs == [] {
      assert ps + qs == ps;
    } else {
      var front := qs[..|qs| - 1];
      assert (ps + qs)[..|ps + qs| - 1] == ps + front;
      EmitAllConcat(s, m, ps, front);
    }
  }

  // ----- adaptive_tessellate_surface -----

  /** Start patch (i, j): the i-th quarter of the u domain by the j-th quarter of the v domain. */
  function StartPatch(s: Surface, i: nat, j: nat): Patch {
    Patch(GridParam(s.uMin, s.uMax, i, InitialDivisions), GridParam(s.uMin, s.uMax, i + 1, InitialDivisions),
          GridParam(s.vMin, s.vMax, j, InitialDivisions), GridParam(s.vMin, s.vMax, j + 1, InitialDivisions))
  }

  /**
   * The start patches the two loops visit before (i, j), in order: the whole
   * of every row before `i` (u index outer), then the first `j` of row `i`
   * (v index inner).
   */
  function StartGrid(s: Surface, i: nat, j: nat): seq<Patch>
    requires j <= InitialDivisions
    decreases i, j
  {
    if j == 0 then
      if i == 0 then [] else StartGrid(s, i - 1, InitialDivisions)
    else StartGrid(s, i, j - 1) + [StartPatch(s, i, j - 1)]
  }

  /** The 16 start patches in visiting order: patch (a, b) at position `4 * a + b`. */
  function StartPatches(s: Surface): (r: seq<Patch>)
    ensures |r| == InitialDivisions * InitialDivisions
    ensures forall a, b :: 0 <= a < InitialDivisions && 0 <= b < InitialDivisions ==>
      r[InitialDivisions * a + b] == StartPatch(s, a, b)
  {
    StartGridLayout(s, InitialDivisions, 0);
    StartGrid(s, InitialDivisions, 0)
  }

  /** Before (i, j) come `4 * i + j` start patches, and the one at position `4 * a + b` is (a, b). */
  lemma {:induction false} StartGridLayout(s: Surface, i: nat, j: nat)
    requires j <= InitialDivisions
    ensures |StartGrid(s, i, j)| == InitialDivisions * i + j
    ensures forall a, b :: 0 <= b < InitialDivisions && InitialDivisions * a + b < InitialDivisions * i + j ==>
      StartGrid(s, i, j)[InitialDivisions * a + b] == StartPatch(s, a, b)
    decreases i, j
  {
    if j == 0 {
      if i > 0 {
        StartGridLayout(s, i - 1, InitialDivisions);
      }
    } else {
      StartGridLayout(s, i, j - 1);
      var front := StartGrid(s, i, j - 1);
      forall a, b | 0 <= b < InitialDivisions && InitialDivisions * a + b < InitialDivisions * i + j
        ensures StartGrid(s, i, j)[InitialDivisions * a + b] == StartPatch(s, a, b)
      {
        if InitialDivisions * a + b == InitialDivisions * i + j - 1 {
          SameCell(a, b, i, j - 1);
        }
      }
    }
  }

  /** Two grid positions `4 * a + b` with `b < 4` are equal only for the same (a, b). */
  lemma SameCell(a: nat, b: nat, i: nat, j: nat)
    requires b < InitialDivisions && j < InitialDivisions
    requires InitialDivisions * a + b == InitialDivisions * i + j
    ensures a == i && b == j
  {
    RowStep(a, i);
    RowStep(i, a);
  }

  /** An earlier row ends before a later one starts. */
  lemma RowStep(x: nat, y: nat)
    ensures x < y ==> InitialDivisions * x + InitialDivisions <= InitialDivisions * y
  {
    if x < y {
      assert InitialDivisions * y == InitialDivisions * x + InitialDivisions * (y - x);
    }
  }

  /** The leaves of each patch in turn. */
  function LeavesOf(split: Patch -> bool, ps: seq<Patch>): seq<Patch> {
    if ps == [] then [] else LeavesOf(split, ps[..|ps| - 1]) + Leaves(split, ps[|ps| - 1], 0)
  }

  /** The leaves of one more patch are those before followed by the new patch's. */
  lemma LeavesOfSnoc(split: Patch -> bool, ps: seq<Patch>, p: Patch)
    ensures LeavesOf(split, ps + [p]) == LeavesOf(split, ps) + Leaves(split, p, 0)
  {
    assert (ps + [p])[..|ps|] == ps;
  }

  /** Every patch `adaptive_tessellate_surface` emits, in order. */
  function AllLeaves(s: Surface, tolerance: real): seq<Patch> {
    LeavesOf(Splits(s, tolerance), StartPatches(s))
  }

  /** What `adaptive_tessellate_surface` returns. */
  function AdaptiveMesh(s: Surface, tolerance: real): TriangleMesh {
    EmitAll(s, Empty, AllLeaves(s, tolerance))
  }

  /** The mesh after the start patches before (i, j), each emitted as its leaves. */
  function StartMesh(s: Surface, tolerance: real, i: nat, j: nat): TriangleMesh
    requires j <= InitialDivisions
  {
    EmitAll(s, Empty, LeavesOf(Splits(s, tolerance), StartGrid(s, i, j)))
  }

  /** `adaptive_tessellate_surface`. */
  method AdaptiveTessellateSurface(s: Surface, tolerance: real) returns (mesh: TriangleMesh)
    ensures mesh == AdaptiveMesh(s, tolerance)
  {
    var builder := new MeshBuilder(s, tolerance);
    StartMeshEnds(s, tolerance);
    var i: nat := 0;
    while i != InitialDivisions
      invariant i <= InitialDivisions
      invariant builder.surface == s && builder.tolerance == tolerance
      invariant builder.State() == StartMesh(s, tolerance, i, 0)
    {
      StartRowPass(builder, i);
      i := i + 1;
    }
    mesh := builder.IntoMesh();
  }

  /** Before the first start patch nothing is emitted; after the last, the whole adaptive mesh is. */
  lemma StartMeshEnds(s: Surface, tolerance: real)
    ensures StartMesh(s, tolerance, 0, 0) == Empty
    ensures StartMesh(s, tolerance, InitialDivisions, 0) == AdaptiveMesh(s, tolerance)
  {
    assert StartGrid(s, 0, 0) == [];
    assert StartGrid(s, InitialDivisions, 0) == StartPatches(s);
  }

  /** One pass of the outer loop of `adaptive_tessellate_surface`: the start patches of row `i`, each subdivided. */
  method StartRowPass(builder: MeshBuilder, i: nat)
    requires builder.State() == StartMesh(builder.surface, builder.tolerance, i, 0)
    modifies builder
    ensures builder.State() == StartMesh(builder.surface, builder.tolerance, i + 1, 0)
  {
    var j: nat := 0;
    while j != InitialDivisions
      invariant j <= InitialDivisions
      invariant builder.State() == StartMesh(builder.surface, builder.tolerance, i, j)
    {
      StartPatchStep(builder, i, j);
      j := j + 1;
    }
    StartMeshRow(builder.surface, builder.tolerance, i);
  }

  /** The mesh before row `i + 1` is the one after the whole of row `i`. */
  lemma StartMeshRow(s: Surface, tolerance: real, i: nat)
    ensures StartMesh(s, tolerance, i + 1, 0) == StartMesh(s, tolerance, i, InitialDivisions)
  {
    assert StartGrid(s, i + 1, 0) == StartGrid(s, i, InitialDivisions);
  }

  /** One pass of the inner loop, stated as the step from the mesh before start patch (i, j) to the one after it. */
  method StartPatchStep(builder: MeshBuilder, i: nat, j: nat)
    requires j < InitialDivisions
    requires builder.State() == StartMesh(builder.surface, builder.tolerance, i, j)
    modifies builder
    ensures builder.State() == StartMesh(builder.surface, builder.tolerance, i, j + 1)
  {
    StartMeshStep(builder.surface, builder.tolerance, i, j, builder.State());
    StartPatchPass(builder, i, j);
  }

  /** Emitting the leaves of start patch (i, j) after the mesh before it gives the mesh after it. */
  lemma StartMeshStep(s: Surface, tolerance: real, i: nat, j: nat, m: TriangleMesh)
    requires j < InitialDivisions && m == StartMesh(s, tolerance, i, j)
    ensures EmitAll(s, m, Leaves(Splits(s, tolerance), StartPatch(s, i, j), 0)) == StartMesh(s, tolerance, i, j + 1)
  {
    var split, before, patch := Splits(s, tolerance), StartGrid(s, i, j), StartPatch(s, i, j);
    var done, next := LeavesOf(split, before), Leaves(split, patch, 0);
    StartGridStep(s, i, j);
    LeavesOfSnoc(split, before, patch);
    assert LeavesOf(split, StartGrid(s, i, j + 1)) == done + next;
    EmitAllConcat(s, Empty, done, next);
  }

  /** The start patches before (i, j + 1) are those before (i, j) and then (i, j). */
  lemma StartGridStep(s: Surface, i: nat, j: nat)
    requires j < InitialDivisions
    ensures StartGrid(s, i, j + 1) == StartGrid(s, i, j) + [StartPatch(s, i, j)]
  {
  }

  /** One pass of the inner loop of `adaptive_tessellate_surface`: start patch (i, j) subdivided from depth 0. */
  method StartPatchPass(builder: MeshBuilder, i: nat, j: nat)
    modifies builder
    ensures builder.State() == EmitAll(builder.surface, old(builder.State()), Leaves(Splits(builder.surface, builder.tolerance), StartPatch(builder.surface, i, j), 0))
  {
    var s := builder.surface;
    var u0 := s.uMin + Quotient((s.uMax - s.uMin) * (i as real), InitialDivisions as real);
    var u1 := s.uMin + Quotient((s.uMax - s.uMin) * ((i + 1) as real), InitialDivisions as real);
    var v0 := s.vMin + Quotient((s.vMax - s.vMin) * (j as real), InitialDivisions as real);
    var v1 := s.vMin + Quotient((s.vMax - s.vMin) * ((j + 1) as real), InitialDivisions as real);
    assert Patch(u0, u1, v0, v1) == StartPatch(s, i, j);
    builder.Subdivide(u0, u1, v0, v1, 0);
  }

  // ----- properties -----

  /** Every per-vertex list has one entry per position, the indices come in triangles and name positions. */
  predicate WellFormed(m: TriangleMesh) {
    |m.normals| == |m.positions| && |m.uvs| == |m.positions| && WholeTriangles(m) && InRange(m)
  }

  /**
   * Emitting patches keeps the mesh well formed and what it held, and adds
   * four vertices and two triangles per patch.
   */
  lemma {:induction false} EmitAllShape(s: Surface, m: TriangleMesh, ps: seq<Patch>)
    requires WellFormed(m)
    ensures var r := EmitAll(s, m, ps);
      WellFormed(r) &&
      |r.positions| == |m.positions| + 4 * |ps| && |r.indices| == |m.indices| + 6 * |ps| &&
      r.positions[..|m.positions|] == m.positions && r.indices[..|m.indices|] == m.indices
  {
    if ps != [] {
      var front := ps[..|ps| - 1];
      EmitAllShape(s, m, front);
      var q := EmitAll(s, m, front);
      var r := Emit(s, q, ps[|ps| - 1]);
      assert r == EmitAll(s, m, ps);
      EmitShape(s, q, ps[|ps| - 1]);
      assert r.positions[..|m.positions|] == m.positions by {
        assert r.positions[..|m.positions|] == r.positions[..|q.positions|][..|m.positions|];
      }
      assert r.indices[..|m.indices|] == m.indices by {
        assert r.indices[..|m.indices|] == r.indices[..|q.indices|][..|m.indices|];
      }
    }
  }

  /** Emitting one patch keeps the mesh well formed and what it held, and adds four vertices and two triangles. */
  lemma EmitShape(s: Surface, q: TriangleMesh, p: Patch)
    requires WellFormed(q)
    ensures var r := Emit(s, q, p);
      WellFormed(r) &&
      |r.positions| == |q.positions| + 4 && |r.indices| == |q.indices| + 6 &&
      r.positions[..|q.positions|] == q.positions && r.indices[..|q.indices|] == q.indices
  {
    var r := Emit(s, q, p);
    forall i | 0 <= i < |r.indices| ensures r.indices[i] < |r.positions| {
      if i < |q.indices| {
        assert r.indices[i] == q.indices[i];
      }
    }
  }

  /** The `k`-th emitted patch `p` owns vertices 4k to 4k + 3, at its corners, and indices 6k to 6k + 5. */
  predicate LeafAt(s: Surface, m: TriangleMesh, k: nat, p: Patch)
    requires |m.positions| == |m.normals| == |m.uvs| >= 4 * k + 4 && |m.indices| >= 6 * k + 6
  {
    m.positions[4 * k..4 * k + 4] == AtCorners(s.pointAt, p) &&
    m.normals[4 * k..4 * k + 4] == AtCorners(s.normalAt, p) &&
    m.uvs[4 * k..4 * k + 4] == AtCorners(UvAt(s), p) &&
    m.indices[6 * k..6 * k + 6] == QuadIndices(4 * k)
  }

  /** Starting from nothing, the k-th emitted patch sits at vertices 4k to 4k + 3 and indices 6k to 6k + 5. */
  lemma {:induction false} EmitAllLayout(s: Surface, ps: seq<Patch>)
    ensures var r := EmitAll(s, Empty, ps);
      |r.positions| == |r.normals| == |r.uvs| == 4 * |ps| && |r.indices| == 6 * |ps| &&
      forall k :: 0 <= k < |ps| ==> LeafAt(s, r, k, ps[k])
  {
    if ps != [] {
      var front, last := ps[..|ps| - 1], ps[|ps| - 1];
      EmitAllLayout(s, front);
      var q, r := EmitAll(s, Empty, front), EmitAll(s, Empty, ps);
      assert r == Emit(s, q, last);
      forall k | 0 <= k < |ps| ensures LeafAt(s, r, k, ps[k]) {
        if k < |front| {
          assert front[k] == ps[k];
          LeafKept(s, q, last, k, ps[k]);
        } else {
          LeafEmitted(s, q, last, k);
        }
      }
    }
  }

  /** Emitting one more patch keeps every earlier patch where it was. */
  lemma LeafKept(s: Surface, m: TriangleMesh, p: Patch, k: nat, leaf: Patch)
    requires |m.positions| == |m.normals| == |m.uvs| >= 4 * k + 4 && |m.indices| >= 6 * k + 6
    requires LeafAt(s, m, k, leaf)
    ensures LeafAt(s, Emit(s, m, p), k, leaf)
  {
    var r := Emit(s, m, p);
    assert r.positions[4 * k..4 * k + 4] == m.positions[4 * k..4 * k + 4];
    assert r.normals[4 * k..4 * k + 4] == m.normals[4 * k..4 * k + 4];
    assert r.uvs[4 * k..4 * k + 4] == m.uvs[4 * k..4 * k + 4];
    assert r.indices[6 * k..6 * k + 6] == m.indices[6 * k..6 * k + 6];
  }

  /** The patch emitted after `k` others sits at vertices 4k to 4k + 3 and indices 6k to 6k + 5. */
  lemma LeafEmitted(s: Surface, m: TriangleMesh, p: Patch, k: nat)
    requires |m.positions| == |m.normals| == |m.uvs| == 4 * k && |m.indices| == 6 * k
    ensures LeafAt(s, Emit(s, m, p), k, p)
  {
    var r := Emit(s, m, p);
    assert r.positions[4 * k..4 * k + 4] == AtCorners(s.pointAt, p);
    assert r.normals[4 * k..4 * k + 4] == AtCorners(s.normalAt, p);
    assert r.uvs[4 * k..4 * k + 4] == AtCorners(UvAt(s), p);
    assert r.indices[6 * k..6 * k + 6] == QuadIndices(4 * k);
  }

  /**
   * The adaptive mesh is well formed, with four vertices and two triangles
   * per leaf patch, each vertex the surface's point at a patch corner.
   */
  lemma AdaptiveMeshShape(s: Surface, tolerance: real)
    ensures var m, leaves := AdaptiveMesh(s, tolerance), AllLeaves(s, tolerance);
      WellFormed(m) && VertexCount(m) == 4 * |leaves| && TriangleCount(m) == 2 * |leaves| &&
      forall k :: 0 <= k < |leaves| ==> LeafAt(s, m, k, leaves[k])
  {
    EmitAllShape(s, Empty, AllLeaves(s, tolerance));
    EmitAllLayout(s, AllLeaves(s, tolerance));
  }

  /** 4^n, the most leaves a patch can have n levels above the depth limit. */
  function Pow4(n: nat): (r: nat)
    ensures r >= 1
  {
    if n == 0 then 1 else 4 * Pow4(n - 1)
  }

  /** A patch below the depth limit yields at least one and at most 4^(8 - depth) leaves. */
  lemma {:induction false} LeavesCount(split: Patch -> bool, p: Patch, depth: nat)
    requires depth <= AdaptiveMaxDepth
    ensures 1 <= |Leaves(split, p, depth)| <= Pow4(AdaptiveMaxDepth - depth)
    decreases AdaptiveMaxDepth - depth
  {
    if split(p) && depth < AdaptiveMaxDepth {
      var um, vm := Mid(p.u0, p.u1), Mid(p.v0, p.v1);
      var a, b := Patch(p.u0, um, p.v0, vm), Patch(um, p.u1, p.v0, vm);
      var c, d := Patch(p.u0, um, vm, p.v1), Patch(um, p.u1, vm, p.v1);
      var bound := Pow4(AdaptiveMaxDepth - (depth + 1));
      var na, nb := |Leaves(split, a, depth + 1)|, |Leaves(split, b, depth + 1)|;
      var nc, nd := |Leaves(split, c, depth + 1)|, |Leaves(split, d, depth + 1)|;
      assert 1 <= na <= bound by { LeavesCount(split, a, depth + 1); }
      assert 1 <= nb <= bound by { LeavesCount(split, b, depth + 1); }
      assert 1 <= nc <= bound by { LeavesCount(split, c, depth + 1); }
      assert 1 <= nd <= bound by { LeavesCount(split, d, depth + 1); }
      assert |Leaves(split, p, depth)| == na + nb + nc + nd by {
        LeavesSplit(split, p, depth);
      }
      assert Pow4(AdaptiveMaxDepth - depth) == 4 * bound;
    } else {
      assert Leaves(split, p, depth) == [p];
    }
  }

  /** The most leaves one start patch can yield: 4^8. */
  const MaxLeaves: nat := 65536

  /** A start patch yields at least one and at most `MaxLeaves` leaves. */
  lemma StartLeavesCount(split: Patch -> bool, p: Patch)
    ensures 1 <= |Leaves(split, p, 0)| <= MaxLeaves
  {
    LeavesCount(split, p, 0);
    assert Pow4(AdaptiveMaxDepth - 0) == MaxLeaves;
  }

  /** A run of start patches yields at least one and at most `MaxLeaves` leaves each. */
  lemma {:induction false} LeavesOfCount(split: Patch -> bool, ps: seq<Patch>)
    ensures |ps| <= |LeavesOf(split, ps)| <= |ps| * MaxLeaves
  {
    if ps != [] {
      var front, last := ps[..|ps| - 1], ps[|ps| - 1];
      LeavesOfCount(split, front);
      StartLeavesCount(split, last);
      assert |LeavesOf(split, ps)| == |LeavesOf(split, front)| + |Leaves(split, last, 0)|;
      MulSucc(|front|, MaxLeaves);
    }
  }

  lemma MulSucc(n: nat, m: nat)
    ensures (n + 1) * m == n * m + m
  {
  }

  /** The adaptive mesh has at least 32 triangles (two per start patch) and at most 32 * 4^8. */
  lemma TriangleBounds(s: Surface, tolerance: real)
    ensures 32 <= TriangleCount(AdaptiveMesh(s, tolerance)) <= 32 * MaxLeaves
  {
    AdaptiveMeshShape(s, tolerance);
    LeavesOfCount(Splits(s, tolerance), StartPatches(s));
  }

  /** Patches none of which is split are their own leaves. */
  lemma {:induction false} NoSplitLeaves(split: Patch -> bool, ps: seq<Patch>)
    requires forall k :: 0 <= k < |ps| ==> !split(ps[k])
    ensures LeavesOf(split, ps) == ps
  {
    if ps != [] {
      var front, last := ps[..|ps| - 1], ps[|ps| - 1];
      assert LeavesOf(split, front) == front by {
        assert forall k :: 0 <= k < |front| ==> front[k] == ps[k];
        NoSplitLeaves(split, front);
      }
      assert LeavesOf(split, ps) == LeavesOf(split, front) + Leaves(split, last, 0) by {
        assert front + [last] == ps;
        LeavesOfSnoc(split, front, last);
      }
      assert Leaves(split, last, 0) == [last] by {
        assert !split(last);
      }
      assert front + [last] == ps;
    }
  }

  /** A surface on which no start patch deviates gives the coarse mesh of 16 quads, 32 triangles. */
  lemma FlatSurfaceThirtyTwo(s: Surface, tolerance: real)
    requires forall k :: 0 <= k < |StartPatches(s)| ==> !Deviates(s, StartPatches(s)[k], tolerance)
    ensures AllLeaves(s, tolerance) == StartPatches(s)
    ensures TriangleCount(AdaptiveMesh(s, tolerance)) == 32
  {
    NoSplitLeaves(Splits(s, tolerance), StartPatches(s));
    AdaptiveMeshShape(s, tolerance);
  }

  /** A patch that deviates by more than a tolerance deviates by more than any smaller one. */
  lemma DeviatesMonotone(s: Surface, p: Patch, tight: real, loose: real)
    requires tight <= loose && Deviates(s, p, loose)
    ensures Deviates(s, p, tight)
  {
    if 0.0 <= tight {
      assert tight * tight <= loose * loose;
    }
  }

  /** Where every patch `coarse` splits is split by `fine` too, `fine` yields at least as many leaves. */
  lemma {:induction false} FinerMoreLeaves(fine: Patch -> bool, coarse: Patch -> bool, p: Patch, depth: nat)
    requires forall q :: coarse(q) ==> fine(q)
    requires depth <= AdaptiveMaxDepth
    ensures |Leaves(fine, p, depth)| >= |Leaves(coarse, p, depth)|
    decreases AdaptiveMaxDepth - depth
  {
    if coarse(p) && depth < AdaptiveMaxDepth {
      var um, vm := Mid(p.u0, p.u1), Mid(p.v0, p.v1);
      FinerMoreLeaves(fine, coarse, Patch(p.u0, um, p.v0, vm), depth + 1);
      FinerMoreLeaves(fine, coarse, Patch(um, p.u1, p.v0, vm), depth + 1);
      FinerMoreLeaves(fine, coarse, Patch(p.u0, um, vm, p.v1), depth + 1);
      FinerMoreLeaves(fine, coarse, Patch(um, p.u1, vm, p.v1), depth + 1);
      LeavesSplit(fine, p, depth);
      LeavesSplit(coarse, p, depth);
    } else {
      LeavesCount(fine, p, depth);
    }
  }

  /** The same over a run of start patches. */
  lemma {:induction false} FinerMoreLeavesOf(fine: Patch -> bool, coarse: Patch -> bool, ps: seq<Patch>)
    requires forall q :: coarse(q) ==> fine(q)
    ensures |LeavesOf(fine, ps)| >= |LeavesOf(coarse, ps)|
  {
    if ps != [] {
      FinerMoreLeavesOf(fine, coarse, ps[..|ps| - 1]);
      FinerMoreLeaves(fine, coarse, ps[|ps| - 1], 0);
    }
  }

  /** A tighter tolerance yields at least as many triangles. */
  lemma TighterToleranceMoreTriangles(s: Surface, tight: real, loose: real)
    requires tight <= loose
    ensures TriangleCount(AdaptiveMesh(s, tight)) >= TriangleCount(AdaptiveMesh(s, loose))
  {
    forall q | Splits(s, loose)(q) ensures Splits(s, tight)(q) {
      DeviatesMonotone(s, q, tight, loose);
    }
    FinerMoreLeavesOf(Splits(s, tight), Splits(s, loose), StartPatches(s));
    AdaptiveMeshShape(s, tight);
    AdaptiveMeshShape(s, loose);
  }

  // ----- texture coordinates -----

  /** The patch is ordered and lies inside the surface's parameter domain. */
  predicate InDomain(s: Surface, p: Patch) {
    s.uMin <= p.u0 <= p.u1 <= s.uMax && s.vMin <= p.v0 <= p.v1 <= s.vMax
  }

  /** Every leaf of a patch inside the domain lies inside the domain. */
  lemma {:induction false} LeavesInDomain(s: Surface, split: Patch -> bool, p: Patch, depth: nat)
    requires InDomain(s, p)
    ensures forall q :: q in Leaves(split, p, depth) ==> InDomain(s, q)
    decreases AdaptiveMaxDepth - depth
  {
    if split(p) && depth < AdaptiveMaxDepth {
      var um, vm := Mid(p.u0, p.u1), Mid(p.v0, p.v1);
      LeavesInDomain(s, split, Patch(p.u0, um, p.v0, vm), depth + 1);
      LeavesInDomain(s, split, Patch(um, p.u1, p.v0, vm), depth + 1);
      LeavesInDomain(s, split, Patch(p.u0, um, vm, p.v1), depth + 1);
      LeavesInDomain(s, split, Patch(um, p.u1, vm, p.v1), depth + 1);
      LeavesSplit(split, p, depth);
    }
  }

  /** Grid lines `i` and `i + 1` of four, over an ordered range, are ordered and inside it. */
  lemma GridLinesOrdered(lo: real, hi: real, i: nat)
    requires lo <= hi && i < InitialDivisions
    ensures lo <= GridParam(lo, hi, i, InitialDivisions) <= GridParam(lo, hi, i + 1, InitialDivisions) <= hi
  {
    var w := hi - lo;
    assert 0.0 <= w * (i as real) <= w * (i as real) + w;
    assert w * ((i + 1) as real) == w * (i as real) + w;
    assert w * ((i + 1) as real) <= w * 4.0;
  }

  /** Over an ordered domain, every start patch lies inside it. */
  lemma StartPatchesInDomain(s: Surface)
    requires s.uMin <= s.uMax && s.vMin <= s.vMax
    ensures forall k :: 0 <= k < |StartPatches(s)| ==> InDomain(s, StartPatches(s)[k])
  {
    var ps := StartPatches(s);
    forall k | 0 <= k < |ps| ensures InDomain(s, ps[k]) {
      var a, b := k / InitialDivisions, k % InitialDivisions;
      assert k == InitialDivisions * a + b;
      assert ps[k] == StartPatch(s, a, b);
      StartPatchInDomain(s, a, b);
    }
  }

  /** Over an ordered domain, start patch (a, b) lies inside it. */
  lemma StartPatchInDomain(s: Surface, a: nat, b: nat)
    requires s.uMin <= s.uMax && s.vMin <= s.vMax && a < InitialDivisions && b < InitialDivisions
    ensures InDomain(s, StartPatch(s, a, b))
  {
    GridLinesOrdered(s.uMin, s.uMax, a);
    GridLinesOrdered(s.vMin, s.vMax, b);
  }

  /** The leaves of patches inside the domain lie inside the domain. */
  lemma {:induction false} LeavesOfInDomain(s: Surface, split: Patch -> bool, ps: seq<Patch>)
    requires forall k :: 0 <= k < |ps| ==> InDomain(s, ps[k])
    ensures forall q :: q in LeavesOf(split, ps) ==> InDomain(s, q)
  {
    if ps != [] {
      LeavesOfInDomain(s, split, ps[..|ps| - 1]);
      LeavesInDomain(s, split, ps[|ps| - 1], 0);
    }
  }

  /** A parameter inside a range of positive width is a fraction of the way across it between 0 and 1. */
  lemma FractionInUnit(x: real, lo: real, hi: real)
    requires lo < hi && lo <= x <= hi
    ensures 0.0 <= Quotient(x - lo, hi - lo) <= 1.0
  {
    var q := (x - lo) / (hi - lo);
    assert q * (hi - lo) == x - lo;
  }

  /**
   * Over a domain of positive width in u and in v, every texture coordinate
   * of the adaptive mesh lies in the unit square.
   */
  lemma AdaptiveUvsInUnitSquare(s: Surface, tolerance: real)
    requires s.uMin < s.uMax && s.vMin < s.vMax
    ensures var m := AdaptiveMesh(s, tolerance);
      forall i :: 0 <= i < |m.uvs| ==> 0.0 <= m.uvs[i].x <= 1.0 && 0.0 <= m.uvs[i].y <= 1.0
  {
    var m, leaves := AdaptiveMesh(s, tolerance), AllLeaves(s, tolerance);
    forall i | 0 <= i < |m.uvs| ensures 0.0 <= m.uvs[i].x <= 1.0 && 0.0 <= m.uvs[i].y <= 1.0 {
      UvOfLeaf(s, leaves, i);
      LeafInDomain(s, tolerance, i / 4);
      CornerUvInUnit(s, leaves[i / 4], i % 4);
    }
  }

  /** Texture coordinate `i` of the mesh emitted from `ps` is that of corner `i % 4` of patch `i / 4`. */
  lemma UvOfLeaf(s: Surface, ps: seq<Patch>, i: nat)
    requires i < |EmitAll(s, Empty, ps).uvs|
    ensures var m := EmitAll(s, Empty, ps);
      i / 4 < |ps| && m.uvs[i] == AtCorners(UvAt(s), ps[i / 4])[i % 4]
  {
    var m := EmitAll(s, Empty, ps);
    var k, c := i / 4, i % 4;
    var start := 4 * k;
    EmitAllLayout(s, ps);
    assert i == start + c && c < 4 && k < |ps|;
    assert LeafAt(s, m, k, ps[k]);
    BlockIndex(m.uvs, start, AtCorners(UvAt(s), ps[k]), c);
  }

  /** Entry `c` of a block of four that starts at `start` is entry `start + c` of the whole. */
  lemma BlockIndex<T>(xs: seq<T>, start: nat, block: seq<T>, c: nat)
    requires start + 4 <= |xs| && xs[start..start + 4] == block && c < 4
    ensures xs[start + c] == block[c]
  {
  }

  /** Over an ordered domain, every leaf the adaptive mesh emits lies inside it. */
  lemma LeafInDomain(s: Surface, tolerance: real, k: nat)
    requires s.uMin <= s.uMax && s.vMin <= s.vMax && k < |AllLeaves(s, tolerance)|
    ensures InDomain(s, AllLeaves(s, tolerance)[k])
  {
    StartPatchesInDomain(s);
    LeavesOfInDomain(s, Splits(s, tolerance), StartPatches(s));
  }

  /** Over a domain of positive width, the texture coordinate of each corner of a patch inside it lies in the unit square. */
  lemma CornerUvInUnit(s: Surface, p: Patch, c: nat)
    requires s.uMin < s.uMax && s.vMin < s.vMax && InDomain(s, p) && c < 4
    ensures var uv := AtCorners(UvAt(s), p)[c];
      0.0 <= uv.x <= 1.0 && 0.0 <= uv.y <= 1.0
  {
    var corner := Corners(p)[c];
    assert s.uMin <= corner.0 <= s.uMax && s.vMin <= corner.1 <= s.vMax;
    FractionInUnit(corner.0, s.uMin, s.uMax);
    FractionInUnit(corner.1, s.vMin, s.vMax);
  }
}
