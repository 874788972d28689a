/**
 * Tessellation of curves and surfaces: a curve becomes a polyline by
 * recursive bisection of its parameter range wherever the curve bulges away
 * from the chord, and a surface becomes a uniform grid of vertices joined by
 * two triangles per cell.
 *
 * The curves and surfaces themselves are evaluators given as parameters; the
 * deviation test is decided exactly over the reals.
 */
module Tessellate {
  import opened Core
  import opened Triangles

  /** A curve: its parameter domain and its point evaluator. */
  datatype Curve = Curve(tMin: real, tMax: real, pointAt: real -> Vec3)

  /** A surface: its two parameter domains and its point and normal evaluators. */
  datatype Surface = Surface(uMin: real, uMax: real, vMin: real, vMax: real,
                             pointAt: (real, real) -> Vec3, normalAt: (real, real) -> Vec3)

  // ----- curve_to_polyline -----

  /** Bisection stops at this depth, whatever the deviation. */
  const CurveMaxDepth: nat := 12

  function Mid(t0: real, t1: real): real { (t0 + t1) * 0.5 }

  /** The curve's point halfway through [t0, t1] lies farther than `tolerance` from the chord's midpoint. */
  predicate Bulges(c: Curve, t0: real, t1: real, tolerance: real) {
    var chordMid := Scale(Add(c.pointAt(t0), c.pointAt(t1)), 0.5);
    LongerThan(Sub(c.pointAt(Mid(t0, t1)), chordMid), tolerance)
  }

  /**
   * What `subdivide_curve` appends for [t0, t1] at `depth`: the right end of
   * every piece it stops splitting, left to right.
   */
  function Segment(c: Curve, t0: real, t1: real, tolerance: real, depth: nat): seq<Vec3>
    decreases CurveMaxDepth - depth
  {
    if depth >= CurveMaxDepth || !Bulges(c, t0, t1, tolerance) then [c.pointAt(t1)]
    else Segment(c, t0, Mid(t0, t1), tolerance, depth + 1) + Segment(c, Mid(t0, t1), t1, tolerance, depth + 1)
  }

  /** The polyline of a curve: its start point, then the pieces of its whole domain. */
  function Polyline(c: Curve, tolerance: real): seq<Vec3> {
    [c.pointAt(c.tMin)] + Segment(c, c.tMin, c.tMax, tolerance, 0)
  }

  /** `subdivide_curve`: appends the pieces of [t0, t1] to `points`. */
  method SubdivideCurve(c: Curve, t0: real, t1: real, tolerance: real, points: seq<Vec3>, depth: nat)
    returns (out: seq<Vec3>)
    ensures out == points + Segment(c, t0, t1, tolerance, depth)
    decreases CurveMaxDepth - depth
  {
    if depth >= CurveMaxDepth {
      return points + [c.pointAt(t1)];
    }
    var tMid := (t0 + t1) * 0.5;
    var p0 := c.pointAt(t0);
    var p1 := c.pointAt(t1);
    var pMid := c.pointAt(tMid);
    var chordMid := Scale(Add(p0, p1), 0.5);
    if LongerThan(Sub(pMid, chordMid), tolerance) {
      out := SubdivideCurve(c, t0, tMid, tolerance, points, depth + 1);
      out := SubdivideCurve(c, tMid, t1, tolerance, out, depth + 1);
    } else {
      out := points + [c.pointAt(t1)];
    }
  }

  /** `curve_to_polyline`. */
  method CurveToPolyline(c: Curve, tolerance: real) returns (points: seq<Vec3>)
    ensures points == Polyline(c, tolerance)
  {
    points := [c.pointAt(c.tMin)];
    points := SubdivideCurve(c, c.tMin, c.tMax, tolerance, points, 0);
  }

  /** 2^n, the most pieces a segment can be cut into n levels above the depth limit. */
  function Pow2(n: nat): (r: nat)
    ensures r >= 1
  {
    if n == 0 then 1 else 2 * Pow2(n - 1)
  }

  /**
   * The pieces of [t0, t1] end at `t1`, and there are at least one and at
   * most 2^(12 - depth) of them.
   */
  lemma {:induction false} SegmentShape(c: Curve, t0: real, t1: real, tolerance: real, depth: nat)
    requires depth <= CurveMaxDepth
    ensures var s := Segment(c, t0, t1, tolerance, depth);
      1 <= |s| <= Pow2(CurveMaxDepth - depth) && s[|s| - 1] == c.pointAt(t1)
    decreases CurveMaxDepth - depth
  {
    if depth < CurveMaxDepth && Bulges(c, t0, t1, tolerance) {
      SegmentShape(c, t0, Mid(t0, t1), tolerance, depth + 1);
      SegmentShape(c, Mid(t0, t1), t1, tolerance, depth + 1);
    }
  }

  /**
   * The polyline runs from the curve's start to its end and has between 2
   * and 1 + 2^12 points; exactly 2 when the whole domain does not bulge.
   */
  lemma PolylineShape(c: Curve, tolerance: real)
    ensures var ps := Polyline(c, tolerance);
      2 <= |ps| <= 1 + 4096 && ps[0] == c.pointAt(c.tMin) && ps[|ps| - 1] == c.pointAt(c.tMax)
    ensures !Bulges(c, c.tMin, c.tMax, tolerance) ==> Polyline(c, tolerance) == [c.pointAt(c.tMin), c.pointAt(c.tMax)]
  {
    SegmentShape(c, c.tMin, c.tMax, tolerance, 0);
    assert Pow2(12) == 4096;
  }

  /** The curve is the straight line through `origin` with direction `dir`. */
  ghost predicate Straight(c: Curve, origin: Vec3, dir: Vec3) {
    forall t :: c.pointAt(t) == Add(origin, Scale(dir, t))
  }

  /** A straight line never bulges, so with a non-negative tolerance its polyline is its two end points. */
  lemma StraightTwoPoints(c: Curve, origin: Vec3, dir: Vec3, tolerance: real)
    requires Straight(c, origin, dir) && tolerance >= 0.0
    ensures Polyline(c, tolerance) == [c.pointAt(c.tMin), c.pointAt(c.tMax)]
  {
    var t0, t1 := c.tMin, c.tMax;
    assert c.pointAt(t0) == Add(origin, Scale(dir, t0));
    assert c.pointAt(t1) == Add(origin, Scale(dir, t1));
    assert c.pointAt(Mid(t0, t1)) == Add(origin, Scale(dir, Mid(t0, t1)));
    LineMidpoint(origin, dir, t0, t1);
    assert tolerance * tolerance >= 0.0;
    PolylineShape(c, tolerance);
  }

  /** On a straight line the point at the middle parameter is the midpoint of the chord. */
  lemma LineMidpoint(origin: Vec3, dir: Vec3, t0: real, t1: real)
    ensures Sub(Add(origin, Scale(dir, Mid(t0, t1))),
                Scale(Add(Add(origin, Scale(dir, t0)), Add(origin, Scale(dir, t1))), 0.5)) == Origin
  {
    assert dir.x * ((t0 + t1) * 0.5) == (dir.x * t0 + dir.x * t1) * 0.5;
    assert dir.y * ((t0 + t1) * 0.5) == (dir.y * t0 + dir.y * t1) * 0.5;
    assert dir.z * ((t0 + t1) * 0.5) == (dir.z * t0 + dir.z * t1) * 0.5;
  }

  // ----- Uniform grids -----

  /** The parameter of grid line `i` when [lo, hi] is cut into `divs` equal parts. */
  function GridParam(lo: real, hi: real, i: nat, divs: nat): real {
    lo + Quotient((hi - lo) * (i as real), divs as real)
  }

  /** The first `j` samples of row `i` of a grid. */
  function RowPrefix<T>(f: (nat, nat) -> T, i: nat, j: nat): (r: seq<T>)
    ensures |r| == j && forall k :: 0 <= k < j ==> r[k] == f(i, k)
  {
    if j == 0 then [] else RowPrefix(f, i, j - 1) + [f(i, j - 1)]
  }

  /** The samples of the first `rows` rows of a grid `cols` wide, row after row. */
  function Rows<T>(f: (nat, nat) -> T, rows: nat, cols: nat): (r: seq<T>)
    ensures |r| == rows * cols
  {
    if rows == 0 then [] else Rows(f, rows - 1, cols) + RowPrefix(f, rows - 1, cols)
  }

  /** Sample (i, j) of a grid `cols` wide sits at index `i * cols + j`. */
  lemma {:induction false} RowsAt<T>(f: (nat, nat) -> T, rows: nat, cols: nat, i: nat, j: nat)
    requires i < rows && j < cols
    ensures i * cols + j < |Rows(f, rows, cols)| && Rows(f, rows, cols)[i * cols + j] == f(i, j)
  {
    var front := Rows(f, rows - 1, cols);
    assert |front| == (rows - 1) * cols;
    if i < rows - 1 {
      RowsAt(f, rows - 1, cols, i, j);
    } else {
      assert i * cols == |front|;
    }
  }

  /** The surface evaluated at grid node (i, j). */
  function SurfacePoint(s: Surface, uDivs: nat, vDivs: nat): (nat, nat) -> Vec3 {
    (i: nat, j: nat) => s.pointAt(GridParam(s.uMin, s.uMax, i, uDivs), GridParam(s.vMin, s.vMax, j, vDivs))
  }

  /** The surface normal at grid node (i, j). */
  function SurfaceNormal(s: Surface, uDivs: nat, vDivs: nat): (nat, nat) -> Vec3 {
    (i: nat, j: nat) => s.normalAt(GridParam(s.uMin, s.uMax, i, uDivs), GridParam(s.vMin, s.vMax, j, vDivs))
  }

  /** The two triangles of grid cell (i, j), in a grid whose rows hold `width` vertices. */
  function CellTriangles(i: nat, j: nat, width: nat): seq<Triple> {
    var a, b, c, d := i * width + j, (i + 1) * width + j, (i + 1) * width + j + 1, i * width + j + 1;
    [Triple(a, b, c), Triple(a, c, d)]
  }

  /** The triangles of the first `j` cells of cell row `i`. */
  function CellRow(i: nat, j: nat, width: nat): (r: seq<Triple>)
    ensures |r| == 2 * j
  {
    if j == 0 then [] else CellRow(i, j - 1, width) + CellTriangles(i, j - 1, width)
  }

  /** The triangles of the first `i` cell rows, each `vDivs` cells long. */
  function CellRows(i: nat, vDivs: nat): (r: seq<Triple>)
    ensures |r| == 2 * i * vDivs
  {
    if i == 0 then [] else CellRows(i - 1, vDivs) + CellRow(i - 1, vDivs, vDivs + 1)
  }

  /** Every corner of every triangle lies below `n`. */
  predicate TrianglesBelow(ts: seq<Triple>, n: nat) {
    forall k :: 0 <= k < |ts| ==> ts[k].i0 < n && ts[k].i1 < n && ts[k].i2 < n
  }

  /** The cells of row `i` use only the vertices of grid rows `i` and `i + 1`. */
  lemma {:induction false} CellRowBelow(i: nat, j: nat, width: nat)
    requires j < width
    ensures TrianglesBelow(CellRow(i, j, width), (i + 1) * width + width)
  {
    if j > 0 {
      CellRowBelow(i, j - 1, width);
      assert (i + 1) * width + j <= (i + 1) * width + width;
    }
  }

  /**
   * The grid of `uDivs` by `vDivs` cells has 2 * uDivs * vDivs triangles, and
   * each corner is one of its (uDivs + 1) * (vDivs + 1) vertices.
   */
  lemma {:induction false} CellRowsBelow(i: nat, vDivs: nat)
    ensures TrianglesBelow(CellRows(i, vDivs), (i + 1) * (vDivs + 1))
  {
    if i > 0 {
      var width := vDivs + 1;
      CellRowsBelow(i - 1, vDivs);
      CellRowBelow(i - 1, vDivs, width);
      assert i * width <= (i + 1) * width;
      assert (i - 1 + 1) * width + width == (i + 1) * width;
      var front, back := CellRows(i - 1, vDivs), CellRow(i - 1, vDivs, width);
      assert forall k :: 0 <= k < |front| ==> (front + back)[k] == front[k];
      assert forall k :: 0 <= k < |back| ==> (front + back)[|front| + k] == back[k];
    }
  }

  /** `surface_to_triangles`: the grid of surface points and the two triangles of each cell. */
  method SurfaceToTriangles(s: Surface, uDivs: nat, vDivs: nat) returns (vertices: seq<Vec3>, triangles: seq<Triple>)
    ensures vertices == Rows(SurfacePoint(s, uDivs, vDivs), uDivs + 1, vDivs + 1)
    ensures triangles == CellRows(uDivs, vDivs)
  {
    vertices := SampleGrid(s, uDivs, vDivs);
    triangles := GridCells(uDivs, vDivs);
  }

  /** The vertex loops of `surface_to_triangles`: the surface at every grid node, row after row. */
  method SampleGrid(s: Surface, uDivs: nat, vDivs: nat) returns (vertices: seq<Vec3>)
    ensures vertices == Rows(SurfacePoint(s, uDivs, vDivs), uDivs + 1, vDivs + 1)
  {
    vertices := [];
    var i := 0;
    while i < uDivs + 1
      invariant i <= uDivs + 1 && vertices == Rows(SurfacePoint(s, uDivs, vDivs), i, vDivs + 1)
    {
      var row := SampleRow(s, uDivs, vDivs, i);
      vertices := vertices + row;
      i := i + 1;
    }
  }

  /** One pass of the inner vertex loop: the surface at the nodes of grid row `i`. */
  method SampleRow(s: Surface, uDivs: nat, vDivs: nat, i: nat) returns (row: seq<Vec3>)
    ensures row == RowPrefix(SurfacePoint(s, uDivs, vDivs), i, vDivs + 1)
  {
    ghost var f := SurfacePoint(s, uDivs, vDivs);
    var u := s.uMin + Quotient((s.uMax - s.uMin) * (i as real), uDivs as real);
    row := [];
    var j: nat := 0;
    while j < vDivs + 1
      invariant j <= vDivs + 1 && row == RowPrefix(f, i, j)
    {
      var v := s.vMin + Quotient((s.vMax - s.vMin) * (j as real), vDivs as real);
      assert u == GridParam(s.uMin, s.uMax, i, uDivs) && v == GridParam(s.vMin, s.vMax, j, vDivs);
      assert f(i, j) == s.pointAt(u, v);
      row := row + [s.pointAt(u, v)];
      j := j + 1;
    }
  }

  /** The triangle loops of `surface_to_triangles` and `tessellate_surface`: two triangles per cell, row after row. */
  method GridCells(uDivs: nat, vDivs: nat) returns (triangles: seq<Triple>)
    ensures triangles == CellRows(uDivs, vDivs)
  {
    var vCount := vDivs + 1;
    triangles := [];
    var i := 0;
    while i < uDivs
      invariant i <= uDivs && triangles == CellRows(i, vDivs)
    {
      var j := 0;
      while j < vDivs
        invariant j <= vDivs && triangles == CellRows(i, vDivs) + CellRow(i, j, vCount)
      {
        var a, b, c, d := i * vCount + j, (i + 1) * vCount + j, (i + 1) * vCount + j + 1, i * vCount + j + 1;
        triangles := triangles + [Triple(a, b, c)];
        triangles := triangles + [Triple(a, c, d)];
        j := j + 1;
      }
      i := i + 1;
    }
  }

  /**
   * The grid of a surface cut into `uDivs` by `vDivs` cells has
   * (uDivs + 1) * (vDivs + 1) vertices and 2 * uDivs * vDivs triangles,
   * every corner one of the vertices.
   */
  lemma GridShape(s: Surface, uDivs: nat, vDivs: nat)
    ensures |Rows(SurfacePoint(s, uDivs, vDivs), uDivs + 1, vDivs + 1)| == (uDivs + 1) * (vDivs + 1)
    ensures |CellRows(uDivs, vDivs)| == 2 * uDivs * vDivs
    ensures TrianglesBelow(CellRows(uDivs, vDivs), (uDivs + 1) * (vDivs + 1))
  {
    CellRowsBelow(uDivs, vDivs);
  }

  /** A 4 by 3 grid has 20 vertices and 24 triangles. */
  lemma GridExample(s: Surface)
    ensures |Rows(SurfacePoint(s, 4, 3), 5, 4)| == 20 && |CellRows(4, 3)| == 24
  {
  }
}
