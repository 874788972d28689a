/**
 * Axis-aligned bounding boxes in three dimensions: built from points, queried
 * for containment and overlap, merged and grown. Coordinates are reals; the
 * source's `f64` rounding and NaN handling are not modelled.
 */
module Aabb {
  import opened Core

  datatype Aabb3 = Aabb3(min: Vec3, max: Vec3)

  /** The box is not inverted: its minimum lies below its maximum on every axis. */
  predicate Ordered(b: Aabb3) {
    LessEq3(b.min, b.max)
  }

  /** `contains_point`: `p` lies within the box, faces included. */
  function ContainsPoint(b: Aabb3, p: Vec3): (r: bool)
    ensures r ==> Ordered(b)
    ensures r <==> LessEq3(b.min, p) && LessEq3(p, b.max)
  {
    p.x >= b.min.x && p.x <= b.max.x &&
    p.y >= b.min.y && p.y <= b.max.y &&
    p.z >= b.min.z && p.z <= b.max.z
  }

  /** `intersects`: the two boxes overlap on every axis (touching counts). */
  function Intersects(a: Aabb3, b: Aabb3): (r: bool)
    ensures Ordered(a) && Ordered(b) ==> (r <==> LessEq3(Max3(a.min, b.min), Min3(a.max, b.max)))
  {
    a.min.x <= b.max.x && a.max.x >= b.min.x &&
    a.min.y <= b.max.y && a.max.y >= b.min.y &&
    a.min.z <= b.max.z && a.max.z >= b.min.z
  }

  /** `merge`: the componentwise least minimum and greatest maximum. */
  function Merge(a: Aabb3, b: Aabb3): (r: Aabb3)
    ensures LessEq3(r.min, a.min) && LessEq3(r.min, b.min)
    ensures LessEq3(a.max, r.max) && LessEq3(b.max, r.max)
  {
    Aabb3(Min3(a.min, b.min), Max3(a.max, b.max))
  }

  /** `expand`: the box grown by `amount` on every side. */
  function Expand(b: Aabb3, amount: real): (r: Aabb3)
    ensures r.min.x == b.min.x - amount && r.min.y == b.min.y - amount && r.min.z == b.min.z - amount
    ensures r.max.x == b.max.x + amount && r.max.y == b.max.y + amount && r.max.z == b.max.z + amount
    ensures r.max.x - r.min.x == b.max.x - b.min.x + 2.0 * amount
    ensures r.max.y - r.min.y == b.max.y - b.min.y + 2.0 * amount
    ensures r.max.z - r.min.z == b.max.z - b.min.z + 2.0 * amount
  {
    var offset := Vec3(amount, amount, amount);
    Aabb3(Sub(b.min, offset), Add(b.max, offset))
  }

  /**
   * The box the loop of `from_points` ends with over a non-empty slice: the
   * first point, widened by each following point in turn.
   */
  function BoxOf(points: seq<Vec3>): Aabb3
    requires points != []
  {
    if |points| == 1 then Aabb3(points[0], points[0])
    else
      var b := BoxOf(points[..|points| - 1]);
      var p := points[|points| - 1];
      Aabb3(Min3(b.min, p), Max3(b.max, p))
  }

  /** `from_points`: `None` for no points, otherwise the box of the points. */
  method FromPoints(points: seq<Vec3>) returns (r: Option<Aabb3>)
    ensures points == [] <==> r.None?
    ensures r.Some? ==> r.value == BoxOf(points)
  {
    if |points| == 0 {
      return None;
    }
    var lo, hi := points[0], points[0];
    var i := 1;
    while i < |points|
      invariant 1 <= i <= |points|
      invariant Aabb3(lo, hi) == BoxOf(points[..i])
    {
      assert points[..i + 1][..i] == points[..i];
      lo := Min3(lo, points[i]);
      hi := Max3(hi, points[i]);
      i := i + 1;
    }
    assert points[..i] == points;
    return Some(Aabb3(lo, hi));
  }

  /** The box of some points contains every one of them. */
  lemma {:induction false} BoxOfContains(points: seq<Vec3>)
    requires points != []
    ensures forall i :: 0 <= i < |points| ==> ContainsPoint(BoxOf(points), points[i])
  {
    if |points| > 1 {
      var init := points[..|points| - 1];
      BoxOfContains(init);
      forall i | 0 <= i < |points| - 1 ensures ContainsPoint(BoxOf(points), points[i]) {
        assert points[i] == init[i];
      }
    }
  }

  /** Coordinate `axis` of a point: x, y or z for 0, 1 or 2. */
  function Coord(p: Vec3, axis: nat): real {
    if axis == 0 then p.x else if axis == 1 then p.y else p.z
  }

  /** Each face of the box of some points passes through one of them. */
  lemma {:induction false} BoxOfAttained(points: seq<Vec3>, axis: nat)
    requires points != [] && axis < 3
    ensures exists i :: 0 <= i < |points| && Coord(points[i], axis) == Coord(BoxOf(points).min, axis)
    ensures exists i :: 0 <= i < |points| && Coord(points[i], axis) == Coord(BoxOf(points).max, axis)
  {
    if |points| == 1 {
      assert Coord(points[0], axis) == Coord(BoxOf(points).min, axis);
      assert Coord(points[0], axis) == Coord(BoxOf(points).max, axis);
    } else {
      var init, last := points[..|points| - 1], |points| - 1;
      BoxOfAttained(init, axis);
      var b, p := BoxOf(init), points[last];
      assert BoxOf(points) == Aabb3(Min3(b.min, p), Max3(b.max, p));
      var lo :| 0 <= lo < |init| && Coord(init[lo], axis) == Coord(b.min, axis);
      var hi :| 0 <= hi < |init| && Coord(init[hi], axis) == Coord(b.max, axis);
      assert init[lo] == points[lo] && init[hi] == points[hi];
      if Coord(p, axis) < Coord(b.min, axis) {
        assert Coord(points[last], axis) == Coord(BoxOf(points).min, axis);
      } else {
        assert Coord(points[lo], axis) == Coord(BoxOf(points).min, axis);
      }
      if Coord(p, axis) > Coord(b.max, axis) {
        assert Coord(points[last], axis) == Coord(BoxOf(points).max, axis);
      } else {
        assert Coord(points[hi], axis) == Coord(BoxOf(points).max, axis);
      }
    }
  }

  /** Any box containing all the points contains the box of the points: it is the smallest one. */
  lemma {:induction false} BoxOfSmallest(points: seq<Vec3>, b: Aabb3)
    requires points != []
    requires forall i :: 0 <= i < |points| ==> ContainsPoint(b, points[i])
    ensures LessEq3(b.min, BoxOf(points).min) && LessEq3(BoxOf(points).max, b.max)
  {
    if |points| > 1 {
      BoxOfSmallest(points[..|points| - 1], b);
      assert ContainsPoint(b, points[|points| - 1]);
    }
  }

  /** The box of two runs of points is the merge of their boxes. */
  lemma {:induction false} BoxOfConcat(ps: seq<Vec3>, qs: seq<Vec3>)
    requires ps != [] && qs != []
    ensures BoxOf(ps + qs) == Merge(BoxOf(ps), BoxOf(qs))
    decreases |qs|
  {
    var all := ps + qs;
    assert all[..|all| - 1] == ps + qs[..|qs| - 1];
    if |qs| > 1 {
      BoxOfConcat(ps, qs[..|qs| - 1]);
    } else {
      assert all[..|all| - 1] == ps;
    }
  }

  /** The box of a single point is that point twice. */
  lemma BoxOfOne(p: Vec3)
    ensures BoxOf([p]) == Aabb3(p, p)
  {
  }

  /**
   * Two ordered boxes intersect exactly when some point lies in both; so
   * `intersects` is symmetric, and every ordered box intersects itself.
   */
  lemma IntersectsIffCommonPoint(a: Aabb3, b: Aabb3)
    requires Ordered(a) && Ordered(b)
    ensures Intersects(a, b) <==> exists p :: ContainsPoint(a, p) && ContainsPoint(b, p)
    ensures Intersects(a, b) == Intersects(b, a)
    ensures Intersects(a, a)
  {
    if Intersects(a, b) {
      var p := Max3(a.min, b.min);
      assert ContainsPoint(a, p) && ContainsPoint(b, p);
    }
  }

  /** `intersects` is symmetric for any two boxes, ordered or not. */
  lemma IntersectsSymmetric(a: Aabb3, b: Aabb3)
    ensures Intersects(a, b) == Intersects(b, a)
  {
  }

  /** The merge of two boxes contains every point of each. */
  lemma MergeContains(a: Aabb3, b: Aabb3, p: Vec3)
    requires ContainsPoint(a, p) || ContainsPoint(b, p)
    ensures ContainsPoint(Merge(a, b), p)
  {
  }

  /** Growing a box by a non-negative amount keeps every point it contained. */
  lemma ExpandContains(b: Aabb3, amount: real, p: Vec3)
    requires amount >= 0.0 && ContainsPoint(b, p)
    ensures ContainsPoint(Expand(b, amount), p)
  {
  }

  /** Points (1,2,3), (-1,5,0) and (3,-1,2) give the box from (-1,-1,0) to (3,5,3). */
  lemma FromPointsExample()
    ensures BoxOf([Vec3(1.0, 2.0, 3.0), Vec3(-1.0, 5.0, 0.0), Vec3(3.0, -1.0, 2.0)])
         == Aabb3(Vec3(-1.0, -1.0, 0.0), Vec3(3.0, 5.0, 3.0))
  {
    var ps := [Vec3(1.0, 2.0, 3.0), Vec3(-1.0, 5.0, 0.0), Vec3(3.0, -1.0, 2.0)];
    assert ps[..2][..1] == [Vec3(1.0, 2.0, 3.0)];
    assert ps[..2] == [Vec3(1.0, 2.0, 3.0), Vec3(-1.0, 5.0, 0.0)];
  }
}
