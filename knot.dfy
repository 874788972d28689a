/**
 * The knot-span search of B-spline evaluation: for a parameter `t`, the index
 * `i` in `[degree, n]` with `knots[i] <= t < knots[i + 1]`, where `n` is the
 * number of control points minus one. Knot values are compared only, so they
 * are modelled as reals.
 */
module Knot {

  predicate NonDecreasing(knots: seq<real>) {
    forall i, j :: 0 <= i <= j < |knots| ==> knots[i] <= knots[j]
  }

  /** `i` is a span of `t`: `knots[i] <= t < knots[i + 1]`. */
  predicate IsSpan(knots: seq<real>, i: nat, t: real)
    requires i + 1 < |knots|
  {
    knots[i] <= t < knots[i + 1]
  }

  /** The last index in `[lo, i]` whose knot is at most `t`, scanning down from `i`. */
  function SpanScan(knots: seq<real>, t: real, lo: nat, i: nat): (r: nat)
    requires lo <= i < |knots| && knots[lo] <= t
    ensures lo <= r <= i && knots[r] <= t
    ensures forall j :: r < j <= i ==> t < knots[j]
    decreases i
  {
    if knots[i] <= t then i else SpanScan(knots, t, lo, i - 1)
  }

  /**
   * The span `find_span` is meant to return, found by a linear scan: `n` at or
   * beyond the upper end, `degree` at or before the lower end, and otherwise
   * the last span start at most `t`.
   */
  function SpanSpec(knots: seq<real>, degree: nat, n: nat, t: real): nat
    requires degree <= n && n + 1 < |knots|
  {
    if t >= knots[n + 1] then n
    else if t <= knots[degree] then degree
    else SpanScan(knots, t, degree, n)
  }

  /** Over non-decreasing knots a span of `t` within `[degree, n]` is the one the linear scan finds. */
  lemma SpanUnique(knots: seq<real>, degree: nat, n: nat, t: real, i: nat)
    requires NonDecreasing(knots) && degree <= i <= n && n + 1 < |knots|
    requires knots[degree] < t < knots[n + 1] && IsSpan(knots, i, t)
    ensures i == SpanSpec(knots, degree, n, t)
  {
    var s := SpanScan(knots, t, degree, n);
    assert knots[s] <= t < knots[i + 1];
  }

  /**
   * `find_span`: the upper-boundary test comes first, then the lower one, then
   * a binary search that keeps `knots[low] <= t < knots[high]`. The result is
   * always in `[degree, n]` and, strictly inside the knot range, a span of `t`
   * even when the knots are not sorted; over non-decreasing knots it is the
   * span the linear scan finds.
   */
  method FindSpan(degree: nat, knots: seq<real>, n: nat, t: real) returns (r: nat)
    requires degree <= n && n + 1 < |knots|
    ensures degree <= r <= n
    ensures t >= knots[n + 1] ==> r == n
    ensures t < knots[n + 1] && t <= knots[degree] ==> r == degree
    ensures knots[degree] < t < knots[n + 1] ==> IsSpan(knots, r, t)
    ensures NonDecreasing(knots) ==> r == SpanSpec(knots, degree, n, t)
  {
    if t >= knots[n + 1] {
      return n;
    }
    if t <= knots[degree] {
      return degree;
    }
    var low := degree;
    var high := n + 1;
    var mid := (low + high) / 2;
    while t < knots[mid] || t >= knots[mid + 1]
      invariant degree <= low < high <= n + 1
      invariant mid == (low + high) / 2
      invariant knots[low] <= t < knots[high]
      decreases high - low
    {
      if t < knots[mid] {
        high := mid;
      } else {
        low := mid;
      }
      mid := (low + high) / 2;
    }
    r := mid;
    if NonDecreasing(knots) {
      SpanUnique(knots, degree, n, t, r);
    }
  }

  /** The knot vector of a degree-2 curve with five control points. */
  const Uniform: seq<real> := [0.0, 0.0, 0.0, 1.0, 2.0, 3.0, 3.0, 3.0]

  /** On that vector, t = 0, 0.5, 1, 1.5, 2.5 and 3 fall in spans 2, 2, 3, 3, 4 and 4. */
  lemma UniformSpans()
    ensures SpanSpec(Uniform, 2, 4, 0.0) == 2 && SpanSpec(Uniform, 2, 4, 0.5) == 2
    ensures SpanSpec(Uniform, 2, 4, 1.0) == 3 && SpanSpec(Uniform, 2, 4, 1.5) == 3
    ensures SpanSpec(Uniform, 2, 4, 2.5) == 4 && SpanSpec(Uniform, 2, 4, 3.0) == 4
  {
    assert Uniform[2] == 0.0 && Uniform[3] == 1.0 && Uniform[4] == 2.0 && Uniform[5] == 3.0;
  }
}
