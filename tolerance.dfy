/**
 * Tolerances for geometric comparisons: a linear tolerance for distances and
 * an angular one for angles, with three presets. Values are reals; the
 * source's `f64` rounding is not modelled.
 */
module Tolerances {
  import Core

  datatype Tolerance = Tolerance(linear: real, angular: real)

  const DefaultLinear: real := 0.0000001
  const DefaultAngular: real := 0.0000000001

  /** `Tolerance::new`. */
  function New(linear: real, angular: real): (t: Tolerance)
    ensures t.linear == linear && t.angular == angular
  {
    Tolerance(linear, angular)
  }

  /** `default_precision`: 1e-7 linear, 1e-10 angular. */
  function DefaultPrecision(): (t: Tolerance)
    ensures t.linear == 1.0 / 10000000.0 && t.angular == 1.0 / 10000000000.0
  {
    Tolerance(DefaultLinear, DefaultAngular)
  }

  /** `loose`: 1e-4 linear, 1e-6 angular. */
  function Loose(): (t: Tolerance)
    ensures t.linear == 1.0 / 10000.0 && t.angular == 1.0 / 1000000.0
  {
    Tolerance(0.0001, 0.000001)
  }

  /** `tight`: 1e-10 linear, 1e-12 angular. */
  function Tight(): (t: Tolerance)
    ensures t.linear == 1.0 / 10000000000.0 && t.angular == 1.0 / 1000000000000.0
  {
    Tolerance(0.0000000001, 0.000000000001)
  }

  /** `Default::default`. */
  function Default(): (t: Tolerance)
    ensures t == DefaultPrecision()
  {
    DefaultPrecision()
  }

  /** `linear_eq`: the two values lie strictly closer than the linear tolerance. */
  function LinearEq(t: Tolerance, a: real, b: real): (r: bool)
    ensures r <==> b - t.linear < a < b + t.linear
  {
    Core.AbsR(a - b) < t.linear
  }

  /** `is_zero`: the value lies strictly inside the linear tolerance around zero. */
  function IsZero(t: Tolerance, v: real): (r: bool)
    ensures r <==> -t.linear < v < t.linear
  {
    Core.AbsR(v) < t.linear
  }

  /** `angular_eq`: the two angles lie strictly closer than the angular tolerance. */
  function AngularEq(t: Tolerance, a: real, b: real): (r: bool)
    ensures r <==> b - t.angular < a < b + t.angular
  {
    Core.AbsR(a - b) < t.angular
  }

  /** Both comparisons are symmetric. */
  lemma EqualitiesSymmetric(t: Tolerance, a: real, b: real)
    ensures LinearEq(t, a, b) == LinearEq(t, b, a)
    ensures AngularEq(t, a, b) == AngularEq(t, b, a)
  {
  }

  /** A value is zero exactly when it equals zero within the linear tolerance. */
  lemma IsZeroIsLinearEq(t: Tolerance, v: real)
    ensures IsZero(t, v) == LinearEq(t, v, 0.0)
  {
  }

  /** Nothing is equal to anything under a tolerance that is not positive. */
  lemma NonPositiveRejects(t: Tolerance, a: real, b: real)
    requires t.linear <= 0.0
    ensures !LinearEq(t, a, b) && !IsZero(t, a)
  {
  }

  /** A wider tolerance accepts whatever a narrower one accepts. */
  lemma WiderAccepts(t: Tolerance, u: Tolerance, a: real, b: real)
    requires t.linear <= u.linear && t.angular <= u.angular
    ensures LinearEq(t, a, b) ==> LinearEq(u, a, b)
    ensures AngularEq(t, a, b) ==> AngularEq(u, a, b)
  {
  }

  /** The presets are ordered: tight, then the default, then loose, in both components. */
  lemma PresetsOrdered()
    ensures Tight().linear < DefaultPrecision().linear < Loose().linear
    ensures Tight().angular < DefaultPrecision().angular < Loose().angular
    ensures Default() == DefaultPrecision()
  {
  }
}
