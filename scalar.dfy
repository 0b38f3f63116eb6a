// Scalar helpers of include/pbrt/math/utility.hpp over exact reals.
module Scalar {
  /** `min(lhs, rhs)`: `std::min`, which returns `rhs` only when it is strictly smaller. */
  function Min(lhs: real, rhs: real): (r: real)
    ensures r <= lhs && r <= rhs
    ensures r == lhs || r == rhs
    ensures lhs <= rhs ==> r == lhs
  {
    if rhs < lhs then rhs else lhs
  }

  /** `max(lhs, rhs)`: `std::max`, which returns `rhs` only when it is strictly larger. */
  function Max(lhs: real, rhs: real): (r: real)
    ensures r >= lhs && r >= rhs
    ensures r == lhs || r == rhs
    ensures lhs >= rhs ==> r == lhs
  {
    if lhs < rhs then rhs else lhs
  }

  /**
   * `clamp(value, lo, hi)`: `std::clamp`, whose callers must supply `lo <= hi`.
   * The value itself inside the range, `lo` below it, `hi` above it.
   */
  function Clamp(value: real, lo: real, hi: real): (r: real)
    requires lo <= hi
    ensures lo <= r <= hi
    ensures lo <= value <= hi ==> r == value
    ensures value < lo ==> r == lo
    ensures hi < value ==> r == hi
  {
    if value < lo then lo else if hi < value then hi else value
  }

  /** Absolute value, as `std::abs`. */
  function Abs(x: real): (r: real)
    ensures r >= 0.0 && (r == x || r == -x)
  {
    if x < 0.0 then -x else x
  }

  /** `lerp(start, end, time)`: `std::lerp`, which over exact reals is `start + time * (end - start)`. */
  function Lerp(start: real, end: real, time: real): (r: real)
    ensures time == 0.0 ==> r == start
    ensures time == 1.0 ==> r == end
  {
    start + time * (end - start)
  }

  /** For a time in [0, 1], `lerp` stays between its endpoints. */
  lemma LerpBetween(start: real, end: real, time: real)
    requires start <= end && 0.0 <= time <= 1.0
    ensures start <= Lerp(start, end, time) <= end
  {
    var d := end - start;
    assert 0.0 <= time * d by { assert d >= 0.0; }
    assert time * d <= d by { assert (1.0 - time) * d >= 0.0; }
  }

  /** `r` is a square root of `x`: the stand-in for `std::sqrt`, which the model does not compute. */
  predicate IsSqrt(x: real, r: real)
  {
    r >= 0.0 && r * r == x
  }

  /**
   * The radicand `safe_sqrt(value)` hands to `std::sqrt`: the value, floored at zero, so a
   * negative argument (and zero) yields the square root of zero.
   */
  function SafeSqrtArgument(value: real): (r: real)
    ensures r >= 0.0
    ensures value >= 0.0 ==> r == value
    ensures value <= 0.0 ==> r == 0.0
  {
    Max(0.0, value)
  }

  /** `radians(degrees)`: `degrees * (pi / 180)`; `pi` is the library's positive constant. */
  function Radians(degrees: real, pi: real): (r: real)
    requires pi > 0.0
    ensures (degrees > 0.0 ==> r > 0.0) && (degrees < 0.0 ==> r < 0.0)
    ensures degrees == 180.0 ==> r == pi
  {
    degrees * (pi / 180.0)
  }

  /** `degrees(radians)`: `radians * (180 / pi)`. */
  function Degrees(radians: real, pi: real): (r: real)
    requires pi > 0.0
    ensures (radians > 0.0 ==> r > 0.0) && (radians < 0.0 ==> r < 0.0)
    ensures radians == pi ==> r == 180.0
  {
    radians * (180.0 / pi)
  }

  /** Converting to radians and back gives the same angle, exactly. */
  lemma DegreesOfRadians(d: real, pi: real)
    requires pi > 0.0
    ensures Degrees(Radians(d, pi), pi) == d
  {
    calc {
      Degrees(Radians(d, pi), pi);
      d * (pi / 180.0) * (180.0 / pi);
      d * ((pi / 180.0) * (180.0 / pi));
      { assert (pi / 180.0) * (180.0 / pi) == 1.0; }
      d;
    }
  }

  /** Converting to degrees and back gives the same angle, exactly. */
  lemma RadiansOfDegrees(r: real, pi: real)
    requires pi > 0.0
    ensures Radians(Degrees(r, pi), pi) == r
  {
    calc {
      Radians(Degrees(r, pi), pi);
      r * (180.0 / pi) * (pi / 180.0);
      r * ((180.0 / pi) * (pi / 180.0));
      { assert (180.0 / pi) * (pi / 180.0) == 1.0; }
      r;
    }
  }
}
