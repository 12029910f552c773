/**
 * The transcendental functions the source takes from numpy (`np.exp`, `np.sqrt`) are
 * not interpreted here: every member that needs one receives it as a parameter, and
 * the predicates below are all that is assumed of it. Each assumption holds of the
 * real exponential and the real square root.
 */
module Analytic {

  /** `exp` is positive, strictly increasing and maps 0 to 1. */
  ghost predicate IsExp(exp: real -> real)
  {
    && exp(0.0) == 1.0
    && (forall x :: exp(x) > 0.0)
    && (forall x, y :: x < y ==> exp(x) < exp(y))
  }

  /**
   * `sqrt` returns the non-negative square root of every non-negative argument, is
   * monotone on them, and fixes 0 and 1.
   */
  ghost predicate IsSqrt(sqrt: real -> real)
  {
    && sqrt(0.0) == 0.0
    && sqrt(1.0) == 1.0
    && (forall x :: 0.0 <= x ==> 0.0 <= sqrt(x) && sqrt(x) * sqrt(x) == x)
    && (forall x, y :: 0.0 <= x <= y ==> sqrt(x) <= sqrt(y))
  }

  lemma ExpAtMostOne(exp: real -> real, x: real)
    requires IsExp(exp) && x <= 0.0
    ensures 0.0 < exp(x) <= 1.0
  {
    if x < 0.0 {
      assert exp(x) < exp(0.0);
    }
  }

  /**
   * Squaring is strictly monotone on the non-negative reals; the fused-silica index
   * bound (`DataGenerator.FusedSilicaIndexAt550`) compares squares with it.
   */
  lemma SquareMonotone(a: real, b: real)
    requires 0.0 <= a < b
    ensures a * a < b * b
  {
    calc {
      a * a;
    <= a * b;
    < b * b;
    }
  }
}
