/**
 * The input gate and the choice of notation shared by every calculator:
 * `validateNumber` and the branch test of `formatScientific`.
 */
module Presentation {
  import opened Wrappers

  /**
   * `validateNumber`: the field holds a number (it does not parse to NaN) and
   * that number is strictly positive.
   */
  predicate ValidateNumber(x: Option<real>)
    ensures ValidateNumber(x) ==> x.Some? && x.value != 0.0
  {
    x.Some? && x.value > 0.0
  }

  /** The gate rejects a blank field, zero and every negative number, and accepts every positive one. */
  lemma ValidateNumberCases(x: real)
    ensures !ValidateNumber(None)
    ensures !ValidateNumber(Some(0.0))
    ensures x < 0.0 ==> !ValidateNumber(Some(x))
    ensures x > 0.0 ==> ValidateNumber(Some(x))
  {
  }

  /** The two renderings `formatScientific` chooses between. */
  datatype Notation = Exponential | FixedPoint

  const ExponentialAbove: real := 1000000.0
  const ExponentialBelow: real := 0.001

  /**
   * The branch of `formatScientific`: `toExponential(3)` at or above one
   * million or below one thousandth, `toFixed(3)` in between. The test is on
   * the signed value.
   */
  function NotationFor(x: real): (n: Notation)
    ensures n == FixedPoint <==> 0.001 <= x < 1000000.0
  {
    if x >= ExponentialAbove || x < ExponentialBelow then Exponential else FixedPoint
  }

  /** Because the test is on the signed value, every negative number is shown in exponential notation. */
  lemma NegativeIsExponential(x: real)
    requires x < 0.0
    ensures NotationFor(x) == Exponential
  {
  }

  /** The rule as it reads when stated on the magnitude |x| instead of on x. */
  function MagnitudeNotation(x: real): (n: Notation)
    ensures n == FixedPoint <==> 0.001 <= (if x < 0.0 then -x else x) < 1000000.0
  {
    var m := if x < 0.0 then -x else x;
    if m >= ExponentialAbove || m < ExponentialBelow then Exponential else FixedPoint
  }

  /** On non-negative values the signed test and the magnitude rule agree. */
  lemma SignedAgreesWithMagnitude(x: real)
    requires x >= 0.0
    ensures NotationFor(x) == MagnitudeNotation(x)
  {
  }

  /** They disagree exactly on the negatives whose magnitude lies in [0.001, 1000000). */
  lemma SignedDiffersFromMagnitude(x: real)
    ensures NotationFor(x) != MagnitudeNotation(x) <==> -1000000.0 < x <= -0.001
  {
  }
}
