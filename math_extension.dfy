/** Helpers/MathExtension.cs: the clamp shared by the physics models and the controller.
    Doubles are modelled as reals: NaN and rounding are not part of this model. */
module MathExtension {

  /** Math.Abs on reals. */
  function Abs(x: real): (r: real)
    ensures r >= 0.0
    ensures r == x || r == -x
  {
    if x < 0.0 then -x else x
  }

  /** Small facts of real arithmetic, kept apart so that each is proved in a small context. */
  lemma MulNonNegative(a: real, b: real)
    requires a >= 0.0 && b >= 0.0
    ensures a * b >= 0.0
  {
  }

  lemma MulDistributes(x: real, k: real)
    ensures x - x * k == x * (1.0 - k)
    ensures (-x) * k == -(x * k)
  {
  }

  /** `after` does not have the opposite sign of `before` and is no larger in magnitude. */
  predicate Shrinks(before: real, after: real) {
    after * before >= 0.0 && Abs(after) <= Abs(before)
  }

  /** Scaling by a factor in [0, 1] keeps the sign and does not grow the magnitude. */
  lemma ScaleShrinks(x: real, k: real)
    requires 0.0 <= k <= 1.0
    ensures Shrinks(x, x * k)
  {
    var y := x * k;
    MulDistributes(x, k);
    if x >= 0.0 {
      MulNonNegative(x, k);
      MulNonNegative(x, 1.0 - k);
      MulNonNegative(y, x);
    } else {
      MulNonNegative(-x, k);
      MulNonNegative(-x, 1.0 - k);
      MulDistributes(-x, k);
      MulNonNegative(-y, -x);
      assert (-y) * (-x) == y * x;
    }
  }

  /** Clamp(value, min, max): the lower bound is tested first, so it wins when min > max. */
  function Clamp(value: real, min: real, max: real): (r: real)
    ensures value < min ==> r == min
    ensures min <= value && max < value ==> r == max
    ensures min <= value <= max ==> r == value
  {
    if value < min then min
    else if value > max then max
    else value
  }

  /** With ordered bounds the result always lies inside them. */
  lemma ClampInRange(value: real, min: real, max: real)
    requires min <= max
    ensures min <= Clamp(value, min, max) <= max
  {
  }

  /** Clamping twice with the same ordered bounds changes nothing more. */
  lemma ClampIdempotent(value: real, min: real, max: real)
    requires min <= max
    ensures Clamp(Clamp(value, min, max), min, max) == Clamp(value, min, max)
  {
  }

  /** With inverted bounds every value is sent to min or max, never left as it was
      unless it equals one of them. */
  lemma ClampInvertedBounds(value: real, min: real, max: real)
    requires max < min
    ensures Clamp(value, min, max) == (if value < min then min else max)
  {
  }
}

/** Math.Pow and Math.Exp are platform calls. They reach the model as a pair of function
    values, and the model relies only on the range facts collected in Lawful. */
module Transcendental {

  datatype MathFunctions = MathFunctions(pow: (real, real) -> real, exp: real -> real)

  /** The facts about Math.Pow and Math.Exp the contracts use:
      a base in (0, 1] raised to a non-negative power lies in (0, 1], any base raised to 0 is 1,
      and e to a non-positive power lies in (0, 1]. */
  ghost predicate Lawful(m: MathFunctions) {
    && (forall b: real, t: real :: 0.0 < b <= 1.0 && 0.0 <= t ==> 0.0 < m.pow(b, t) <= 1.0)
    && (forall b: real :: m.pow(b, 0.0) == 1.0)
    && (forall x: real :: x <= 0.0 ==> 0.0 < m.exp(x) <= 1.0)
    && m.exp(0.0) == 1.0
  }
}
