/**
 * The scalar functions of Rust's `f64` that the vector types call.
 *
 * The whole model works over Dafny's mathematical `real` in place of IEEE-754
 * `f64`: there is no rounding, no NaN, no infinity and no signed zero. Square
 * roots, cosines, sines and arc tangents have no closed form over `real`, so
 * their results enter the vector operations as parameters, and the predicates
 * below state what such a parameter must satisfy to be the value `f64::sqrt`,
 * `f64::cos` or `f64::sin` would return in that idealisation.
 */
module Scalar {

  /** `r` is the value of `x.sqrt()`: the non-negative square root of `x`. */
  predicate IsSqrt(r: real, x: real) {
    0.0 <= r && r * r == x
  }

  /** `(c, s)` can be `(angle.cos(), angle.sin())` for some angle. */
  predicate OnUnitCircle(c: real, s: real) {
    c * c + s * s == 1.0
  }

  /** `f64::min` on two numbers that are not NaN. */
  function Min(a: real, b: real): (r: real)
    ensures r <= a && r <= b
    ensures r == a || r == b
  {
    if a <= b then a else b
  }

  /** A square is never negative. */
  lemma SquareNonnegative(r: real)
    ensures r * r >= 0.0
  {
  }

  /** Multiplying by zero gives zero; multiplying by one changes nothing. */
  lemma MulByConstant(a: real, b: real)
    ensures a == 0.0 ==> a * b == 0.0 && b * a == 0.0
    ensures a == 1.0 ==> a * b == b && b * a == b
  {
  }

  /** A product is zero only when a factor is. */
  lemma ZeroProduct(a: real, b: real)
    requires a * b == 0.0
    ensures a == 0.0 || b == 0.0
  {
  }

  /** A sum of two squares is zero only when both numbers are. */
  lemma SumOfSquaresZero(a: real, b: real)
    requires a * a + b * b == 0.0
    ensures a == 0.0 && b == 0.0
  {
    SquareNonnegative(a);
    SquareNonnegative(b);
    ZeroProduct(a, a);
    ZeroProduct(b, b);
  }

  /** A sum of three squares is zero only when all three numbers are. */
  lemma SumOfThreeSquaresZero(a: real, b: real, c: real)
    requires a * a + b * b + c * c == 0.0
    ensures a == 0.0 && b == 0.0 && c == 0.0
  {
    SquareNonnegative(a);
    SquareNonnegative(b);
    SquareNonnegative(c);
    ZeroProduct(a, a);
    ZeroProduct(b, b);
    ZeroProduct(c, c);
  }

  /** Squaring is monotone on the non-negative numbers. */
  lemma SquareMonotone(a: real, b: real)
    requires 0.0 <= a <= b
    ensures a * a <= b * b
  {
    assert a * a <= a * b;
    assert a * b <= b * b;
  }

  /** A square root of a number above `b * b` lies above `b`. */
  lemma SqrtAbove(r: real, x: real, b: real)
    requires IsSqrt(r, x) && 0.0 <= b && b * b < x
    ensures b < r
  {
    if r <= b {
      SquareMonotone(r, b);
    }
  }

  /** A number has at most one non-negative square root, so a length
      parameter that satisfies `IsSqrt` is the length. */
  lemma SqrtUnique(r1: real, r2: real, x: real)
    requires IsSqrt(r1, x) && IsSqrt(r2, x)
    ensures r1 == r2
  {
    assert (r1 - r2) * (r1 + r2) == r1 * r1 - r2 * r2;
    ZeroProduct(r1 - r2, r1 + r2);
  }

  /** The square root is zero exactly at zero and positive elsewhere. */
  lemma SqrtPositive(r: real, x: real)
    requires IsSqrt(r, x)
    ensures r == 0.0 <==> x == 0.0
    ensures r > 0.0 <==> x > 0.0
  {
    SquareNonnegative(r);
    if x == 0.0 {
      ZeroProduct(r, r);
    }
  }
}
