/**
 * The 2-component vector of `src/vector2.rs`.
 *
 * Idealisation: components and scalars are mathematical reals, not IEEE-754
 * `f64`. Every identity proved here (for instance `Lerp(a, b, 1.0) == b`) holds
 * exactly over the reals and only up to rounding in crml. Where crml
 * calls `sqrt`, `cos`, `sin` or `atan2`, the model takes the result as a
 * parameter (see module Scalar).
 *
 * Rust's operator impls (`a + b`, `a + s`, ...) are the named functions Add,
 * AddScalar, and so on; `Vector2::new(x, y)` is the datatype constructor.
 */
module Vec2 {
  import Scalar

  /** `std::f64::consts::PI`, as the decimal literal Rust prints for it. */
  const PI: real := 3.141592653589793

  datatype Vector2 = Vector2(x: real, y: real)

  // ---------------------------------------------------------------- arithmetic

  /** `Vector2 + Vector2`: component by component. */
  function Add(a: Vector2, b: Vector2): Vector2 {
    Vector2(a.x + b.x, a.y + b.y)
  }

  /** `Vector2 + f64`: the scalar is added to every component. */
  function AddScalar(a: Vector2, s: real): Vector2 {
    Vector2(a.x + s, a.y + s)
  }

  /** `Vector2 - Vector2`. */
  function Sub(a: Vector2, b: Vector2): Vector2 {
    Vector2(a.x - b.x, a.y - b.y)
  }

  /** `Vector2 - f64`. */
  function SubScalar(a: Vector2, s: real): Vector2 {
    Vector2(a.x - s, a.y - s)
  }

  /** `Vector2 * Vector2`: the component-wise (Hadamard) product. */
  function Mul(a: Vector2, b: Vector2): Vector2 {
    Vector2(a.x * b.x, a.y * b.y)
  }

  /** `Vector2 * f64`: scaling. */
  function MulScalar(a: Vector2, s: real): Vector2 {
    Vector2(a.x * s, a.y * s)
  }

  /** `Vector2 / Vector2`: component-wise quotient; crml yields an
      infinity or NaN for a zero component, which the model excludes. */
  function Div(a: Vector2, b: Vector2): Vector2
    requires b.x != 0.0 && b.y != 0.0
  {
    Vector2(a.x / b.x, a.y / b.y)
  }

  /** `Vector2 / f64`. */
  function DivScalar(a: Vector2, s: real): Vector2
    requires s != 0.0
  {
    Vector2(a.x / s, a.y / s)
  }

  /** Each scalar form is the vector form applied to the scalar broadcast to
      both components. */
  lemma ScalarFormsBroadcast(a: Vector2, s: real)
    ensures AddScalar(a, s) == Add(a, Vector2(s, s))
    ensures SubScalar(a, s) == Sub(a, Vector2(s, s))
    ensures MulScalar(a, s) == Mul(a, Vector2(s, s))
    ensures s != 0.0 ==> DivScalar(a, s) == Div(a, Vector2(s, s))
  {
  }

  /** Addition is commutative and associative, the origin is its identity,
      and subtraction undoes it. */
  lemma AddLaws(a: Vector2, b: Vector2, c: Vector2)
    ensures Add(a, b) == Add(b, a)
    ensures Add(Add(a, b), c) == Add(a, Add(b, c))
    ensures Add(a, Origin()) == a
    ensures Sub(Add(a, b), b) == a && Add(Sub(a, b), b) == a
    ensures Sub(a, a) == Origin()
  {
  }

  /** Division undoes multiplication, in both forms. */
  lemma DivUndoesMul(a: Vector2, b: Vector2, s: real)
    requires b.x != 0.0 && b.y != 0.0 && s != 0.0
    ensures Div(Mul(a, b), b) == a && Mul(Div(a, b), b) == a
    ensures DivScalar(MulScalar(a, s), s) == a && MulScalar(DivScalar(a, s), s) == a
  {
  }

  /** The arithmetic cases of crml's test suite. */
  lemma ArithmeticExamples()
    ensures Add(Vector2(1.0, 2.0), Vector2(2.0, 1.0)) == Vector2(3.0, 3.0)
    ensures AddScalar(Vector2(1.0, 2.0), 2.0) == Vector2(3.0, 4.0)
    ensures Sub(Vector2(1.0, 2.0), Vector2(2.0, 1.0)) == Vector2(-1.0, 1.0)
    ensures SubScalar(Vector2(1.0, 2.0), 2.0) == Vector2(-1.0, 0.0)
    ensures Mul(Vector2(1.0, 2.0), Vector2(2.0, 1.0)) == Vector2(2.0, 2.0)
    ensures MulScalar(Vector2(1.0, 2.0), 2.0) == Vector2(2.0, 4.0)
    ensures Div(Vector2(1.0, 2.0), Vector2(2.0, 1.0)) == Vector2(0.5, 2.0)
    ensures DivScalar(Vector2(1.0, 2.0), 2.0) == Vector2(0.5, 1.0)
  {
  }

  // ------------------------------------------------------------- construction

  /** `Vector2::origin()`: the identity of addition and subtraction. */
  function Origin(): (r: Vector2)
    ensures forall v :: Add(v, r) == v && Sub(v, r) == v
  {
    Vector2(0.0, 0.0)
  }

  /** `Vector2::unit_x()`. */
  function UnitX(): Vector2 {
    Vector2(1.0, 0.0)
  }

  /** `Vector2::unit_y()`. */
  function UnitY(): Vector2 {
    Vector2(0.0, 1.0)
  }

  /** The dot product with `unit_x` or `unit_y` picks out that component of
      any vector. */
  lemma UnitComponents(v: Vector2)
    ensures Dot(UnitX(), v) == v.x && Dot(UnitY(), v) == v.y
  {
  }

  /** `Vector2::from_polar(radius, angle)`, with `c` and `s` the cosine and
      sine of `angle`: for a genuine angle its squared length is
      `radius * radius`. */
  function FromPolar(radius: real, c: real, s: real): (r: Vector2)
    ensures Scalar.OnUnitCircle(c, s) ==> Len2(r) == radius * radius
  {
    var r := Vector2(radius * c, radius * s);
    assert Len2(r) == (radius * radius) * (c * c + s * s);
    r
  }

  /** `from_polar` is `unit_x` turned by the angle and scaled by the radius. */
  lemma FromPolarIsTurnedUnitX(radius: real, c: real, s: real)
    ensures FromPolar(radius, c, s) == MulScalar(Rotate(UnitX(), c, s), radius)
  {
  }

  // ------------------------------------------------------------------ queries

  /** `PartialEq::eq`: equality of both components is equality of vectors. */
  function Equal(a: Vector2, b: Vector2): (r: bool)
    ensures r <==> a == b
  {
    a.x == b.x && a.y == b.y
  }

  /** `is_origin`: comparing both components with zero is comparing the
      vector with `origin()`. */
  function IsOrigin(v: Vector2): (r: bool)
    ensures r <==> v == Origin()
  {
    v.x == 0.0 && v.y == 0.0
  }

  /** `dot`: the inner product. */
  function Dot(a: Vector2, b: Vector2): real {
    a.x * b.x + a.y * b.y
  }

  /** `len2`: the squared length, never negative. */
  function Len2(v: Vector2): (r: real)
    ensures r >= 0.0
  {
    Scalar.SquareNonnegative(v.x);
    Scalar.SquareNonnegative(v.y);
    Dot(v, v)
  }

  /** The squared length is zero exactly at the origin. */
  lemma Len2Zero(v: Vector2)
    ensures Len2(v) == 0.0 <==> IsOrigin(v)
  {
    if Len2(v) == 0.0 {
      Scalar.SumOfSquaresZero(v.x, v.y);
    }
    Scalar.MulByConstant(v.x, v.x);
    Scalar.MulByConstant(v.y, v.y);
  }

  /** `len`: a length parameter that satisfies `IsLen` is `len()`; the
      square root has no closed form over the reals. */
  predicate IsLen(v: Vector2, len: real) {
    Scalar.IsSqrt(len, Len2(v))
  }

  /** `dist2`: the squared length of the difference. */
  function Dist2(a: Vector2, b: Vector2): (r: real)
    ensures r >= 0.0
  {
    var dx := a.x - b.x;
    var dy := a.y - b.y;
    dx * dx + dy * dy
  }

  /** `dist`: as for `len`, the distance is a parameter pinned by `IsDist`. */
  predicate IsDist(a: Vector2, b: Vector2, dist: real) {
    Scalar.IsSqrt(dist, Dist2(a, b))
  }

  /** `cross`: the z component of the 3D cross product, a signed area. */
  function Cross(a: Vector2, b: Vector2): real {
    a.x * b.y - a.y * b.x
  }

  /** `dot` is symmetric and `len2` is the dot product of a vector with
      itself. */
  lemma DotSymmetric(a: Vector2, b: Vector2)
    ensures Dot(a, b) == Dot(b, a)
    ensures Len2(a) == Dot(a, a)
  {
  }

  /** `cross` is antisymmetric and vanishes on a vector and itself; it is the
      dot product of `a` turned a quarter turn with `b`. */
  lemma CrossAntisymmetric(a: Vector2, b: Vector2)
    ensures Cross(a, b) == -Cross(b, a)
    ensures Cross(a, a) == 0.0
    ensures Cross(a, b) == Dot(Perpendicular(a), b)
  {
  }

  /** `dist2` is symmetric and zero from a vector to itself. */
  lemma Dist2Symmetric(a: Vector2, b: Vector2)
    ensures Dist2(a, b) == Dist2(b, a)
    ensures Dist2(a, a) == 0.0
  {
  }

  /** `dist2` is the squared length of the difference. */
  lemma Dist2IsLen2OfDifference(a: Vector2, b: Vector2)
    ensures Dist2(a, b) == Len2(Sub(a, b))
  {
  }

  /** `dist` is symmetric. */
  lemma DistSymmetric(a: Vector2, b: Vector2, d: real)
    ensures IsDist(a, b, d) <==> IsDist(b, a, d)
  {
    Dist2Symmetric(a, b);
  }

  /** The distance from a vector to itself is exactly 0. */
  lemma DistToSelf(a: Vector2, d: real)
    ensures IsDist(a, a, d) <==> d == 0.0
  {
    Dist2Symmetric(a, a);
    if IsDist(a, a, d) {
      Scalar.SqrtPositive(d, Dist2(a, a));
    }
    Scalar.MulByConstant(d, d);
  }

  /** A vector on the positive x axis has its x component as its length. */
  lemma LenOnAxis(a: real, len: real)
    requires 0.0 <= a
    ensures IsLen(Vector2(a, 0.0), len) <==> len == a
  {
    var v := Vector2(a, 0.0);
    Scalar.MulByConstant(0.0, 0.0);
    assert Len2(v) == a * a;
    if IsLen(v, len) {
      Scalar.SqrtUnique(len, a, a * a);
    }
  }

  /** The tests of `len` and `dist`: `unit_x` has length 1 and is at
      distance 0 from itself. */
  lemma LengthExamples(len: real, dist: real)
    ensures IsLen(UnitX(), len) <==> len == 1.0
    ensures IsDist(UnitX(), UnitX(), dist) <==> dist == 0.0
  {
    LenOnAxis(1.0, len);
    DistToSelf(UnitX(), dist);
  }

  /** The query cases of crml's test suite. */
  lemma QueryExamples()
    ensures Equal(Vector2(1.0, 2.0), Vector2(1.0, 2.0))
    ensures !Equal(Vector2(1.0, 2.0), Vector2(1.0, 3.0))
    ensures IsOrigin(Origin()) && !IsOrigin(Vector2(1.0, 2.0))
    ensures Cross(Vector2(1.0, 2.0), Vector2(2.0, 1.0)) == -3.0
    ensures Dot(Vector2(1.0, 2.0), Vector2(2.0, 1.0)) == 4.0
    ensures Len2(UnitX()) == 1.0 && Dist2(UnitX(), UnitX()) == 0.0
  {
  }

  // ---------------------------------------------------------------- geometry

  /** `len2` of a scaled vector. */
  lemma Len2Scaled(v: Vector2, k: real)
    ensures Len2(MulScalar(v, k)) == k * k * Len2(v)
  {
    calc {
      Len2(MulScalar(v, k));
      (v.x * k) * (v.x * k) + (v.y * k) * (v.y * k);
      k * k * (v.x * v.x + v.y * v.y);
    }
  }

  /** `normalize`, with `len` the value of `self.len()`. The origin comes back
      as the origin, so the zero length is never a divisor; any other vector
      is scaled to length 1 in the same direction. */
  function Normalize(v: Vector2, len: real): (r: Vector2)
    requires IsLen(v, len)
    ensures IsOrigin(v) ==> r == Origin()
    ensures !IsOrigin(v) ==> Len2(r) == 1.0 && MulScalar(r, len) == v
  {
    if IsOrigin(v) then
      Origin()
    else
      Len2Zero(v);
      Scalar.SqrtPositive(len, Len2(v));
      NormalizedIsUnit(v, len);
      DivScalar(v, len)
  }

  /** Dividing a vector by its non-zero length gives a vector of length 1
      that the length scales back to the input. */
  lemma NormalizedIsUnit(v: Vector2, len: real)
    requires IsLen(v, len) && len != 0.0
    ensures Len2(DivScalar(v, len)) == 1.0
    ensures MulScalar(DivScalar(v, len), len) == v
  {
    var k := 1.0 / len;
    assert k * len == 1.0;
    assert DivScalar(v, len) == MulScalar(v, k);
    Len2Scaled(v, k);
    assert k * k * Len2(v) == (k * len) * (k * len);
    Scalar.MulByConstant(k * len, k * len);
  }

  /** `trim(max_len)`, with `len` the value of `self.len()`: a vector no longer
      than `max_len` is unchanged, and for `max_len >= 0` the result has
      length `min(len, max_len)`. */
  function Trim(v: Vector2, maxLen: real, len: real): (r: Vector2)
    requires IsLen(v, len)
    ensures len <= maxLen ==> r == v
    ensures 0.0 <= maxLen ==> IsLen(r, Scalar.Min(len, maxLen))
  {
    TrimmedLength(v, len, Scalar.Min(len, maxLen));
    MulScalar(Normalize(v, len), Scalar.Min(len, maxLen))
  }

  /** `trim` scales the vector itself: a non-zero vector is multiplied by
      `min(len, max_len) / len`, so it keeps its direction for a non-negative
      target and is reversed for a negative one. */
  lemma TrimScales(v: Vector2, maxLen: real, len: real)
    requires IsLen(v, len) && !IsOrigin(v)
    ensures Trim(v, maxLen, len) == MulScalar(v, Scalar.Min(len, maxLen) / len)
  {
    Len2Zero(v);
    Scalar.SqrtPositive(len, Len2(v));
  }

  /** The origin, which has no direction, is trimmed to itself. */
  lemma TrimAtOrigin(v: Vector2, maxLen: real, len: real)
    requires IsLen(v, len) && IsOrigin(v)
    ensures Trim(v, maxLen, len) == v
  {
    ScaledOrigin(Scalar.Min(len, maxLen));
  }

  /** Scaling the origin gives the origin. */
  lemma ScaledOrigin(m: real)
    ensures MulScalar(Origin(), m) == Origin()
  {
    Scalar.MulByConstant(0.0, m);
  }

  /** Scaling the normalized vector by a factor `m` gives a vector of length
      `m`; scaling it by `len` gives back the input. At the origin only the
      factor 0 yields length `m`, which is where `min(len, max_len)` lies. */
  lemma TrimmedLength(v: Vector2, len: real, m: real)
    requires IsLen(v, len)
    ensures m == len ==> MulScalar(Normalize(v, len), m) == v
    ensures 0.0 <= m <= len ==> IsLen(MulScalar(Normalize(v, len), m), m)
  {
  }

  /** `rotate(angle)`, with `c` and `s` the cosine and sine of `angle`: the
      dot and cross products with the input are `c` and `s` times its squared
      length, and for a genuine angle the length is kept. */
  function Rotate(v: Vector2, c: real, s: real): (r: Vector2)
    ensures Dot(v, r) == c * Len2(v)
    ensures Cross(v, r) == s * Len2(v)
    ensures Scalar.OnUnitCircle(c, s) ==> Len2(r) == Len2(v)
  {
    var r := Vector2(c * v.x - s * v.y, s * v.x + c * v.y);
    assert Len2(r) == (c * c + s * s) * Len2(v);
    r
  }

  /** `perpendicular`: `(-y, x)`, a quarter turn counter-clockwise, orthogonal
      to the input and of the same length. */
  function Perpendicular(v: Vector2): (r: Vector2)
    ensures Dot(r, v) == 0.0
    ensures Len2(r) == Len2(v)
    ensures r == Rotate(v, 0.0, 1.0)
  {
    Vector2(-v.y, v.x)
  }

  /** Two quarter turns are a half turn: the negated vector. */
  lemma PerpendicularTwice(v: Vector2)
    ensures Perpendicular(Perpendicular(v)) == MulScalar(v, -1.0)
  {
  }

  /** `lerp(other, step)`: step 0 gives `a` and step 1 gives `b`; the step
      is not clamped to `[0, 1]`. */
  function Lerp(a: Vector2, b: Vector2, step: real): (r: Vector2)
    ensures step == 0.0 ==> r == a
    ensures step == 1.0 ==> r == b
  {
    Add(a, MulScalar(Sub(b, a), step))
  }

  /** The result of `lerp` lies at a fraction `step` of the distance from `a`
      and `1 - step` of the distance to `b`. */
  lemma LerpDistances(a: Vector2, b: Vector2, step: real)
    ensures Dist2(a, Lerp(a, b, step)) == step * step * Dist2(a, b)
    ensures Dist2(Lerp(a, b, step), b) == (1.0 - step) * (1.0 - step) * Dist2(a, b)
  {
    var r := Lerp(a, b, step);
    Dist2IsLen2OfDifference(a, b);
    Dist2IsLen2OfDifference(a, r);
    Dist2IsLen2OfDifference(r, b);
    assert Sub(a, r) == MulScalar(Sub(a, b), step);
    Len2Scaled(Sub(a, b), step);
    assert Sub(r, b) == MulScalar(Sub(a, b), 1.0 - step);
    Len2Scaled(Sub(a, b), 1.0 - step);
  }

  /** Interpolating from `b` back to `a` with the complementary step gives the
      same point. */
  lemma LerpReversed(a: Vector2, b: Vector2, step: real)
    ensures Lerp(a, b, step) == Lerp(b, a, 1.0 - step)
  {
  }

  /** The tests of `normalize` on the origin, `perpendicular` and `lerp`. */
  lemma GeometryExamples(len: real)
    ensures IsLen(Origin(), len) ==> Normalize(Origin(), len) == Origin()
    ensures Perpendicular(Vector2(1.0, 2.0)) == Vector2(-2.0, 1.0)
    ensures Lerp(UnitX(), UnitY(), 0.5) == Vector2(0.5, 0.5)
  {
  }

  /** The test of `trim`: `(1, 2)`, of length the square root of 5, trimmed
      to 0.5 has length 0.5. */
  lemma TrimExample(len: real)
    requires IsLen(Vector2(1.0, 2.0), len)
    ensures IsLen(Trim(Vector2(1.0, 2.0), 0.5, len), 0.5)
  {
    assert Len2(Vector2(1.0, 2.0)) == 5.0;
    Scalar.SqrtAbove(len, 5.0, 0.5);
  }

  /** The test of `rotate` by PI: `unit_x` turned by an angle of cosine -1
      has x component -1, whatever the rounded sine of PI is. */
  lemma HalfTurnExample(s: real)
    ensures Rotate(UnitX(), -1.0, s).x == MulScalar(UnitX(), -1.0).x
  {
    var r := Vector2(-1.0 * 1.0 - s * 0.0, s * 1.0 + -1.0 * 0.0);
    assert Rotate(UnitX(), -1.0, s) == r;
    Scalar.MulByConstant(0.0, s);
  }

  /** The test of `from_polar(1, PI)`: x component -1, and y component the
      sine of PI, whatever its rounded value is. */
  lemma FromPolarExample(s: real)
    ensures FromPolar(1.0, -1.0, s) == Vector2(-1.0, s)
  {
  }

  // -------------------------------------------------------------------- polar

  /** The angle step of `to_polar`: a raw `atan2` angle at or below 0 is moved
      up by a full turn. An angle of exactly 0 therefore comes back as 2 PI, and
      any raw angle in (-2 PI, 2 PI] lands in (0, 2 PI]. */
  function PolarAngle(raw: real): (angle: real)
    ensures raw <= 0.0 ==> angle == raw + 2.0 * PI
    ensures 0.0 < raw ==> angle == raw
    ensures -2.0 * PI < raw ==> 0.0 < angle
    ensures raw <= 2.0 * PI ==> angle <= 2.0 * PI
  {
    if raw <= 0.0 then raw + 2.0 * PI else raw
  }

  /** `to_polar`, with `len` the value of `self.len()` and `raw` the value of
      `self.y.atan2(self.x)`: the radius is the length and the angle is the
      raw angle moved into (0, 2 PI]. */
  function ToPolar(v: Vector2, len: real, raw: real): (polar: (real, real))
    requires IsLen(v, len)
    requires -PI <= raw <= PI
    ensures IsLen(v, polar.0)
    ensures 0.0 < polar.1 <= 2.0 * PI
    ensures polar.1 == raw || polar.1 == raw + 2.0 * PI
  {
    (len, PolarAngle(raw))
  }

  /** `to_polar` undoes `from_polar` for a radius `r > 0` and an angle
      `theta` in (0, 2 PI], whenever `atan2` returns `theta` up to a whole
      turn. */
  lemma PolarRoundTrip(r: real, c: real, s: real, theta: real, len: real, raw: real)
    requires 0.0 < r && Scalar.OnUnitCircle(c, s)
    requires 0.0 < theta <= 2.0 * PI
    requires -PI <= raw <= PI && (raw == theta || raw == theta - 2.0 * PI)
    requires IsLen(FromPolar(r, c, s), len)
    ensures ToPolar(FromPolar(r, c, s), len, raw) == (r, theta)
  {
    Scalar.SqrtUnique(len, r, Len2(FromPolar(r, c, s)));
  }

  /** At radius 0 the angle is lost: `from_polar(0, angle)` is the origin
      whatever the angle, and `atan2` of the origin's signed zeros is 0, -0,
      PI or -PI, so `to_polar` gives the angle 2 PI or PI and not the angle
      passed to `from_polar`. */
  lemma PolarAtOrigin(c: real, s: real, len: real, raw: real)
    requires IsLen(FromPolar(0.0, c, s), len)
    requires raw == 0.0 || raw == PI || raw == -PI
    ensures FromPolar(0.0, c, s) == Origin()
    ensures raw == 0.0 ==> ToPolar(FromPolar(0.0, c, s), len, raw) == (len, 2.0 * PI)
    ensures raw != 0.0 ==> ToPolar(FromPolar(0.0, c, s), len, raw) == (len, PI)
  {
    FromPolarAtZero(c, s);
    PolarOfOrigin(len, raw);
  }

  /** ... and the radius `to_polar` gives there, the length, is 0. */
  lemma PolarZeroLength(c: real, s: real, len: real)
    requires IsLen(FromPolar(0.0, c, s), len)
    ensures len == 0.0
  {
    FromPolarAtZero(c, s);
    OriginLength(len);
  }

  /** `from_polar` with radius 0 is the origin. */
  lemma FromPolarAtZero(c: real, s: real)
    ensures FromPolar(0.0, c, s) == Origin()
  {
  }

  /** The origin has length 0 ... */
  lemma OriginLengthZero()
    ensures IsLen(Origin(), 0.0)
  {
  }

  /** ... and no other. */
  lemma OriginLength(len: real)
    requires IsLen(Origin(), len)
    ensures len == 0.0
  {
    assert Len2(Origin()) == 0.0;
    Scalar.SqrtPositive(len, Len2(Origin()));
  }

  /** `to_polar` of the origin keeps the length as radius, and gives the
      angle 2 PI for the raw angle 0 and PI for the raw angles PI and -PI. */
  lemma PolarOfOrigin(len: real, raw: real)
    requires IsLen(Origin(), len)
    requires raw == 0.0 || raw == PI || raw == -PI
    ensures raw == 0.0 ==> ToPolar(Origin(), len, raw) == (len, 2.0 * PI)
    ensures raw != 0.0 ==> ToPolar(Origin(), len, raw) == (len, PI)
  {
    PolarAngleOfHalfTurn(raw);
  }

  /** Both raw angles of a half turn, PI and -PI, come out of `to_polar`'s
      step as PI. */
  lemma PolarAngleOfHalfTurn(raw: real)
    ensures raw == PI || raw == -PI ==> PolarAngle(raw) == PI
  {
  }

  /** The test `from_polar(1, PI).to_polar() == (1, PI)`, with `cos(PI) == -1`,
      `sin(PI) == 0` and `atan2(0, -1) == PI`. */
  lemma PolarExample(len: real)
    requires IsLen(FromPolar(1.0, -1.0, 0.0), len)
    ensures ToPolar(FromPolar(1.0, -1.0, 0.0), len, PI) == (1.0, PI)
  {
    PolarRoundTrip(1.0, -1.0, 0.0, PI, len, PI);
  }
}
