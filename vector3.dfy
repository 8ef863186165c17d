/**
 * The 3-component vector of `src/vector3.rs`.
 *
 * Idealisation: as in module Vec2, components and scalars are mathematical
 * reals, not IEEE-754 `f64`, and the results of `sqrt`, `cos` and `sin` are
 * parameters pinned by the predicates of module Scalar.
 *
 * Rust's operator impls (`a + b`, `a + s`, ...) are the named functions Add,
 * AddScalar, and so on; `Vector3::new(x, y, z)` is the datatype constructor.
 */
module Vec3 {
  import Scalar

  datatype Vector3 = Vector3(x: real, y: real, z: real)

  // ---------------------------------------------------------------- arithmetic

  /** `Vector3 + Vector3`: component by component. */
  function Add(a: Vector3, b: Vector3): Vector3 {
    Vector3(a.x + b.x, a.y + b.y, a.z + b.z)
  }

  /** `Vector3 + f64`: the scalar is added to every component. */
  function AddScalar(a: Vector3, s: real): Vector3 {
    Vector3(a.x + s, a.y + s, a.z + s)
  }

  /** `Vector3 - Vector3`. */
  function Sub(a: Vector3, b: Vector3): Vector3 {
    Vector3(a.x - b.x, a.y - b.y, a.z - b.z)
  }

  /** `Vector3 - f64`. */
  function SubScalar(a: Vector3, s: real): Vector3 {
    Vector3(a.x - s, a.y - s, a.z - s)
  }

  /** `Vector3 * Vector3`: the component-wise (Hadamard) product. */
  function Mul(a: Vector3, b: Vector3): Vector3 {
    Vector3(a.x * b.x, a.y * b.y, a.z * b.z)
  }

  /** `Vector3 * f64`: scaling. */
  function MulScalar(a: Vector3, s: real): Vector3 {
    Vector3(a.x * s, a.y * s, a.z * s)
  }

  /** `Vector3 / Vector3`: component-wise quotient; crml yields an
      infinity or NaN for a zero component, which the model excludes. */
  function Div(a: Vector3, b: Vector3): Vector3
    requires b.x != 0.0 && b.y != 0.0 && b.z != 0.0
  {
    Vector3(a.x / b.x, a.y / b.y, a.z / b.z)
  }

  /** `Vector3 / f64`. */
  function DivScalar(a: Vector3, s: real): Vector3
    requires s != 0.0
  {
    Vector3(a.x / s, a.y / s, a.z / s)
  }

  /** Each scalar form is the vector form applied to the scalar broadcast to
      all three components. */
  lemma ScalarFormsBroadcast(a: Vector3, s: real)
    ensures AddScalar(a, s) == Add(a, Vector3(s, s, s))
    ensures SubScalar(a, s) == Sub(a, Vector3(s, s, s))
    ensures MulScalar(a, s) == Mul(a, Vector3(s, s, s))
    ensures s != 0.0 ==> DivScalar(a, s) == Div(a, Vector3(s, s, s))
  {
  }

  /** Addition is commutative and associative, the origin is its identity,
      and subtraction undoes it. */
  lemma AddLaws(a: Vector3, b: Vector3, c: Vector3)
    ensures Add(a, b) == Add(b, a)
    ensures Add(Add(a, b), c) == Add(a, Add(b, c))
    ensures Add(a, Origin()) == a
    ensures Sub(Add(a, b), b) == a && Add(Sub(a, b), b) == a
    ensures Sub(a, a) == Origin()
  {
  }

  /** Component-wise division undoes component-wise multiplication. */
  lemma DivUndoesMul(a: Vector3, b: Vector3)
    requires b.x != 0.0 && b.y != 0.0 && b.z != 0.0
    ensures Div(Mul(a, b), b) == a && Mul(Div(a, b), b) == a
  {
  }

  /** Division by a scalar undoes scaling. */
  lemma DivScalarUndoesMulScalar(a: Vector3, s: real)
    requires s != 0.0
    ensures DivScalar(MulScalar(a, s), s) == a && MulScalar(DivScalar(a, s), s) == a
  {
  }

  /** The arithmetic cases of crml's test suite. */
  lemma ArithmeticExamples()
    ensures Add(Vector3(1.0, 2.0, 3.0), Vector3(3.0, 2.0, 1.0)) == Vector3(4.0, 4.0, 4.0)
    ensures AddScalar(Vector3(1.0, 2.0, 3.0), 2.0) == Vector3(3.0, 4.0, 5.0)
    ensures Sub(Vector3(1.0, 2.0, 3.0), Vector3(3.0, 2.0, 1.0)) == Vector3(-2.0, 0.0, 2.0)
    ensures SubScalar(Vector3(1.0, 2.0, 3.0), 2.0) == Vector3(-1.0, 0.0, 1.0)
    ensures Mul(Vector3(1.0, 2.0, 3.0), Vector3(3.0, 2.0, 1.0)) == Vector3(3.0, 4.0, 3.0)
    ensures MulScalar(Vector3(1.0, 2.0, 3.0), 2.0) == Vector3(2.0, 4.0, 6.0)
    ensures Div(Vector3(1.0, 2.0, 3.0), Vector3(3.0, 2.0, 1.0)) == Vector3(1.0 / 3.0, 1.0, 3.0)
    ensures DivScalar(Vector3(1.0, 2.0, 3.0), 2.0) == Vector3(0.5, 1.0, 1.5)
  {
  }

  // ------------------------------------------------------------- construction

  /** `Vector3::origin()`: the identity of addition and subtraction. */
  function Origin(): (r: Vector3)
    ensures forall v :: Add(v, r) == v && Sub(v, r) == v
  {
    Vector3(0.0, 0.0, 0.0)
  }

  /** `Vector3::unit_x()`. */
  function UnitX(): Vector3 {
    Vector3(1.0, 0.0, 0.0)
  }

  /** `Vector3::unit_y()`. */
  function UnitY(): Vector3 {
    Vector3(0.0, 1.0, 0.0)
  }

  /** `Vector3::unit_z()`. */
  function UnitZ(): Vector3 {
    Vector3(0.0, 0.0, 1.0)
  }

  /** The dot product with a unit vector whose only non-zero component is a
      1 picks out that component of any vector. */
  lemma AxisComponent(e: Vector3, v: Vector3)
    requires e in {UnitX(), UnitY(), UnitZ()}
    ensures e == UnitX() ==> Dot(e, v) == v.x
    ensures e == UnitY() ==> Dot(e, v) == v.y
    ensures e == UnitZ() ==> Dot(e, v) == v.z
  {
  }

  // ------------------------------------------------------------------ queries

  /** `PartialEq::eq`: equality of all components is equality of vectors. */
  function Equal(a: Vector3, b: Vector3): (r: bool)
    ensures r <==> a == b
  {
    a.x == b.x && a.y == b.y && a.z == b.z
  }

  /** `is_origin`: comparing every component with zero is comparing the
      vector with `origin()`. */
  function IsOrigin(v: Vector3): (r: bool)
    ensures r <==> v == Origin()
  {
    v.x == 0.0 && v.y == 0.0 && v.z == 0.0
  }

  /** `dot`: the inner product. */
  function Dot(a: Vector3, b: Vector3): real {
    a.x * b.x + a.y * b.y + a.z * b.z
  }

  /** `len2`: the squared length, never negative. */
  function Len2(v: Vector3): (r: real)
    ensures r >= 0.0
  {
    Scalar.SquareNonnegative(v.x);
    Scalar.SquareNonnegative(v.y);
    Scalar.SquareNonnegative(v.z);
    Dot(v, v)
  }

  /** The squared length is zero exactly at the origin. */
  lemma Len2Zero(v: Vector3)
    ensures Len2(v) == 0.0 <==> IsOrigin(v)
  {
    if Len2(v) == 0.0 {
      Scalar.SumOfThreeSquaresZero(v.x, v.y, v.z);
    }
    Scalar.MulByConstant(v.x, v.x);
    Scalar.MulByConstant(v.y, v.y);
    Scalar.MulByConstant(v.z, v.z);
  }

  /** `len`: a length parameter that satisfies `IsLen` is `len()`. */
  predicate IsLen(v: Vector3, len: real) {
    Scalar.IsSqrt(len, Len2(v))
  }

  /** `dist2`: the squared distance, never negative. */
  function Dist2(a: Vector3, b: Vector3): (r: real)
    ensures r >= 0.0
  {
    var dx := a.x - b.x;
    var dy := a.y - b.y;
    var dz := a.z - b.z;
    Scalar.SquareNonnegative(dx);
    Scalar.SquareNonnegative(dy);
    Scalar.SquareNonnegative(dz);
    dx * dx + dy * dy + dz * dz
  }

  /** `dist`: the distance is a parameter pinned by `IsDist`. */
  predicate IsDist(a: Vector3, b: Vector3, dist: real) {
    Scalar.IsSqrt(dist, Dist2(a, b))
  }

  /** `dist2` is the squared length of the difference. */
  lemma Dist2IsLen2OfDifference(a: Vector3, b: Vector3)
    ensures Dist2(a, b) == Len2(Sub(a, b))
  {
  }

  /** `cross`: the cross product. */
  function Cross(a: Vector3, b: Vector3): Vector3 {
    Vector3(a.y * b.z - a.z * b.y, a.z * b.x - a.x * b.z, a.x * b.y - a.y * b.x)
  }

  /** `dot` is linear in its second operand: scaling. */
  lemma DotScaled(a: Vector3, b: Vector3, k: real)
    ensures Dot(a, MulScalar(b, k)) == k * Dot(a, b)
  {
  }

  /** `dot` is linear in its second operand: sums. */
  lemma DotAdd(a: Vector3, b: Vector3, e: Vector3)
    ensures Dot(a, Add(b, e)) == Dot(a, b) + Dot(a, e)
  {
  }

  /** `dot` of two scaled vectors. */
  lemma DotScaledBoth(a: Vector3, b: Vector3, p: real, q: real)
    ensures Dot(MulScalar(a, p), MulScalar(b, q)) == p * q * Dot(a, b)
  {
  }

  /** Scaling keeps two orthogonal vectors orthogonal. */
  lemma OrthogonalScaled(a: Vector3, b: Vector3, p: real, q: real)
    requires Dot(a, b) == 0.0
    ensures Dot(MulScalar(a, p), MulScalar(b, q)) == 0.0
  {
    DotScaledBoth(a, b, p, q);
  }

  /** `len2` of a sum. */
  lemma Len2Add(a: Vector3, b: Vector3)
    ensures Len2(Add(a, b)) == Len2(a) + 2.0 * Dot(a, b) + Len2(b)
  {
  }

  /** The cross product is orthogonal to both of its operands. */
  lemma CrossOrthogonal(a: Vector3, b: Vector3)
    ensures Dot(Cross(a, b), a) == 0.0 && Dot(Cross(a, b), b) == 0.0
  {
  }

  /** `dot` is symmetric and `len2` is the dot product of a vector with
      itself. */
  lemma DotSymmetric(a: Vector3, b: Vector3)
    ensures Dot(a, b) == Dot(b, a)
    ensures Len2(a) == Dot(a, a)
  {
  }

  /** `cross` is antisymmetric and vanishes on a vector and itself. */
  lemma CrossAntisymmetric(a: Vector3, b: Vector3)
    ensures Cross(a, b) == MulScalar(Cross(b, a), -1.0)
    ensures Cross(a, a) == Origin()
  {
  }

  /** The cross product is right-handed: `unit_x` cross `unit_y` is
      `unit_z`. */
  lemma CrossRightHanded()
    ensures Cross(UnitX(), UnitY()) == UnitZ()
  {
  }

  /** Lagrange's identity: the squared length of the cross product is the
      product of the squared lengths less the squared dot product. */
  lemma CrossLength(a: Vector3, b: Vector3)
    ensures Len2(Cross(a, b)) == Len2(a) * Len2(b) - Dot(a, b) * Dot(a, b)
  {
  }

  /** `dist2` is symmetric and zero from a vector to itself. */
  lemma Dist2Symmetric(a: Vector3, b: Vector3)
    ensures Dist2(a, b) == Dist2(b, a)
    ensures Dist2(a, a) == 0.0
  {
  }

  /** `dist` is symmetric. */
  lemma DistSymmetric(a: Vector3, b: Vector3, d: real)
    ensures IsDist(a, b, d) <==> IsDist(b, a, d)
  {
    Dist2Symmetric(a, b);
  }

  /** The distance from a vector to itself is exactly 0. */
  lemma DistToSelf(a: Vector3, d: real)
    ensures IsDist(a, a, d) <==> d == 0.0
  {
    Dist2Symmetric(a, a);
    if IsDist(a, a, d) {
      Scalar.SqrtPositive(d, Dist2(a, a));
    }
    Scalar.MulByConstant(d, d);
  }

  /** A vector on the positive x axis has its x component as its length. */
  lemma LenOnAxis(a: real, len: real)
    requires 0.0 <= a
    ensures IsLen(Vector3(a, 0.0, 0.0), len) <==> len == a
  {
    var v := Vector3(a, 0.0, 0.0);
    Scalar.MulByConstant(0.0, 0.0);
    assert Len2(v) == a * a;
    if IsLen(v, len) {
      Scalar.SqrtUnique(len, a, a * a);
    }
  }

  /** The tests of `len` and `dist`: `unit_x` has length 1 and is at
      distance 0 from itself. */
  lemma LengthExamples(len: real, dist: real)
    ensures IsLen(UnitX(), len) <==> len == 1.0
    ensures IsDist(UnitX(), UnitX(), dist) <==> dist == 0.0
  {
    LenOnAxis(1.0, len);
    DistToSelf(UnitX(), dist);
  }

  /** The query cases of crml's test suite. */
  lemma QueryExamples()
    ensures Equal(Vector3(1.0, 2.0, 3.0), Vector3(1.0, 2.0, 3.0))
    ensures !Equal(Vector3(1.0, 2.0, 3.0), Vector3(1.0, 2.0, 4.0))
    ensures IsOrigin(Origin()) && !IsOrigin(Vector3(1.0, 2.0, 3.0))
    ensures Cross(Vector3(1.0, 2.0, 3.0), Vector3(3.0, 2.0, 1.0)) == Vector3(-4.0, 8.0, -4.0)
    ensures Dot(Vector3(1.0, 2.0, 3.0), Vector3(3.0, 2.0, 1.0)) == 10.0
    ensures Len2(UnitX()) == 1.0 && Dist2(UnitX(), UnitX()) == 0.0
  {
  }

  // ---------------------------------------------------------------- geometry

  /** `len2` of a scaled vector. */
  lemma Len2Scaled(v: Vector3, k: real)
    ensures Len2(MulScalar(v, k)) == k * k * Len2(v)
  {
    calc {
      Len2(MulScalar(v, k));
      (v.x * k) * (v.x * k) + (v.y * k) * (v.y * k) + (v.z * k) * (v.z * k);
      k * k * (v.x * v.x + v.y * v.y + v.z * v.z);
    }
  }

  /** `normalize`, with `len` the value of `self.len()`. The origin comes back
      as the origin, so the zero length is never a divisor; any other vector
      is scaled to length 1 in the same direction. */
  function Normalize(v: Vector3, len: real): (r: Vector3)
    requires IsLen(v, len)
    ensures IsOrigin(v) ==> r == Origin()
    ensures !IsOrigin(v) ==> Len2(r) == 1.0 && MulScalar(r, len) == v
  {
    if IsOrigin(v) then
      Origin()
    else
      Len2Zero(v);
      Scalar.SqrtPositive(len, Len2(v));
      NormalizedIsUnit(v, len);
      DivScalar(v, len)
  }

  /** Dividing a vector by its non-zero length gives a vector of length 1
      that the length scales back to the input. */
  lemma NormalizedIsUnit(v: Vector3, len: real)
    requires IsLen(v, len) && len != 0.0
    ensures Len2(DivScalar(v, len)) == 1.0
    ensures MulScalar(DivScalar(v, len), len) == v
  {
    var k := 1.0 / len;
    assert k * len == 1.0;
    assert DivScalar(v, len) == MulScalar(v, k);
    Len2Scaled(v, k);
    assert k * k * Len2(v) == (k * len) * (k * len);
    Scalar.MulByConstant(k * len, k * len);
  }

  /** `trim(max_len)`, with `len` the value of `self.len()`: a vector no longer
      than `max_len` is unchanged, and for `max_len >= 0` the result has
      length `min(len, max_len)`. */
  function Trim(v: Vector3, maxLen: real, len: real): (r: Vector3)
    requires IsLen(v, len)
    ensures len <= maxLen ==> r == v
    ensures 0.0 <= maxLen ==> IsLen(r, Scalar.Min(len, maxLen))
  {
    TrimmedLength(v, len, Scalar.Min(len, maxLen));
    MulScalar(Normalize(v, len), Scalar.Min(len, maxLen))
  }

  /** `trim` scales the vector itself: a non-zero vector is multiplied by
      `min(len, max_len) / len`, so it keeps its direction for a non-negative
      target and is reversed for a negative one. */
  lemma TrimScales(v: Vector3, maxLen: real, len: real)
    requires IsLen(v, len) && !IsOrigin(v)
    ensures Trim(v, maxLen, len) == MulScalar(v, Scalar.Min(len, maxLen) / len)
  {
    Len2Zero(v);
    Scalar.SqrtPositive(len, Len2(v));
  }

  /** The origin, which has no direction, is trimmed to itself. */
  lemma TrimAtOrigin(v: Vector3, maxLen: real, len: real)
    requires IsLen(v, len) && IsOrigin(v)
    ensures Trim(v, maxLen, len) == v
  {
    ScaledOrigin(Scalar.Min(len, maxLen));
  }

  /** Scaling the origin gives the origin. */
  lemma ScaledOrigin(m: real)
    ensures MulScalar(Origin(), m) == Origin()
  {
    Scalar.MulByConstant(0.0, m);
  }

  /** Scaling the normalized vector by a factor `m` gives a vector of length
      `m`; scaling it by `len` gives back the input. At the origin only the
      factor 0 yields length `m`, which is where `min(len, max_len)` lies. */
  lemma TrimmedLength(v: Vector3, len: real, m: real)
    requires IsLen(v, len)
    ensures m == len ==> MulScalar(Normalize(v, len), m) == v
    ensures 0.0 <= m <= len ==> IsLen(MulScalar(Normalize(v, len), m), m)
  {
    var n := Normalize(v, len);
    var r := MulScalar(n, m);
    Len2Scaled(n, m);
    if IsOrigin(v) {
      Len2Zero(v);
      Scalar.SqrtPositive(len, Len2(v));
      Scalar.MulByConstant(n.x, m);
      Scalar.MulByConstant(n.y, m);
      Scalar.MulByConstant(n.z, m);
      assert r == Origin();
      Len2Zero(r);
      Scalar.MulByConstant(m, m);
    } else {
      Scalar.MulByConstant(Len2(n), m * m);
    }
  }

  /** The test of `trim`: `(1, 2, 3)`, of length the square root of 14,
      trimmed to 0.5 has length 0.5. */
  lemma TrimExample(len: real)
    requires IsLen(Vector3(1.0, 2.0, 3.0), len)
    ensures IsLen(Trim(Vector3(1.0, 2.0, 3.0), 0.5, len), 0.5)
  {
    assert Len2(Vector3(1.0, 2.0, 3.0)) == 14.0;
    Scalar.SqrtAbove(len, 14.0, 0.5);
  }

  /** `perpendicular`: `(-y, x, 0)`, orthogonal to the input and lying in the
      xy plane. */
  function Perpendicular(v: Vector3): (r: Vector3)
    ensures Dot(r, v) == 0.0
    ensures r.z == 0.0
    ensures Len2(r) == Len2(v) - v.z * v.z
  {
    Vector3(-v.y, v.x, 0.0)
  }

  /** `perpendicular` is the quarter turn about the z axis of the projection
      of the input onto the xy plane. */
  lemma PerpendicularIsQuarterTurn(v: Vector3)
    ensures Perpendicular(v) == Rodrigues(Vector3(v.x, v.y, 0.0), 0.0, 1.0, UnitZ())
  {
  }

  /** A vector on the z axis (`unit_z` among them) has the origin as its
      `perpendicular`, and no other vector does. */
  lemma PerpendicularVanishesOnZAxis(v: Vector3)
    ensures IsOrigin(Perpendicular(v)) <==> v.x == 0.0 && v.y == 0.0
  {
  }

  /** `lerp(other, step)`: step 0 gives `a` and step 1 gives `b`; the step
      is not clamped to `[0, 1]`. */
  function Lerp(a: Vector3, b: Vector3, step: real): (r: Vector3)
    ensures step == 0.0 ==> r == a
    ensures step == 1.0 ==> r == b
  {
    Add(a, MulScalar(Sub(b, a), step))
  }

  /** The result of `lerp` lies at a fraction `step` of the distance from `a`
      and `1 - step` of the distance to `b`. */
  lemma LerpDistances(a: Vector3, b: Vector3, step: real)
    ensures Dist2(a, Lerp(a, b, step)) == step * step * Dist2(a, b)
    ensures Dist2(Lerp(a, b, step), b) == (1.0 - step) * (1.0 - step) * Dist2(a, b)
  {
    var r := Lerp(a, b, step);
    Dist2IsLen2OfDifference(a, b);
    Dist2IsLen2OfDifference(a, r);
    Dist2IsLen2OfDifference(r, b);
    assert Sub(a, r) == MulScalar(Sub(a, b), step);
    Len2Scaled(Sub(a, b), step);
    assert Sub(r, b) == MulScalar(Sub(a, b), 1.0 - step);
    Len2Scaled(Sub(a, b), 1.0 - step);
  }

  /** Interpolating from `b` back to `a` with the complementary step gives the
      same point. */
  lemma LerpReversed(a: Vector3, b: Vector3, step: real)
    ensures Lerp(a, b, step) == Lerp(b, a, 1.0 - step)
  {
  }

  /** The tests of `normalize` on the origin and of `perpendicular`. */
  lemma GeometryExamples(len: real)
    ensures IsLen(Origin(), len) ==> Normalize(Origin(), len) == Origin()
    ensures Perpendicular(Vector3(1.0, 2.0, 3.0)) == Vector3(-2.0, 1.0, 0.0)
  {
  }

  /** The test of `lerp`: halfway from `unit_x` to `unit_y`. */
  lemma LerpExample()
    ensures Lerp(UnitX(), UnitY(), 0.5) == Vector3(0.5, 0.5, 0.0)
  {
  }

  // ----------------------------------------------------------------- rotation

  /** Rodrigues' rotation formula for a unit axis `u` and an angle of cosine
      `c` and sine `s`: `v c + (u cross v) s + u (u . v)(1 - c)`. */
  function Rodrigues(v: Vector3, c: real, s: real, u: Vector3): Vector3 {
    Add(Add(MulScalar(v, c), MulScalar(Cross(u, v), s)), MulScalar(u, (1.0 - c) * Dot(u, v)))
  }

  /** A 3x3 matrix, by rows. */
  datatype Matrix3 = Matrix3(row1: Vector3, row2: Vector3, row3: Vector3)

  /** The product of a matrix with `v`: the dot product of `v` with each row. */
  function Apply(m: Matrix3, v: Vector3): Vector3 {
    Vector3(Dot(v, m.row1), Dot(v, m.row2), Dot(v, m.row3))
  }

  /** The matrix `rotate` builds from a unit axis `u` and the cosine `c` and
      sine `s` of the angle. */
  function RotationMatrix(c: real, s: real, u: Vector3): Matrix3 {
    Matrix3(
      Vector3(c + u.x * u.x * (1.0 - c), u.x * u.y * (1.0 - c) - u.z * s, u.x * u.z * (1.0 - c) + u.y * s),
      Vector3(u.y * u.x * (1.0 - c) + u.z * s, c + u.y * u.y * (1.0 - c), u.y * u.z * (1.0 - c) - u.x * s),
      Vector3(u.z * u.x * (1.0 - c) - u.y * s, u.z * u.y * (1.0 - c) + u.x * s, c + u.z * u.z * (1.0 - c)))
  }

  /** Multiplying by the matrix of `rotate` is Rodrigues' formula. */
  lemma RotationMatrixIsRodrigues(v: Vector3, c: real, s: real, u: Vector3)
    ensures Apply(RotationMatrix(c, s, u), v) == Rodrigues(v, c, s, u)
  {
    RotationFirstRow(v, c, s, u);
    RotationFirstRow(Cycle(v), c, s, Cycle(u));
    RotationFirstRow(Cycle(Cycle(v)), c, s, Cycle(Cycle(u)));
    ApplyCycles(v, c, s, u);
    ApplyCycles(Cycle(v), c, s, Cycle(u));
    ApplyCyclesThird(v, c, s, u);
    RodriguesCycles(v, c, s, u);
    RodriguesCycles(Cycle(v), c, s, Cycle(u));
    RodriguesCyclesThird(v, c, s, u);
  }

  /** The components of a vector moved one place to the left. */
  function Cycle(w: Vector3): Vector3 {
    Vector3(w.y, w.z, w.x)
  }

  /** The second row of the matrix is the first row of the matrix for the
      cycled axis, applied to the cycled vector. */
  lemma ApplyCycles(v: Vector3, c: real, s: real, u: Vector3)
    ensures Apply(RotationMatrix(c, s, u), v).y == Apply(RotationMatrix(c, s, Cycle(u)), Cycle(v)).x
  {
  }

  /** Likewise the third row is the second row for the cycled axis. */
  lemma ApplyCyclesThird(v: Vector3, c: real, s: real, u: Vector3)
    ensures Apply(RotationMatrix(c, s, u), v).z == Apply(RotationMatrix(c, s, Cycle(u)), Cycle(v)).y
  {
  }

  /** Rodrigues' formula commutes with cycling the components. */
  lemma RodriguesCycles(v: Vector3, c: real, s: real, u: Vector3)
    ensures Rodrigues(v, c, s, u).y == Rodrigues(Cycle(v), c, s, Cycle(u)).x
  {
  }

  /** Likewise for the third component. */
  lemma RodriguesCyclesThird(v: Vector3, c: real, s: real, u: Vector3)
    ensures Rodrigues(v, c, s, u).z == Rodrigues(Cycle(v), c, s, Cycle(u)).y
  {
  }

  /** The first row of the matrix applies Rodrigues' formula. */
  lemma RotationFirstRow(v: Vector3, c: real, s: real, u: Vector3)
    ensures Apply(RotationMatrix(c, s, u), v).x == Rodrigues(v, c, s, u).x
  {
    FirstRowExpanded(v, c, s, u);
    FirstRodriguesExpanded(v, c, s, u);
    RowIdentity(v.x, v.y, v.z, u.x, u.y, u.z, c, s, Dot(u, v));
  }

  /** The first component of the product with the matrix, written out over
      the components of `v` and of the axis. */
  function FirstRowProduct(vx: real, vy: real, vz: real, ux: real, uy: real, uz: real, c: real, s: real): real {
    vx * (c + ux * ux * (1.0 - c)) + vy * (ux * uy * (1.0 - c) - uz * s) + vz * (ux * uz * (1.0 - c) + uy * s)
  }

  /** The first component of Rodrigues' formula, written out likewise, with
      `d` standing for the dot product of the axis and `v`. */
  function FirstRodriguesTerm(vx: real, vy: real, vz: real, ux: real, uy: real, uz: real, c: real, s: real, d: real): real {
    vx * c + (uy * vz - uz * vy) * s + ux * ((1.0 - c) * d)
  }

  /** The first component of the product with the matrix is the
      written-out form. */
  lemma FirstRowExpanded(v: Vector3, c: real, s: real, u: Vector3)
    ensures Apply(RotationMatrix(c, s, u), v).x == FirstRowProduct(v.x, v.y, v.z, u.x, u.y, u.z, c, s)
  {
    var row := Vector3(c + u.x * u.x * (1.0 - c), u.x * u.y * (1.0 - c) - u.z * s, u.x * u.z * (1.0 - c) + u.y * s);
    assert RotationMatrix(c, s, u).row1 == row;
  }

  /** The first component of Rodrigues' formula is the written-out form. */
  lemma FirstRodriguesExpanded(v: Vector3, c: real, s: real, u: Vector3)
    ensures Rodrigues(v, c, s, u).x == FirstRodriguesTerm(v.x, v.y, v.z, u.x, u.y, u.z, c, s, Dot(u, v))
  {
  }

  /** The algebra behind the first row: its product with `v` regroups into
      the terms of Rodrigues' formula. */
  lemma RowIdentity(vx: real, vy: real, vz: real, ux: real, uy: real, uz: real, c: real, s: real, d: real)
    requires d == ux * vx + uy * vy + uz * vz
    ensures FirstRowProduct(vx, vy, vz, ux, uy, uz, c, s) == FirstRodriguesTerm(vx, vy, vz, ux, uy, uz, c, s, d)
  {
    var k := 1.0 - c;
    var p := vx * (c + ux * ux * k) + vy * (ux * uy * k - uz * s) + vz * (ux * uz * k + uy * s);
    var q := vx * c + (uy * vz - uz * vy) * s + ux * (k * d);
    assert p == q;
  }

  /** `rotate(angle, axis)`, with `c` and `s` the cosine and sine of `angle`
      and `axisLen` the value of `axis.len()`: the matrix crml builds
      row by row from the normalized axis applies Rodrigues' formula. */
  function Rotate(v: Vector3, c: real, s: real, axis: Vector3, axisLen: real): (r: Vector3)
    requires IsLen(axis, axisLen)
    ensures r == Rodrigues(v, c, s, Normalize(axis, axisLen))
  {
    var u := Normalize(axis, axisLen);
    RotationMatrixIsRodrigues(v, c, s, u);
    Apply(RotationMatrix(c, s, u), v)
  }

  /** The angle 0 (cosine 1, sine 0) turns nothing. */
  lemma RodriguesZeroAngle(v: Vector3, u: Vector3)
    ensures Rodrigues(v, 1.0, 0.0, u) == v
  {
  }

  /** About the zero axis the formula only scales by the cosine. */
  lemma RodriguesZeroAxis(v: Vector3, c: real, s: real)
    ensures Rodrigues(v, c, s, Origin()) == MulScalar(v, c)
  {
  }

  /** Every point of a unit axis stays where it is. */
  lemma RodriguesFixesAxis(u: Vector3, t: real, c: real, s: real)
    requires Len2(u) == 1.0
    ensures Rodrigues(MulScalar(u, t), c, s, u) == MulScalar(u, t)
  {
    DotScaled(u, u, t);
    Scalar.MulByConstant(1.0, t);
    RodriguesOnAxis(u, t, c, s);
  }

  /** The formula at a point `t u` of the axis, once `u . (t u)` is known to
      be `t`. */
  lemma RodriguesOnAxis(u: Vector3, t: real, c: real, s: real)
    requires Dot(u, MulScalar(u, t)) == t
    ensures Rodrigues(MulScalar(u, t), c, s, u) == MulScalar(u, t)
  {
    CrossWithScaled(u, t);
    AxisAlgebra(u.x, t, c);
    AxisAlgebra(u.y, t, c);
    AxisAlgebra(u.z, t, c);
  }

  /** A vector crossed with a multiple of itself is the origin. */
  lemma CrossWithScaled(u: Vector3, t: real)
    ensures Cross(u, MulScalar(u, t)) == Origin()
  {
  }

  /** One component of the formula on the axis: the cosine part and the
      axis part add back up to the point. */
  lemma AxisAlgebra(a: real, t: real, c: real)
    ensures (a * t) * c + a * ((1.0 - c) * t) == a * t
  {
  }

  /** Turning about a unit axis keeps the component of a vector along the
      axis. */
  lemma RodriguesKeepsAxisComponent(v: Vector3, c: real, s: real, u: Vector3)
    requires Len2(u) == 1.0
    ensures Dot(u, Rodrigues(v, c, s, u)) == Dot(u, v)
  {
    var d := Dot(u, v);
    var w := Cross(u, v);
    var a := MulScalar(v, c);
    var b := MulScalar(w, s);
    var e := MulScalar(u, (1.0 - c) * d);
    DotAdd(u, Add(a, b), e);
    DotAdd(u, a, b);
    DotScaled(u, v, c);
    DotScaled(u, w, s);
    CrossOrthogonal(u, v);
    DotSymmetric(w, u);
    DotSymmetric(u, u);
    DotScaled(u, u, (1.0 - c) * d);
    AxisComponentAlgebra(c, s, d);
  }

  /** The scalar step of `RodriguesKeepsAxisComponent`. */
  lemma AxisComponentAlgebra(c: real, s: real, d: real)
    ensures c * d + s * 0.0 + ((1.0 - c) * d) * 1.0 == d
  {
  }

  /** Turning about a unit axis by an angle whose cosine and sine are `c`
      and `s` keeps the length of every vector. */
  lemma RodriguesKeepsLength(v: Vector3, c: real, s: real, u: Vector3)
    requires Len2(u) == 1.0 && Scalar.OnUnitCircle(c, s)
    ensures Len2(Rodrigues(v, c, s, u)) == Len2(v)
  {
    var k := (1.0 - c) * Dot(u, v);
    RodriguesLength(v, c, s, u, k);
    CrossLength(u, v);
    LengthAlgebra(c, s, Len2(v), Dot(u, v), Len2(u), Len2(Cross(u, v)), k);
  }

  /** `len2` of Rodrigues' formula, term by term: the turned part
      `v c + (u x v) s` and the axis part `u k` meet in `u . v`. */
  lemma RodriguesLength(v: Vector3, c: real, s: real, u: Vector3, k: real)
    requires k == (1.0 - c) * Dot(u, v)
    ensures Len2(Rodrigues(v, c, s, u)) == LengthTerms(c, s, Len2(v), Dot(u, v), Len2(u), Len2(Cross(u, v)), k)
  {
    var p := Add(MulScalar(v, c), MulScalar(Cross(u, v), s));
    var e := MulScalar(u, k);
    assert Rodrigues(v, c, s, u) == Add(p, e);
    Len2Add(p, e);
    TurnedPartLength(v, c, s, u);
    TurnedPartMeetsAxis(v, c, s, u, k);
    Len2Scaled(u, k);
    assert Len2(e) == AxisTerm(k, Len2(u));
  }

  /** The turned part `v c + (u x v) s` of the formula: its two terms are
      orthogonal, so their squared lengths add up. */
  lemma TurnedPartLength(v: Vector3, c: real, s: real, u: Vector3)
    ensures Len2(Add(MulScalar(v, c), MulScalar(Cross(u, v), s))) == TurnedTerms(c, s, Len2(v), Len2(Cross(u, v)))
  {
    var w := Cross(u, v);
    Len2Add(MulScalar(v, c), MulScalar(w, s));
    Len2Scaled(v, c);
    Len2Scaled(w, s);
    CrossOrthogonal(u, v);
    DotSymmetric(w, v);
    OrthogonalScaled(v, w, c, s);
  }

  /** The turned part meets the axis part `u k` only through `v c`. */
  lemma TurnedPartMeetsAxis(v: Vector3, c: real, s: real, u: Vector3, k: real)
    ensures Dot(Add(MulScalar(v, c), MulScalar(Cross(u, v), s)), MulScalar(u, k)) == MeetTerm(k, c, Dot(u, v))
  {
    var w := Cross(u, v);
    var a := MulScalar(v, c);
    var b := MulScalar(w, s);
    var e := MulScalar(u, k);
    CrossOrthogonal(u, v);
    DotSymmetric(w, u);
    OrthogonalScaled(u, w, k, s);
    DotSymmetric(Add(a, b), e);
    DotAdd(e, a, b);
    DotScaledBoth(u, v, k, c);
  }

  /** `len2` of Rodrigues' formula, with `l`, `n` and `m` standing for the
      squared lengths of `v`, `u` and `u x v`, `d` for `u . v` and `k` for
      `(1 - c) d`. */
  function LengthTerms(c: real, s: real, l: real, d: real, n: real, m: real, k: real): real {
    TurnedTerms(c, s, l, m) + 2.0 * MeetTerm(k, c, d) + AxisTerm(k, n)
  }

  /** `len2` of the turned part. */
  function TurnedTerms(c: real, s: real, l: real, m: real): real {
    c * c * l + s * s * m
  }

  /** The dot product of the turned part with the axis part. */
  function MeetTerm(k: real, c: real, d: real): real {
    k * c * d
  }

  /** `len2` of the axis part. */
  function AxisTerm(k: real, n: real): real {
    k * k * n
  }

  /** The scalar step of `RodriguesKeepsLength`. */
  lemma LengthAlgebra(c: real, s: real, l: real, d: real, n: real, m: real, k: real)
    requires c * c + s * s == 1.0 && n == 1.0 && m == n * l - d * d && k == (1.0 - c) * d
    ensures LengthTerms(c, s, l, d, n, m, k) == l
  {
    assert LengthTerms(c, s, l, d, n, m, k) == c * c * l + s * s * m + 2.0 * (k * c * d) + k * k * n;
    assert m == l - d * d;
    assert k * k * n == k * k;
    assert c * c * l + s * s * m == (c * c + s * s) * l - s * s * (d * d);
    assert 2.0 * (k * c * d) + k * k == (d * d) * (1.0 - c * c);
  }

  /** `rotate` by the angle 0 leaves every vector where it is. */
  lemma RotateZeroAngle(v: Vector3, axis: Vector3, axisLen: real)
    requires IsLen(axis, axisLen)
    ensures Rotate(v, 1.0, 0.0, axis, axisLen) == v
  {
    RodriguesZeroAngle(v, Normalize(axis, axisLen));
  }

  /** `rotate` about the origin: `normalize` returns the origin, so the
      matrix is `cos(angle)` times the identity and the vector is only
      scaled. */
  lemma RotateAboutOrigin(v: Vector3, c: real, s: real, axisLen: real)
    requires IsLen(Origin(), axisLen)
    ensures Rotate(v, c, s, Origin(), axisLen) == MulScalar(v, c)
  {
    RodriguesZeroAxis(v, c, s);
  }

  /** `rotate` leaves the axis itself where it is. */
  lemma RotateFixesAxis(axis: Vector3, c: real, s: real, axisLen: real)
    requires IsLen(axis, axisLen)
    ensures Rotate(axis, c, s, axis, axisLen) == axis
  {
    var u := Normalize(axis, axisLen);
    if IsOrigin(axis) {
      RodriguesZeroAxis(axis, c, s);
      Scalar.MulByConstant(0.0, c);
    } else {
      RodriguesFixesAxis(u, axisLen, c, s);
    }
  }

  /** `rotate` about a non-zero axis by an angle whose cosine and sine are
      `c` and `s` keeps lengths and keeps the component along the axis. */
  lemma RotateIsRigid(v: Vector3, c: real, s: real, axis: Vector3, axisLen: real)
    requires IsLen(axis, axisLen) && !IsOrigin(axis) && Scalar.OnUnitCircle(c, s)
    ensures Len2(Rotate(v, c, s, axis, axisLen)) == Len2(v)
    ensures Dot(axis, Rotate(v, c, s, axis, axisLen)) == Dot(axis, v)
  {
    var u := Normalize(axis, axisLen);
    var r := Rodrigues(v, c, s, u);
    RodriguesKeepsLength(v, c, s, u);
    RodriguesKeepsAxisComponent(v, c, s, u);
    DotScaled(r, u, axisLen);
    DotScaled(v, u, axisLen);
    DotSymmetric(r, u);
    DotSymmetric(v, u);
    DotSymmetric(r, axis);
    DotSymmetric(v, axis);
  }

  /** The test of `rotate`: `unit_x` turned by pi about `unit_z` has x
      component -1, whatever the rounded sine of pi is. */
  lemma RotateExample(s: real, axisLen: real)
    requires IsLen(UnitZ(), axisLen)
    ensures Rotate(UnitX(), -1.0, s, UnitZ(), axisLen).x == -1.0
  {
    NormalizeUnitZ(axisLen);
    HalfTurnAboutZ(s);
  }

  /** `unit_z` is already normalized. */
  lemma NormalizeUnitZ(axisLen: real)
    requires IsLen(UnitZ(), axisLen)
    ensures Normalize(UnitZ(), axisLen) == UnitZ()
  {
    Scalar.SqrtUnique(axisLen, 1.0, 1.0);
  }

  /** A half turn about `unit_z` takes the x component of `unit_x` to -1. */
  lemma HalfTurnAboutZ(s: real)
    ensures Rodrigues(UnitX(), -1.0, s, UnitZ()).x == -1.0
  {
  }
}
