# crml vectors in Dafny

This project models `crml`, a small Rust maths library with two value types: a
2-component vector (`Vector2`) and a 3-component vector (`Vector3`). Both are
`Copy` structs of `f64` components. Every operation builds and returns a new
value. Nothing is updated in place and there are no loops. So each type is a
Dafny `datatype`, and each operator and method is a function on it:

- `scalar.dfy`, module `Scalar`: the `f64` helpers the vectors call. `min` is
  a function. `sqrt`, `cos` and `sin` are predicates (`IsSqrt`,
  `OnUnitCircle`) that a parameter must satisfy. There are also small
  lemmas about squares and square roots.
- `vector2.dfy`, module `Vec2`: `src/vector2.rs`. The `+ - * /` operators in
  vector and scalar form, the constructors, `PartialEq`, `is_origin`, `dot`,
  `cross`, `len2`, `dist2`, `len`, `dist`, `normalize`, `trim`, `rotate`,
  `perpendicular`, `lerp`, `from_polar` and `to_polar`.
- `vector3.dfy`, module `Vec3`: `src/vector3.rs`. The same operations in three
  dimensions, with the 3D `cross`, `unit_z` and the axis-angle `rotate`.
  `rotate` is proved to be Rodrigues' rotation formula. That formula is
  proved to keep lengths, to keep the component along the axis and to leave
  the axis fixed.

Components and scalars are Dafny `real`s. The model is the IEEE-754
arithmetic of the library with rounding taken away. Where the library calls
`sqrt`, `cos`, `sin` or `atan2`, the model takes the result as a parameter:

- `len`, `dist` and `normalize` take the length and a requirement that pins
  it to the exact square root (`IsLen`, `IsDist`).
- `rotate` and `from_polar` take the cosine `c` and the sine `s` of the
  angle. The rotation properties hold when `c * c + s * s == 1`.
- `to_polar` takes the raw `atan2` angle, which lies in `[-PI, PI]`.

`PI` is `std::f64::consts::PI`, written as the decimal literal Rust prints for
it: `3.141592653589793` is the shortest decimal that reads back as that `f64`.

## Model

| member | source | states |
|---|---|---|
| Scalar.IsSqrt | src/vector2.rs:210-212 | no ensures; `r` is `x.sqrt()` exactly when `r >= 0` and `r * r == x`; its laws are in Scalar.SqrtUnique and Scalar.SqrtPositive |
| Scalar.OnUnitCircle | src/vector2.rs:244-252 | no ensures; `(c, s)` are the `cos` and `sin` of one angle when `c * c + s * s == 1`; its uses are in Vec2.Rotate and Vec3.RodriguesKeepsLength |
| Scalar.SqrtUnique | src/vector2.rs:210-212 | a number has at most one non-negative square root, so `len()` is determined by `len2()` |
| Scalar.SqrtPositive | src/vector2.rs:210-212 | the square root is 0 exactly at 0 and positive exactly for positive numbers |
| Scalar.Min | src/vector2.rs:187-189 | `f64::min` (as used by `trim`) is at most both operands and is one of them |
| Vec2.Add | src/vector2.rs:27-36 | no ensures; component-wise `+`; its laws are in Vec2.AddLaws and Vec2.ArithmeticExamples |
| Vec2.AddScalar | src/vector2.rs:38-47 | no ensures; `+ f64` on both components; its laws are in Vec2.ScalarFormsBroadcast |
| Vec2.Sub | src/vector2.rs:49-58 | no ensures; component-wise `-`; its laws are in Vec2.AddLaws and Vec2.ArithmeticExamples |
| Vec2.SubScalar | src/vector2.rs:60-69 | no ensures; `- f64` on both components; its laws are in Vec2.ScalarFormsBroadcast |
| Vec2.Mul | src/vector2.rs:71-80 | no ensures; component-wise `*`; its laws are in Vec2.DivUndoesMul and Vec2.ArithmeticExamples |
| Vec2.MulScalar | src/vector2.rs:82-91 | no ensures; `* f64` on both components; its laws are in Vec2.ScalarFormsBroadcast, Vec2.Len2Scaled and Vec2.DivUndoesMul |
| Vec2.Div | src/vector2.rs:93-102 | no ensures; requires both divisor components non-zero (crml returns an infinity or NaN there); its laws are in Vec2.DivUndoesMul |
| Vec2.DivScalar | src/vector2.rs:104-113 | no ensures; requires a non-zero divisor (crml returns infinities or NaN there); its laws are in Vec2.DivUndoesMul and Vec2.ScalarFormsBroadcast |
| Vec2.ScalarFormsBroadcast | src/vector2.rs:38-113 | each `Vector2 op f64` impl equals the vector impl with the scalar copied into both components |
| Vec2.AddLaws | src/vector2.rs:27-58 | `+` is commutative and associative, `origin()` is its identity, `-` undoes `+`, and `a - a` is the origin |
| Vec2.DivUndoesMul | src/vector2.rs:71-113 | `/` undoes `*` and `*` undoes `/`, in both the vector and the scalar form, for non-zero divisors |
| Vec2.ArithmeticExamples | tests/vector2.rs:45-91 | the add, sub, mul and div cases of the test suite, e.g. `(1,2)+(2,1) == (3,3)` and `(1,2)/2 == (0.5,1)` |
| Vec2.Origin | src/vector2.rs:131-133 | `origin()` leaves every vector unchanged under `+` and `-` |
| Vec2.UnitX | src/vector2.rs:140-142 | no ensures; `(1, 0)`; its laws are in Vec2.UnitComponents and Vec2.LengthExamples |
| Vec2.UnitY | src/vector2.rs:149-151 | no ensures; `(0, 1)`; its laws are in Vec2.UnitComponents |
| Vec2.UnitComponents | src/vector2.rs:140-151 | the dot product with `unit_x` / `unit_y` is the x / y component of any vector |
| Vec2.FromPolar | src/vector2.rs:154-159 | for a genuine angle, `from_polar(radius, angle)` has squared length `radius * radius` |
| Vec2.FromPolarIsTurnedUnitX | src/vector2.rs:154-159 | `from_polar(radius, angle)` is `unit_x` rotated by `angle` and scaled by `radius` |
| Vec2.Equal | src/vector2.rs:19-25 | `==` holds exactly when the two vectors are the same value |
| Vec2.IsOrigin | src/vector2.rs:162-166 | `is_origin` holds exactly when the vector is `origin()` |
| Vec2.Dot | src/vector2.rs:205-207 | no ensures; its laws are in Vec2.DotSymmetric and Vec2.UnitComponents |
| Vec2.IsLen | src/vector2.rs:210-212 | no ensures; `len` is `v.len()` exactly when it is the square root of `len2`; its laws are in Vec2.LenOnAxis and Vec2.Normalize |
| Vec2.IsDist | src/vector2.rs:224-226 | no ensures; `d` is `a.dist(b)` exactly when it is the square root of `dist2`; its laws are in Vec2.DistSymmetric and Vec2.DistToSelf |
| Vec2.Cross | src/vector2.rs:196-198 | no ensures; its laws are in Vec2.CrossAntisymmetric and Vec2.Rotate |
| Vec2.Len2 | src/vector2.rs:215-217 | `len2` is never negative |
| Vec2.Len2Zero | src/vector2.rs:215-217 | `len2` is zero exactly when `is_origin` holds |
| Vec2.Dist2 | src/vector2.rs:233-237 | `dist2` is never negative |
| Vec2.DotSymmetric | src/vector2.rs:205-217 | `a.dot(b) == b.dot(a)` and `len2(a) == a.dot(a)` |
| Vec2.CrossAntisymmetric | src/vector2.rs:196-198 | `a.cross(b) == -b.cross(a)`, `a.cross(a) == 0`, and `a.cross(b)` is `a.perpendicular().dot(b)` |
| Vec2.Dist2Symmetric | src/vector2.rs:233-237 | `a.dist2(b) == b.dist2(a)` and `a.dist2(a) == 0` |
| Vec2.Dist2IsLen2OfDifference | src/vector2.rs:233-237 | `a.dist2(b)` is `(a - b).len2()` |
| Vec2.DistSymmetric | src/vector2.rs:224-226 | `d` is `a.dist(b)` exactly when it is `b.dist(a)` |
| Vec2.DistToSelf | src/vector2.rs:224-226 | `a.dist(a)` is exactly 0 |
| Vec2.LenOnAxis | src/vector2.rs:210-212 | the length of `(a, 0)` for `a >= 0` is `a`, and nothing else |
| Vec2.LengthExamples | tests/vector2.rs:132-148 | `unit_x().len() == 1` and `unit_x().dist(unit_x()) == 0`, as the only possible values |
| Vec2.QueryExamples | tests/vector2.rs:35-154 | the eq, is_origin, cross (-3), dot (4), len2 (1) and dist2 (0) cases of the test suite |
| Vec2.Len2Scaled | src/vector2.rs:82-91 | scaling by `k` multiplies `len2` by `k * k` |
| Vec2.Normalize | src/vector2.rs:174-180 | the origin normalizes to the origin (no division by its zero length); any other vector becomes one of length 1 that its length scales back to the input |
| Vec2.NormalizedIsUnit | src/vector2.rs:174-180 | a vector divided by its non-zero length has length 1, and multiplying by the length gives the vector back |
| Vec2.Trim | src/vector2.rs:187-189 | a vector no longer than `len` is unchanged by `trim(len)`; for `len >= 0` the result has length `min(self.len(), len)`; its direction is stated by Vec2.TrimScales |
| Vec2.TrimScales | src/vector2.rs:187-189 | `trim(len)` of a non-zero vector is the vector itself scaled by `min(self.len(), len) / self.len()`, so it keeps its direction for `len >= 0` |
| Vec2.TrimAtOrigin | src/vector2.rs:187-189 | `trim(len)` of the origin is the origin, for every `len` |
| Vec2.TrimmedLength | src/vector2.rs:187-189 | `normalize() * m` has length `m` for `0 <= m <= len()`, and is the input when `m == len()` |
| Vec2.TrimExample | tests/vector2.rs:111-115 | `(1,2).trim(0.5)` has length 0.5 |
| Vec2.Rotate | src/vector2.rs:244-252 | the rotated vector's dot and cross product with the input are `cos` and `sin` times `len2`, and for a genuine angle `len2` is kept |
| Vec2.Perpendicular | src/vector2.rs:255-257 | `perpendicular` is orthogonal to the input, has the same `len2`, and is the rotation by a quarter turn |
| Vec2.PerpendicularTwice | src/vector2.rs:255-257 | applying `perpendicular` twice negates the vector |
| Vec2.Lerp | src/vector2.rs:301-303 | `lerp(b, 0) == a` and `lerp(b, 1) == b` |
| Vec2.LerpDistances | src/vector2.rs:289-303 | `lerp(a, b, step)` is `step` of the way from `a` and `1 - step` of the way to `b`, in squared distance |
| Vec2.LerpReversed | src/vector2.rs:301-303 | `a.lerp(b, step) == b.lerp(a, 1 - step)` |
| Vec2.GeometryExamples | tests/vector2.rs:102-199 | the origin normalizes to the origin, `(1,2).perpendicular() == (-2,1)`, and `unit_x.lerp(unit_y, 0.5) == (0.5,0.5)` |
| Vec2.HalfTurnExample | tests/vector2.rs:156-161 | `unit_x` rotated by PI has x component -1, like `unit_x * -1`, for any value the sine of PI rounds to |
| Vec2.FromPolarExample | tests/vector2.rs:5-27 | `from_polar(1, PI)` has x component -1 and y component the sine of PI, for any value that sine rounds to (lines 11 and 25-26) |
| Vec2.PolarAngle | src/vector2.rs:280-284 | a raw angle `<= 0` gains a full turn and a positive one is kept, so 0 becomes 2 PI and any raw angle in (-2 PI, 2 PI] lands in (0, 2 PI] |
| Vec2.ToPolar | src/vector2.rs:278-287 | `to_polar` returns the length and an angle in (0, 2 PI] that is the `atan2` angle up to one full turn |
| Vec2.PolarRoundTrip | src/vector2.rs:278-287 | `to_polar` undoes `from_polar` for radius `> 0` and angle in (0, 2 PI] |
| Vec2.PolarAtOrigin | src/vector2.rs:278-287 | at radius 0, `from_polar` gives the origin whatever the angle, and `to_polar` of it gives the angle 2 PI (raw `atan2` 0) or PI (raw PI or -PI), not the angle passed in |
| Vec2.PolarZeroLength | src/vector2.rs:278-287 | at radius 0 the radius `to_polar` returns, the length, is 0 |
| Vec2.FromPolarAtZero | src/vector2.rs:154-159 | `from_polar(0, angle)` is the origin for every angle |
| Vec2.OriginLengthZero | src/vector2.rs:210-212 | 0 is a valid value of `origin().len()` |
| Vec2.OriginLength | src/vector2.rs:210-212 | `origin().len()` is 0 and nothing else |
| Vec2.PolarOfOrigin | src/vector2.rs:278-287 | `to_polar` of the origin gives the length and the angle 2 PI for raw angle 0, PI for raw angles PI and -PI |
| Vec2.PolarAngleOfHalfTurn | src/vector2.rs:280-284 | the raw angles PI and -PI both become PI |
| Vec2.PolarExample | tests/vector2.rs:184-191 | `from_polar(1, PI).to_polar() == (1, PI)` |
| Vec3.Add | src/vector3.rs:28-38 | no ensures; component-wise `+`; its laws are in Vec3.AddLaws and Vec3.ArithmeticExamples |
| Vec3.AddScalar | src/vector3.rs:40-50 | no ensures; `+ f64` on all components; its laws are in Vec3.ScalarFormsBroadcast |
| Vec3.Sub | src/vector3.rs:52-62 | no ensures; component-wise `-`; its laws are in Vec3.AddLaws and Vec3.ArithmeticExamples |
| Vec3.SubScalar | src/vector3.rs:64-74 | no ensures; `- f64` on all components; its laws are in Vec3.ScalarFormsBroadcast |
| Vec3.Mul | src/vector3.rs:76-86 | no ensures; component-wise `*`; its laws are in Vec3.DivUndoesMul and Vec3.ArithmeticExamples |
| Vec3.MulScalar | src/vector3.rs:88-98 | no ensures; `* f64` on all components; its laws are in Vec3.ScalarFormsBroadcast, Vec3.Len2Scaled and Vec3.DivScalarUndoesMulScalar |
| Vec3.Div | src/vector3.rs:100-110 | no ensures; requires all divisor components non-zero (crml returns an infinity or NaN there); its laws are in Vec3.DivUndoesMul |
| Vec3.DivScalar | src/vector3.rs:112-122 | no ensures; requires a non-zero divisor (crml returns infinities or NaN there); its laws are in Vec3.DivScalarUndoesMulScalar |
| Vec3.ScalarFormsBroadcast | src/vector3.rs:40-122 | each `Vector3 op f64` impl equals the vector impl with the scalar copied into all three components |
| Vec3.AddLaws | src/vector3.rs:28-62 | `+` is commutative and associative, `origin()` is its identity, `-` undoes `+`, and `a - a` is the origin |
| Vec3.DivUndoesMul | src/vector3.rs:76-110 | component-wise `/` undoes component-wise `*` and back, for non-zero divisors |
| Vec3.DivScalarUndoesMulScalar | src/vector3.rs:88-122 | `/ s` undoes `* s` and back, for `s != 0` |
| Vec3.ArithmeticExamples | tests/vector3.rs:50-96 | the add, sub, mul and div cases of the test suite, e.g. `(1,2,3)-(3,2,1) == (-2,0,2)` and `(1,2,3)/(3,2,1) == (1/3,1,3)` |
| Vec3.Origin | src/vector3.rs:141-143 | `origin()` leaves every vector unchanged under `+` and `-` |
| Vec3.UnitX | src/vector3.rs:150-152 | no ensures; `(1, 0, 0)`; its laws are in Vec3.AxisComponent and Vec3.CrossRightHanded |
| Vec3.UnitY | src/vector3.rs:159-161 | no ensures; `(0, 1, 0)`; its laws are in Vec3.AxisComponent and Vec3.CrossRightHanded |
| Vec3.UnitZ | src/vector3.rs:168-170 | no ensures; `(0, 0, 1)`; its laws are in Vec3.AxisComponent and Vec3.CrossRightHanded |
| Vec3.AxisComponent | src/vector3.rs:150-170 | the dot product with `unit_x` / `unit_y` / `unit_z` is that component of any vector |
| Vec3.Equal | src/vector3.rs:19-26 | `==` holds exactly when the two vectors are the same value |
| Vec3.IsOrigin | src/vector3.rs:173-178 | `is_origin` holds exactly when the vector is `origin()` |
| Vec3.Dot | src/vector3.rs:221-223 | no ensures; its laws are in Vec3.DotSymmetric, Vec3.DotScaled and Vec3.DotAdd |
| Vec3.IsLen | src/vector3.rs:226-228 | no ensures; `len` is `v.len()` exactly when it is the square root of `len2`; its laws are in Vec3.LenOnAxis and Vec3.Normalize |
| Vec3.IsDist | src/vector3.rs:240-242 | no ensures; `d` is `a.dist(b)` exactly when it is the square root of `dist2`; its laws are in Vec3.DistSymmetric and Vec3.DistToSelf |
| Vec3.Cross | src/vector3.rs:208-214 | no ensures; its laws are in Vec3.CrossOrthogonal, Vec3.CrossLength, Vec3.CrossAntisymmetric and Vec3.CrossRightHanded |
| Vec3.Len2 | src/vector3.rs:231-233 | `len2` is never negative |
| Vec3.Len2Zero | src/vector3.rs:231-233 | `len2` is zero exactly when `is_origin` holds |
| Vec3.Dist2 | src/vector3.rs:249-254 | `dist2` is never negative |
| Vec3.Dist2IsLen2OfDifference | src/vector3.rs:249-254 | `a.dist2(b)` is `(a - b).len2()` |
| Vec3.DotScaled | src/vector3.rs:221-223 | `dot` is linear under scaling of its second operand |
| Vec3.DotAdd | src/vector3.rs:221-223 | `dot` distributes over `+` in its second operand |
| Vec3.DotScaledBoth | src/vector3.rs:221-223 | the dot product of `a * p` and `b * q` is `p * q * a.dot(b)` |
| Vec3.OrthogonalScaled | src/vector3.rs:221-223 | scaling keeps orthogonal vectors orthogonal |
| Vec3.Len2Add | src/vector3.rs:221-233 | `(a + b).len2() == a.len2() + 2 a.dot(b) + b.len2()` |
| Vec3.CrossOrthogonal | src/vector3.rs:208-223 | `a.cross(b)` has zero dot product with both `a` and `b` |
| Vec3.DotSymmetric | src/vector3.rs:221-233 | `a.dot(b) == b.dot(a)` and `len2(a) == a.dot(a)` |
| Vec3.CrossAntisymmetric | src/vector3.rs:208-214 | `a.cross(b) == b.cross(a) * -1` and `a.cross(a)` is the origin |
| Vec3.CrossRightHanded | src/vector3.rs:208-214 | `unit_x.cross(unit_y) == unit_z` |
| Vec3.CrossLength | src/vector3.rs:208-233 | Lagrange's identity: `len2(a.cross(b)) == len2(a) len2(b) - a.dot(b)^2` |
| Vec3.Dist2Symmetric | src/vector3.rs:249-254 | `a.dist2(b) == b.dist2(a)` and `a.dist2(a) == 0` |
| Vec3.DistSymmetric | src/vector3.rs:240-242 | `d` is `a.dist(b)` exactly when it is `b.dist(a)` |
| Vec3.DistToSelf | src/vector3.rs:240-242 | `a.dist(a)` is exactly 0 |
| Vec3.LenOnAxis | src/vector3.rs:226-228 | the length of `(a, 0, 0)` for `a >= 0` is `a`, and nothing else |
| Vec3.LengthExamples | tests/vector3.rs:140-156 | `unit_x().len() == 1` and `unit_x().dist(unit_x()) == 0`, as the only possible values |
| Vec3.QueryExamples | tests/vector3.rs:40-162 | the eq, is_origin, cross `(-4,8,-4)`, dot (10), len2 (1) and dist2 (0) cases of the test suite |
| Vec3.Len2Scaled | src/vector3.rs:88-98 | scaling by `k` multiplies `len2` by `k * k` |
| Vec3.Normalize | src/vector3.rs:186-192 | the origin normalizes to the origin (no division by its zero length); any other vector becomes one of length 1 that its length scales back to the input |
| Vec3.NormalizedIsUnit | src/vector3.rs:186-192 | a vector divided by its non-zero length has length 1, and multiplying by the length gives the vector back |
| Vec3.Trim | src/vector3.rs:199-201 | a vector no longer than `len` is unchanged by `trim(len)`; for `len >= 0` the result has length `min(self.len(), len)`; its direction is stated by Vec3.TrimScales |
| Vec3.TrimScales | src/vector3.rs:199-201 | `trim(len)` of a non-zero vector is the vector itself scaled by `min(self.len(), len) / self.len()`, so it keeps its direction for `len >= 0` |
| Vec3.TrimAtOrigin | src/vector3.rs:199-201 | `trim(len)` of the origin is the origin, for every `len` |
| Vec3.TrimmedLength | src/vector3.rs:199-201 | `normalize() * m` has length `m` for `0 <= m <= len()`, and is the input when `m == len()` |
| Vec3.TrimExample | tests/vector3.rs:116-120 | `(1,2,3).trim(0.5)` has length 0.5 |
| Vec3.Perpendicular | src/vector3.rs:279-281 | `perpendicular` is orthogonal to the input, has z component 0, and loses exactly the z part of `len2` |
| Vec3.PerpendicularIsQuarterTurn | src/vector3.rs:279-281 | `perpendicular` is the quarter turn about `unit_z` of the input projected onto the xy plane |
| Vec3.PerpendicularVanishesOnZAxis | src/vector3.rs:279-281 | `perpendicular` is the origin exactly for vectors on the z axis |
| Vec3.Lerp | src/vector3.rs:295-297 | `lerp(b, 0) == a` and `lerp(b, 1) == b` |
| Vec3.LerpDistances | src/vector3.rs:283-297 | `lerp(a, b, step)` is `step` of the way from `a` and `1 - step` of the way to `b`, in squared distance |
| Vec3.LerpReversed | src/vector3.rs:295-297 | `a.lerp(b, step) == b.lerp(a, 1 - step)` |
| Vec3.GeometryExamples | tests/vector3.rs:107-176 | the origin normalizes to the origin and `(1,2,3).perpendicular() == (-2,1,0)` |
| Vec3.LerpExample | tests/vector3.rs:178-184 | `unit_x.lerp(unit_y, 0.5) == (0.5,0.5,0)` |
| Vec3.Rodrigues | src/vector3.rs:262-276 | no ensures; Rodrigues' formula `v c + (u x v) s + u (u . v)(1 - c)`; its laws are in Vec3.RodriguesKeepsLength, Vec3.RodriguesKeepsAxisComponent and Vec3.RodriguesFixesAxis |
| Vec3.Apply | src/vector3.rs:271-275 | no ensures; the three row dot products of `rotate`; its law is in Vec3.RotationMatrixIsRodrigues |
| Vec3.RotationMatrix | src/vector3.rs:267-269 | no ensures; the rows `m1`, `m2`, `m3` of `rotate`; its law is in Vec3.RotationMatrixIsRodrigues |
| Vec3.RotationMatrixIsRodrigues | src/vector3.rs:267-275 | the dot products with the three rows `m1`, `m2`, `m3` are Rodrigues' formula `v c + (u x v) s + u (u . v)(1 - c)` |
| Vec3.Rotate | src/vector3.rs:262-276 | `rotate(angle, axis)` is Rodrigues' formula about `axis.normalize()` |
| Vec3.RodriguesZeroAngle | src/vector3.rs:262-276 | turning by the angle 0 changes nothing, about any axis |
| Vec3.RodriguesZeroAxis | src/vector3.rs:262-276 | with the origin as axis the formula only multiplies by `cos(angle)` |
| Vec3.RodriguesFixesAxis | src/vector3.rs:262-276 | every multiple of a unit axis is left where it is |
| Vec3.RodriguesKeepsAxisComponent | src/vector3.rs:262-276 | turning about a unit axis keeps the dot product with the axis |
| Vec3.RodriguesKeepsLength | src/vector3.rs:262-276 | turning about a unit axis by a genuine angle keeps `len2` |
| Vec3.RodriguesLength | src/vector3.rs:262-276 | the squared length of Rodrigues' formula, expanded into the squared lengths and dot products of `v`, `u x v` and `u` |
| Vec3.RotateZeroAngle | src/vector3.rs:262-276 | `rotate(0, axis)` returns the input |
| Vec3.RotateAboutOrigin | src/vector3.rs:262-276 | `rotate(angle, origin())` returns the input times `cos(angle)`, because `normalize` gives the origin |
| Vec3.RotateFixesAxis | src/vector3.rs:262-276 | `axis.rotate(angle, axis) == axis` |
| Vec3.RotateIsRigid | src/vector3.rs:262-276 | about a non-zero axis, `rotate` keeps `len2` and the dot product with the axis |
| Vec3.RotateExample | tests/vector3.rs:164-169 | `unit_x.rotate(PI, unit_z).x == -1`, whatever the rounded sine of PI |

## Left out

- IEEE-754 behaviour: rounding, NaN, the infinities and the signed zero. Over the reals, identities such as `lerp(a, b, 1) == b` and the rotation properties hold exactly. In the library they hold only up to rounding.
- Vec2.Div, Vec2.DivScalar, Vec3.Div, Vec3.DivScalar: require non-zero divisors. The library instead returns an infinity or NaN component.
- The `sqrt`, `cos`, `sin` and `atan2` values themselves have no closed form over the reals. `len` and `dist` are the predicates `IsLen` and `IsDist`, which pin a parameter to the exact square root. They are relations, not functions.
- `angle_to` and `angle_between` (src/vector2.rs:263-274): `angle_to` is the `atan2` of the difference vector, which the model has as `Sub`. `angle_between` is the `acos` of `dot / (len * len)`, built from `Dot` and `IsLen`. The `atan2` and `acos` values themselves are left out, and so are their tests. This also leaves out the bound of that cosine to [-1, 1] (the Cauchy-Schwarz inequality).
- Vec2.ToPolar: takes the raw `atan2` angle as a parameter in `[-PI, PI]`. It does not state which angle `atan2` picks.
- Vec2.PolarRoundTrip: requires the raw `atan2` angle to equal the `from_polar` angle up to one full turn, as the exact `atan2` would give. It also requires a radius `> 0`: at radius 0 `from_polar` gives the origin, `atan2` of its signed zeros is 0, -0, PI or -PI, and `to_polar` returns the angle 2 PI or PI instead of the one passed in (Vec2.PolarAtOrigin). A negative radius is not undone either, since the length is never negative.
- Vec2.Trim, Vec3.Trim: their own ensures give the length of the result only for a non-negative target length. For a negative target, `min` is negative and the vector is reversed. TrimScales states the result for every target.
- Vec3.RotateIsRigid: requires a non-zero axis and `cos^2 + sin^2 == 1`. For the origin axis, RotateAboutOrigin gives the exact (non-rigid) result instead.
- The `fmt::Display` impls (src/vector2.rs:13-17, src/vector3.rs:13-17): 3-decimal text rendering of floats is library formatting.
- The operator traits and the `Copy`/`Clone`/`Debug` derives. Each operator is a named function (`Add`, `AddScalar`, ...), and `new` is the datatype constructor.
