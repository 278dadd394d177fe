# vectors-cpp in Dafny

This project models the three small vector value types of vectors-cpp: `Vector2<T>`, `Vector3<T>` and `Vector4<T>`, in `src/vector2.hpp`, `src/vector3.hpp` and `src/vector4.hpp`. Each type holds N scalar components and offers:

- component-wise arithmetic: unary `+`/`-`, the vector-vector and vector-scalar operators `+ - * /`, and the free `s * v`;
- in-place compound assignment;
- `dot` (and `cross` for three components);
- `norm`/`length` and `norm_squared`/`normSquared`;
- `normalize` with its zero-norm guard;
- `sign`;
- stream output;
- conversion between instantiations.

The model follows the integer instantiations `Vector2i`, `Vector3i` and `Vector4i`. Each header becomes one module, with one datatype `VectorN<T>` and pure functions over `VectorN<int32>`:

| file | module | contents |
|---|---|---|
| `scalar.dfy` | `Scalar` | the `int` range, when C++ `int` arithmetic is defined, truncating division, the `sign` rule, the integer square root behind `norm()`, and floating-to-integer truncation |
| `text.dfy` | `Text` | decimal rendering of integers, and a reader for the `VectorN(x=..., y=...)` layout |
| `vector2.dfy` | `Vec2` | `Vector2` |
| `vector3.dfy` | `Vec3` | `Vector3` |
| `vector4.dfy` | `Vec4` | `Vector4` |

How the C++ semantics are modelled:

- **Undefined behaviour is a precondition.** Signed overflow and division by zero are undefined behaviour in C++. Every operation that can commit them requires that it does not (`AddDefined`, `DivOk`, `DotDefined`, `CrossDefined` and so on). `dot` and `cross` evaluate left to right in `int`, so every product and every partial sum must fit.
- **Division truncates toward zero**, as section 7.6.5, paragraph 4 of ISO/IEC 14882:2020 requires. `Scalar.TruncDiv` characterises it by its remainder conditions, and `Scalar.TruncDivUnique` shows those conditions determine the quotient.
- **`norm()` is a `double`.** For the integer types its only integer use is in `normalize`, which divides by `static_cast<int>(norm())`. The model's `Norm` is that truncated value: the integer square root of the exact sum of squares. The two agree when the sum is below 2^52, so `Normalize` requires that bound. Below it the sum is an exact `double`, and its correctly rounded square root is never rounded up to the next integer.
- **Conversion uses exact reals.** `VectorN<float>` and `VectorN<double>` appear only as the source and target of conversion, as `VectorN<real>`. Every `int` is exactly a `double`, so `int` to `double` loses nothing; `int` to `float` can round, which is not modelled (see below). Converting to `int` truncates toward zero (section 7.3.11 of ISO/IEC 14882:2020) and is defined only when the result fits.
- **Stream output renders integers.** `Render` is `operator<<` for the integer types, on a stream in its default formatting state. Its partner is a reader (`Text.ParseVector`): every rendering reads back as its components, so the rendering determines the vector.
- **Compound assignment** is modelled by a small class per dimension, `MutableVectorN`, whose methods update the receiver in place and return it.

## Model

| member | source | states |
|---|---|---|
| Scalar.TruncDiv | src/vector2.hpp:38 | C++ `int` division truncates toward zero: `q * b` is no larger than the dividend in magnitude, the remainder is smaller than the divisor in magnitude and has the dividend's sign (or is zero) |
| Scalar.TruncDivUnique | src/vector2.hpp:38 | those remainder conditions determine the quotient: any `q` meeting them equals `TruncDiv(a, b)` |
| Scalar.TruncDivMagnitude | src/vector2.hpp:38 | the quotient is no larger in magnitude than the dividend |
| Scalar.TruncDivInRange | src/vector2.hpp:38 | when the divisor is non-zero and the operands are not `INT_MIN / -1`, the quotient of two `int`s is an `int` |
| Scalar.IntDiv | src/vector2.hpp:44 | `int` division is defined exactly when `DivOk` holds and then yields the truncated quotient |
| Scalar.TruncDivOfProduct | src/vector2.hpp:38 | dividing an exact product by one factor gives back the other: `(a * b) / b == a` |
| Scalar.TruncDivSmall | src/vector2.hpp:132-136 | a component divided by a norm at least as large as the component is -1, 0 or 1 |
| Scalar.TruncDivSign | src/vector2.hpp:132-136 | dividing by a positive norm keeps the component's sign or gives zero |
| Scalar.IntSign | src/vector2.hpp:139-144 | the per-component `sign` rule: the result is 1 or -1, and it is 1 exactly for non-negative input, zero included |
| Scalar.ISqrt | src/vector2.hpp:111-114 | the integer square root: `r * r <= n < (r + 1) * (r + 1)`, which is what truncating the double square root of `n` gives below 2^52 |
| Scalar.ISqrtUnique | src/vector2.hpp:111-114 | the bracketing inequalities have exactly one solution, the integer square root |
| Scalar.ISqrtOfSquare | src/vector2.hpp:111-114 | the root of a perfect square `k * k` is `k`; this is why `norm()` of (3, 4) is exactly 5 |
| Scalar.ISqrtZero | src/vector2.hpp:111-114 | the root is zero exactly when its argument is zero |
| Scalar.ISqrtBoundsComponent | src/vector2.hpp:111-114 | a value whose square is at most `n` is no larger in magnitude than the root of `n` |
| Scalar.ISqrtBelowBound | src/vector2.hpp:134-135 | below 2^52 the root is below 2^26, so `static_cast<int>` of the norm fits in an `int` |
| Scalar.TruncToInt | src/vector2.hpp:162-166 | floating-to-integer conversion discards the fraction: for non-negative input the result is the floor, for negative input the ceiling |
| Scalar.TruncToIntOfInt | src/vector2.hpp:162-166 | converting an integer to floating and back gives the integer |
| Text.NatDigits | src/vector2.hpp:155-159 | the decimal digits of a natural number: non-empty, all digits, no leading zero except for zero itself |
| Text.Dec | src/vector2.hpp:155-159 | the decimal text of an `int` as a stream writes it: non-empty, led by '-' exactly for negative values, digits otherwise |
| Text.NatDigitsValue | src/vector2.hpp:155-159 | the digits read back as the number they were produced from |
| Text.DecRoundTrip | src/vector2.hpp:155-159 | reading back the decimal text of any integer gives the integer |
| Text.CommaIndexAfterDec | src/vector2.hpp:155-159 | a decimal integer contains no comma, so the separator ', ' after it marks where it ends |
| Text.FieldRoundTrip | src/vector2.hpp:155-159 | one rendered field `<name>=<value>` reads back as the value and leaves the text after it |
| Text.FieldsRoundTrip | src/vector2.hpp:155-159 | a rendered field list `x=<x>, y=<y>, ...` reads back as the values, for any number of fields |
| Text.VectorRoundTrip | src/vector2.hpp:155-159 | a rendered `<tag>(<fields>)` reads back as the values rendered |
| Vec2.Zero | src/vector2.hpp:168-169 | the default constructor leaves both components at their `T{}` initialisers, zero; `ZeroIsIdentity` shows it is the identity of `+` and `-` |
| Vec2.Plus | src/vector2.hpp:31 | unary `+` returns a copy; `UnaryLaws` shows it is the identity |
| Vec2.Neg | src/vector2.hpp:32 | unary `-` negates every component and is defined unless a component is `INT_MIN`; `UnaryLaws` shows it is an involution and an additive inverse, and `SubIsAddNeg` relates it to `-` |
| Vec2.Add | src/vector2.hpp:35 | component-wise `+`, defined when no component sum overflows; `AddSubInverse` shows `-` undoes it and `AddCommutes` that it commutes |
| Vec2.Sub | src/vector2.hpp:36 | component-wise `-`, defined when no component difference overflows; `AddSubInverse` shows it undoes `+`, and `SubIsAddNeg` that it adds the negation |
| Vec2.Mul | src/vector2.hpp:37 | component-wise `*`, defined when no component product overflows; `MulDivInverse` shows `/` undoes it and `MulCommutes` that it commutes |
| Vec2.Div | src/vector2.hpp:38 | component-wise truncating `/`, defined when no divisor component is zero and no component is `INT_MIN / -1`; `MulDivInverse` shows it undoes an exact `*` |
| Vec2.AddScalar | src/vector2.hpp:41 | `v + s` adds `s` to every component; `ScalarFormsBroadcast` shows it is `+` with `s` in every component and `AddScalarSubScalarInverse` that `- s` undoes it |
| Vec2.SubScalar | src/vector2.hpp:42 | `v - s` subtracts `s` from every component; `ScalarFormsBroadcast` shows it is `-` with `s` in every component and `AddScalarSubScalarInverse` that it undoes `+ s` |
| Vec2.MulScalar | src/vector2.hpp:43 | `v * s` multiplies every component by `s`; `ScalarFormsBroadcast` shows it is `*` with `s` in every component and `MulScalarDivScalarInverse` that `/ s` undoes it |
| Vec2.DivScalar | src/vector2.hpp:44 | `v / s` divides every component by `s`, truncating; `ScalarFormsBroadcast` shows it is `/` with `s` in every component, and `DivScalarTruncates` bounds each quotient |
| Vec2.ScalarMul | src/vector2.hpp:173-177 | the free `s * v` is `v * s`; `ScalarMulCommutes` states it |
| Vec2.Dot | src/vector2.hpp:105-108 | `dot` sums the component products in `int`, defined when every product and partial sum fits; `DotSymmetric` and `DotSelfIsNormSquared` relate it to itself and to `norm_squared` |
| Vec2.NormSquared | src/vector2.hpp:121-124 | `norm_squared` as the exact sum of squares; `NormSquaredZero` shows it is zero only for the zero vector |
| Vec2.NormSquaredAlias | src/vector2.hpp:126-129 | `normSquared` forwards to `norm_squared`; `NormAliases` states it |
| Vec2.Norm | src/vector2.hpp:111-114 | `norm` truncated to an integer, the value `normalize` divides by; `NormZero` and `NormBoundsComponents` relate it to the zero vector and to each component |
| Vec2.Length | src/vector2.hpp:116-119 | `length` forwards to `norm`; `NormAliases` states it |
| Vec2.Sign | src/vector2.hpp:139-144 | `sign` maps each component to 1 or -1; `SignLaws` states the rule and that it is idempotent |
| Vec2.Render | src/vector2.hpp:155-159 | `operator<<` for integer components writes `Vector2(x=..., ...)`; `RenderRoundTrip` shows the text reads back as the components, and `RenderInjective` that it determines the vector |
| Vec2.ToReal | src/vector2.hpp:162-166 | conversion from `int` to `double` components; `ConvertRoundTrip` shows converting back gives the original |
| Vec2.ToInt | src/vector2.hpp:162-166 | conversion from floating to `int` components, defined when each truncated value fits; `ToIntTruncates` shows each component is truncated toward zero |
| Vec2.MutableVector2.Init | src/vector2.hpp:17 | an object holding the given components, on which the compound assignments act |
| Vec2.Equals | src/vector2.hpp:25-28 | `operator==` holds exactly when the two vectors are equal component by component, in both directions |
| Vec2.ZeroIsIdentity | src/vector2.hpp:16-17 | the default vector has every component zero, and adding or subtracting it changes nothing |
| Vec2.UnaryLaws | src/vector2.hpp:31-32 | `+v == v`; when no component is `INT_MIN`, `-(-v) == v` and `v + (-v)` is the zero vector |
| Vec2.SubIsAddNeg | src/vector2.hpp:35-38 | `v - o == v + (-o)` whenever both sides are defined |
| Vec2.AddCommutes | src/vector2.hpp:35 | component-wise `+` is commutative, and defined in either order |
| Vec2.MulCommutes | src/vector2.hpp:37 | component-wise `*` is commutative, and defined in either order |
| Vec2.AddSubInverse | src/vector2.hpp:35-38 | `(v + o) - o == v`: subtraction undoes addition without overflow |
| Vec2.MulDivInverse | src/vector2.hpp:35-38 | `(v * o) / o == v` for non-zero divisors: truncating division undoes an exact product |
| Vec2.ScalarFormsBroadcast | src/vector2.hpp:41-44 | each vector-scalar operator is defined exactly when the vector-vector operator with the scalar in every component is, and then the two are equal |
| Vec2.ScalarMulCommutes | src/vector2.hpp:173-177 | `s * v == v * s`, and both equal the component-wise product with `(s, ..., s)` |
| Vec2.AddScalarSubScalarInverse | src/vector2.hpp:41-44 | `(v + s) - s == v` |
| Vec2.MulScalarDivScalarInverse | src/vector2.hpp:41-44 | `(v * s) / s == v` for a non-zero scalar |
| Vec2.DivScalarTruncates | src/vector2.hpp:44 | every component of `v / s` is truncated toward zero: its product with `s` is no larger than the component, and falls short of it by less than `s` |
| Vec2.DotSymmetric | src/vector2.hpp:105-108 | `v.dot(o) == o.dot(v)`, each defined when the other is |
| Vec2.DotSelfIsNormSquared | src/vector2.hpp:105-108 | `v.dot(v)` equals `norm_squared()`, the sum of the squared components |
| Vec2.NormSquaredZero | src/vector2.hpp:121-124 | `norm_squared()` is zero exactly for the zero vector |
| Vec2.NormZero | src/vector2.hpp:111-114 | `norm()` is zero exactly when `norm_squared()` is, that is, exactly for the zero vector |
| Vec2.NormAliases | src/vector2.hpp:116-119 | `length()` is `norm()` and `normSquared()` is `norm_squared()` |
| Vec2.NormBoundsComponents | src/vector2.hpp:111-114 | no component exceeds the truncated norm in magnitude |
| Vec2.NormalizeBounds | src/vector2.hpp:132-136 | under the 2^52 bound the truncated norm fits in an `int`, is zero only for the zero vector, and divides each component to -1, 0 or 1 |
| Vec2.Normalize | src/vector2.hpp:132-136 | the zero vector is returned unchanged; any other vector has truncated norm at least 1, so its division by the norm is defined, and every component of the result is -1, 0 or 1 |
| Vec2.NormalizeKeepsSigns | src/vector2.hpp:132-136 | normalisation keeps every component's sign or sends it to zero |
| Vec2.NormalizeAxis | src/vector2.hpp:132-136 | every positive multiple of the x unit vector below 2^26 normalises to the x unit vector |
| Vec2.SignLaws | src/vector2.hpp:139-144 | `sign()` yields only 1 and -1, gives 1 exactly for non-negative components, zero included, and is idempotent |
| Vec2.RenderRoundTrip | src/vector2.hpp:155-159 | the text `operator<<` writes for a `Vector2i` reads back as its components, so it is `Vector2(x=<x>, ...)` with each component in decimal |
| Vec2.RenderInjective | src/vector2.hpp:155-159 | distinct vectors render as distinct text |
| Vec2.ConvertRoundTrip | src/vector2.hpp:162-166 | converting an `int` vector to a `double` vector and back is the identity, and the conversion back is always defined |
| Vec2.ToIntTruncates | src/vector2.hpp:162-166 | converting a floating vector to `int` truncates each component toward zero: the result is within one of the component, on the side of zero |
| Vec2.ArithmeticExamples | tests/test_vector2.cpp:17-268 | the integer results the tests assert for the arithmetic operators |
| Vec2.GeometryExamples | tests/test_vector2.cpp:270-328 | the integer results the tests assert for the norms, `normalize` and `sign`, and that the zero vector normalises to itself |
| Vec2.ConversionExamples | tests/test_vector2.cpp:345-368 | the integer results the tests assert for conversion, and one integer rendering |
| Vec2.MutableVector2.AddAssign | src/vector2.hpp:47-52 | `v += o` leaves the receiver equal to `Add` of its old value, changes nothing else, and returns the receiver |
| Vec2.MutableVector2.SubAssign | src/vector2.hpp:54-59 | `v -= o` leaves the receiver equal to `Sub` of its old value, changes nothing else, and returns the receiver |
| Vec2.MutableVector2.MulAssign | src/vector2.hpp:61-66 | `v *= o` leaves the receiver equal to `Mul` of its old value, changes nothing else, and returns the receiver |
| Vec2.MutableVector2.DivAssign | src/vector2.hpp:68-73 | `v /= o` leaves the receiver equal to `Div` of its old value, changes nothing else, and returns the receiver |
| Vec2.MutableVector2.AddScalarAssign | src/vector2.hpp:75-80 | `v += s` leaves the receiver equal to `AddScalar` of its old value, changes nothing else, and returns the receiver |
| Vec2.MutableVector2.SubScalarAssign | src/vector2.hpp:82-87 | `v -= s` leaves the receiver equal to `SubScalar` of its old value, changes nothing else, and returns the receiver |
| Vec2.MutableVector2.MulScalarAssign | src/vector2.hpp:89-94 | `v *= s` leaves the receiver equal to `MulScalar` of its old value, changes nothing else, and returns the receiver |
| Vec2.MutableVector2.DivScalarAssign | src/vector2.hpp:96-102 | `v /= s` leaves the receiver equal to `DivScalar` of its old value, changes nothing else, and returns the receiver |
| Vec3.Zero | src/vector3.hpp:181-183 | the default constructor leaves all three components at their `T{}` initialisers, zero; `ZeroIsIdentity` shows it is the identity of `+` and `-` |
| Vec3.Plus | src/vector3.hpp:32 | unary `+` returns a copy; `UnaryLaws` shows it is the identity |
| Vec3.Neg | src/vector3.hpp:33 | unary `-` negates every component and is defined unless a component is `INT_MIN`; `UnaryLaws` shows it is an involution and an additive inverse, and `SubIsAddNeg` relates it to `-` |
| Vec3.Add | src/vector3.hpp:36 | component-wise `+`, defined when no component sum overflows; `AddSubInverse` shows `-` undoes it and `AddCommutes` that it commutes |
| Vec3.Sub | src/vector3.hpp:37 | component-wise `-`, defined when no component difference overflows; `AddSubInverse` shows it undoes `+`, and `SubIsAddNeg` that it adds the negation |
| Vec3.Mul | src/vector3.hpp:38 | component-wise `*`, defined when no component product overflows; `MulDivInverse` shows `/` undoes it and `MulCommutes` that it commutes |
| Vec3.Div | src/vector3.hpp:39 | component-wise truncating `/`, defined when no divisor component is zero and no component is `INT_MIN / -1`; `MulDivInverse` shows it undoes an exact `*` |
| Vec3.AddScalar | src/vector3.hpp:42 | `v + s` adds `s` to every component; `ScalarFormsBroadcast` shows it is `+` with `s` in every component and `AddScalarSubScalarInverse` that `- s` undoes it |
| Vec3.SubScalar | src/vector3.hpp:43 | `v - s` subtracts `s` from every component; `ScalarFormsBroadcast` shows it is `-` with `s` in every component and `AddScalarSubScalarInverse` that it undoes `+ s` |
| Vec3.MulScalar | src/vector3.hpp:44 | `v * s` multiplies every component by `s`; `ScalarFormsBroadcast` shows it is `*` with `s` in every component and `MulScalarDivScalarInverse` that `/ s` undoes it |
| Vec3.DivScalar | src/vector3.hpp:45 | `v / s` divides every component by `s`, truncating; `ScalarFormsBroadcast` shows it is `/` with `s` in every component, and `DivScalarTruncates` bounds each quotient |
| Vec3.ScalarMul | src/vector3.hpp:187-191 | the free `s * v` is `v * s`; `ScalarMulCommutes` states it |
| Vec3.Dot | src/vector3.hpp:107-110 | `dot` sums the component products in `int`, defined when every product and partial sum fits; `DotSymmetric` and `DotSelfIsNormSquared` relate it to itself and to `norm_squared` |
| Vec3.Cross | src/vector3.hpp:113-119 | `cross` computes the three 2x2 minors in `int`, defined when every product and difference fits; `CrossAntiCommutes`, `CrossSelfZero`, `CrossOrthogonal` and `CrossRightHanded` state its laws |
| Vec3.NormSquared | src/vector3.hpp:132-135 | `norm_squared` as the exact sum of squares; `NormSquaredZero` shows it is zero only for the zero vector |
| Vec3.NormSquaredAlias | src/vector3.hpp:137-140 | `normSquared` forwards to `norm_squared`; `NormAliases` states it |
| Vec3.Norm | src/vector3.hpp:122-125 | `norm` truncated to an integer, the value `normalize` divides by; `NormZero` and `NormBoundsComponents` relate it to the zero vector and to each component |
| Vec3.Length | src/vector3.hpp:127-130 | `length` forwards to `norm`; `NormAliases` states it |
| Vec3.Sign | src/vector3.hpp:150-156 | `sign` maps each component to 1 or -1; `SignLaws` states the rule and that it is idempotent |
| Vec3.Render | src/vector3.hpp:168-172 | `operator<<` for integer components writes `Vector3(x=..., ...)`; `RenderRoundTrip` shows the text reads back as the components, and `RenderInjective` that it determines the vector |
| Vec3.ToReal | src/vector3.hpp:175-179 | conversion from `int` to `double` components; `ConvertRoundTrip` shows converting back gives the original |
| Vec3.ToInt | src/vector3.hpp:175-179 | conversion from floating to `int` components, defined when each truncated value fits; `ToIntTruncates` shows each component is truncated toward zero |
| Vec3.MutableVector3.Init | src/vector3.hpp:18 | an object holding the given components, on which the compound assignments act |
| Vec3.Equals | src/vector3.hpp:26-29 | `operator==` holds exactly when the two vectors are equal component by component, in both directions |
| Vec3.ZeroIsIdentity | src/vector3.hpp:17-18 | the default vector has every component zero, and adding or subtracting it changes nothing |
| Vec3.UnaryLaws | src/vector3.hpp:32-33 | `+v == v`; when no component is `INT_MIN`, `-(-v) == v` and `v + (-v)` is the zero vector |
| Vec3.SubIsAddNeg | src/vector3.hpp:36-39 | `v - o == v + (-o)` whenever both sides are defined |
| Vec3.AddCommutes | src/vector3.hpp:36 | component-wise `+` is commutative, and defined in either order |
| Vec3.MulCommutes | src/vector3.hpp:38 | component-wise `*` is commutative, and defined in either order |
| Vec3.AddSubInverse | src/vector3.hpp:36-39 | `(v + o) - o == v`: subtraction undoes addition without overflow |
| Vec3.MulDivInverse | src/vector3.hpp:36-39 | `(v * o) / o == v` for non-zero divisors: truncating division undoes an exact product |
| Vec3.ScalarFormsBroadcast | src/vector3.hpp:42-45 | each vector-scalar operator is defined exactly when the vector-vector operator with the scalar in every component is, and then the two are equal |
| Vec3.ScalarMulCommutes | src/vector3.hpp:187-191 | `s * v == v * s`, and both equal the component-wise product with `(s, ..., s)` |
| Vec3.AddScalarSubScalarInverse | src/vector3.hpp:42-45 | `(v + s) - s == v` |
| Vec3.MulScalarDivScalarInverse | src/vector3.hpp:42-45 | `(v * s) / s == v` for a non-zero scalar |
| Vec3.DivScalarTruncates | src/vector3.hpp:45 | every component of `v / s` is truncated toward zero: its product with `s` is no larger than the component, and falls short of it by less than `s` |
| Vec3.DotSymmetric | src/vector3.hpp:107-110 | `v.dot(o) == o.dot(v)`, each defined when the other is |
| Vec3.DotSelfIsNormSquared | src/vector3.hpp:107-110 | `v.dot(v)` equals `norm_squared()`, the sum of the squared components |
| Vec3.CrossAntiCommutes | src/vector3.hpp:113-119 | `o.cross(v) == -(v.cross(o))` |
| Vec3.CrossSelfZero | src/vector3.hpp:113-119 | `v.cross(v)` is the zero vector |
| Vec3.CrossOrthogonal | src/vector3.hpp:107-110 | the cross product is orthogonal to both operands: both dot products are zero over exact integers, and `dot` gives zero wherever it is defined |
| Vec3.TripleVanishesLeft | src/vector3.hpp:113-119 | the scalar triple product `a . (a x b)` is zero for all integers |
| Vec3.TripleVanishesRight | src/vector3.hpp:113-119 | the scalar triple product `b . (a x b)` is zero for all integers |
| Vec3.CrossRightHanded | src/vector3.hpp:113-119 | x cross y is z, y cross z is x, and z cross x is y |
| Vec3.NormSquaredZero | src/vector3.hpp:132-135 | `norm_squared()` is zero exactly for the zero vector |
| Vec3.NormZero | src/vector3.hpp:122-125 | `norm()` is zero exactly when `norm_squared()` is, that is, exactly for the zero vector |
| Vec3.NormAliases | src/vector3.hpp:127-130 | `length()` is `norm()` and `normSquared()` is `norm_squared()` |
| Vec3.NormBoundsComponents | src/vector3.hpp:122-125 | no component exceeds the truncated norm in magnitude |
| Vec3.NormalizeBounds | src/vector3.hpp:143-147 | under the 2^52 bound the truncated norm fits in an `int`, is zero only for the zero vector, and divides each component to -1, 0 or 1 |
| Vec3.Normalize | src/vector3.hpp:143-147 | the zero vector is returned unchanged; any other vector has truncated norm at least 1, so its division by the norm is defined, and every component of the result is -1, 0 or 1 |
| Vec3.NormalizeKeepsSigns | src/vector3.hpp:143-147 | normalisation keeps every component's sign or sends it to zero |
| Vec3.NormalizeAxis | src/vector3.hpp:143-147 | every positive multiple of the x unit vector below 2^26 normalises to the x unit vector |
| Vec3.SignLaws | src/vector3.hpp:150-156 | `sign()` yields only 1 and -1, gives 1 exactly for non-negative components, zero included, and is idempotent |
| Vec3.RenderRoundTrip | src/vector3.hpp:168-172 | the text `operator<<` writes for a `Vector3i` reads back as its components, so it is `Vector3(x=<x>, ...)` with each component in decimal |
| Vec3.RenderInjective | src/vector3.hpp:168-172 | distinct vectors render as distinct text |
| Vec3.ConvertRoundTrip | src/vector3.hpp:175-179 | converting an `int` vector to a `double` vector and back is the identity, and the conversion back is always defined |
| Vec3.ToIntTruncates | src/vector3.hpp:175-179 | converting a floating vector to `int` truncates each component toward zero: the result is within one of the component, on the side of zero |
| Vec3.ArithmeticExamples | tests/test_vector3.cpp:17-304 | the integer results the tests assert for the arithmetic operators, `dot` and `cross` |
| Vec3.GeometryExamples | tests/test_vector3.cpp:306-364 | the integer results the tests assert for the norms, `normalize` and `sign`, and that the zero vector normalises to itself |
| Vec3.ConversionExamples | tests/test_vector3.cpp:381-404 | the integer results the tests assert for conversion, and one integer rendering |
| Vec3.MutableVector3.AddAssign | src/vector3.hpp:48-54 | `v += o` leaves the receiver equal to `Add` of its old value, changes nothing else, and returns the receiver |
| Vec3.MutableVector3.SubAssign | src/vector3.hpp:55-61 | `v -= o` leaves the receiver equal to `Sub` of its old value, changes nothing else, and returns the receiver |
| Vec3.MutableVector3.MulAssign | src/vector3.hpp:62-68 | `v *= o` leaves the receiver equal to `Mul` of its old value, changes nothing else, and returns the receiver |
| Vec3.MutableVector3.DivAssign | src/vector3.hpp:69-75 | `v /= o` leaves the receiver equal to `Div` of its old value, changes nothing else, and returns the receiver |
| Vec3.MutableVector3.AddScalarAssign | src/vector3.hpp:77-83 | `v += s` leaves the receiver equal to `AddScalar` of its old value, changes nothing else, and returns the receiver |
| Vec3.MutableVector3.SubScalarAssign | src/vector3.hpp:84-90 | `v -= s` leaves the receiver equal to `SubScalar` of its old value, changes nothing else, and returns the receiver |
| Vec3.MutableVector3.MulScalarAssign | src/vector3.hpp:91-97 | `v *= s` leaves the receiver equal to `MulScalar` of its old value, changes nothing else, and returns the receiver |
| Vec3.MutableVector3.DivScalarAssign | src/vector3.hpp:98-104 | `v /= s` leaves the receiver equal to `DivScalar` of its old value, changes nothing else, and returns the receiver |
| Vec4.Zero | src/vector4.hpp:182-185 | the default constructor leaves all four components at their `T{}` initialisers, zero; `ZeroIsIdentity` shows it is the identity of `+` and `-` |
| Vec4.Plus | src/vector4.hpp:32 | unary `+` returns a copy; `UnaryLaws` shows it is the identity |
| Vec4.Neg | src/vector4.hpp:33 | unary `-` negates every component and is defined unless a component is `INT_MIN`; `UnaryLaws` shows it is an involution and an additive inverse, and `SubIsAddNeg` relates it to `-` |
| Vec4.Add | src/vector4.hpp:36 | component-wise `+`, defined when no component sum overflows; `AddSubInverse` shows `-` undoes it and `AddCommutes` that it commutes |
| Vec4.Sub | src/vector4.hpp:37 | component-wise `-`, defined when no component difference overflows; `AddSubInverse` shows it undoes `+`, and `SubIsAddNeg` that it adds the negation |
| Vec4.Mul | src/vector4.hpp:38 | component-wise `*`, defined when no component product overflows; `MulDivInverse` shows `/` undoes it and `MulCommutes` that it commutes |
| Vec4.Div | src/vector4.hpp:39 | component-wise truncating `/`, defined when no divisor component is zero and no component is `INT_MIN / -1`; `MulDivInverse` shows it undoes an exact `*` |
| Vec4.AddScalar | src/vector4.hpp:42 | `v + s` adds `s` to every component; `ScalarFormsBroadcast` shows it is `+` with `s` in every component and `AddScalarSubScalarInverse` that `- s` undoes it |
| Vec4.SubScalar | src/vector4.hpp:43 | `v - s` subtracts `s` from every component; `ScalarFormsBroadcast` shows it is `-` with `s` in every component and `AddScalarSubScalarInverse` that it undoes `+ s` |
| Vec4.MulScalar | src/vector4.hpp:44 | `v * s` multiplies every component by `s`; `ScalarFormsBroadcast` shows it is `*` with `s` in every component and `MulScalarDivScalarInverse` that `/ s` undoes it |
| Vec4.DivScalar | src/vector4.hpp:45 | `v / s` divides every component by `s`, truncating; `ScalarFormsBroadcast` shows it is `/` with `s` in every component, and `DivScalarTruncates` bounds each quotient |
| Vec4.ScalarMul | src/vector4.hpp:189-193 | the free `s * v` is `v * s`; `ScalarMulCommutes` states it |
| Vec4.Dot | src/vector4.hpp:115-118 | `dot` sums the component products in `int`, defined when every product and partial sum fits; `DotSymmetric` and `DotSelfIsNormSquared` relate it to itself and to `norm_squared` |
| Vec4.NormSquared | src/vector4.hpp:131-134 | `norm_squared` as the exact sum of squares; `NormSquaredZero` shows it is zero only for the zero vector |
| Vec4.NormSquaredAlias | src/vector4.hpp:136-139 | `normSquared` forwards to `norm_squared`; `NormAliases` states it |
| Vec4.Norm | src/vector4.hpp:121-124 | `norm` truncated to an integer, the value `normalize` divides by; `NormZero` and `NormBoundsComponents` relate it to the zero vector and to each component |
| Vec4.Length | src/vector4.hpp:126-129 | `length` forwards to `norm`; `NormAliases` states it |
| Vec4.Sign | src/vector4.hpp:149-156 | `sign` maps each component to 1 or -1; `SignLaws` states the rule and that it is idempotent |
| Vec4.Render | src/vector4.hpp:169-173 | `operator<<` for integer components writes `Vector4(x=..., ...)`; `RenderRoundTrip` shows the text reads back as the components, and `RenderInjective` that it determines the vector |
| Vec4.ToReal | src/vector4.hpp:176-180 | conversion from `int` to `double` components; `ConvertRoundTrip` shows converting back gives the original |
| Vec4.ToInt | src/vector4.hpp:176-180 | conversion from floating to `int` components, defined when each truncated value fits; `ToIntTruncates` shows each component is truncated toward zero |
| Vec4.MutableVector4.Init | src/vector4.hpp:18 | an object holding the given components, on which the compound assignments act |
| Vec4.Equals | src/vector4.hpp:26-29 | `operator==` holds exactly when the two vectors are equal component by component, in both directions |
| Vec4.ZeroIsIdentity | src/vector4.hpp:17-18 | the default vector has every component zero, and adding or subtracting it changes nothing |
| Vec4.UnaryLaws | src/vector4.hpp:32-33 | `+v == v`; when no component is `INT_MIN`, `-(-v) == v` and `v + (-v)` is the zero vector |
| Vec4.SubIsAddNeg | src/vector4.hpp:36-39 | `v - o == v + (-o)` whenever both sides are defined |
| Vec4.AddCommutes | src/vector4.hpp:36 | component-wise `+` is commutative, and defined in either order |
| Vec4.MulCommutes | src/vector4.hpp:38 | component-wise `*` is commutative, and defined in either order |
| Vec4.AddSubInverse | src/vector4.hpp:36-39 | `(v + o) - o == v`: subtraction undoes addition without overflow |
| Vec4.MulDivInverse | src/vector4.hpp:36-39 | `(v * o) / o == v` for non-zero divisors: truncating division undoes an exact product |
| Vec4.ScalarFormsBroadcast | src/vector4.hpp:42-45 | each vector-scalar operator is defined exactly when the vector-vector operator with the scalar in every component is, and then the two are equal |
| Vec4.ScalarMulCommutes | src/vector4.hpp:189-193 | `s * v == v * s`, and both equal the component-wise product with `(s, ..., s)` |
| Vec4.AddScalarSubScalarInverse | src/vector4.hpp:42-45 | `(v + s) - s == v` |
| Vec4.MulScalarDivScalarInverse | src/vector4.hpp:42-45 | `(v * s) / s == v` for a non-zero scalar |
| Vec4.DivScalarTruncates | src/vector4.hpp:45 | every component of `v / s` is truncated toward zero: its product with `s` is no larger than the component, and falls short of it by less than `s` |
| Vec4.DotSymmetric | src/vector4.hpp:115-118 | `v.dot(o) == o.dot(v)`, each defined when the other is |
| Vec4.DotSelfIsNormSquared | src/vector4.hpp:115-118 | `v.dot(v)` equals `norm_squared()`, the sum of the squared components |
| Vec4.NormSquaredZero | src/vector4.hpp:131-134 | `norm_squared()` is zero exactly for the zero vector |
| Vec4.NormZero | src/vector4.hpp:121-124 | `norm()` is zero exactly when `norm_squared()` is, that is, exactly for the zero vector |
| Vec4.NormAliases | src/vector4.hpp:126-129 | `length()` is `norm()` and `normSquared()` is `norm_squared()` |
| Vec4.NormBoundsComponents | src/vector4.hpp:121-124 | no component exceeds the truncated norm in magnitude |
| Vec4.NormalizeBounds | src/vector4.hpp:142-146 | under the 2^52 bound the truncated norm fits in an `int`, is zero only for the zero vector, and divides each component to -1, 0 or 1 |
| Vec4.Normalize | src/vector4.hpp:142-146 | the zero vector is returned unchanged; any other vector has truncated norm at least 1, so its division by the norm is defined, and every component of the result is -1, 0 or 1 |
| Vec4.NormalizeKeepsSigns | src/vector4.hpp:142-146 | normalisation keeps every component's sign or sends it to zero |
| Vec4.NormalizeAxis | src/vector4.hpp:142-146 | every positive multiple of the x unit vector below 2^26 normalises to the x unit vector |
| Vec4.SignLaws | src/vector4.hpp:149-156 | `sign()` yields only 1 and -1, gives 1 exactly for non-negative components, zero included, and is idempotent |
| Vec4.RenderRoundTrip | src/vector4.hpp:169-173 | the text `operator<<` writes for a `Vector4i` reads back as its components, so it is `Vector4(x=<x>, ...)` with each component in decimal |
| Vec4.RenderInjective | src/vector4.hpp:169-173 | distinct vectors render as distinct text |
| Vec4.ConvertRoundTrip | src/vector4.hpp:176-180 | converting an `int` vector to a `double` vector and back is the identity, and the conversion back is always defined |
| Vec4.ToIntTruncates | src/vector4.hpp:176-180 | converting a floating vector to `int` truncates each component toward zero: the result is within one of the component, on the side of zero |
| Vec4.ArithmeticExamples | tests/test_vector4.cpp:18-287 | the integer results the tests assert for the arithmetic operators and `dot` |
| Vec4.GeometryExamples | tests/test_vector4.cpp:289-347 | the integer results the tests assert for the norms, `normalize` and `sign`, and that the zero vector normalises to itself |
| Vec4.ConversionExamples | tests/test_vector4.cpp:364-391 | the integer results the tests assert for conversion, and one integer rendering |
| Vec4.MutableVector4.AddAssign | src/vector4.hpp:48-55 | `v += o` leaves the receiver equal to `Add` of its old value, changes nothing else, and returns the receiver |
| Vec4.MutableVector4.SubAssign | src/vector4.hpp:56-63 | `v -= o` leaves the receiver equal to `Sub` of its old value, changes nothing else, and returns the receiver |
| Vec4.MutableVector4.MulAssign | src/vector4.hpp:64-71 | `v *= o` leaves the receiver equal to `Mul` of its old value, changes nothing else, and returns the receiver |
| Vec4.MutableVector4.DivAssign | src/vector4.hpp:72-79 | `v /= o` leaves the receiver equal to `Div` of its old value, changes nothing else, and returns the receiver |
| Vec4.MutableVector4.AddScalarAssign | src/vector4.hpp:81-88 | `v += s` leaves the receiver equal to `AddScalar` of its old value, changes nothing else, and returns the receiver |
| Vec4.MutableVector4.SubScalarAssign | src/vector4.hpp:89-96 | `v -= s` leaves the receiver equal to `SubScalar` of its old value, changes nothing else, and returns the receiver |
| Vec4.MutableVector4.MulScalarAssign | src/vector4.hpp:97-104 | `v *= s` leaves the receiver equal to `MulScalar` of its old value, changes nothing else, and returns the receiver |
| Vec4.MutableVector4.DivScalarAssign | src/vector4.hpp:105-112 | `v /= s` leaves the receiver equal to `DivScalar` of its old value, changes nothing else, and returns the receiver |

## Left out

- `pow` calls `std::pow`, a floating-point library routine. It has no model.
- The `float` and `double` instantiations of the arithmetic are not modelled: IEEE rounding, NaN and infinity, and signed zeros (`-0.0f == 0.0f`). Floating vectors appear only as conversion endpoints, with exact reals.
- Floating-point formatting by `operator<<` (`1.124`, `2` without a trailing `.0`) is left out. Only integer components are rendered, so the tests' floating renderings have no counterpart; `ConversionExamples` renders an integer vector in the same layout instead.
- Vec2.ConvertRoundTrip: holds for a `double` target only. Converting `int` to `float` rounds magnitudes above 2^24 (16777217 becomes 16777216), and `INT_MAX` becomes 2^31, whose conversion back to `int` is undefined behaviour. The model has no `float` rounding.
- Vec3.ConvertRoundTrip: holds for a `double` target only, for the same reason.
- Vec4.ConvertRoundTrip: holds for a `double` target only, for the same reason.
- Text.Dec: matches `os << x` only on a stream in its default formatting state. Flags such as `showpos`, `hex` or `setw` that a caller leaves set on the stream are not modelled.
- Narrowing `double` to `float` and widening `float` to `double` in conversion are left out, because exact reals have no precision to lose. The tests' expected values that depend on it, such as `1.1234567165374756`, are not modelled.
- `norm_squared()` is modelled as the exact sum of squares (`NormSquared`), while the source accumulates it in `double`. That sum is exact only below 2^53, so the model is exact where the source may round.
- `norm()` and `length()` are modelled by the truncated integer square root (`Norm`, `Length`) instead of the `double` they return. Only its truncation, the value `normalize` divides by, is modelled.
- Vec2.Normalize: requires the sum of squares to be below 2^52. Above that, the rounding of the `double` square root is not modelled.
- Vec3.Normalize: requires the sum of squares to be below 2^52, for the same reason.
- Vec4.Normalize: requires the sum of squares to be below 2^52, for the same reason.
- Copy and move construction and assignment, and the `std::ostream&` that `operator<<` returns, are language plumbing with no behaviour of their own.
- `src/main.cpp` is a demonstration driver, and the test files and their `approx_equal` helper are test scaffolding. Neither is part of this model. The integer values the tests assert are restated in the `...Examples` lemmas.
