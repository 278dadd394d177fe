/** `Vector2<T>`: a two-component value type with component-wise arithmetic,
    dot product, norms, normalisation, `sign`, rendering and conversion.
    The arithmetic is modelled for the `int` instantiation `Vector2i`; the
    `float`/`double` instantiations appear only as targets and sources of
    conversion, with exact reals standing for them. */
module Vec2 {
  import opened Scalar
  import opened Text

  datatype Vector2<T> = Vector2(x: T, y: T)

  /** `Vector2i`. */
  type Vector2i = Vector2<int32>

  /** `Vector2f` / `Vector2d`, with exact reals for the floating scalars. */
  type Vector2r = Vector2<real>

  /** The default constructor: both components value-initialised to zero. */
  function Zero(): Vector2i {
    Vector2(0, 0)
  }

  /** `operator==`: equal exactly when every component is equal. */
  function Equals<T(==)>(v: Vector2<T>, o: Vector2<T>): (r: bool)
    ensures r <==> v == o
  {
    v.x == o.x && v.y == o.y
  }

  // ---------------------------------------------------------------------------
  // Unary operators

  /** Unary `+`: a copy of the receiver. */
  function Plus(v: Vector2i): Vector2i {
    v
  }

  predicate NegDefined(v: Vector2i) {
    NegOk(v.x) && NegOk(v.y)
  }

  /** Unary `-`: every component negated. */
  function Neg(v: Vector2i): Vector2i
    requires NegDefined(v)
  {
    Vector2(-v.x, -v.y)
  }

  // ---------------------------------------------------------------------------
  // Vector - vector operators, component-wise

  predicate AddDefined(v: Vector2i, o: Vector2i) {
    AddOk(v.x, o.x) && AddOk(v.y, o.y)
  }

  predicate SubDefined(v: Vector2i, o: Vector2i) {
    SubOk(v.x, o.x) && SubOk(v.y, o.y)
  }

  predicate MulDefined(v: Vector2i, o: Vector2i) {
    MulOk(v.x, o.x) && MulOk(v.y, o.y)
  }

  predicate DivDefined(v: Vector2i, o: Vector2i) {
    DivOk(v.x, o.x) && DivOk(v.y, o.y)
  }

  function Add(v: Vector2i, o: Vector2i): Vector2i
    requires AddDefined(v, o)
  {
    Vector2(v.x + o.x, v.y + o.y)
  }

  function Sub(v: Vector2i, o: Vector2i): Vector2i
    requires SubDefined(v, o)
  {
    Vector2(v.x - o.x, v.y - o.y)
  }

  function Mul(v: Vector2i, o: Vector2i): Vector2i
    requires MulDefined(v, o)
  {
    Vector2(v.x * o.x, v.y * o.y)
  }

  function Div(v: Vector2i, o: Vector2i): Vector2i
    requires DivDefined(v, o)
  {
    Vector2(IntDiv(v.x, o.x), IntDiv(v.y, o.y))
  }

  // ---------------------------------------------------------------------------
  // Vector - scalar operators: the scalar is applied to every component

  function AddScalar(v: Vector2i, s: int32): Vector2i
    requires AddOk(v.x, s) && AddOk(v.y, s)
  {
    Vector2(v.x + s, v.y + s)
  }

  function SubScalar(v: Vector2i, s: int32): Vector2i
    requires SubOk(v.x, s) && SubOk(v.y, s)
  {
    Vector2(v.x - s, v.y - s)
  }

  function MulScalar(v: Vector2i, s: int32): Vector2i
    requires MulOk(v.x, s) && MulOk(v.y, s)
  {
    Vector2(v.x * s, v.y * s)
  }

  function DivScalar(v: Vector2i, s: int32): Vector2i
    requires DivOk(v.x, s) && DivOk(v.y, s)
  {
    Vector2(IntDiv(v.x, s), IntDiv(v.y, s))
  }

  /** The free `s * v`, defined as `v * s`. */
  function ScalarMul(s: int32, v: Vector2i): Vector2i
    requires MulOk(v.x, s) && MulOk(v.y, s)
  {
    MulScalar(v, s)
  }

  // ---------------------------------------------------------------------------
  // Geometry

  /** `dot` accumulates in `int`: each product and the sum must fit. */
  predicate DotDefined(v: Vector2i, o: Vector2i) {
    MulOk(v.x, o.x) && MulOk(v.y, o.y) && IsInt32(v.x * o.x + v.y * o.y)
  }

  function Dot(v: Vector2i, o: Vector2i): int32
    requires DotDefined(v, o)
  {
    v.x * o.x + v.y * o.y
  }

  /** `norm_squared`: the sum of the squared components, accumulated in
      `double` and modelled exactly. */
  function NormSquared(v: Vector2i): nat {
    v.x * v.x + v.y * v.y
  }

  /** `normSquared`, an alias of `norm_squared`. */
  function NormSquaredAlias(v: Vector2i): nat {
    NormSquared(v)
  }

  /** `norm` as the integer instantiation uses it: the double square root of
      `norm_squared`, truncated to an integer. */
  function Norm(v: Vector2i): nat {
    ISqrt(NormSquared(v))
  }

  /** `length`, an alias of `norm`. */
  function Length(v: Vector2i): nat {
    Norm(v)
  }

  /** `normalize`: the vector divided by its truncated norm, or the vector
      itself when the norm is zero. The bound keeps the double square root
      exact enough that its truncation is the integer square root. */
  function Normalize(v: Vector2i): (r: Vector2i)
    requires NormSquared(v) < EXACT_SQRT_BOUND
    ensures v == Zero() ==> r == v
    ensures v != Zero() ==> Norm(v) >= 1 && r == DivScalar(v, Norm(v))
    ensures -1 <= r.x <= 1 && -1 <= r.y <= 1
  {
    var n := Norm(v);
    NormalizeBounds(v);
    if n != 0 then DivScalar(v, n) else v
  }

  /** `sign`: +1 for every non-negative component, -1 for every negative one. */
  function Sign(v: Vector2i): Vector2i {
    Vector2(IntSign(v.x), IntSign(v.y))
  }

  /** `operator<<` for `Vector2i`. */
  function Render(v: Vector2i): string {
    "Vector2(x=" + Dec(v.x) + ", y=" + Dec(v.y) + ")"
  }

  /** `operator Vector2<K>` from `int` to `double`, which is exact because
      every `int` is a `double`. (A `float` target rounds values above 2^24;
      that rounding is not modelled.) */
  function ToReal(v: Vector2i): Vector2r {
    Vector2(v.x as real, v.y as real)
  }

  /** A floating-to-`int` conversion is defined when the truncated value fits. */
  predicate ToIntDefined(v: Vector2r) {
    IsInt32(TruncToInt(v.x)) && IsInt32(TruncToInt(v.y))
  }

  /** `operator Vector2<int>` from a floating scalar: each component truncated
      toward zero. */
  function ToInt(v: Vector2r): Vector2i
    requires ToIntDefined(v)
  {
    Vector2(TruncToInt(v.x), TruncToInt(v.y))
  }

  // ---------------------------------------------------------------------------
  // Compound assignment

  /** A `Vector2i` object, for the compound assignments, which update the
      receiver's components in place and return the receiver. */
  class MutableVector2 {
    var x: int32
    var y: int32

    constructor Init(v: Vector2i)
      ensures Value() == v
    {
      x := v.x;
      y := v.y;
    }

    function Value(): Vector2i
      reads this
    {
      Vector2(x, y)
    }

    method AddAssign(o: Vector2i) returns (self: MutableVector2)
      requires AddDefined(Value(), o)
      modifies this
      ensures Value() == Add(old(Value()), o) && self == this
    {
      x := x + o.x;
      y := y + o.y;
      self := this;
    }

    method SubAssign(o: Vector2i) returns (self: MutableVector2)
      requires SubDefined(Value(), o)
      modifies this
      ensures Value() == Sub(old(Value()), o) && self == this
    {
      x := x - o.x;
      y := y - o.y;
      self := this;
    }

    method MulAssign(o: Vector2i) returns (self: MutableVector2)
      requires MulDefined(Value(), o)
      modifies this
      ensures Value() == Mul(old(Value()), o) && self == this
    {
      x := x * o.x;
      y := y * o.y;
      self := this;
    }

    method DivAssign(o: Vector2i) returns (self: MutableVector2)
      requires DivDefined(Value(), o)
      modifies this
      ensures Value() == Div(old(Value()), o) && self == this
    {
      x := IntDiv(x, o.x);
      y := IntDiv(y, o.y);
      self := this;
    }

    method AddScalarAssign(s: int32) returns (self: MutableVector2)
      requires AddOk(x, s) && AddOk(y, s)
      modifies this
      ensures Value() == AddScalar(old(Value()), s) && self == this
    {
      x := x + s;
      y := y + s;
      self := this;
    }

    method SubScalarAssign(s: int32) returns (self: MutableVector2)
      requires SubOk(x, s) && SubOk(y, s)
      modifies this
      ensures Value() == SubScalar(old(Value()), s) && self == this
    {
      x := x - s;
      y := y - s;
      self := this;
    }

    method MulScalarAssign(s: int32) returns (self: MutableVector2)
      requires MulOk(x, s) && MulOk(y, s)
      modifies this
      ensures Value() == MulScalar(old(Value()), s) && self == this
    {
      x := x * s;
      y := y * s;
      self := this;
    }

    method DivScalarAssign(s: int32) returns (self: MutableVector2)
      requires DivOk(x, s) && DivOk(y, s)
      modifies this
      ensures Value() == DivScalar(old(Value()), s) && self == this
    {
      x := IntDiv(x, s);
      y := IntDiv(y, s);
      self := this;
    }
  }

  // ---------------------------------------------------------------------------
  // Properties

  /** The default vector is zero and is the identity of `+` and `-`. */
  lemma ZeroIsIdentity(v: Vector2i)
    ensures Zero().x == 0 && Zero().y == 0
    ensures AddDefined(v, Zero()) && Add(v, Zero()) == v
    ensures SubDefined(v, Zero()) && Sub(v, Zero()) == v
  {
  }

  /** `+v == v`; `-(-v) == v` and `v + (-v)` is zero when no component is the
      most negative `int`. */
  lemma UnaryLaws(v: Vector2i)
    ensures Plus(v) == v
    ensures NegDefined(v) ==> NegDefined(Neg(v)) && Neg(Neg(v)) == v
    ensures NegDefined(v) ==> AddDefined(v, Neg(v)) && Add(v, Neg(v)) == Zero()
  {
  }

  /** Subtraction is addition of the negation. */
  lemma SubIsAddNeg(v: Vector2i, o: Vector2i)
    requires NegDefined(o) && SubDefined(v, o)
    ensures AddDefined(v, Neg(o)) && Add(v, Neg(o)) == Sub(v, o)
  {
  }

  lemma AddCommutes(v: Vector2i, o: Vector2i)
    requires AddDefined(v, o)
    ensures AddDefined(o, v) && Add(o, v) == Add(v, o)
  {
  }

  lemma MulCommutes(v: Vector2i, o: Vector2i)
    requires MulDefined(v, o)
    ensures MulDefined(o, v) && Mul(o, v) == Mul(v, o)
  {
  }

  /** Subtracting what was added restores the vector. */
  lemma AddSubInverse(v: Vector2i, o: Vector2i)
    requires AddDefined(v, o)
    ensures SubDefined(Add(v, o), o) && Sub(Add(v, o), o) == v
  {
  }

  /** Dividing by what was multiplied in restores the vector: the truncating
      division of an exact product is exact. */
  lemma MulDivInverse(v: Vector2i, o: Vector2i)
    requires MulDefined(v, o) && o.x != 0 && o.y != 0
    ensures DivDefined(Mul(v, o), o) && Div(Mul(v, o), o) == v
  {
    TruncDivOfProduct(v.x, o.x);
    TruncDivOfProduct(v.y, o.y);
  }

  /** Each scalar operator is the vector operator applied to the scalar
      repeated in every component: the two are defined for the same
      operands and agree there. */
  lemma ScalarFormsBroadcast(v: Vector2i, s: int32)
    ensures AddDefined(v, Vector2(s, s)) <==> AddOk(v.x, s) && AddOk(v.y, s)
    ensures SubDefined(v, Vector2(s, s)) <==> SubOk(v.x, s) && SubOk(v.y, s)
    ensures MulDefined(v, Vector2(s, s)) <==> MulOk(v.x, s) && MulOk(v.y, s)
    ensures DivDefined(v, Vector2(s, s)) <==> DivOk(v.x, s) && DivOk(v.y, s)
    ensures AddDefined(v, Vector2(s, s)) ==> AddScalar(v, s) == Add(v, Vector2(s, s))
    ensures SubDefined(v, Vector2(s, s)) ==> SubScalar(v, s) == Sub(v, Vector2(s, s))
    ensures MulDefined(v, Vector2(s, s)) ==> MulScalar(v, s) == Mul(v, Vector2(s, s))
    ensures DivDefined(v, Vector2(s, s)) ==> DivScalar(v, s) == Div(v, Vector2(s, s))
  {
  }

  /** `s * v == v * s`. */
  lemma ScalarMulCommutes(s: int32, v: Vector2i)
    requires MulOk(v.x, s) && MulOk(v.y, s)
    ensures ScalarMul(s, v) == MulScalar(v, s)
    ensures ScalarMul(s, v) == Mul(Vector2(s, s), v)
  {
  }

  lemma AddScalarSubScalarInverse(v: Vector2i, s: int32)
    requires AddOk(v.x, s) && AddOk(v.y, s)
    ensures SubOk(AddScalar(v, s).x, s) && SubOk(AddScalar(v, s).y, s)
    ensures SubScalar(AddScalar(v, s), s) == v
  {
  }

  lemma MulScalarDivScalarInverse(v: Vector2i, s: int32)
    requires MulOk(v.x, s) && MulOk(v.y, s) && s != 0
    ensures DivOk(MulScalar(v, s).x, s) && DivOk(MulScalar(v, s).y, s)
    ensures DivScalar(MulScalar(v, s), s) == v
  {
    TruncDivOfProduct(v.x, s);
    TruncDivOfProduct(v.y, s);
  }

  /** Scalar division truncates every component toward zero: each quotient
      times the divisor lies between zero and the component, short of it by
      less than the divisor. */
  lemma DivScalarTruncates(v: Vector2i, s: int32)
    requires DivOk(v.x, s) && DivOk(v.y, s)
    ensures var r := DivScalar(v, s);
      && Abs(r.x * s) <= Abs(v.x) && Abs(v.x - r.x * s) < Abs(s)
      && Abs(r.y * s) <= Abs(v.y) && Abs(v.y - r.y * s) < Abs(s)
  {
  }

  lemma DotSymmetric(v: Vector2i, o: Vector2i)
    requires DotDefined(v, o)
    ensures DotDefined(o, v) && Dot(o, v) == Dot(v, o)
  {
  }

  /** The dot product of a vector with itself is its squared norm. */
  lemma DotSelfIsNormSquared(v: Vector2i)
    requires DotDefined(v, v)
    ensures Dot(v, v) == NormSquared(v)
  {
  }

  /** The squared norm vanishes only at the zero vector. */
  lemma NormSquaredZero(v: Vector2i)
    ensures NormSquared(v) == 0 <==> v == Zero()
  {
    SquareNonNegative(v.x);
    SquareNonNegative(v.y);
    if NormSquared(v) == 0 {
      SquareZero(v.x);
      SquareZero(v.y);
    }
  }

  /** `norm` is zero exactly when `norm_squared` is, that is, at the zero
      vector. */
  lemma NormZero(v: Vector2i)
    ensures Norm(v) == 0 <==> NormSquared(v) == 0
    ensures Norm(v) == 0 <==> v == Zero()
  {
    ISqrtZero(NormSquared(v));
    NormSquaredZero(v);
  }

  /** `length` and `normSquared` are the same as `norm` and `norm_squared`. */
  lemma NormAliases(v: Vector2i)
    ensures Length(v) == Norm(v)
    ensures NormSquaredAlias(v) == NormSquared(v)
  {
  }

  /** No component exceeds the truncated norm in magnitude. */
  lemma NormBoundsComponents(v: Vector2i)
    ensures Abs(v.x) <= Norm(v) && Abs(v.y) <= Norm(v)
  {
    SquareNonNegative(v.x);
    SquareNonNegative(v.y);
    ISqrtBoundsComponent(v.x, NormSquared(v));
    ISqrtBoundsComponent(v.y, NormSquared(v));
  }

  /** Under the exactness bound the norm is a small `int`, zero only for the
      zero vector, and dividing any component by it leaves -1, 0 or 1. */
  lemma NormalizeBounds(v: Vector2i)
    requires NormSquared(v) < EXACT_SQRT_BOUND
    ensures Norm(v) < 0x400_0000
    ensures Norm(v) == 0 <==> v == Zero()
    ensures Norm(v) != 0 ==> -1 <= TruncDiv(v.x, Norm(v)) <= 1 && -1 <= TruncDiv(v.y, Norm(v)) <= 1
  {
    var n := Norm(v);
    ISqrtBelowBound(NormSquared(v));
    NormZero(v);
    if n != 0 {
      NormBoundsComponents(v);
      TruncDivSmall(v.x, n);
      TruncDivSmall(v.y, n);
    }
  }

  /** Normalising keeps the sign of every component (or sends it to zero). */
  lemma NormalizeKeepsSigns(v: Vector2i)
    requires NormSquared(v) < EXACT_SQRT_BOUND
    ensures var r := Normalize(v);
      && (v.x >= 0 ==> r.x >= 0) && (v.x <= 0 ==> r.x <= 0)
      && (v.y >= 0 ==> r.y >= 0) && (v.y <= 0 ==> r.y <= 0)
  {
    NormZero(v);
    if v != Zero() {
      TruncDivSign(v.x, Norm(v));
      TruncDivSign(v.y, Norm(v));
    }
  }

  /** A vector along the positive x axis normalises to the unit vector. */
  lemma NormalizeAxis(k: int32)
    requires 0 < k < 0x400_0000
    ensures NormSquared(Vector2(k, 0)) < EXACT_SQRT_BOUND
    ensures Normalize(Vector2(k, 0)) == Vector2(1, 0)
  {
    var v: Vector2i := Vector2(k, 0);
    assert NormSquared(v) == k * k;
    SquareMonotonic(k, 0x400_0000 - 1);
    ISqrtOfSquare(k);
    TruncDivOfProduct(1, k);
    assert TruncDiv(0, k) == 0;
  }

  /** `sign` yields only +1 and -1, sends zero to +1, and is idempotent. */
  lemma SignLaws(v: Vector2i)
    ensures Sign(v).x in {1, -1} && Sign(v).y in {1, -1}
    ensures (Sign(v).x == 1 <==> v.x >= 0) && (Sign(v).y == 1 <==> v.y >= 0)
    ensures Sign(Sign(v)) == Sign(v)
  {
  }

  /** The rendering splits into the tag and the field list, whatever the
      component texts are. */
  lemma RenderLayout(sx: string, sy: string)
    ensures "Vector2(x=" + sx + ", y=" + sy + ")"
         == "Vector2" + "(" + (['x'] + "=" + sx + (", " + (['y'] + "=" + sy))) + ")"
  {
  }

  /** The rendering reads back as the two components: it is exactly
      `Vector2(x=<x>, y=<y>)` with both components in decimal. */
  lemma RenderRoundTrip(v: Vector2i)
    ensures ParseVector("Vector2", "xy", Render(v)) == Some([v.x as int, v.y as int])
  {
    var vals: seq<int> := [v.x as int, v.y as int];
    RenderLayout(Dec(v.x), Dec(v.y));
    assert "xy"[1..] == "y";
    assert vals[1..] == [v.y as int];
    VectorRoundTrip("Vector2", "xy", vals);
  }

  /** Distinct vectors render differently. */
  lemma RenderInjective(v: Vector2i, o: Vector2i)
    requires Render(v) == Render(o)
    ensures v == o
  {
    RenderRoundTrip(v);
    RenderRoundTrip(o);
  }

  /** Converting to a `double` vector and back is the identity. */
  lemma ConvertRoundTrip(v: Vector2i)
    ensures ToIntDefined(ToReal(v)) && ToInt(ToReal(v)) == v
  {
    TruncToIntOfInt(v.x);
    TruncToIntOfInt(v.y);
  }

  /** Converting a floating vector to `int` truncates every component toward
      zero: the result lies within one of the component, on the side of zero. */
  lemma ToIntTruncates(v: Vector2r)
    requires ToIntDefined(v)
    ensures var r := ToInt(v);
      && (0.0 <= v.x ==> r.x as real <= v.x < r.x as real + 1.0)
      && (v.x < 0.0 ==> r.x as real - 1.0 < v.x <= r.x as real)
      && (0.0 <= v.y ==> r.y as real <= v.y < r.y as real + 1.0)
      && (v.y < 0.0 ==> r.y as real - 1.0 < v.y <= r.y as real)
  {
  }

  /** The integer results the accompanying tests assert for the arithmetic
      operators. */
  lemma ArithmeticExamples()
    ensures Add(Vector2(2, -3), Vector2(-4, 1)) == Vector2(-2, -2)
    ensures AddScalar(Vector2(-2, 8), 12) == Vector2(10, 20)
    ensures Sub(Vector2(5, -2), Vector2(3, 1)) == Vector2(2, -3)
    ensures SubScalar(Vector2(5, -3), 2) == Vector2(3, -5)
    ensures Mul(Vector2(2, -3), Vector2(4, 5)) == Vector2(8, -15)
    ensures ScalarMul(4, Vector2(3, -2)) == MulScalar(Vector2(3, -2), 4) == Vector2(12, -8)
    ensures Div(Vector2(8, -6), Vector2(2, 3)) == Vector2(4, -2)
    ensures DivScalar(Vector2(12, -4), 4) == Vector2(3, -1)
  {
  }

  /** The integer results the accompanying tests assert for the norms,
      `normalize` and `sign`. */
  lemma GeometryExamples()
    ensures Norm(Vector2(3, 4)) == Length(Vector2(3, 4)) == 5
    ensures NormSquared(Vector2(3, 4)) == NormSquaredAlias(Vector2(3, 4)) == 25
    ensures NormSquared(Vector2(10, 0)) == 100
    ensures Normalize(Vector2(10, 0)) == Vector2(1, 0)
    ensures Sign(Vector2(10, 0)) == Vector2(1, 1)
    ensures Normalize(Zero()) == Zero()
  {
    ISqrtOfSquare(5);
    NormalizeAxis(10);
  }

  /** The integer results the accompanying tests assert for conversion, and
      one integer rendering in the layout the tests check for floating
      vectors. The decimal literals stand in for the nearest `float` and
      `double` values, which differ from them only far below the first
      fractional digit, so truncation gives the same result for both. */
  lemma ConversionExamples()
    ensures ToReal(Vector2(10, 5)) == Vector2(10.0, 5.0)
    ensures ToInt(Vector2(1.1234567, -1.1234567)) == Vector2(1, -1)
    ensures ToInt(Vector2(1.1234567891234567, -1.1234567891234567)) == Vector2(1, -1)
    ensures Render(Vector2(3, -4)) == "Vector2(x=3, y=-4)"
  {
  }
}
