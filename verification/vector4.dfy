/** `Vector4<T>`: a four-component value type with component-wise arithmetic,
    dot product, norms, normalisation, `sign`, rendering and conversion.
    The arithmetic is modelled for the `int` instantiation `Vector4i`; the
    `float`/`double` instantiations appear only as targets and sources of
    conversion, with exact reals standing for them. */
module Vec4 {
  import opened Scalar
  import opened Text

  datatype Vector4<T> = Vector4(x: T, y: T, z: T, w: T)

  /** `Vector4i`. */
  type Vector4i = Vector4<int32>

  /** `Vector4f` / `Vector4d`, with exact reals for the floating scalars. */
  type Vector4r = Vector4<real>

  /** The default constructor: all four components value-initialised to zero. */
  function Zero(): Vector4i {
    Vector4(0, 0, 0, 0)
  }

  /** `operator==`: equal exactly when every component is equal. */
  function Equals<T(==)>(v: Vector4<T>, o: Vector4<T>): (r: bool)
    ensures r <==> v == o
  {
    v.x == o.x && v.y == o.y && v.z == o.z && v.w == o.w
  }

  // ---------------------------------------------------------------------------
  // Unary operators

  /** Unary `+`: a copy of the receiver. */
  function Plus(v: Vector4i): Vector4i {
    v
  }

  predicate NegDefined(v: Vector4i) {
    NegOk(v.x) && NegOk(v.y) && NegOk(v.z) && NegOk(v.w)
  }

  /** Unary `-`: every component negated. */
  function Neg(v: Vector4i): Vector4i
    requires NegDefined(v)
  {
    Vector4(-v.x, -v.y, -v.z, -v.w)
  }

  // ---------------------------------------------------------------------------
  // Vector - vector operators, component-wise

  predicate AddDefined(v: Vector4i, o: Vector4i) {
    AddOk(v.x, o.x) && AddOk(v.y, o.y) && AddOk(v.z, o.z) && AddOk(v.w, o.w)
  }

  predicate SubDefined(v: Vector4i, o: Vector4i) {
    SubOk(v.x, o.x) && SubOk(v.y, o.y) && SubOk(v.z, o.z) && SubOk(v.w, o.w)
  }

  predicate MulDefined(v: Vector4i, o: Vector4i) {
    MulOk(v.x, o.x) && MulOk(v.y, o.y) && MulOk(v.z, o.z) && MulOk(v.w, o.w)
  }

  predicate DivDefined(v: Vector4i, o: Vector4i) {
    DivOk(v.x, o.x) && DivOk(v.y, o.y) && DivOk(v.z, o.z) && DivOk(v.w, o.w)
  }

  function Add(v: Vector4i, o: Vector4i): Vector4i
    requires AddDefined(v, o)
  {
    Vector4(v.x + o.x, v.y + o.y, v.z + o.z, v.w + o.w)
  }

  function Sub(v: Vector4i, o: Vector4i): Vector4i
    requires SubDefined(v, o)
  {
    Vector4(v.x - o.x, v.y - o.y, v.z - o.z, v.w - o.w)
  }

  function Mul(v: Vector4i, o: Vector4i): Vector4i
    requires MulDefined(v, o)
  {
    Vector4(v.x * o.x, v.y * o.y, v.z * o.z, v.w * o.w)
  }

  function Div(v: Vector4i, o: Vector4i): Vector4i
    requires DivDefined(v, o)
  {
    Vector4(IntDiv(v.x, o.x), IntDiv(v.y, o.y), IntDiv(v.z, o.z), IntDiv(v.w, o.w))
  }

  // ---------------------------------------------------------------------------
  // Vector - scalar operators: the scalar is applied to every component

  function AddScalar(v: Vector4i, s: int32): Vector4i
    requires AddOk(v.x, s) && AddOk(v.y, s) && AddOk(v.z, s) && AddOk(v.w, s)
  {
    Vector4(v.x + s, v.y + s, v.z + s, v.w + s)
  }

  function SubScalar(v: Vector4i, s: int32): Vector4i
    requires SubOk(v.x, s) && SubOk(v.y, s) && SubOk(v.z, s) && SubOk(v.w, s)
  {
    Vector4(v.x - s, v.y - s, v.z - s, v.w - s)
  }

  function MulScalar(v: Vector4i, s: int32): Vector4i
    requires MulOk(v.x, s) && MulOk(v.y, s) && MulOk(v.z, s) && MulOk(v.w, s)
  {
    Vector4(v.x * s, v.y * s, v.z * s, v.w * s)
  }

  function DivScalar(v: Vector4i, s: int32): Vector4i
    requires DivOk(v.x, s) && DivOk(v.y, s) && DivOk(v.z, s) && DivOk(v.w, s)
  {
    Vector4(IntDiv(v.x, s), IntDiv(v.y, s), IntDiv(v.z, s), IntDiv(v.w, s))
  }

  /** The free `s * v`, defined as `v * s`. */
  function ScalarMul(s: int32, v: Vector4i): Vector4i
    requires MulOk(v.x, s) && MulOk(v.y, s) && MulOk(v.z, s) && MulOk(v.w, s)
  {
    MulScalar(v, s)
  }

  // ---------------------------------------------------------------------------
  // Geometry

  /** `dot` accumulates in `int`: each product and each partial sum must fit. */
  predicate DotDefined(v: Vector4i, o: Vector4i) {
    && MulOk(v.x, o.x)
    && MulOk(v.y, o.y)
    && MulOk(v.z, o.z)
    && MulOk(v.w, o.w)
    && IsInt32(v.x * o.x + v.y * o.y)
    && IsInt32(v.x * o.x + v.y * o.y + v.z * o.z)
    && IsInt32(v.x * o.x + v.y * o.y + v.z * o.z + v.w * o.w)
  }

  function Dot(v: Vector4i, o: Vector4i): int32
    requires DotDefined(v, o)
  {
    v.x * o.x + v.y * o.y + v.z * o.z + v.w * o.w
  }

  /** `norm_squared`: the sum of the squared components, accumulated in
      `double` and modelled exactly. */
  function NormSquared(v: Vector4i): nat {
    v.x * v.x + v.y * v.y + v.z * v.z + v.w * v.w
  }

  /** `normSquared`, an alias of `norm_squared`. */
  function NormSquaredAlias(v: Vector4i): nat {
    NormSquared(v)
  }

  /** `norm` as the integer instantiation uses it: the double square root of
      `norm_squared`, truncated to an integer. */
  function Norm(v: Vector4i): nat {
    ISqrt(NormSquared(v))
  }

  /** `length`, an alias of `norm`. */
  function Length(v: Vector4i): nat {
    Norm(v)
  }

  /** `normalize`: the vector divided by its truncated norm, or the vector
      itself when the norm is zero. The bound keeps the double square root
      exact enough that its truncation is the integer square root. */
  function Normalize(v: Vector4i): (r: Vector4i)
    requires NormSquared(v) < EXACT_SQRT_BOUND
    ensures v == Zero() ==> r == v
    ensures v != Zero() ==> Norm(v) >= 1 && r == DivScalar(v, Norm(v))
    ensures -1 <= r.x <= 1 && -1 <= r.y <= 1 && -1 <= r.z <= 1 && -1 <= r.w <= 1
  {
    var n := Norm(v);
    NormalizeBounds(v);
    if n != 0 then DivScalar(v, n) else v
  }

  /** `sign`: +1 for every non-negative component, -1 for every negative one. */
  function Sign(v: Vector4i): Vector4i {
    Vector4(IntSign(v.x), IntSign(v.y), IntSign(v.z), IntSign(v.w))
  }

  /** `operator<<` for `Vector4i`. */
  function Render(v: Vector4i): string {
    "Vector4(x=" + Dec(v.x) + ", y=" + Dec(v.y) + ", z=" + Dec(v.z) + ", w=" + Dec(v.w) + ")"
  }

  /** `operator Vector4<K>` from `int` to `double`, which is exact because
      every `int` is a `double`. (A `float` target rounds values above 2^24;
      that rounding is not modelled.) */
  function ToReal(v: Vector4i): Vector4r {
    Vector4(v.x as real, v.y as real, v.z as real, v.w as real)
  }

  /** A floating-to-`int` conversion is defined when the truncated value fits. */
  predicate ToIntDefined(v: Vector4r) {
    IsInt32(TruncToInt(v.x)) && IsInt32(TruncToInt(v.y)) && IsInt32(TruncToInt(v.z)) && IsInt32(TruncToInt(v.w))
  }

  /** `operator Vector4<int>` from a floating scalar: each component truncated
      toward zero. */
  function ToInt(v: Vector4r): Vector4i
    requires ToIntDefined(v)
  {
    Vector4(TruncToInt(v.x), TruncToInt(v.y), TruncToInt(v.z), TruncToInt(v.w))
  }

  // ---------------------------------------------------------------------------
  // Compound assignment

  /** A `Vector4i` object, for the compound assignments, which update the
      receiver's components in place and return the receiver. */
  class MutableVector4 {
    var x: int32
    var y: int32
    var z: int32
    var w: int32

    constructor Init(v: Vector4i)
      ensures Value() == v
    {
      x := v.x;
      y := v.y;
      z := v.z;
      w := v.w;
    }

    function Value(): Vector4i
      reads this
    {
      Vector4(x, y, z, w)
    }

    method AddAssign(o: Vector4i) returns (self: MutableVector4)
      requires AddDefined(Value(), o)
      modifies this
      ensures Value() == Add(old(Value()), o) && self == this
    {
      x := x + o.x;
      y := y + o.y;
      z := z + o.z;
      w := w + o.w;
      self := this;
    }

    method SubAssign(o: Vector4i) returns (self: MutableVector4)
      requires SubDefined(Value(), o)
      modifies this
      ensures Value() == Sub(old(Value()), o) && self == this
    {
      x := x - o.x;
      y := y - o.y;
      z := z - o.z;
      w := w - o.w;
      self := this;
    }

    method MulAssign(o: Vector4i) returns (self: MutableVector4)
      requires MulDefined(Value(), o)
      modifies this
      ensures Value() == Mul(old(Value()), o) && self == this
    {
      x := x * o.x;
      y := y * o.y;
      z := z * o.z;
      w := w * o.w;
      self := this;
    }

    method DivAssign(o: Vector4i) returns (self: MutableVector4)
      requires DivDefined(Value(), o)
      modifies this
      ensures Value() == Div(old(Value()), o) && self == this
    {
      x := IntDiv(x, o.x);
      y := IntDiv(y, o.y);
      z := IntDiv(z, o.z);
      w := IntDiv(w, o.w);
      self := this;
    }

    method AddScalarAssign(s: int32) returns (self: MutableVector4)
      requires AddOk(x, s) && AddOk(y, s) && AddOk(z, s) && AddOk(w, s)
      modifies this
      ensures Value() == AddScalar(old(Value()), s) && self == this
    {
      x := x + s;
      y := y + s;
      z := z + s;
      w := w + s;
      self := this;
    }

    method SubScalarAssign(s: int32) returns (self: MutableVector4)
      requires SubOk(x, s) && SubOk(y, s) && SubOk(z, s) && SubOk(w, s)
      modifies this
      ensures Value() == SubScalar(old(Value()), s) && self == this
    {
      x := x - s;
      y := y - s;
      z := z - s;
      w := w - s;
      self := this;
    }

    method MulScalarAssign(s: int32) returns (self: MutableVector4)
      requires MulOk(x, s) && MulOk(y, s) && MulOk(z, s) && MulOk(w, s)
      modifies this
      ensures Value() == MulScalar(old(Value()), s) && self == this
    {
      x := x * s;
      y := y * s;
      z := z * s;
      w := w * s;
      self := this;
    }

    method DivScalarAssign(s: int32) returns (self: MutableVector4)
      requires DivOk(x, s) && DivOk(y, s) && DivOk(z, s) && DivOk(w, s)
      modifies this
      ensures Value() == DivScalar(old(Value()), s) && self == this
    {
      x := IntDiv(x, s);
      y := IntDiv(y, s);
      z := IntDiv(z, s);
      w := IntDiv(w, s);
      self := this;
    }
  }

  // ---------------------------------------------------------------------------
  // Properties

  /** The default vector is zero and is the identity of `+` and `-`. */
  lemma ZeroIsIdentity(v: Vector4i)
    ensures Zero().x == 0 && Zero().y == 0 && Zero().z == 0 && Zero().w == 0
    ensures AddDefined(v, Zero()) && Add(v, Zero()) == v
    ensures SubDefined(v, Zero()) && Sub(v, Zero()) == v
  {
  }

  /** `+v == v`; `-(-v) == v` and `v + (-v)` is zero when no component is the
      most negative `int`. */
  lemma UnaryLaws(v: Vector4i)
    ensures Plus(v) == v
    ensures NegDefined(v) ==> NegDefined(Neg(v)) && Neg(Neg(v)) == v
    ensures NegDefined(v) ==> AddDefined(v, Neg(v)) && Add(v, Neg(v)) == Zero()
  {
  }

  /** Subtraction is addition of the negation. */
  lemma SubIsAddNeg(v: Vector4i, o: Vector4i)
    requires NegDefined(o) && SubDefined(v, o)
    ensures AddDefined(v, Neg(o)) && Add(v, Neg(o)) == Sub(v, o)
  {
  }

  lemma AddCommutes(v: Vector4i, o: Vector4i)
    requires AddDefined(v, o)
    ensures AddDefined(o, v) && Add(o, v) == Add(v, o)
  {
  }

  lemma MulCommutes(v: Vector4i, o: Vector4i)
    requires MulDefined(v, o)
    ensures MulDefined(o, v) && Mul(o, v) == Mul(v, o)
  {
  }

  /** Subtracting what was added restores the vector. */
  lemma AddSubInverse(v: Vector4i, o: Vector4i)
    requires AddDefined(v, o)
    ensures SubDefined(Add(v, o), o) && Sub(Add(v, o), o) == v
  {
  }

  /** Dividing by what was multiplied in restores the vector: the truncating
      division of an exact product is exact. */
  lemma MulDivInverse(v: Vector4i, o: Vector4i)
    requires MulDefined(v, o) && o.x != 0 && o.y != 0 && o.z != 0 && o.w != 0
    ensures DivDefined(Mul(v, o), o) && Div(Mul(v, o), o) == v
  {
    TruncDivOfProduct(v.x, o.x);
    TruncDivOfProduct(v.y, o.y);
    TruncDivOfProduct(v.z, o.z);
    TruncDivOfProduct(v.w, o.w);
  }

  /** Each scalar operator is the vector operator applied to the scalar
      repeated in every component: the two are defined for the same
      operands and agree there. */
  lemma ScalarFormsBroadcast(v: Vector4i, s: int32)
    ensures AddDefined(v, Vector4(s, s, s, s)) <==> AddOk(v.x, s) && AddOk(v.y, s) && AddOk(v.z, s) && AddOk(v.w, s)
    ensures SubDefined(v, Vector4(s, s, s, s)) <==> SubOk(v.x, s) && SubOk(v.y, s) && SubOk(v.z, s) && SubOk(v.w, s)
    ensures MulDefined(v, Vector4(s, s, s, s)) <==> MulOk(v.x, s) && MulOk(v.y, s) && MulOk(v.z, s) && MulOk(v.w, s)
    ensures DivDefined(v, Vector4(s, s, s, s)) <==> DivOk(v.x, s) && DivOk(v.y, s) && DivOk(v.z, s) && DivOk(v.w, s)
    ensures AddDefined(v, Vector4(s, s, s, s)) ==> AddScalar(v, s) == Add(v, Vector4(s, s, s, s))
    ensures SubDefined(v, Vector4(s, s, s, s)) ==> SubScalar(v, s) == Sub(v, Vector4(s, s, s, s))
    ensures MulDefined(v, Vector4(s, s, s, s)) ==> MulScalar(v, s) == Mul(v, Vector4(s, s, s, s))
    ensures DivDefined(v, Vector4(s, s, s, s)) ==> DivScalar(v, s) == Div(v, Vector4(s, s, s, s))
  {
  }

  /** `s * v == v * s`. */
  lemma ScalarMulCommutes(s: int32, v: Vector4i)
    requires MulOk(v.x, s) && MulOk(v.y, s) && MulOk(v.z, s) && MulOk(v.w, s)
    ensures ScalarMul(s, v) == MulScalar(v, s)
    ensures ScalarMul(s, v) == Mul(Vector4(s, s, s, s), v)
  {
  }

  lemma AddScalarSubScalarInverse(v: Vector4i, s: int32)
    requires AddOk(v.x, s) && AddOk(v.y, s) && AddOk(v.z, s) && AddOk(v.w, s)
    ensures SubOk(AddScalar(v, s).x, s) && SubOk(AddScalar(v, s).y, s) && SubOk(AddScalar(v, s).z, s) && SubOk(AddScalar(v, s).w, s)
    ensures SubScalar(AddScalar(v, s), s) == v
  {
  }

  lemma MulScalarDivScalarInverse(v: Vector4i, s: int32)
    requires MulOk(v.x, s) && MulOk(v.y, s) && MulOk(v.z, s) && MulOk(v.w, s) && s != 0
    ensures DivOk(MulScalar(v, s).x, s) && DivOk(MulScalar(v, s).y, s) && DivOk(MulScalar(v, s).z, s) && DivOk(MulScalar(v, s).w, s)
    ensures DivScalar(MulScalar(v, s), s) == v
  {
    TruncDivOfProduct(v.x, s);
    TruncDivOfProduct(v.y, s);
    TruncDivOfProduct(v.z, s);
    TruncDivOfProduct(v.w, s);
  }

  /** Scalar division truncates every component toward zero: each quotient
      times the divisor lies between zero and the component, short of it by
      less than the divisor. */
  lemma DivScalarTruncates(v: Vector4i, s: int32)
    requires DivOk(v.x, s) && DivOk(v.y, s) && DivOk(v.z, s) && DivOk(v.w, s)
    ensures var r := DivScalar(v, s);
      && Abs(r.x * s) <= Abs(v.x) && Abs(v.x - r.x * s) < Abs(s)
      && Abs(r.y * s) <= Abs(v.y) && Abs(v.y - r.y * s) < Abs(s)
      && Abs(r.z * s) <= Abs(v.z) && Abs(v.z - r.z * s) < Abs(s)
      && Abs(r.w * s) <= Abs(v.w) && Abs(v.w - r.w * s) < Abs(s)
  {
  }

  lemma DotSymmetric(v: Vector4i, o: Vector4i)
    requires DotDefined(v, o)
    ensures DotDefined(o, v) && Dot(o, v) == Dot(v, o)
  {
  }

  /** The dot product of a vector with itself is its squared norm. */
  lemma DotSelfIsNormSquared(v: Vector4i)
    requires DotDefined(v, v)
    ensures Dot(v, v) == NormSquared(v)
  {
  }

  /** The squared norm vanishes only at the zero vector. */
  lemma NormSquaredZero(v: Vector4i)
    ensures NormSquared(v) == 0 <==> v == Zero()
  {
    SquareNonNegative(v.x);
    SquareNonNegative(v.y);
    SquareNonNegative(v.z);
    SquareNonNegative(v.w);
    if NormSquared(v) == 0 {
      SquareZero(v.x);
      SquareZero(v.y);
      SquareZero(v.z);
      SquareZero(v.w);
    }
  }

  /** `norm` is zero exactly when `norm_squared` is, that is, at the zero
      vector. */
  lemma NormZero(v: Vector4i)
    ensures Norm(v) == 0 <==> NormSquared(v) == 0
    ensures Norm(v) == 0 <==> v == Zero()
  {
    ISqrtZero(NormSquared(v));
    NormSquaredZero(v);
  }

  /** `length` and `normSquared` are the same as `norm` and `norm_squared`. */
  lemma NormAliases(v: Vector4i)
    ensures Length(v) == Norm(v)
    ensures NormSquaredAlias(v) == NormSquared(v)
  {
  }

  /** No component exceeds the truncated norm in magnitude. */
  lemma NormBoundsComponents(v: Vector4i)
    ensures Abs(v.x) <= Norm(v) && Abs(v.y) <= Norm(v) && Abs(v.z) <= Norm(v) && Abs(v.w) <= Norm(v)
  {
    SquareNonNegative(v.x);
    SquareNonNegative(v.y);
    SquareNonNegative(v.z);
    SquareNonNegative(v.w);
    ISqrtBoundsComponent(v.x, NormSquared(v));
    ISqrtBoundsComponent(v.y, NormSquared(v));
    ISqrtBoundsComponent(v.z, NormSquared(v));
    ISqrtBoundsComponent(v.w, NormSquared(v));
  }

  /** Under the exactness bound the norm is a small `int`, zero only for the
      zero vector, and dividing any component by it leaves -1, 0 or 1. */
  lemma NormalizeBounds(v: Vector4i)
    requires NormSquared(v) < EXACT_SQRT_BOUND
    ensures Norm(v) < 0x400_0000
    ensures Norm(v) == 0 <==> v == Zero()
    ensures Norm(v) != 0 ==> -1 <= TruncDiv(v.x, Norm(v)) <= 1 && -1 <= TruncDiv(v.y, Norm(v)) <= 1 && -1 <= TruncDiv(v.z, Norm(v)) <= 1 && -1 <= TruncDiv(v.w, Norm(v)) <= 1
  {
    var n := Norm(v);
    ISqrtBelowBound(NormSquared(v));
    NormZero(v);
    if n != 0 {
      NormBoundsComponents(v);
      TruncDivSmall(v.x, n);
      TruncDivSmall(v.y, n);
      TruncDivSmall(v.z, n);
      TruncDivSmall(v.w, n);
    }
  }

  /** Normalising keeps the sign of every component (or sends it to zero). */
  lemma NormalizeKeepsSigns(v: Vector4i)
    requires NormSquared(v) < EXACT_SQRT_BOUND
    ensures var r := Normalize(v);
      && (v.x >= 0 ==> r.x >= 0) && (v.x <= 0 ==> r.x <= 0)
      && (v.y >= 0 ==> r.y >= 0) && (v.y <= 0 ==> r.y <= 0)
      && (v.z >= 0 ==> r.z >= 0) && (v.z <= 0 ==> r.z <= 0)
      && (v.w >= 0 ==> r.w >= 0) && (v.w <= 0 ==> r.w <= 0)
  {
    NormZero(v);
    if v != Zero() {
      TruncDivSign(v.x, Norm(v));
      TruncDivSign(v.y, Norm(v));
      TruncDivSign(v.z, Norm(v));
      TruncDivSign(v.w, Norm(v));
    }
  }

  /** A vector along the positive x axis normalises to the unit vector. */
  lemma NormalizeAxis(k: int32)
    requires 0 < k < 0x400_0000
    ensures NormSquared(Vector4(k, 0, 0, 0)) < EXACT_SQRT_BOUND
    ensures Normalize(Vector4(k, 0, 0, 0)) == Vector4(1, 0, 0, 0)
  {
    var v: Vector4i := Vector4(k, 0, 0, 0);
    assert NormSquared(v) == k * k;
    SquareMonotonic(k, 0x400_0000 - 1);
    ISqrtOfSquare(k);
    TruncDivOfProduct(1, k);
    assert TruncDiv(0, k) == 0;
  }

  /** `sign` yields only +1 and -1, sends zero to +1, and is idempotent. */
  lemma SignLaws(v: Vector4i)
    ensures Sign(v).x in {1, -1} && Sign(v).y in {1, -1} && Sign(v).z in {1, -1} && Sign(v).w in {1, -1}
    ensures (Sign(v).x == 1 <==> v.x >= 0) && (Sign(v).y == 1 <==> v.y >= 0) && (Sign(v).z == 1 <==> v.z >= 0) && (Sign(v).w == 1 <==> v.w >= 0)
    ensures Sign(Sign(v)) == Sign(v)
  {
  }

  /** The rendering splits into the tag and the field list, whatever the
      component texts are. */
  lemma RenderLayout(sx: string, sy: string, sz: string, sw: string)
    ensures "Vector4(x=" + sx + ", y=" + sy + ", z=" + sz + ", w=" + sw + ")"
         == "Vector4" + "(" + (['x'] + "=" + sx + (", " + (['y'] + "=" + sy + (", " + (['z'] + "=" + sz + (", " + (['w'] + "=" + sw))))))) + ")"
  {
  }

  /** The rendering reads back as the four components: it is exactly
      `Vector4(x=<x>, y=<y>, z=<z>, w=<w>)` with every component in decimal. */
  lemma RenderRoundTrip(v: Vector4i)
    ensures ParseVector("Vector4", "xyzw", Render(v)) == Some([v.x as int, v.y as int, v.z as int, v.w as int])
  {
    var vals: seq<int> := [v.x as int, v.y as int, v.z as int, v.w as int];
    RenderLayout(Dec(v.x), Dec(v.y), Dec(v.z), Dec(v.w));
    assert "xyzw"[1..] == "yzw";
    assert "yzw"[1..] == "zw";
    assert "zw"[1..] == "w";
    assert vals[1..] == [v.y as int, v.z as int, v.w as int] && vals[1..][1..] == [v.z as int, v.w as int] && vals[1..][1..][1..] == [v.w as int];
    VectorRoundTrip("Vector4", "xyzw", vals);
  }

  /** Distinct vectors render differently. */
  lemma RenderInjective(v: Vector4i, o: Vector4i)
    requires Render(v) == Render(o)
    ensures v == o
  {
    RenderRoundTrip(v);
    RenderRoundTrip(o);
  }

  /** Converting to a `double` vector and back is the identity. */
  lemma ConvertRoundTrip(v: Vector4i)
    ensures ToIntDefined(ToReal(v)) && ToInt(ToReal(v)) == v
  {
    TruncToIntOfInt(v.x);
    TruncToIntOfInt(v.y);
    TruncToIntOfInt(v.z);
    TruncToIntOfInt(v.w);
  }

  /** Converting a floating vector to `int` truncates every component toward
      zero: the result lies within one of the component, on the side of zero. */
  lemma ToIntTruncates(v: Vector4r)
    requires ToIntDefined(v)
    ensures var r := ToInt(v);
      && (0.0 <= v.x ==> r.x as real <= v.x < r.x as real + 1.0)
      && (v.x < 0.0 ==> r.x as real - 1.0 < v.x <= r.x as real)
      && (0.0 <= v.y ==> r.y as real <= v.y < r.y as real + 1.0)
      && (v.y < 0.0 ==> r.y as real - 1.0 < v.y <= r.y as real)
      && (0.0 <= v.z ==> r.z as real <= v.z < r.z as real + 1.0)
      && (v.z < 0.0 ==> r.z as real - 1.0 < v.z <= r.z as real)
      && (0.0 <= v.w ==> r.w as real <= v.w < r.w as real + 1.0)
      && (v.w < 0.0 ==> r.w as real - 1.0 < v.w <= r.w as real)
  {
  }

  /** The integer results the accompanying tests assert for the arithmetic
      operators. */
  lemma ArithmeticExamples()
    ensures Add(Vector4(2, -3, 1, 5), Vector4(-4, 1, 2, -1)) == Vector4(-2, -2, 3, 4)
    ensures AddScalar(Vector4(-2, 8, 3, -1), 12) == Vector4(10, 20, 15, 11)
    ensures Sub(Vector4(5, -2, 8, 3), Vector4(3, 1, 2, -1)) == Vector4(2, -3, 6, 4)
    ensures SubScalar(Vector4(5, -3, 7, 1), 2) == Vector4(3, -5, 5, -1)
    ensures Mul(Vector4(2, -3, 4, 1), Vector4(4, 5, -2, 3)) == Vector4(8, -15, -8, 3)
    ensures ScalarMul(4, Vector4(3, -2, 1, 5)) == MulScalar(Vector4(3, -2, 1, 5), 4) == Vector4(12, -8, 4, 20)
    ensures Div(Vector4(8, -6, 12, 20), Vector4(2, 3, 4, 5)) == Vector4(4, -2, 3, 4)
    ensures DivScalar(Vector4(12, -4, 8, 16), 4) == Vector4(3, -1, 2, 4)
    ensures Dot(Vector4(1, 2, 3, 4), Vector4(2, -1, 0, 1)) == 4
  {
  }

  /** The integer results the accompanying tests assert for the norms,
      `normalize` and `sign`. */
  lemma GeometryExamples()
    ensures Norm(Vector4(1, 2, 2, 4)) == Length(Vector4(1, 2, 2, 4)) == 5
    ensures NormSquared(Vector4(1, 2, 2, 4)) == NormSquaredAlias(Vector4(1, 2, 2, 4)) == 25
    ensures NormSquared(Vector4(10, 0, 0, 0)) == 100
    ensures Normalize(Vector4(10, 0, 0, 0)) == Vector4(1, 0, 0, 0)
    ensures Sign(Vector4(10, 0, -5, 3)) == Vector4(1, 1, -1, 1)
    ensures Normalize(Zero()) == Zero()
  {
    ISqrtOfSquare(5);
    NormalizeAxis(10);
  }

  /** The integer results the accompanying tests assert for conversion, and
      one integer rendering in the layout the tests check for floating
      vectors. The decimal literals stand in for the nearest `float` and
      `double` values, which differ from them only far below the first
      fractional digit, so truncation gives the same result for both. */
  lemma ConversionExamples()
    ensures ToReal(Vector4(10, 5, -2, 8)) == Vector4(10.0, 5.0, -2.0, 8.0)
    ensures ToInt(Vector4(1.1234567, -1.1234567, 2.5, -0.75)) == Vector4(1, -1, 2, 0)
    ensures ToInt(Vector4(1.1234567891234567, -1.1234567891234567, 3.5, -1.25)) == Vector4(1, -1, 3, -1)
    ensures Render(Vector4(1, 2, -1, 0)) == "Vector4(x=1, y=2, z=-1, w=0)"
  {
  }
}
