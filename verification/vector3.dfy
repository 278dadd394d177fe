/** `Vector3<T>`: a three-component value type with component-wise arithmetic,
    dot and cross products, norms, normalisation, `sign`, rendering and conversion.
    The arithmetic is modelled for the `int` instantiation `Vector3i`; the
    `float`/`double` instantiations appear only as targets and sources of
    conversion, with exact reals standing for them. */
module Vec3 {
  import opened Scalar
  import opened Text

  datatype Vector3<T> = Vector3(x: T, y: T, z: T)

  /** `Vector3i`. */
  type Vector3i = Vector3<int32>

  /** `Vector3f` / `Vector3d`, with exact reals for the floating scalars. */
  type Vector3r = Vector3<real>

  /** The default constructor: all three components value-initialised to zero. */
  function Zero(): Vector3i {
    Vector3(0, 0, 0)
  }

  /** `operator==`: equal exactly when every component is equal. */
  function Equals<T(==)>(v: Vector3<T>, o: Vector3<T>): (r: bool)
    ensures r <==> v == o
  {
    v.x == o.x && v.y == o.y && v.z == o.z
  }

  // ---------------------------------------------------------------------------
  // Unary operators

  /** Unary `+`: a copy of the receiver. */
  function Plus(v: Vector3i): Vector3i {
    v
  }

  predicate NegDefined(v: Vector3i) {
    NegOk(v.x) && NegOk(v.y) && NegOk(v.z)
  }

  /** Unary `-`: every component negated. */
  function Neg(v: Vector3i): Vector3i
    requires NegDefined(v)
  {
    Vector3(-v.x, -v.y, -v.z)
  }

  // ---------------------------------------------------------------------------
  // Vector - vector operators, component-wise

  predicate AddDefined(v: Vector3i, o: Vector3i) {
    AddOk(v.x, o.x) && AddOk(v.y, o.y) && AddOk(v.z, o.z)
  }

  predicate SubDefined(v: Vector3i, o: Vector3i) {
    SubOk(v.x, o.x) && SubOk(v.y, o.y) && SubOk(v.z, o.z)
  }

  predicate MulDefined(v: Vector3i, o: Vector3i) {
    MulOk(v.x, o.x) && MulOk(v.y, o.y) && MulOk(v.z, o.z)
  }

  predicate DivDefined(v: Vector3i, o: Vector3i) {
    DivOk(v.x, o.x) && DivOk(v.y, o.y) && DivOk(v.z, o.z)
  }

  function Add(v: Vector3i, o: Vector3i): Vector3i
    requires AddDefined(v, o)
  {
    Vector3(v.x + o.x, v.y + o.y, v.z + o.z)
  }

  function Sub(v: Vector3i, o: Vector3i): Vector3i
    requires SubDefined(v, o)
  {
    Vector3(v.x - o.x, v.y - o.y, v.z - o.z)
  }

  function Mul(v: Vector3i, o: Vector3i): Vector3i
    requires MulDefined(v, o)
  {
    Vector3(v.x * o.x, v.y * o.y, v.z * o.z)
  }

  function Div(v: Vector3i, o: Vector3i): Vector3i
    requires DivDefined(v, o)
  {
    Vector3(IntDiv(v.x, o.x), IntDiv(v.y, o.y), IntDiv(v.z, o.z))
  }

  // ---------------------------------------------------------------------------
  // Vector - scalar operators: the scalar is applied to every component

  function AddScalar(v: Vector3i, s: int32): Vector3i
    requires AddOk(v.x, s) && AddOk(v.y, s) && AddOk(v.z, s)
  {
    Vector3(v.x + s, v.y + s, v.z + s)
  }

  function SubScalar(v: Vector3i, s: int32): Vector3i
    requires SubOk(v.x, s) && SubOk(v.y, s) && SubOk(v.z, s)
  {
    Vector3(v.x - s, v.y - s, v.z - s)
  }

  function MulScalar(v: Vector3i, s: int32): Vector3i
    requires MulOk(v.x, s) && MulOk(v.y, s) && MulOk(v.z, s)
  {
    Vector3(v.x * s, v.y * s, v.z * s)
  }

  function DivScalar(v: Vector3i, s: int32): Vector3i
    requires DivOk(v.x, s) && DivOk(v.y, s) && DivOk(v.z, s)
  {
    Vector3(IntDiv(v.x, s), IntDiv(v.y, s), IntDiv(v.z, s))
  }

  /** The free `s * v`, defined as `v * s`. */
  function ScalarMul(s: int32, v: Vector3i): Vector3i
    requires MulOk(v.x, s) && MulOk(v.y, s) && MulOk(v.z, s)
  {
    MulScalar(v, s)
  }

  // ---------------------------------------------------------------------------
  // Geometry

  /** `dot` accumulates in `int`: each product and each partial sum must fit. */
  predicate DotDefined(v: Vector3i, o: Vector3i) {
    && MulOk(v.x, o.x)
    && MulOk(v.y, o.y)
    && MulOk(v.z, o.z)
    && IsInt32(v.x * o.x + v.y * o.y)
    && IsInt32(v.x * o.x + v.y * o.y + v.z * o.z)
  }

  function Dot(v: Vector3i, o: Vector3i): int32
    requires DotDefined(v, o)
  {
    v.x * o.x + v.y * o.y + v.z * o.z
  }

  /** `cross` evaluates in `int`: each product and each difference must fit. */
  predicate CrossDefined(v: Vector3i, o: Vector3i) {
    && MulOk(v.y, o.z) && MulOk(v.z, o.y) && IsInt32(v.y * o.z - v.z * o.y)
    && MulOk(v.z, o.x) && MulOk(v.x, o.z) && IsInt32(v.z * o.x - v.x * o.z)
    && MulOk(v.x, o.y) && MulOk(v.y, o.x) && IsInt32(v.x * o.y - v.y * o.x)
  }

  /** `cross`: the right-handed cross product. */
  function Cross(v: Vector3i, o: Vector3i): Vector3i
    requires CrossDefined(v, o)
  {
    Vector3(v.y * o.z - v.z * o.y, v.z * o.x - v.x * o.z, v.x * o.y - v.y * o.x)
  }

  /** `norm_squared`: the sum of the squared components, accumulated in
      `double` and modelled exactly. */
  function NormSquared(v: Vector3i): nat {
    v.x * v.x + v.y * v.y + v.z * v.z
  }

  /** `normSquared`, an alias of `norm_squared`. */
  function NormSquaredAlias(v: Vector3i): nat {
    NormSquared(v)
  }

  /** `norm` as the integer instantiation uses it: the double square root of
      `norm_squared`, truncated to an integer. */
  function Norm(v: Vector3i): nat {
    ISqrt(NormSquared(v))
  }

  /** `length`, an alias of `norm`. */
  function Length(v: Vector3i): nat {
    Norm(v)
  }

  /** `normalize`: the vector divided by its truncated norm, or the vector
      itself when the norm is zero. The bound keeps the double square root
      exact enough that its truncation is the integer square root. */
  function Normalize(v: Vector3i): (r: Vector3i)
    requires NormSquared(v) < EXACT_SQRT_BOUND
    ensures v == Zero() ==> r == v
    ensures v != Zero() ==> Norm(v) >= 1 && r == DivScalar(v, Norm(v))
    ensures -1 <= r.x <= 1 && -1 <= r.y <= 1 && -1 <= r.z <= 1
  {
    var n := Norm(v);
    NormalizeBounds(v);
    if n != 0 then DivScalar(v, n) else v
  }

  /** `sign`: +1 for every non-negative component, -1 for every negative one. */
  function Sign(v: Vector3i): Vector3i {
    Vector3(IntSign(v.x), IntSign(v.y), IntSign(v.z))
  }

  /** `operator<<` for `Vector3i`. */
  function Render(v: Vector3i): string {
    "Vector3(x=" + Dec(v.x) + ", y=" + Dec(v.y) + ", z=" + Dec(v.z) + ")"
  }

  /** `operator Vector3<K>` from `int` to `double`, which is exact because
      every `int` is a `double`. (A `float` target rounds values above 2^24;
      that rounding is not modelled.) */
  function ToReal(v: Vector3i): Vector3r {
    Vector3(v.x as real, v.y as real, v.z as real)
  }

  /** A floating-to-`int` conversion is defined when the truncated value fits. */
  predicate ToIntDefined(v: Vector3r) {
    IsInt32(TruncToInt(v.x)) && IsInt32(TruncToInt(v.y)) && IsInt32(TruncToInt(v.z))
  }

  /** `operator Vector3<int>` from a floating scalar: each component truncated
      toward zero. */
  function ToInt(v: Vector3r): Vector3i
    requires ToIntDefined(v)
  {
    Vector3(TruncToInt(v.x), TruncToInt(v.y), TruncToInt(v.z))
  }

  // ---------------------------------------------------------------------------
  // Compound assignment

  /** A `Vector3i` object, for the compound assignments, which update the
      receiver's components in place and return the receiver. */
  class MutableVector3 {
    var x: int32
    var y: int32
    var z: int32

    constructor Init(v: Vector3i)
      ensures Value() == v
    {
      x := v.x;
      y := v.y;
      z := v.z;
    }

    function Value(): Vector3i
      reads this
    {
      Vector3(x, y, z)
    }

    method AddAssign(o: Vector3i) returns (self: MutableVector3)
      requires AddDefined(Value(), o)
      modifies this
      ensures Value() == Add(old(Value()), o) && self == this
    {
      x := x + o.x;
      y := y + o.y;
      z := z + o.z;
      self := this;
    }

    method SubAssign(o: Vector3i) returns (self: MutableVector3)
      requires SubDefined(Value(), o)
      modifies this
      ensures Value() == Sub(old(Value()), o) && self == this
    {
      x := x - o.x;
      y := y - o.y;
      z := z - o.z;
      self := this;
    }

    method MulAssign(o: Vector3i) returns (self: MutableVector3)
      requires MulDefined(Value(), o)
      modifies this
      ensures Value() == Mul(old(Value()), o) && self == this
    {
      x := x * o.x;
      y := y * o.y;
      z := z * o.z;
      self := this;
    }

    method DivAssign(o: Vector3i) returns (self: MutableVector3)
      requires DivDefined(Value(), o)
      modifies this
      ensures Value() == Div(old(Value()), o) && self == this
    {
      x := IntDiv(x, o.x);
      y := IntDiv(y, o.y);
      z := IntDiv(z, o.z);
      self := this;
    }

    method AddScalarAssign(s: int32) returns (self: MutableVector3)
      requires AddOk(x, s) && AddOk(y, s) && AddOk(z, s)
      modifies this
      ensures Value() == AddScalar(old(Value()), s) && self == this
    {
      x := x + s;
      y := y + s;
      z := z + s;
      self := this;
    }

    method SubScalarAssign(s: int32) returns (self: MutableVector3)
      requires SubOk(x, s) && SubOk(y, s) && SubOk(z, s)
      modifies this
      ensures Value() == SubScalar(old(Value()), s) && self == this
    {
      x := x - s;
      y := y - s;
      z := z - s;
      self := this;
    }

    method MulScalarAssign(s: int32) returns (self: MutableVector3)
      requires MulOk(x, s) && MulOk(y, s) && MulOk(z, s)
      modifies this
      ensures Value() == MulScalar(old(Value()), s) && self == this
    {
      x := x * s;
      y := y * s;
      z := z * s;
      self := this;
    }

    method DivScalarAssign(s: int32) returns (self: MutableVector3)
      requires DivOk(x, s) && DivOk(y, s) && DivOk(z, s)
      modifies this
      ensures Value() == DivScalar(old(Value()), s) && self == this
    {
      x := IntDiv(x, s);
      y := IntDiv(y, s);
      z := IntDiv(z, s);
      self := this;
    }
  }

  // ---------------------------------------------------------------------------
  // Properties

  /** The default vector is zero and is the identity of `+` and `-`. */
  lemma ZeroIsIdentity(v: Vector3i)
    ensures Zero().x == 0 && Zero().y == 0 && Zero().z == 0
    ensures AddDefined(v, Zero()) && Add(v, Zero()) == v
    ensures SubDefined(v, Zero()) && Sub(v, Zero()) == v
  {
  }

  /** `+v == v`; `-(-v) == v` and `v + (-v)` is zero when no component is the
      most negative `int`. */
  lemma UnaryLaws(v: Vector3i)
    ensures Plus(v) == v
    ensures NegDefined(v) ==> NegDefined(Neg(v)) && Neg(Neg(v)) == v
    ensures NegDefined(v) ==> AddDefined(v, Neg(v)) && Add(v, Neg(v)) == Zero()
  {
  }

  /** Subtraction is addition of the negation. */
  lemma SubIsAddNeg(v: Vector3i, o: Vector3i)
    requires NegDefined(o) && SubDefined(v, o)
    ensures AddDefined(v, Neg(o)) && Add(v, Neg(o)) == Sub(v, o)
  {
  }

  lemma AddCommutes(v: Vector3i, o: Vector3i)
    requires AddDefined(v, o)
    ensures AddDefined(o, v) && Add(o, v) == Add(v, o)
  {
  }

  lemma MulCommutes(v: Vector3i, o: Vector3i)
    requires MulDefined(v, o)
    ensures MulDefined(o, v) && Mul(o, v) == Mul(v, o)
  {
  }

  /** Subtracting what was added restores the vector. */
  lemma AddSubInverse(v: Vector3i, o: Vector3i)
    requires AddDefined(v, o)
    ensures SubDefined(Add(v, o), o) && Sub(Add(v, o), o) == v
  {
  }

  /** Dividing by what was multiplied in restores the vector: the truncating
      division of an exact product is exact. */
  lemma MulDivInverse(v: Vector3i, o: Vector3i)
    requires MulDefined(v, o) && o.x != 0 && o.y != 0 && o.z != 0
    ensures DivDefined(Mul(v, o), o) && Div(Mul(v, o), o) == v
  {
    TruncDivOfProduct(v.x, o.x);
    TruncDivOfProduct(v.y, o.y);
    TruncDivOfProduct(v.z, o.z);
  }

  /** Each scalar operator is the vector operator applied to the scalar
      repeated in every component: the two are defined for the same
      operands and agree there. */
  lemma ScalarFormsBroadcast(v: Vector3i, s: int32)
    ensures AddDefined(v, Vector3(s, s, s)) <==> AddOk(v.x, s) && AddOk(v.y, s) && AddOk(v.z, s)
    ensures SubDefined(v, Vector3(s, s, s)) <==> SubOk(v.x, s) && SubOk(v.y, s) && SubOk(v.z, s)
    ensures MulDefined(v, Vector3(s, s, s)) <==> MulOk(v.x, s) && MulOk(v.y, s) && MulOk(v.z, s)
    ensures DivDefined(v, Vector3(s, s, s)) <==> DivOk(v.x, s) && DivOk(v.y, s) && DivOk(v.z, s)
    ensures AddDefined(v, Vector3(s, s, s)) ==> AddScalar(v, s) == Add(v, Vector3(s, s, s))
    ensures SubDefined(v, Vector3(s, s, s)) ==> SubScalar(v, s) == Sub(v, Vector3(s, s, s))
    ensures MulDefined(v, Vector3(s, s, s)) ==> MulScalar(v, s) == Mul(v, Vector3(s, s, s))
    ensures DivDefined(v, Vector3(s, s, s)) ==> DivScalar(v, s) == Div(v, Vector3(s, s, s))
  {
  }

  /** `s * v == v * s`. */
  lemma ScalarMulCommutes(s: int32, v: Vector3i)
    requires MulOk(v.x, s) && MulOk(v.y, s) && MulOk(v.z, s)
    ensures ScalarMul(s, v) == MulScalar(v, s)
    ensures ScalarMul(s, v) == Mul(Vector3(s, s, s), v)
  {
  }

  lemma AddScalarSubScalarInverse(v: Vector3i, s: int32)
    requires AddOk(v.x, s) && AddOk(v.y, s) && AddOk(v.z, s)
    ensures SubOk(AddScalar(v, s).x, s) && SubOk(AddScalar(v, s).y, s) && SubOk(AddScalar(v, s).z, s)
    ensures SubScalar(AddScalar(v, s), s) == v
  {
  }

  lemma MulScalarDivScalarInverse(v: Vector3i, s: int32)
    requires MulOk(v.x, s) && MulOk(v.y, s) && MulOk(v.z, s) && s != 0
    ensures DivOk(MulScalar(v, s).x, s) && DivOk(MulScalar(v, s).y, s) && DivOk(MulScalar(v, s).z, s)
    ensures DivScalar(MulScalar(v, s), s) == v
  {
    TruncDivOfProduct(v.x, s);
    TruncDivOfProduct(v.y, s);
    TruncDivOfProduct(v.z, s);
  }

  /** Scalar division truncates every component toward zero: each quotient
      times the divisor lies between zero and the component, short of it by
      less than the divisor. */
  lemma DivScalarTruncates(v: Vector3i, s: int32)
    requires DivOk(v.x, s) && DivOk(v.y, s) && DivOk(v.z, s)
    ensures var r := DivScalar(v, s);
      && Abs(r.x * s) <= Abs(v.x) && Abs(v.x - r.x * s) < Abs(s)
      && Abs(r.y * s) <= Abs(v.y) && Abs(v.y - r.y * s) < Abs(s)
      && Abs(r.z * s) <= Abs(v.z) && Abs(v.z - r.z * s) < Abs(s)
  {
  }

  lemma DotSymmetric(v: Vector3i, o: Vector3i)
    requires DotDefined(v, o)
    ensures DotDefined(o, v) && Dot(o, v) == Dot(v, o)
  {
  }

  /** The dot product of a vector with itself is its squared norm. */
  lemma DotSelfIsNormSquared(v: Vector3i)
    requires DotDefined(v, v)
    ensures Dot(v, v) == NormSquared(v)
  {
  }

  /** Swapping the operands negates the cross product. */
  lemma CrossAntiCommutes(v: Vector3i, o: Vector3i)
    requires CrossDefined(v, o) && CrossDefined(o, v)
    ensures NegDefined(Cross(v, o)) && Cross(o, v) == Neg(Cross(v, o))
  {
  }

  /** A vector crossed with itself is zero. */
  lemma CrossSelfZero(v: Vector3i)
    requires CrossDefined(v, v)
    ensures Cross(v, v) == Zero()
  {
  }

  /** The cross product is orthogonal to both operands: over exact integers
      both dot products vanish, and so does `dot` wherever it is defined. */
  lemma CrossOrthogonal(v: Vector3i, o: Vector3i)
    requires CrossDefined(v, o)
    ensures var c := Cross(v, o);
      && v.x * c.x + v.y * c.y + v.z * c.z == 0
      && o.x * c.x + o.y * c.y + o.z * c.z == 0
      && (DotDefined(v, c) ==> Dot(v, c) == 0)
      && (DotDefined(o, c) ==> Dot(o, c) == 0)
  {
    TripleVanishesLeft(v.x, v.y, v.z, o.x, o.y, o.z);
    TripleVanishesRight(v.x, v.y, v.z, o.x, o.y, o.z);
  }

  /** `a . (a x b) == 0` over the integers, expanded term by term. */
  lemma TripleVanishesLeft(a1: int, a2: int, a3: int, b1: int, b2: int, b3: int)
    ensures a1 * (a2 * b3 - a3 * b2) + a2 * (a3 * b1 - a1 * b3) + a3 * (a1 * b2 - a2 * b1) == 0
  {
    assert a1 * (a2 * b3 - a3 * b2) == a1 * a2 * b3 - a1 * a3 * b2;
    assert a2 * (a3 * b1 - a1 * b3) == a2 * a3 * b1 - a1 * a2 * b3;
    assert a3 * (a1 * b2 - a2 * b1) == a1 * a3 * b2 - a2 * a3 * b1;
  }

  /** `b . (a x b) == 0` over the integers, expanded term by term. */
  lemma TripleVanishesRight(a1: int, a2: int, a3: int, b1: int, b2: int, b3: int)
    ensures b1 * (a2 * b3 - a3 * b2) + b2 * (a3 * b1 - a1 * b3) + b3 * (a1 * b2 - a2 * b1) == 0
  {
    assert b1 * (a2 * b3 - a3 * b2) == a2 * b1 * b3 - a3 * b1 * b2;
    assert b2 * (a3 * b1 - a1 * b3) == a3 * b1 * b2 - a1 * b2 * b3;
    assert b3 * (a1 * b2 - a2 * b1) == a1 * b2 * b3 - a2 * b1 * b3;
  }

  /** The basis is right-handed: x cross y is z, y cross z is x, z cross x is y. */
  lemma CrossRightHanded()
    ensures Cross(Vector3(1, 0, 0), Vector3(0, 1, 0)) == Vector3(0, 0, 1)
    ensures Cross(Vector3(0, 1, 0), Vector3(0, 0, 1)) == Vector3(1, 0, 0)
    ensures Cross(Vector3(0, 0, 1), Vector3(1, 0, 0)) == Vector3(0, 1, 0)
  {
  }

  /** The squared norm vanishes only at the zero vector. */
  lemma NormSquaredZero(v: Vector3i)
    ensures NormSquared(v) == 0 <==> v == Zero()
  {
    SquareNonNegative(v.x);
    SquareNonNegative(v.y);
    SquareNonNegative(v.z);
    if NormSquared(v) == 0 {
      SquareZero(v.x);
      SquareZero(v.y);
      SquareZero(v.z);
    }
  }

  /** `norm` is zero exactly when `norm_squared` is, that is, at the zero
      vector. */
  lemma NormZero(v: Vector3i)
    ensures Norm(v) == 0 <==> NormSquared(v) == 0
    ensures Norm(v) == 0 <==> v == Zero()
  {
    ISqrtZero(NormSquared(v));
    NormSquaredZero(v);
  }

  /** `length` and `normSquared` are the same as `norm` and `norm_squared`. */
  lemma NormAliases(v: Vector3i)
    ensures Length(v) == Norm(v)
    ensures NormSquaredAlias(v) == NormSquared(v)
  {
  }

  /** No component exceeds the truncated norm in magnitude. */
  lemma NormBoundsComponents(v: Vector3i)
    ensures Abs(v.x) <= Norm(v) && Abs(v.y) <= Norm(v) && Abs(v.z) <= Norm(v)
  {
    SquareNonNegative(v.x);
    SquareNonNegative(v.y);
    SquareNonNegative(v.z);
    ISqrtBoundsComponent(v.x, NormSquared(v));
    ISqrtBoundsComponent(v.y, NormSquared(v));
    ISqrtBoundsComponent(v.z, NormSquared(v));
  }

  /** Under the exactness bound the norm is a small `int`, zero only for the
      zero vector, and dividing any component by it leaves -1, 0 or 1. */
  lemma NormalizeBounds(v: Vector3i)
    requires NormSquared(v) < EXACT_SQRT_BOUND
    ensures Norm(v) < 0x400_0000
    ensures Norm(v) == 0 <==> v == Zero()
    ensures Norm(v) != 0 ==> -1 <= TruncDiv(v.x, Norm(v)) <= 1 && -1 <= TruncDiv(v.y, Norm(v)) <= 1 && -1 <= TruncDiv(v.z, Norm(v)) <= 1
  {
    var n := Norm(v);
    ISqrtBelowBound(NormSquared(v));
    NormZero(v);
    if n != 0 {
      NormBoundsComponents(v);
      TruncDivSmall(v.x, n);
      TruncDivSmall(v.y, n);
      TruncDivSmall(v.z, n);
    }
  }

  /** Normalising keeps the sign of every component (or sends it to zero). */
  lemma NormalizeKeepsSigns(v: Vector3i)
    requires NormSquared(v) < EXACT_SQRT_BOUND
    ensures var r := Normalize(v);
      && (v.x >= 0 ==> r.x >= 0) && (v.x <= 0 ==> r.x <= 0)
      && (v.y >= 0 ==> r.y >= 0) && (v.y <= 0 ==> r.y <= 0)
      && (v.z >= 0 ==> r.z >= 0) && (v.z <= 0 ==> r.z <= 0)
  {
    NormZero(v);
    if v != Zero() {
      TruncDivSign(v.x, Norm(v));
      TruncDivSign(v.y, Norm(v));
      TruncDivSign(v.z, Norm(v));
    }
  }

  /** A vector along the positive x axis normalises to the unit vector. */
  lemma NormalizeAxis(k: int32)
    requires 0 < k < 0x400_0000
    ensures NormSquared(Vector3(k, 0, 0)) < EXACT_SQRT_BOUND
    ensures Normalize(Vector3(k, 0, 0)) == Vector3(1, 0, 0)
  {
    var v: Vector3i := Vector3(k, 0, 0);
    assert NormSquared(v) == k * k;
    SquareMonotonic(k, 0x400_0000 - 1);
    ISqrtOfSquare(k);
    TruncDivOfProduct(1, k);
    assert TruncDiv(0, k) == 0;
  }

  /** `sign` yields only +1 and -1, sends zero to +1, and is idempotent. */
  lemma SignLaws(v: Vector3i)
    ensures Sign(v).x in {1, -1} && Sign(v).y in {1, -1} && Sign(v).z in {1, -1}
    ensures (Sign(v).x == 1 <==> v.x >= 0) && (Sign(v).y == 1 <==> v.y >= 0) && (Sign(v).z == 1 <==> v.z >= 0)
    ensures Sign(Sign(v)) == Sign(v)
  {
  }

  /** The rendering splits into the tag and the field list, whatever the
      component texts are. */
  lemma RenderLayout(sx: string, sy: string, sz: string)
    ensures "Vector3(x=" + sx + ", y=" + sy + ", z=" + sz + ")"
         == "Vector3" + "(" + (['x'] + "=" + sx + (", " + (['y'] + "=" + sy + (", " + (['z'] + "=" + sz))))) + ")"
  {
  }

  /** The rendering reads back as the three components: it is exactly
      `Vector3(x=<x>, y=<y>, z=<z>)` with every component in decimal. */
  lemma RenderRoundTrip(v: Vector3i)
    ensures ParseVector("Vector3", "xyz", Render(v)) == Some([v.x as int, v.y as int, v.z as int])
  {
    var vals: seq<int> := [v.x as int, v.y as int, v.z as int];
    RenderLayout(Dec(v.x), Dec(v.y), Dec(v.z));
    assert "xyz"[1..] == "yz";
    assert "yz"[1..] == "z";
    assert vals[1..] == [v.y as int, v.z as int] && vals[1..][1..] == [v.z as int];
    VectorRoundTrip("Vector3", "xyz", vals);
  }

  /** Distinct vectors render differently. */
  lemma RenderInjective(v: Vector3i, o: Vector3i)
    requires Render(v) == Render(o)
    ensures v == o
  {
    RenderRoundTrip(v);
    RenderRoundTrip(o);
  }

  /** Converting to a `double` vector and back is the identity. */
  lemma ConvertRoundTrip(v: Vector3i)
    ensures ToIntDefined(ToReal(v)) && ToInt(ToReal(v)) == v
  {
    TruncToIntOfInt(v.x);
    TruncToIntOfInt(v.y);
    TruncToIntOfInt(v.z);
  }

  /** Converting a floating vector to `int` truncates every component toward
      zero: the result lies within one of the component, on the side of zero. */
  lemma ToIntTruncates(v: Vector3r)
    requires ToIntDefined(v)
    ensures var r := ToInt(v);
      && (0.0 <= v.x ==> r.x as real <= v.x < r.x as real + 1.0)
      && (v.x < 0.0 ==> r.x as real - 1.0 < v.x <= r.x as real)
      && (0.0 <= v.y ==> r.y as real <= v.y < r.y as real + 1.0)
      && (v.y < 0.0 ==> r.y as real - 1.0 < v.y <= r.y as real)
      && (0.0 <= v.z ==> r.z as real <= v.z < r.z as real + 1.0)
      && (v.z < 0.0 ==> r.z as real - 1.0 < v.z <= r.z as real)
  {
  }

  /** The integer results the accompanying tests assert for the arithmetic
      operators. */
  lemma ArithmeticExamples()
    ensures Add(Vector3(2, -3, 1), Vector3(-4, 1, 5)) == Vector3(-2, -2, 6)
    ensures AddScalar(Vector3(-2, 8, 3), 12) == Vector3(10, 20, 15)
    ensures Sub(Vector3(5, -2, 8), Vector3(3, 1, 2)) == Vector3(2, -3, 6)
    ensures SubScalar(Vector3(5, -3, 7), 2) == Vector3(3, -5, 5)
    ensures Mul(Vector3(2, -3, 4), Vector3(4, 5, -2)) == Vector3(8, -15, -8)
    ensures ScalarMul(4, Vector3(3, -2, 5)) == MulScalar(Vector3(3, -2, 5), 4) == Vector3(12, -8, 20)
    ensures Div(Vector3(8, -6, 12), Vector3(2, 3, 4)) == Vector3(4, -2, 3)
    ensures DivScalar(Vector3(12, -4, 16), 4) == Vector3(3, -1, 4)
    ensures Dot(Vector3(1, 2, 3), Vector3(4, 5, 6)) == 32
    ensures Cross(Vector3(1, 0, 0), Vector3(0, 1, 0)) == Vector3(0, 0, 1)
  {
  }

  /** The integer results the accompanying tests assert for the norms,
      `normalize` and `sign`. */
  lemma GeometryExamples()
    ensures Norm(Vector3(3, 4, 0)) == Length(Vector3(3, 4, 0)) == 5
    ensures NormSquared(Vector3(3, 4, 0)) == NormSquaredAlias(Vector3(3, 4, 0)) == 25
    ensures NormSquared(Vector3(10, 0, 0)) == 100
    ensures Normalize(Vector3(10, 0, 0)) == Vector3(1, 0, 0)
    ensures Sign(Vector3(10, 0, -5)) == Vector3(1, 1, -1)
    ensures Normalize(Zero()) == Zero()
  {
    ISqrtOfSquare(5);
    NormalizeAxis(10);
  }

  /** The integer results the accompanying tests assert for conversion, and
      one integer rendering in the layout the tests check for floating
      vectors. The decimal literals stand in for the nearest `float` and
      `double` values, which differ from them only far below the first
      fractional digit, so truncation gives the same result for both. */
  lemma ConversionExamples()
    ensures ToReal(Vector3(10, 5, -3)) == Vector3(10.0, 5.0, -3.0)
    ensures ToInt(Vector3(1.1234567, -1.1234567, 2.5)) == Vector3(1, -1, 2)
    ensures ToInt(Vector3(1.1234567891234567, -1.1234567891234567, -0.75)) == Vector3(1, -1, 0)
    ensures Render(Vector3(1, 2, -1)) == "Vector3(x=1, y=2, z=-1)"
  {
  }
}
