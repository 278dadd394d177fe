/** Scalar helpers shared by the three vector types: the range of C++ `int`,
    the checked arithmetic it allows, truncating division, the `sign` rule,
    the integer square root standing for `static_cast<int>(std::sqrt(...))`,
    and the floating-to-integer truncation used by conversions. */
module Scalar {

  const INT_MIN: int := -0x8000_0000
  const INT_MAX: int := 0x7FFF_FFFF

  /** Below this bound a non-negative integer is a double, and the correctly
      rounded double square root truncates to the integer square root. */
  const EXACT_SQRT_BOUND: int := 0x10_0000_0000_0000  // 2^52

  /** The values of a 32-bit two's-complement C++ `int`. */
  predicate IsInt32(x: int) {
    INT_MIN <= x <= INT_MAX
  }

  type int32 = x: int | IsInt32(x)

  function Abs(x: int): nat {
    if x < 0 then -x else x
  }

  // Each predicate below holds exactly when the C++ `int` operation on `a`
  // and `b` is defined, that is, does not overflow and does not divide by zero.

  predicate AddOk(a: int32, b: int32) { IsInt32(a + b) }
  predicate SubOk(a: int32, b: int32) { IsInt32(a - b) }
  predicate MulOk(a: int32, b: int32) { IsInt32(a * b) }
  predicate NegOk(a: int32) { a != INT_MIN }
  predicate DivOk(a: int32, b: int32) { b != 0 && !(a == INT_MIN && b == -1) }

  /** C++ integer division: the quotient truncated toward zero (ISO/IEC
      14882:2020 section 7.6.5, paragraph 4). The product `q * b` lies
      between zero and the dividend, and the remainder `a - q * b` is smaller
      than the divisor in magnitude and carries the sign of the dividend. */
  function TruncDiv(a: int, b: int): (q: int)
    requires b != 0
    ensures Abs(q * b) <= Abs(a)
    ensures Abs(a - q * b) < Abs(b)
    ensures a - q * b == 0 || (a - q * b < 0 <==> a < 0)
  {
    var d := Abs(a) / Abs(b);
    var q := if (a < 0) == (b < 0) then d else -d;
    DivSplit(a, b, d, q);
    q
  }

  /** Quotient of the magnitudes, signed by the operands, meets the
      truncation conditions. */
  lemma DivSplit(a: int, b: int, d: int, q: int)
    requires b != 0 && d == Abs(a) / Abs(b)
    requires q == if (a < 0) == (b < 0) then d else -d
    ensures Abs(q * b) <= Abs(a)
    ensures Abs(a - q * b) < Abs(b)
    ensures a - q * b == 0 || (a - q * b < 0 <==> a < 0)
  {
    var m := d * Abs(b);
    NatDivBounds(Abs(a), Abs(b));
    assert 0 <= m && 0 <= Abs(a) - m < Abs(b);
    SignedProduct(a, b, d, q);
    RemainderFromMagnitudes(a, b, m, q * b);
  }

  /** With `m` the magnitude product and `p` that product signed by the
      dividend, the remainder conditions hold; a linear fact. */
  lemma RemainderFromMagnitudes(a: int, b: int, m: int, p: int)
    requires 0 <= m && 0 <= Abs(a) - m < Abs(b)
    requires p == if a < 0 then -m else m
    ensures Abs(p) <= Abs(a)
    ensures Abs(a - p) < Abs(b)
    ensures a - p == 0 || (a - p < 0 <==> a < 0)
  {
  }

  /** The signed quotient times the divisor is the magnitude product, signed
      by the dividend. */
  lemma SignedProduct(a: int, b: int, d: int, q: int)
    requires q == if (a < 0) == (b < 0) then d else -d
    ensures q * b == if a < 0 then -(d * Abs(b)) else d * Abs(b)
  {
    if b < 0 {
      MulNeg(q, Abs(b));
    }
    if q == -d {
      MulNeg(d, Abs(b));
    }
  }

  lemma NatDivBounds(x: nat, y: nat)
    requires y > 0
    ensures 0 <= (x / y) * y
    ensures 0 <= x - (x / y) * y < y
  {
  }

  lemma MulNeg(x: int, y: int)
    ensures x * (-y) == -(x * y)
    ensures (-x) * y == -(x * y)
  {
  }

  lemma AbsMul(a: int, b: int)
    ensures Abs(a * b) == Abs(a) * Abs(b)
  {
    MulNeg(a, b);
    MulNeg(-a, b);
  }

  lemma MulCancel(x: nat, y: nat, b: int)
    requires b > 0 && x * b <= y * b
    ensures x <= y
  {
  }

  lemma MulGrows(x: nat, y: nat)
    requires y >= 1
    ensures x <= x * y
  {
    assert x * y == x * (y - 1) + x;
  }

  lemma Distrib(p: int, q: int, b: int)
    ensures p * b - q * b == (p - q) * b
  {
  }

  /** The remainder conditions pin the quotient down: any `q` meeting them is
      the truncated quotient. */
  lemma TruncDivUnique(a: int, b: int, q: int)
    requires b != 0
    requires Abs(a - q * b) < Abs(b)
    requires a - q * b == 0 || (a - q * b < 0 <==> a < 0)
    ensures q == TruncDiv(a, b)
  {
    var p := TruncDiv(a, b);
    var k := p - q;
    var pb, qb, kb := p * b, q * b, k * b;
    Distrib(p, q, b);
    assert pb - qb == kb;
    assert Abs(a - pb) < Abs(b);
    assert a - pb == 0 || (a - pb < 0 <==> a < 0);
    assert Abs(kb) < Abs(b);
    if k != 0 {
      AbsMul(k, b);
      MulGrows(Abs(b), Abs(k));
      assert false;
    }
  }

  /** The truncated quotient never exceeds the dividend in magnitude. */
  lemma TruncDivMagnitude(a: int, b: int)
    requires b != 0
    ensures Abs(TruncDiv(a, b)) <= Abs(a)
  {
    var q := TruncDiv(a, b);
    var qb := q * b;
    assert Abs(qb) <= Abs(a);
    AbsMul(q, b);
    MulGrows(Abs(q), Abs(b));
  }

  /** C++ `int` division: defined unless the divisor is zero or the quotient
      `INT_MIN / -1` would overflow; the quotient then always fits. */
  function IntDiv(a: int32, b: int32): (q: int32)
    requires DivOk(a, b)
    ensures q == TruncDiv(a, b)
  {
    TruncDivInRange(a, b);
    TruncDiv(a, b)
  }

  lemma TruncDivInRange(a: int32, b: int32)
    requires DivOk(a, b)
    ensures IsInt32(TruncDiv(a, b))
  {
    var q := TruncDiv(a, b);
    TruncDivMagnitude(a, b);
    assert IsInt32(a);
    if q > INT_MAX {
      // Only INT_MIN has a quotient this large, and only for the divisors 1
      // and -1; the first gives a negative quotient and DivOk excludes the
      // second.
      assert q == 0x8000_0000 && a == INT_MIN;
      var qb := q * b;
      assert Abs(qb) <= Abs(a);
      AbsMul(q, b);
      assert false;
    }
  }

  /** Exact division is undone: `(a * b) / b == a`. */
  lemma TruncDivOfProduct(a: int, b: int)
    requires b != 0
    ensures TruncDiv(a * b, b) == a
  {
    TruncDivUnique(a * b, b, a);
  }

  /** When the divisor is at least the dividend in magnitude, the truncated
      quotient is -1, 0 or 1. */
  lemma TruncDivSmall(a: int, b: int)
    requires b > 0 && Abs(a) <= b
    ensures -1 <= TruncDiv(a, b) <= 1
  {
    var q := TruncDiv(a, b);
    AbsMul(q, b);
    MulCancel(Abs(q), 1, b);
  }

  /** The truncated quotient is zero or has the sign the operands agree on. */
  lemma TruncDivSign(a: int, b: int)
    requires b > 0
    ensures a >= 0 ==> TruncDiv(a, b) >= 0
    ensures a <= 0 ==> TruncDiv(a, b) <= 0
  {
  }

  /** The `sign` rule of the vector types: 1 for a non-negative component, -1
      otherwise; zero maps to +1. */
  function IntSign(x: int): (s: int32)
    ensures s == 1 || s == -1
    ensures s == 1 <==> x >= 0
  {
    if x >= 0 then 1 else -1
  }

  /** The integer square root: the largest `r` with `r * r <= n`. Computed by
      halving, so that it recurses only logarithmically often. */
  function ISqrt(n: nat): (r: nat)
    ensures r * r <= n < (r + 1) * (r + 1)
    decreases n
  {
    if n < 4 then (if n == 0 then 0 else 1)
    else
      var h := ISqrt(n / 4);
      ISqrtStep(n, h);
      if (2 * h + 1) * (2 * h + 1) <= n then 2 * h + 1 else 2 * h
  }

  /** Doubling the root of `n / 4` brackets the root of `n`. */
  lemma ISqrtStep(n: nat, h: nat)
    requires h * h <= n / 4 < (h + 1) * (h + 1)
    ensures (2 * h) * (2 * h) <= n < (2 * h + 2) * (2 * h + 2)
  {
    var m := n / 4;
    assert 4 * m <= n < 4 * m + 4;
    assert (2 * h) * (2 * h) == 4 * (h * h);
    assert (2 * h + 2) * (2 * h + 2) == 4 * ((h + 1) * (h + 1));
    assert m + 1 <= (h + 1) * (h + 1);
  }

  lemma SquareNonNegative(x: int)
    ensures x * x >= 0
  {
    if x < 0 { MulNeg(-x, -x); }
  }

  lemma SquareZero(x: int)
    requires x * x <= 0
    ensures x == 0
  {
    if x != 0 {
      AbsMul(x, x);
      MulGrows(Abs(x), Abs(x));
    }
  }

  lemma SquareMonotonic(a: nat, b: nat)
    requires a <= b
    ensures a * a <= b * b
  {
    assert b * b - a * a == (b - a) * (b + a);
  }

  /** The defining inequalities have one solution only. */
  lemma ISqrtUnique(n: nat, r: nat)
    requires r * r <= n < (r + 1) * (r + 1)
    ensures r == ISqrt(n)
  {
    var s := ISqrt(n);
    if r < s {
      SquareMonotonic(r + 1, s);
      assert false;
    } else if s < r {
      SquareMonotonic(s + 1, r);
      assert false;
    }
  }

  lemma ISqrtOfSquare(k: nat)
    ensures ISqrt(k * k) == k
  {
    assert (k + 1) * (k + 1) == k * k + 2 * k + 1;
    ISqrtUnique(k * k, k);
  }

  /** The integer square root vanishes exactly at zero. */
  lemma ISqrtZero(n: nat)
    ensures ISqrt(n) == 0 <==> n == 0
  {
  }

  /** A component whose square is part of `n` is bounded by the square root. */
  lemma ISqrtBoundsComponent(x: int, n: nat)
    requires x * x <= n
    ensures Abs(x) <= ISqrt(n)
  {
    var r := ISqrt(n);
    var a := Abs(x);
    assert a * a == x * x;
    if a > r {
      SquareMonotonic(r + 1, a);
      assert false;
    }
  }

  /** Below the exactness bound the integer square root is a small `int`. */
  lemma ISqrtBelowBound(n: nat)
    requires n < EXACT_SQRT_BOUND
    ensures ISqrt(n) < 0x400_0000  // 2^26
  {
    var r := ISqrt(n);
    if r >= 0x400_0000 {
      SquareMonotonic(0x400_0000, r);
      assert false;
    }
  }

  /** Floating-to-integer conversion: the fractional part is discarded, that
      is, the value is truncated toward zero (ISO/IEC 14882:2020 section
      7.3.11). Exact reals stand for `float` and `double`. */
  function TruncToInt(r: real): (i: int)
    ensures 0.0 <= r ==> 0 <= i && i as real <= r < (i + 1) as real
    ensures r < 0.0 ==> i <= 0 && (i - 1) as real < r <= i as real
  {
    if r >= 0.0 then r.Floor else -((-r).Floor)
  }

  /** Converting an integer to a real and back is the identity. */
  lemma TruncToIntOfInt(n: int)
    ensures TruncToInt(n as real) == n
  {
  }
}
