/**
 C integer arithmetic over Dafny's unbounded integers: fixed-width types, the
 conversions to them (two's complement, as on the target), and division and
 float-to-integer conversion that truncate toward zero.
 */
module CArith {
  import opened Nonlinear

  type U8 = x: int | 0 <= x < 0x100
  type U16 = x: int | 0 <= x < 0x1_0000
  type U32 = x: int | 0 <= x < 0x1_0000_0000
  type I16 = x: int | -0x8000 <= x < 0x8000
  type I32 = x: int | -0x8000_0000 <= x < 0x8000_0000

  function ToU16(x: int): U16 {
    x % 0x1_0000
  }

  function ToU32(x: int): U32 {
    x % 0x1_0000_0000
  }

  function ToI16(x: int): I16 {
    (x + 0x8000) % 0x1_0000 - 0x8000
  }

  function ToI32(x: int): I32 {
    (x + 0x8000_0000) % 0x1_0000_0000 - 0x8000_0000
  }

  function Abs(x: int): nat {
    if x >= 0 then x else -x
  }

  function Neg(x: int): int {
    -x
  }

  function WithSign(positive: bool, x: int): int {
    if positive then x else -x
  }

  /** C's `/` for a positive divisor: the quotient is rounded toward zero. */
  function TruncDiv(a: int, b: int): int
    requires b > 0
  {
    if a >= 0 then a / b else -((-a) / b)
  }

  /** C's conversion of a floating value to an integer. */
  function TruncReal(x: real): int {
    if x >= 0.0 then x.Floor else -((-x).Floor)
  }

  /** q is a divided by d and rounded toward zero: q * d does not exceed a in magnitude, nor differ from it by d. */
  ghost predicate IsQuotient(q: int, a: int, d: int) {
    && Abs(d * q) <= Abs(a) < Abs(d * q) + d
    && (a >= 0 ==> q >= 0) && (a <= 0 ==> q <= 0)
  }

  lemma TruncatesTowardZero(a: int, b: int)
    requires b > 0
    ensures IsQuotient(TruncDiv(a, b), a, b)
    ensures TruncDiv(-a, b) == -TruncDiv(a, b)
  {
    var n := Abs(a);
    DivModIdentity(n, b);
    DivNonneg(n, b);
    DivNonneg(0, b);
    MulMono(0, n / b, b);
    Distribute(b, n / b, -(n / b));
    Assoc(b, n / b, -1);
    assert Abs(TruncDiv(a, b)) == n / b;
    assert b * TruncDiv(a, b) == b * (n / b) || b * TruncDiv(a, b) == -(b * (n / b));
  }

  /** No other number is such a quotient. */
  lemma QuotientUnique(q: int, a: int, b: int)
    requires b > 0 && IsQuotient(q, a, b)
    ensures q == TruncDiv(a, b)
  {
    var n, p := Abs(a), Abs(q);
    if a >= 0 {
      MulMono(0, q, b);
      DivModUnique(n, b, q, n - b * q);
    } else {
      MulMono(q, 0, b);
      Assoc(b, q, -1);
      DivModUnique(n, b, -q, n - b * (-q));
    }
  }

  /** Conversion of a float drops the fraction, on either side of zero. */
  lemma RealTruncatesTowardZero(x: real)
    ensures x >= 0.0 ==> 0 <= TruncReal(x) && TruncReal(x) as real <= x < TruncReal(x) as real + 1.0
    ensures TruncReal(-x) == -TruncReal(x)
  {}

  /** Every conversion to a fixed width changes a value by a multiple of the width. */
  lemma ConversionsWrap(x: int)
    ensures (x - ToU16(x)) % 0x1_0000 == 0 && (x - ToI16(x)) % 0x1_0000 == 0
    ensures (x - ToU32(x)) % 0x1_0000_0000 == 0 && (x - ToI32(x)) % 0x1_0000_0000 == 0
  {
    RemainderVanishes(x, 0x1_0000);
    RemainderVanishes(x + 0x8000, 0x1_0000);
    RemainderVanishes(x, 0x1_0000_0000);
    RemainderVanishes(x + 0x8000_0000, 0x1_0000_0000);
  }

  lemma RemainderVanishes(x: int, d: int)
    requires d > 0
    ensures (x - x % d) % d == 0
  {
    DivModIdentity(x, d);
    DivModUnique(x - x % d, d, x / d, 0);
  }

  lemma CountWraps(x: int)
    ensures ToU32(ToU32(x) + 1) == ToU32(x + 1)
    ensures ToU32(x) + 1 < 0x1_0000_0000 ==> ToU32(x + 1) == ToU32(x) + 1
    ensures ToU32(x) + 1 == 0x1_0000_0000 ==> ToU32(x + 1) == 0
  {}

  /** Partial sums may be reduced to 16 bits at any point. */
  lemma SumWraps(x: int, y: int)
    ensures ToU16(ToU16(x) + y) == ToU16(x + y)
  {}

  /** A truncated quotient lies between the multiples that enclose the dividend. */
  lemma TruncDivBounds(a: int, b: int, lo: int, hi: int)
    requires b > 0 && b * lo <= a <= b * hi
    ensures lo <= TruncDiv(a, b) <= hi
  {
    if a >= 0 {
      DivBetween(a, b, lo, hi);
    } else {
      DivBetween(-a, b, -hi, -lo);
    }
  }

  /** Successive truncating divisions are one truncating division. */
  lemma TruncDivNested(a: int, b: int, c: int)
    requires b > 0 && c > 0
    ensures b * c > 0
    ensures TruncDiv(TruncDiv(a, b), c) == TruncDiv(a, b * c)
  {
    MulPositive(b, c);
    var n: nat := if a >= 0 then a else -a;
    var q := n / b;
    DivNested(n, b, c);
    DivNonneg(n, b);
    DivNonneg(q, c);
    assert TruncDiv(a, b) == if a >= 0 then q else -q;
    assert TruncDiv(TruncDiv(a, b), c) == if a >= 0 then q / c else -(q / c);
  }
}
