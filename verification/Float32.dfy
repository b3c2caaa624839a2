/**
 Single-precision arithmetic: a result is the exact one rounded to 24
 significant binary digits, to the nearest, ties to even. Results too large for
 the format, infinities and NaN do not occur here.
 */
module Float32 {

  function Abs(x: real): (r: real)
    ensures r >= 0.0
  {
    if x >= 0.0 then x else -x
  }

  /** Two to the power e. */
  function Exp2(e: int): (p: real)
    ensures p > 0.0
    decreases if e < 0 then -e else e
  {
    if e == 0 then 1.0 else if e > 0 then 2.0 * Exp2(e - 1) else Exp2(e + 1) / 2.0
  }

  const DIGITS: real := 16777216.0
  const MIN_EXPONENT := -149

  /** The exponent of the last digit of the floats around x, searched from e on. */
  function LastPlace(x: real, e: int): (p: int)
    requires e >= MIN_EXPONENT
    ensures p >= e && Abs(x) < DIGITS * Exp2(p)
    ensures p == e || 2.0 * Abs(x) >= DIGITS * Exp2(p)
    decreases (Abs(x) / Exp2(e)).Floor
  {
    if Abs(x) < DIGITS * Exp2(e) then e
    else
      Exp2Step(e);
      HalvedQuotient(Abs(x), Exp2(e));
      LastPlace(x, e + 1)
  }

  /** Unit in the last place. */
  function Ulp(x: real): (u: real)
    ensures u > 0.0
  {
    Exp2(LastPlace(x, MIN_EXPONENT))
  }

  function RoundEven(x: real): int {
    var f := x.Floor;
    var rest := x - f as real;
    if rest < 0.5 || (rest == 0.5 && f % 2 == 0) then f else f + 1
  }

  function Round(x: real): real {
    RoundEven(x / Ulp(x)) as real * Ulp(x)
  }

  // ---------- powers of two ----------

  lemma Exp2Step(e: int)
    ensures Exp2(e + 1) == 2.0 * Exp2(e)
  {}

  lemma HalvedQuotient(x: real, d: real)
    requires d > 0.0 && x >= DIGITS * d
    ensures 0 <= (x / (2.0 * d)).Floor < (x / d).Floor
  {
    var q := x / d;
    QuotientTimes(x, d);
    ProductOrder(q, DIGITS, d);
    QuotientIs(x, 2.0 * d, q / 2.0);
  }

  lemma QuotientTimes(x: real, d: real)
    requires d > 0.0
    ensures (x / d) * d == x
  {}

  lemma ProductOrder(x: real, y: real, d: real)
    requires d > 0.0
    ensures x < y <==> x * d < y * d
  {
    assert (y - x) * d == y * d - x * d;
    if x < y {
      assert (y - x) * d > 0.0;
    } else {
      assert (x - y) * d >= 0.0;
    }
  }

  lemma QuotientIs(x: real, d: real, q: real)
    requires d > 0.0 && q * d == x
    ensures x / d == q
  {
    QuotientTimes(x, d);
    ProductOrder(x / d, q, d);
    ProductOrder(q, x / d, d);
  }

  lemma {:induction false} Exp2Mono(p: int, e: int)
    requires p <= e
    ensures Exp2(p) <= Exp2(e)
    ensures p < e ==> 2.0 * Exp2(p) <= Exp2(e)
    decreases e - p
  {
    if p < e {
      Exp2Step(e - 1);
      Exp2Mono(p, e - 1);
    }
  }

  /** A whole number of larger units is a whole number of smaller ones. */
  lemma {:induction false} Exp2Multiple(m: int, e: int, p: int) returns (n: int)
    requires p <= e
    ensures m as real * Exp2(e) == n as real * Exp2(p)
    decreases e - p
  {
    hide Exp2;
    if p == e {
      n := m;
    } else {
      Exp2Step(e - 1);
      n := Exp2Multiple(2 * m, e - 1, p);
      assert m as real * (2.0 * Exp2(e - 1)) == (2 * m) as real * Exp2(e - 1);
    }
  }

  // ---------- rounding ----------

  lemma UlpBelow(x: real, e: int)
    requires e >= MIN_EXPONENT && Abs(x) < DIGITS * Exp2(e)
    ensures Ulp(x) <= Exp2(e) && LastPlace(x, MIN_EXPONENT) <= e
  {
    hide Exp2;
    var p := LastPlace(x, MIN_EXPONENT);
    if p > e {
      Exp2Mono(e, p);
    } else {
      Exp2Mono(p, e);
    }
  }

  /** Rounding errs by at most half a unit in the last place. */
  lemma RoundError(x: real)
    ensures 2.0 * Abs(Round(x) - x) <= Ulp(x)
  {
    hide Ulp;
    var u := Ulp(x);
    var q := x / u;
    QuotientTimes(x, u);
    NearestWhole(q);
    HalfUnit(RoundEven(q) as real, q, u);
  }

  lemma NearestWhole(q: real)
    ensures -0.5 <= RoundEven(q) as real - q <= 0.5
  {}

  lemma HalfUnit(n: real, q: real, u: real)
    requires u > 0.0 && -0.5 <= n - q <= 0.5
    ensures 2.0 * Abs(n * u - q * u) <= u
  {
    var above, below := 0.5 - (n - q), 0.5 + (n - q);
    NonnegativeProduct(above, u);
    NonnegativeProduct(below, u);
    assert above * u == 0.5 * u - (n * u - q * u);
    assert below * u == 0.5 * u + (n * u - q * u);
  }

  lemma NonnegativeProduct(x: real, y: real)
    requires x >= 0.0 && y >= 0.0
    ensures x * y >= 0.0
  {}

  /** For results in the normal range, the relative error is at most 2^-24. */
  lemma RelativeError(x: real)
    requires x == 0.0 || Abs(x) >= Exp2(-126)
    ensures DIGITS * Abs(Round(x) - x) <= Abs(x)
  {
    hide Exp2;
    RoundError(x);
    if x == 0.0 {
      QuotientIs(0.0, Ulp(x), 0.0);
    } else {
      SmallestNormal();
    }
  }

  lemma SmallestNormal()
    ensures 2.0 * Exp2(-126) == DIGITS * Exp2(MIN_EXPONENT)
  {
    hide Exp2;
    Exp2Scale(-126, 23);
    Exp2Digits();
  }

  lemma Exp2Digits()
    ensures 2.0 * Exp2(23) == DIGITS
  {
    assert Exp2(12) == 4096.0;
  }

  lemma {:induction false} Exp2Scale(e: int, n: nat)
    ensures Exp2(e) == Exp2(n) * Exp2(e - n)
    decreases n
  {
    if n == 0 {
      One();
    } else {
      hide Exp2;
      Exp2Scale(e, n - 1);
      Exp2Step(e - n);
      Exp2Step(n - 1);
      assert Exp2(n - 1) * (2.0 * Exp2(e - n)) == (2.0 * Exp2(n - 1)) * Exp2(e - n);
    }
  }

  /** What has at most 24 digits is not changed. */
  lemma RoundExact(m: int, e: int)
    requires e >= MIN_EXPONENT && -16777216 < m < 16777216
    ensures Round(m as real * Exp2(e)) == m as real * Exp2(e)
  {
    hide Exp2, Ulp, Round, RoundEven, Abs;
    var x := m as real * Exp2(e);
    BelowDigits(m as real, Exp2(e));
    FineUnits(x, m, e);
  }

  lemma FineUnits(x: real, m: int, e: int)
    requires e >= MIN_EXPONENT && x == m as real * Exp2(e) && Abs(x) < DIGITS * Exp2(e)
    ensures Round(x) == x
  {
    hide Exp2, Ulp, Round, RoundEven, Abs;
    UlpBelow(x, e);
    var n := Exp2Multiple(m, e, LastPlace(x, MIN_EXPONENT));
    UlpIs(x);
    WholeUnits(x, n);
  }

  lemma BelowDigits(m: real, u: real)
    requires u > 0.0 && -DIGITS < m < DIGITS
    ensures Abs(m * u) < DIGITS * u
  {
    ProductOrder(m, DIGITS, u);
    ProductOrder(-m, DIGITS, u);
    Negated(m, u);
  }

  lemma Negated(m: real, u: real)
    ensures (-m) * u == -(m * u)
  {}

  lemma UlpIs(x: real)
    ensures Ulp(x) == Exp2(LastPlace(x, MIN_EXPONENT))
  {}

  lemma WholeUnits(x: real, n: int)
    requires x == n as real * Ulp(x)
    ensures Round(x) == x
  {
    hide Ulp;
    QuotientIs(x, Ulp(x), n as real);
  }

  /** A rounded number has at most 24 digits. */
  lemma AsUnits(x: real) returns (m: int, p: int)
    ensures p == LastPlace(x, MIN_EXPONENT) && -16777216 <= m <= 16777216
    ensures Round(x) == m as real * Exp2(p)
  {
    hide Exp2, Ulp, RoundEven;
    p := LastPlace(x, MIN_EXPONENT);
    UlpIs(x);
    var q := x / Ulp(x);
    m := RoundEven(q);
    QuotientBelow(x, Ulp(x), DIGITS);
    NearestBetween(q, -16777216, 16777216);
  }

  lemma QuotientBelow(x: real, u: real, d: real)
    requires u > 0.0 && Abs(x) < d * u
    ensures -d < x / u < d
  {
    var q := x / u;
    QuotientTimes(x, u);
    ProductOrder(q, d, u);
    ProductOrder(-d, q, u);
    assert (-d) * u == -(d * u);
  }

  /** A rounded number is a float. */
  lemma RoundTwice(x: real)
    ensures Round(Round(x)) == Round(x)
  {
    hide Exp2, Round;
    var m, p := AsUnits(x);
    if -16777216 < m < 16777216 {
      RoundExact(m, p);
    } else {
      var half := if m > 0 then 8388608 else -8388608;
      Exp2Step(p);
      Assoc(half as real, 2.0, Exp2(p));
      RoundExact(half, p + 1);
    }
  }

  lemma Assoc(a: real, b: real, c: real)
    ensures a * (b * c) == (a * b) * c
  {}

  lemma Commute(a: real, b: real)
    ensures a * b == b * a
  {}

  lemma Distribute(a: real, b: real, c: real)
    ensures a * (b + c) == a * b + a * c
  {}

  /** Rounding keeps whole numbers whole. */
  lemma WholeRound(n: int) returns (k: int)
    ensures Round(n as real) == k as real
  {
    hide Exp2, Round;
    if -16777216 < n < 16777216 {
      RoundInteger(n);
      k := n;
    } else {
      var m, p := AsUnits(n as real);
      One();
      if p <= 0 {
        Exp2Mono(p, 0);
      }
      k := Exp2Multiple(m, p, 0);
      assert k as real * 1.0 == k as real;
    }
  }

  lemma RoundInteger(n: int)
    requires -16777216 < n < 16777216
    ensures Round(n as real) == n as real
  {
    RoundExact(n, 0);
    assert n as real * Exp2(0) == n as real;
  }

  /** To evaluate: find the binade, then the nearest whole number of units. */
  lemma RoundAt(x: real, e: int, m: int)
    requires e > MIN_EXPONENT && Abs(x) < DIGITS * Exp2(e) <= 2.0 * Abs(x)
    requires RoundEven(x / Exp2(e)) == m
    ensures Round(x) == m as real * Exp2(e) && Ulp(x) == Exp2(e)
  {
    hide Exp2, RoundEven;
    UlpBelow(x, e);
    var p := LastPlace(x, MIN_EXPONENT);
    if p < e {
      Exp2Mono(p, e);
    }
  }

  /** Rounding does not pass a whole number. */
  lemma RoundBetween(x: real, lo: int, hi: int)
    requires -16777216 < lo <= hi < 16777216 && lo as real <= x <= hi as real
    ensures lo as real <= Round(x) <= hi as real
  {
    hide Exp2, Round, Ulp;
    One();
    UlpBelow(x, 0);
    var a := WholeInUnits(lo, x);
    var b := WholeInUnits(hi, x);
    RoundBetweenUnits(x, lo as real, a, hi as real, b);
  }

  lemma WholeInUnits(n: int, x: real) returns (k: int)
    requires LastPlace(x, MIN_EXPONENT) <= 0
    ensures k as real * Ulp(x) == n as real
  {
    hide Exp2, Ulp;
    One();
    UlpIs(x);
    k := Exp2Multiple(n, 0, LastPlace(x, MIN_EXPONENT));
    assert n as real * 1.0 == n as real;
  }

  lemma RoundBetweenUnits(x: real, lo: real, a: int, hi: real, b: int)
    requires lo == a as real * Ulp(x) && hi == b as real * Ulp(x)
    requires lo <= x <= hi
    ensures lo <= Round(x) <= hi
  {
    hide Ulp;
    var u := Ulp(x);
    var q := x / u;
    QuotientTimes(x, u);
    ProductOrder(q, a as real, u);
    ProductOrder(b as real, q, u);
    NearestBetween(q, a, b);
    ProductOrder(RoundEven(q) as real, a as real, u);
    ProductOrder(b as real, RoundEven(q) as real, u);
  }

  lemma One()
    ensures Exp2(0) == 1.0
  {}

  lemma NearestBetween(q: real, a: int, b: int)
    requires a as real <= q <= b as real
    ensures a <= RoundEven(q) <= b
  {}

  /** The error of rounding a number below a power of two. */
  lemma ErrorBelow(x: real, e: int)
    requires e >= MIN_EXPONENT && Abs(x) < DIGITS * Exp2(e)
    ensures 2.0 * Abs(Round(x) - x) <= Exp2(e)
  {
    hide Exp2, Ulp, Round;
    UlpBelow(x, e);
    RoundError(x);
  }

  lemma FirstPowers()
    ensures Exp2(1) == 2.0 && Exp2(8) == 256.0 && Exp2(-2) == 1.0 / 4.0 && Exp2(-9) == 1.0 / 512.0
  {}

  /** Negative powers that occur below. */
  lemma SmallPowers()
    ensures Exp2(-6) == 1.0 / 64.0 && Exp2(-7) == 1.0 / 128.0 && Exp2(-16) == 1.0 / 65536.0
    ensures Exp2(-19) == 1.0 / 524288.0 && Exp2(-23) == 1.0 / 8388608.0 && Exp2(-25) == 1.0 / 33554432.0
  {
    assert Exp2(-12) == 1.0 / 4096.0;
    assert Exp2(-18) == 1.0 / 262144.0;
  }
}
