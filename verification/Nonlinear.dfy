/**
 Facts about products and Euclidean quotients that the solver needs one at a
 time.
 */
module Nonlinear {

  lemma MulMono(x: int, y: int, b: int)
    requires x <= y && b >= 0
    ensures x * b <= y * b && b * x <= b * y
  {
    assert (y - x) * b >= 0;
    assert (y - x) * b == y * b - x * b;
  }

  /** A nonzero multiple of d is at least d away from zero. */
  lemma MulAway(d: int, e: int)
    requires d > 0
    ensures e >= 1 ==> d * e >= d
    ensures e <= -1 ==> d * e <= -d
  {
    if e >= 1 {
      MulMono(1, e, d);
    } else if e <= -1 {
      MulMono(e, -1, d);
    }
  }

  lemma Distribute(a: int, b: int, c: int)
    ensures a * (b + c) == a * b + a * c
  {}

  lemma Assoc(a: int, b: int, c: int)
    ensures a * (b * c) == (a * b) * c
  {}

  lemma MulPositive(a: int, b: int)
    requires a > 0 && b > 0
    ensures a * b > 0
  {}

  lemma DivModIdentity(x: int, d: int)
    requires d > 0
    ensures d * (x / d) + x % d == x && 0 <= x % d < d
  {}

  /** Quotient and remainder are determined by their defining equation. */
  lemma DivModUnique(x: int, d: int, q: int, r: int)
    requires d > 0 && 0 <= r < d && x == d * q + r
    ensures x / d == q && x % d == r
  {
    var e := x / d - q;
    Distribute(d, q, e);
    MulAway(d, e);
  }

  lemma DivNested(x: int, b: int, c: int)
    requires b > 0 && c > 0
    ensures b * c > 0
    ensures x / b / c == x / (b * c)
  {
    MulPositive(b, c);
    var q := x / b;
    var p := q / c;
    var rest := b * (q % c) + x % b;
    Distribute(b, c * p, q % c);
    Assoc(b, c, p);
    assert q == c * p + q % c;
    assert x == (b * c) * p + rest;
    MulMono(q % c, c - 1, b);
    MulMono(0, q % c, b);
    Distribute(b, c, -1);
    DivModUnique(x, b * c, p, rest);
  }

  /** A quotient lies between the multiples that enclose the dividend. */
  lemma DivBetween(x: int, d: int, lo: int, hi: int)
    requires d > 0 && d * lo <= x <= d * hi
    ensures lo <= x / d <= hi
  {
    var q := x / d;
    Distribute(d, q, -lo);
    Distribute(d, hi, -q);
    MulAway(d, q - lo);
    MulAway(d, hi - q);
  }

  /** A multiple of the divisor passes through the quotient and vanishes from the remainder. */
  lemma AddMultiple(x: int, d: int, m: int)
    requires d > 0
    ensures (x + d * m) / d == x / d + m && (x + d * m) % d == x % d
  {
    Distribute(d, x / d, m);
    DivModUnique(x + d * m, d, x / d + m, x % d);
  }

  /** Counting modulo n: one step up, or back to zero. */
  lemma ModStep(x: int, n: int)
    requires n > 0
    ensures (x + 1) % n == if x % n + 1 == n then 0 else x % n + 1
  {
    if x % n + 1 == n {
      Distribute(n, x / n, 1);
      DivModUnique(x + 1, n, x / n + 1, 0);
    } else {
      DivModUnique(x + 1, n, x / n, x % n + 1);
    }
  }

  lemma DivNonneg(x: int, d: int)
    requires d > 0 && x >= 0
    ensures x / d >= 0
    ensures x == 0 ==> x / d == 0
  {
    if x == 0 {
      DivModUnique(0, d, 0, 0);
    } else {
      MulAway(d, x / d);
    }
  }

  lemma DivBelow(x: int, d: int, hi: int)
    requires d > 0 && x < d * hi
    ensures x / d < hi
  {
    var q := x / d;
    Distribute(d, q, -hi);
    if q >= hi {
      MulMono(0, q - hi, d);
    }
  }

  /** The remainder by 2m, from the remainder of the half by m. */
  lemma ModHalves(x: int, m: int)
    requires m > 0
    ensures x % (2 * m) == 2 * ((x / 2) % m) + x % 2
  {
    var h := x / 2;
    var q := h / m;
    assert h == m * q + h % m;
    Assoc(2, m, q);
    DivModUnique(x, 2 * m, q, 2 * (h % m) + x % 2);
  }
}
