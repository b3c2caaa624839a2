/**
 Positional numbers, least significant digit first: the value of a digit
 sequence, the digits of a value, and the facts that these are inverse.
 */
module Digits {
  import opened Nonlinear
  import Bits

  ghost predicate IsDigits(s: seq<nat>, base: nat) {
    forall i :: 0 <= i < |s| ==> s[i] < base
  }

  function Pow(base: nat, n: nat): nat {
    if n == 0 then 1 else base * Pow(base, n - 1)
  }

  function Value(s: seq<nat>, base: nat): nat {
    if |s| == 0 then 0 else s[0] + base * Value(s[1..], base)
  }

  function DigitsOf(x: nat, base: nat, n: nat): (s: seq<nat>)
    requires base > 0
    ensures |s| == n && IsDigits(s, base)
    decreases n
  {
    if n == 0 then [] else [x % base] + DigitsOf(x / base, base, n - 1)
  }

  lemma {:induction false} PowPositive(base: nat, n: nat)
    requires base > 0
    ensures Pow(base, n) > 0
  {
    if n > 0 {
      PowPositive(base, n - 1);
    }
  }

  lemma {:induction false} ValueBound(s: seq<nat>, base: nat)
    requires IsDigits(s, base)
    ensures Value(s, base) < Pow(base, |s|)
  {
    if |s| > 0 {
      ValueBound(s[1..], base);
      var v, p := Value(s[1..], base), Pow(base, |s| - 1);
      MulMono(v + 1, p, base);
      Distribute(base, v, 1);
    }
  }

  /** Digits, then value: nothing is lost when the value fits. */
  lemma {:induction false} ValueOfDigits(x: nat, base: nat, n: nat)
    requires base > 0 && x < Pow(base, n)
    ensures Value(DigitsOf(x, base, n), base) == x
    decreases n
  {
    assert n == 0 ==> x == 0;
    hide Pow;
    if n > 0 {
      QuotientFits(x, base, n);
      DivModIdentity(x, base);
      ValueOfDigits(x / base, base, n - 1);
      ValueOfCons(x % base, DigitsOf(x / base, base, n - 1), base);
    }
  }

  lemma QuotientFits(x: nat, base: nat, n: nat)
    requires base > 0 && n > 0 && x < Pow(base, n)
    ensures 0 <= x / base < Pow(base, n - 1)
  {
    DivNonneg(x, base);
    DivBelow(x, base, Pow(base, n - 1));
  }

  lemma ValueOfCons(d: nat, s: seq<nat>, base: nat)
    ensures Value([d] + s, base) == d + base * Value(s, base)
  {
    assert ([d] + s)[1..] == s;
  }

  /** Value, then digits: every digit sequence comes back. */
  lemma {:induction false} DigitsOfValue(s: seq<nat>, base: nat)
    requires base > 0 && IsDigits(s, base)
    ensures DigitsOf(Value(s, base), base, |s|) == s
  {
    if |s| > 0 {
      var v := Value(s[1..], base);
      DivModUnique(s[0] + base * v, base, v, s[0]);
      DigitsOfValue(s[1..], base);
      assert s == [s[0]] + s[1..];
    }
  }

  /** The k-th digit of a value, by shifting and reducing. */
  lemma {:induction false} DigitAt(x: nat, base: nat, n: nat, k: nat)
    requires base > 0 && k < n
    ensures Pow(base, k) > 0
    ensures DigitsOf(x, base, n)[k] == x / Pow(base, k) % base
    decreases n
  {
    PowPositive(base, k);
    if k > 0 {
      TailDigits(x, base, n);
      DivNonneg(x, base);
      DigitAt(x / base, base, n - 1, k - 1);
      DivNested(x, base, Pow(base, k - 1));
      hide DigitsOf;
    }
  }

  lemma TailDigits(x: nat, base: nat, n: nat)
    requires base > 0 && n > 0
    ensures x / base >= 0
    ensures DigitsOf(x, base, n)[1..] == DigitsOf(x / base, base, n - 1)
  {}

  /** A number that fits both lengths can change its base and come back. */
  lemma ChangeBase(s: seq<nat>, from: nat, to: nat, n: nat)
    requires from > 0 && to > 0 && IsDigits(s, from) && Pow(from, |s|) == Pow(to, n)
    ensures var t := DigitsOf(Value(s, from), to, n);
            Value(t, to) == Value(s, from) && DigitsOf(Value(t, to), from, |s|) == s
  {
    hide Pow, Value, DigitsOf;
    ValueBound(s, from);
    ValueOfDigits(Value(s, from), to, n);
    DigitsOfValue(s, from);
  }

  /** Dropping k digits divides by base^k. */
  lemma {:induction false} DropDigits(s: seq<nat>, base: nat, k: nat)
    requires base > 0 && IsDigits(s, base) && k <= |s|
    ensures Pow(base, k) > 0
    ensures Value(s, base) / Pow(base, k) == Value(s[k..], base)
  {
    PowPositive(base, k);
    if k == 0 {
      assert s[0..] == s;
    } else {
      var v := Value(s[1..], base);
      DivModUnique(Value(s, base), base, v, s[0]);
      DropDigits(s[1..], base, k - 1);
      assert s[1..][k - 1..] == s[k..];
      DivNested(Value(s, base), base, Pow(base, k - 1));
    }
  }

  /** Powers of 2^w are powers of two. */
  lemma {:induction false} PowOfPow2(w: nat, n: nat)
    ensures Pow(Bits.Pow2(w), n) == Bits.Pow2(w * n)
  {
    if n > 0 {
      PowOfPow2(w, n - 1);
      Pow2Add(w, w * (n - 1));
      assert w + w * (n - 1) == w * n;
    }
  }

  lemma {:induction false} Pow2Add(a: nat, b: nat)
    ensures Bits.Pow2(a + b) == Bits.Pow2(a) * Bits.Pow2(b)
  {
    if a > 0 {
      Pow2Add(a - 1, b);
      Assoc(2, Bits.Pow2(a - 1), Bits.Pow2(b));
    }
  }
}
