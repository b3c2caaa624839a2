/**
 Bitwise operators of C on non-negative values, defined bit by bit, with the
 two arithmetic facts that the codecs rest on: `|` of values that share no bit
 is their sum, and `&` with a mask of low ones is a remainder.
 */
module Bits {
  import opened Nonlinear

  function Pow2(k: nat): (p: nat)
    ensures p > 0
  {
    if k == 0 then 1 else 2 * Pow2(k - 1)
  }

  function Or(x: nat, y: nat): nat
    decreases x + y
  {
    if x == 0 && y == 0 then 0
    else 2 * Or(x / 2, y / 2) + (if x % 2 == 1 || y % 2 == 1 then 1 else 0)
  }

  function And(x: nat, y: nat): (r: nat)
    ensures r <= x && r <= y
    decreases x
  {
    if x == 0 then 0
    else 2 * And(x / 2, y / 2) + (if x % 2 == 1 && y % 2 == 1 then 1 else 0)
  }

  function Shl(x: nat, k: nat): nat {
    x * Pow2(k)
  }

  function Shr(x: nat, k: nat): nat {
    DivNonneg(x, Pow2(k));
    x / Pow2(k)
  }

  lemma {:induction false} OrZero(x: nat)
    ensures Or(x, 0) == x && Or(0, x) == x
  {
    if x > 0 {
      OrZero(x / 2);
    }
  }

  /** Values that share no bit: the low one lies below bit k, the high one above. */
  lemma {:induction false} OrDisjoint(low: nat, high: nat, k: nat)
    requires low < Pow2(k)
    ensures Or(low, Shl(high, k)) == low + Shl(high, k) == Or(Shl(high, k), low)
  {
    if k == 0 {
      assert low == 0 && Shl(high, 0) == high;
      OrZero(high);
    } else {
      var shifted := Shl(high, k);
      Assoc(high, 2, Pow2(k - 1));
      Assoc(2, high, Pow2(k - 1));
      assert shifted == 2 * Shl(high, k - 1);
      OrDisjoint(low / 2, high, k - 1);
    }
  }

  lemma {:induction false} AndLowMask(x: nat, k: nat)
    ensures And(x, Pow2(k) - 1) == x % Pow2(k)
    decreases k
  {
    hide And;
    if k == 0 {
      AndZero(x);
    } else {
      var m := Pow2(k - 1);
      assert Pow2(k) == 2 * m;
      AndOddMask(x, m - 1);
      AndLowMask(x / 2, k - 1);
      ModHalves(x, m);
    }
  }

  lemma AndEvenMask(x: nat, m: nat)
    ensures And(x, 2 * m) == 2 * And(x / 2, m)
  {
    assert (2 * m) / 2 == m && (2 * m) % 2 == 0;
  }

  lemma AndOddMask(x: nat, m: nat)
    ensures And(x, 2 * m + 1) == 2 * And(x / 2, m) + x % 2
  {}

  lemma {:induction false} AndZero(x: nat)
    ensures And(x, 0) == 0
  {
    if x > 0 {
      AndZero(x / 2);
    }
  }
}
