/** Rounding errors in the ranges that occur in speed control. */
module Float32Bounds {
  import Float32

  lemma Powers()
    ensures Float32.Exp2(-15) == 1.0 / 32768.0 && Float32.Exp2(-16) == 1.0 / 65536.0
    ensures Float32.Exp2(-17) == 1.0 / 131072.0
    ensures Float32.Exp2(-23) == 1.0 / 8388608.0 && Float32.Exp2(-24) == 1.0 / 16777216.0
    ensures Float32.Exp2(-26) == 1.0 / 67108864.0
  {
    assert Float32.Exp2(-12) == 1.0 / 4096.0;
    assert Float32.Exp2(-20) == 1.0 / 1048576.0;
  }

  lemma Relative(x: real)
    requires x == 0.0 || x >= 0.0001 || x <= -0.0001
    ensures -Float32.Abs(x) <= 16777216.0 * (Float32.Round(x) - x) <= Float32.Abs(x)
  {
    hide Float32.Round, Float32.Exp2;
    Powers();
    Float32.Exp2Mono(-126, -16);
    Float32.RelativeError(x);
  }

  lemma Near128(x: real)
    requires -128.0 < x < 128.0
    ensures -0.000004 <= Float32.Round(x) - x <= 0.000004
  {
    hide Float32.Round, Float32.Exp2;
    Powers();
    Float32.ErrorBelow(x, -17);
  }

  lemma Near512(x: real)
    requires -512.0 < x < 512.0
    ensures -0.000016 <= Float32.Round(x) - x <= 0.000016
  {
    hide Float32.Round, Float32.Exp2;
    Powers();
    Float32.ErrorBelow(x, -15);
  }
}

/**
 The speed control loop as the target computes it, in single precision: the
 loop periods without windup are the same ones as in exact arithmetic.
 */
module RoundedControl {
  import opened CArith
  import opened Wrappers
  import opened Float32Bounds
  import Float32
  import Pid
  import SpeedControl

  type Memory = Pid.Memory
  type Input = SpeedControl.Input

  const KP: real := 13421773.0 / 67108864.0
  const KI_LEFT: real := 10066330.0 / 8388608.0
  const KI_RIGHT: real := 15938355.0 / 16777216.0

  /** The gains are the source's decimals, rounded. */
  lemma RoundedGains()
    ensures Float32.Round(0.2) == KP && Float32.Round(1.2) == KI_LEFT && Float32.Round(0.95) == KI_RIGHT
  {
    hide Float32.Round, Float32.Exp2;
    Powers();
    Float32.RoundAt(0.2, -26, 13421773);
    Float32.RoundAt(1.2, -23, 10066330);
    Float32.RoundAt(0.95, -24, 15938355);
  }

  // ---------- arithmetic that rounds every result ----------

  ghost function Sum(x: real, y: real): real {
    Float32.Round(x + y)
  }

  ghost function Product(x: real, y: real): real {
    Float32.Round(x * y)
  }

  ghost function Quotient(x: real, y: real): real
    requires y != 0.0
  {
    Float32.Round(x / y)
  }

  lemma ProductRounds(x: real, y: real)
    ensures Product(x, y) == Float32.Round(x * y)
  {}

  /** The loop period in seconds. */
  ghost function Seconds(periodMs: int): real {
    Quotient(Float32.Round(periodMs as real), 1000.0)
  }

  ghost function Error(target: int, measured: int): real {
    Sum(Float32.Round(target as real), -Float32.Round(measured as real))
  }

  /** The tuning of one wheel. */
  ghost function Tuning(ki: real, periodMs: int): Pid.Gains {
    Pid.Gains(KP, ki, 0.0, 100.0, Seconds(periodMs))
  }

  /** The output before saturation. */
  ghost function Demand(g: Pid.Gains, m: Memory, error: real): real
    requires g.ts != 0.0
  {
    Sum(Sum(Product(g.kp, error), Product(g.ki, m.integral)),
        Product(g.kd, Quotient(Sum(error, -m.errorLast), g.ts)))
  }

  ghost function NextMemory(g: Pid.Gains, m: Memory, error: real): Memory
    requires g.ts != 0.0
  {
    var u := Demand(g, m, error);
    Pid.Memory(if u > g.umax || u < -g.umax then m.integral else Sum(m.integral, Product(error, g.ts)), error)
  }

  datatype State = State(measured: SpeedControl.Measured, left: Memory, right: Memory)

  ghost function After(periodMs: int, h: seq<Input>): State
    requires periodMs > 0
    decreases |h|
  {
    if h == [] then State((0, 0), Pid.RESET, Pid.RESET)
    else
      SecondsPositive(periodMs);
      var s, input := After(periodMs, h[..|h| - 1]), h[|h| - 1];
      var seen := input.measured.GetOr(s.measured);
      if input.target.None? then s.(measured := seen)
      else
        State(seen,
              NextMemory(Tuning(KI_LEFT, periodMs), s.left, Error(input.target.value.0, seen.0)),
              NextMemory(Tuning(KI_RIGHT, periodMs), s.right, Error(input.target.value.1, seen.1)))
  }

  /** A demand beyond full power has the sign of the true difference. */
  ghost predicate PushesToward(demand: real, target: int, seen: int) {
    (demand > 100.0 ==> target > seen) && (demand < -100.0 ==> target < seen)
  }

  ghost predicate PushesTowardTarget(
    periodMs: int, h: seq<Input>, seen: SpeedControl.Measured, target: SpeedControl.Rpms)
    requires periodMs > 0
  {
    SecondsPositive(periodMs);
    var s := After(periodMs, h);
    && PushesToward(Demand(Tuning(KI_LEFT, periodMs), s.left, Error(target.0, seen.0)), target.0, seen.0)
    && PushesToward(Demand(Tuning(KI_RIGHT, periodMs), s.right, Error(target.1, seen.1)), target.1, seen.1)
  }

  // ---------- the inputs of a step ----------

  lemma SecondsPositive(periodMs: int)
    requires periodMs > 0
    ensures Seconds(periodMs) >= 0.0009
    ensures periodMs <= 166 ==> Seconds(periodMs) <= 0.1660001
    ensures periodMs >= 168 ==> Seconds(periodMs) >= 0.1679
  {
    hide Float32.Round;
    Relative(periodMs as real);
    Relative(Float32.Round(periodMs as real) / 1000.0);
  }

  /** Errors are zero or nearly whole, and have the sign of the true difference. */
  lemma ErrorIsWhole(target: I16, measured: int)
    ensures var e := Error(target, measured);
            && (e == 0.0 || e >= 0.99 || e <= -0.99)
            && (e > 0.0 ==> target > measured) && (e < 0.0 ==> target < measured)
  {
    hide Float32.Round;
    Float32.RoundInteger(target);
    var k := Float32.WholeRound(measured);
    Relative((target - k) as real);
    if -16777216 < measured < 16777216 {
      Float32.RoundInteger(measured);
    } else {
      Relative(measured as real);
    }
  }

  /** Without derivative action two terms remain. */
  lemma TwoTerms(g: Pid.Gains, m: Memory, error: real)
    requires g.ts != 0.0 && g.kd == 0.0
    ensures Demand(g, m, error) == Sum(Product(g.kp, error), Product(g.ki, m.integral))
  {
    hide Sum, Product, Quotient;
    NoThirdTerm(Product(g.kp, error), Product(g.ki, m.integral), Quotient(Sum(error, -m.errorLast), g.ts));
  }

  lemma NoThirdTerm(p: real, q: real, d: real)
    ensures Sum(Sum(p, q), Product(0.0, d)) == Sum(p, q)
  {
    hide Float32.Round;
    Float32.RoundInteger(0);
    Float32.RoundTwice(p + q);
    assert 0.0 * d == 0.0;
  }

  // ---------- what every step keeps ----------

  /** The integral is a float and alone never makes the demand exceed full power. */
  ghost predicate Good(ki: real, integral: real) {
    Float32.Round(integral) == integral && -99.9999 <= ki * integral <= 99.9999
  }

  ghost predicate ShortPeriod(ki: real, ts: real) {
    0.9499 <= ki <= 1.2000001 && 0.0009 <= ts <= 0.1660001
  }

  /** An unsaturated step has a small error, and the exact demand is hardly beyond full power. */
  lemma Unsaturated(j: real, e: real)
    requires -99.9999 <= j <= 99.9999 && (e == 0.0 || e >= 0.99 || e <= -0.99)
    requires -100.0 <= Sum(Product(KP, e), Float32.Round(j)) <= 100.0
    ensures -100.0001 <= KP * e + j <= 100.0001 && -1001.5 <= e <= 1001.5
  {
    hide Float32.Round;
    var y := Float32.Round(KP * e) + Float32.Round(j);
    Near128(j);
    WithinHundred(y);
    Relative(KP * e);
    Near512(KP * e);
  }

  lemma WithinHundred(y: real)
    requires -100.0 <= Float32.Round(y) <= 100.0
    ensures -100.00001 <= y <= 100.00001
  {
    hide Float32.Round;
    if -128.0 < y < 128.0 {
      Near128(y);
    } else {
      Relative(y);
    }
  }

  /** With a short period, the integral's step is weaker than the proportional term, by more than rounding. */
  lemma Charge(ki: real, ts: real, e: real)
    requires ShortPeriod(ki, ts) && -1001.5 <= e <= 1001.5
    ensures 0.9499 <= ki <= 1.2000001
    ensures e >= 0.99 ==> 0.0008 <= ki * (e * ts) <= KP * e - 0.0007
    ensures e <= -0.99 ==> KP * e + 0.0007 <= ki * (e * ts) <= -0.0008
    ensures -166.5 < e * ts < 166.5
  {
    ProductRange(ki, 0.9499, 1.2000001, ts, 0.0009, 0.1660001);
    ScaledWithin(ts, 0.1660001, e, 1001.5);
    Float32.Commute(e, ts);
    Float32.Assoc(ki, ts, e);
    ChargeOf(ki * ts, e);
  }

  lemma ChargeOf(a: real, e: real)
    requires 0.00085 <= a <= 0.19921
    ensures e >= 0.99 ==> 0.0008 <= a * e <= KP * e - 0.0007
    ensures e <= -0.99 ==> KP * e + 0.0007 <= a * e <= -0.0008
  {
    var below, above := a - 0.00085, 0.19921 - a;
    var low, high := below * e, above * e;
    Float32.Distribute(e, below, 0.00085);
    Float32.Distribute(e, above, a);
    Float32.Commute(e, below);
    Float32.Commute(e, above);
    Float32.Commute(e, a);
    Signs(below, e);
    Signs(above, e);
  }

  lemma Signs(x: real, e: real)
    requires x >= 0.0
    ensures e >= 0.0 ==> x * e >= 0.0
    ensures e <= 0.0 ==> x * e <= 0.0
  {}

  lemma ProductRange(x: real, lo: real, hi: real, y: real, ylo: real, yhi: real)
    requires 0.0 <= lo <= x <= hi && 0.0 <= ylo <= y <= yhi
    ensures lo * ylo <= x * y <= hi * yhi
  {
    Pid.MulMono(x, ylo, y);
    Pid.MulMono(x, y, yhi);
    Pid.MulMono(ylo, lo, x);
    Pid.MulMono(yhi, x, hi);
  }

  lemma ScaledWithin(k: real, most: real, x: real, bound: real)
    requires 0.0 <= k <= most && -bound <= x <= bound
    ensures -(most * bound) <= k * x <= most * bound
  {
    Pid.ScaledBound(k, x, bound);
    Pid.MulMono(bound, k, most);
  }

  /** The rounded integral differs little from the exact one. */
  lemma RoundedIntegral(ki: real, integral: real, w: real)
    requires 0.9499 <= ki <= 1.2000001 && -99.9999 <= ki * integral <= 99.9999 && -166.5 < w < 166.5
    ensures var next := Float32.Round(integral + Float32.Round(w));
            ki * integral + ki * w - 0.0001 <= ki * next <= ki * integral + ki * w + 0.0001
  {
    hide Float32.Round;
    IntegralRange(ki, integral);
    Near512(w);
    Near512(integral + Float32.Round(w));
    var rest := Float32.Round(integral + Float32.Round(w)) - (integral + w);
    ScaledWithin(ki, 1.2000001, rest, 0.00004);
    Float32.Distribute(ki, integral + w, rest);
    Float32.Distribute(ki, integral, w);
  }

  lemma IntegralRange(ki: real, integral: real)
    requires 0.9499 <= ki && -99.9999 <= ki * integral <= 99.9999
    ensures -106.0 < integral < 106.0
  {
    if integral >= 106.0 {
      Pid.MulMono(ki, 106.0, integral);
    } else if integral <= -106.0 {
      Pid.MulMono(ki, integral, -106.0);
    }
  }

  /** The gains that the bounds below speak of. */
  ghost predicate Proper(g: Pid.Gains) {
    g.kp == KP && g.kd == 0.0 && g.umax == 100.0 && ShortPeriod(g.ki, g.ts)
  }

  lemma GoodKept(g: Pid.Gains, m: Memory, e: real)
    requires Proper(g) && Good(g.ki, m.integral) && (e == 0.0 || e >= 0.99 || e <= -0.99)
    ensures Good(g.ki, NextMemory(g, m, e).integral)
  {
    hide Sum, Product, Demand, Good;
    TwoTerms(g, m, e);
    var u := Demand(g, m, e);
    if -100.0 <= u <= 100.0 {
      GoodCharge(g.ki, g.ts, m.integral, e);
    }
  }

  lemma GoodCharge(ki: real, ts: real, integral: real, e: real)
    requires ShortPeriod(ki, ts) && Good(ki, integral) && (e == 0.0 || e >= 0.99 || e <= -0.99)
    requires -100.0 <= Sum(Product(KP, e), Product(ki, integral)) <= 100.0
    ensures Good(ki, Sum(integral, Product(e, ts)))
  {
    hide Float32.Round, ShortPeriod, Product;
    ProductRounds(ki, integral);
    ProductRounds(e, ts);
    var w, next := e * ts, Sum(integral, Product(e, ts));
    Unsaturated(ki * integral, e);
    Charge(ki, ts, e);
    Float32.RoundTwice(integral + Product(e, ts));
    if e == 0.0 {
      Float32.RoundInteger(0);
      assert w == 0.0;
    } else {
      RoundedIntegral(ki, integral, w);
      StaysBelow(ki * integral, e, ki * w, ki * next);
    }
  }

  /** In numbers: what the charge adds is less than what the proportional term leaves. */
  lemma StaysBelow(before: real, e: real, charge: real, after: real)
    requires -99.9999 <= before <= 99.9999 && -100.0001 <= KP * e + before <= 100.0001
    requires || (e >= 0.99 && 0.0008 <= charge <= KP * e - 0.0007)
             || (e <= -0.99 && KP * e + 0.0007 <= charge <= -0.0008)
    requires before + charge - 0.0001 <= after <= before + charge + 0.0001
    ensures -99.9999 <= after <= 99.9999
  {}

  /** A step from a good memory never pushes against its error. */
  lemma GoodFollowsError(g: Pid.Gains, m: Memory, e: real)
    requires Proper(g) && Good(g.ki, m.integral) && (e == 0.0 || e >= 0.99 || e <= -0.99)
    ensures Demand(g, m, e) > 100.0 ==> e > 0.0
    ensures Demand(g, m, e) < -100.0 ==> e < 0.0
  {
    hide Sum, Product, Demand, Good;
    TwoTerms(g, m, e);
    GoodDemand(g.ki, m.integral, e);
  }

  lemma GoodDemand(ki: real, integral: real, e: real)
    requires Good(ki, integral) && (e == 0.0 || e >= 0.99 || e <= -0.99)
    ensures Sum(Product(KP, e), Product(ki, integral)) > 100.0 ==> e > 0.0
    ensures Sum(Product(KP, e), Product(ki, integral)) < -100.0 ==> e < 0.0
  {
    hide Float32.Round, Product;
    ProportionalSign(e);
    ProductRounds(ki, integral);
    Float32.RoundBetween(ki * integral, -100, 100);
    Halfway(Product(KP, e) + Product(ki, integral));
  }

  lemma ProportionalSign(e: real)
    requires e == 0.0 || e >= 0.99 || e <= -0.99
    ensures e <= 0.0 ==> Product(KP, e) <= 0.0
    ensures e >= 0.0 ==> Product(KP, e) >= 0.0
  {
    hide Float32.Round;
    Relative(KP * e);
  }

  lemma Halfway(y: real)
    ensures y <= 100.0 ==> Float32.Round(y) <= 100.0
    ensures y >= -100.0 ==> Float32.Round(y) >= -100.0
  {
    hide Float32.Round;
    if -128.0 <= y <= 100.0 {
      Float32.RoundBetween(y, -128, 100);
    }
    if -100.0 <= y <= 128.0 {
      Float32.RoundBetween(y, -100, 128);
    }
    if y < -128.0 || y > 128.0 {
      Relative(y);
    }
  }

  lemma {:induction false} StaysGood(periodMs: int, h: seq<Input>)
    requires 0 < periodMs <= 166
    ensures Good(KI_LEFT, After(periodMs, h).left.integral) && Good(KI_RIGHT, After(periodMs, h).right.integral)
    decreases |h|
  {
    hide Float32.Round, NextMemory, Error, Seconds;
    if h == [] {
      Float32.RoundInteger(0);
    } else {
      var s, input := After(periodMs, h[..|h| - 1]), h[|h| - 1];
      var seen := input.measured.GetOr(s.measured);
      StaysGood(periodMs, h[..|h| - 1]);
      SecondsPositive(periodMs);
      if input.target.Some? {
        ErrorIsWhole(input.target.value.0, seen.0);
        ErrorIsWhole(input.target.value.1, seen.1);
        GoodKept(Tuning(KI_LEFT, periodMs), s.left, Error(input.target.value.0, seen.0));
        GoodKept(Tuning(KI_RIGHT, periodMs), s.right, Error(input.target.value.1, seen.1));
      }
    }
  }

  lemma FullPowerFollowsError(periodMs: int, h: seq<Input>, seen: SpeedControl.Measured, target: SpeedControl.Rpms)
    requires 0 < periodMs <= 166
    ensures PushesTowardTarget(periodMs, h, seen, target)
  {
    hide Demand, Error, Seconds, After, Good;
    StaysGood(periodMs, h);
    SecondsPositive(periodMs);
    ErrorIsWhole(target.0, seen.0);
    ErrorIsWhole(target.1, seen.1);
    GoodFollowsError(Tuning(KI_LEFT, periodMs), After(periodMs, h).left, Error(target.0, seen.0));
    GoodFollowsError(Tuning(KI_RIGHT, periodMs), After(periodMs, h).right, Error(target.1, seen.1));
  }

  // ---------- how near the exact loop it is ----------

  /** Rounding changes a moderate demand by less than 0.0001, and so it does an integral's share. */
  lemma StepNearExact(g: Pid.Gains, m: Memory, e: real)
    requires Proper(g) && Good(g.ki, m.integral) && (e == 0.0 || e >= 0.99 || e <= -0.99)
    ensures var d, n := Demand(g, m, e), NextMemory(g, m, e);
            && (-1001.5 <= e <= 1001.5 ==> -0.0001 <= d - (KP * e + g.ki * m.integral) <= 0.0001)
            && (-100.0 <= d <= 100.0 ==>
                 var w := g.ki * (e * g.ts);
                 -0.0001 <= g.ki * n.integral - g.ki * m.integral - w <= 0.0001)
            && (d > 100.0 || d < -100.0 ==> n.integral == m.integral)
            && n.errorLast == e
  {
    hide Sum, Product, Demand, Good;
    TwoTerms(g, m, e);
    if -1001.5 <= e <= 1001.5 {
      DemandNear(g.ki, m.integral, e);
    }
    if -100.0 <= Demand(g, m, e) <= 100.0 {
      ChargeNear(g.ki, g.ts, m.integral, e);
    }
  }

  lemma DemandNear(ki: real, integral: real, e: real)
    requires Good(ki, integral) && -1001.5 <= e <= 1001.5
    ensures -0.0001 <= Sum(Product(KP, e), Product(ki, integral)) - (KP * e + ki * integral) <= 0.0001
  {
    hide Float32.Round, Product;
    ProductRounds(KP, e);
    ProductRounds(ki, integral);
    Near512(KP * e);
    Near128(ki * integral);
    Near512(Product(KP, e) + Product(ki, integral));
  }

  lemma ChargeNear(ki: real, ts: real, integral: real, e: real)
    requires ShortPeriod(ki, ts) && Good(ki, integral) && (e == 0.0 || e >= 0.99 || e <= -0.99)
    requires -100.0 <= Sum(Product(KP, e), Product(ki, integral)) <= 100.0
    ensures -0.0001 <= ki * Sum(integral, Product(e, ts)) - ki * integral - ki * (e * ts) <= 0.0001
  {
    hide Float32.Round, ShortPeriod, Product;
    ProductRounds(ki, integral);
    ProductRounds(e, ts);
    Unsaturated(ki * integral, e);
    Charge(ki, ts, e);
    RoundedIntegral(ki, integral, e * ts);
  }

  /** Each wheel's controller is stepped by its own error, with its own tuning, from the newest measurement. */
  lemma StepsInNumbers(periodMs: int, h: seq<Input>, input: Input)
    requires periodMs > 0
    ensures var s, n := After(periodMs, h), After(periodMs, h + [input]);
            && n.measured == (if input.measured.Some? then input.measured.value else s.measured)
            && (input.target.None? ==> n.left == s.left && n.right == s.right)
            && Tuning(KI_LEFT, periodMs).ts != 0.0 && Tuning(KI_RIGHT, periodMs).ts != 0.0
            && (input.target.Some? ==>
                 && n.left == NextMemory(Tuning(KI_LEFT, periodMs), s.left,
                                         Error(input.target.value.0, n.measured.0))
                 && n.right == NextMemory(Tuning(KI_RIGHT, periodMs), s.right,
                                          Error(input.target.value.1, n.measured.1)))
    ensures After(periodMs, []) == State((0, 0), Pid.Memory(0.0, 0.0), Pid.Memory(0.0, 0.0))
  {
    hide NextMemory, Error, Seconds;
    SecondsPositive(periodMs);
    var g := h + [input];
    assert g[..|g| - 1] == h;
  }

  // ---------- longer periods ----------

  /** A target while the left wheel is at rest steps its controller with the target as error. */
  lemma LeftStep(periodMs: int, h: seq<Input>, target: I16)
    requires periodMs > 0 && After(periodMs, h).measured == (0, 0)
    ensures var n := After(periodMs, h + [SpeedControl.Input(None, Some((target, 0)))]);
            && Tuning(KI_LEFT, periodMs).ts != 0.0
            && n.measured == (0, 0)
            && n.left == NextMemory(Tuning(KI_LEFT, periodMs), After(periodMs, h).left, target as real)
  {
    hide NextMemory, Seconds, Error;
    var g := h + [SpeedControl.Input(None, Some((target, 0)))];
    assert g[..|g| - 1] == h;
    SecondsPositive(periodMs);
    ErrorAtRest(target);
  }

  lemma ErrorAtRest(target: I16)
    ensures Error(target, 0) == target as real
  {
    hide Float32.Round;
    Float32.RoundInteger(target);
    Float32.RoundInteger(0);
  }

  /** The integral after an unsaturated step. */
  lemma ChargedLeft(periodMs: int, h: seq<Input>, target: I16)
    requires periodMs > 0 && After(periodMs, h).measured == (0, 0)
    requires var i := After(periodMs, h).left.integral;
             -100.0 <= Sum(Product(KP, target as real), Product(KI_LEFT, i)) <= 100.0
    ensures var n := After(periodMs, h + [SpeedControl.Input(None, Some((target, 0)))]);
            && n.measured == (0, 0)
            && n.left.integral
               == Sum(After(periodMs, h).left.integral, Product(target as real, Seconds(periodMs)))
  {
    hide Sum, Product, Demand, After, Seconds;
    LeftStep(periodMs, h, target);
    TwoTerms(Tuning(KI_LEFT, periodMs), After(periodMs, h).left, target as real);
  }

  /** From 168 ms on, one step with an error of 499 overcharges the integral. */
  lemma OneCharge(ts: real)
    requires ts >= 0.1679
    ensures -100.0 <= Sum(Product(KP, 499.0), Product(KI_LEFT, 0.0)) <= 100.0
    ensures Sum(Product(KP, -1.0), Product(KI_LEFT, Sum(0.0, Product(499.0, ts)))) > 100.0
  {
    hide Float32.Round;
    Float32.RoundInteger(0);
    Near128(KP * 499.0);
    Near128(Float32.Round(KP * 499.0));
    var i := Float32.Round(Float32.Round(499.0 * ts));
    Relative(499.0 * ts);
    Relative(Float32.Round(499.0 * ts));
    Relative(KI_LEFT * i);
    Near128(-KP);
    Relative(Float32.Round(-KP) + Float32.Round(KI_LEFT * i));
  }

  /** At 167 ms, errors of -500 and 1001 do; both stay just within the output limit. */
  lemma TwoCharges(ts: real)
    requires ts == 11207180.0 / 67108864.0
    ensures -100.0 <= Sum(Product(KP, -500.0), Product(KI_LEFT, 0.0)) <= 100.0
    ensures var i := Sum(0.0, Product(-500.0, ts));
            && -100.0 <= Sum(Product(KP, 1001.0), Product(KI_LEFT, i)) <= 100.0
            && Sum(Product(KP, -1.0), Product(KI_LEFT, Sum(i, Product(1001.0, ts)))) > 100.0
  {
    hide Float32.Round, Float32.Exp2;
    Powers();
    Float32.RoundInteger(0);
    Float32.RoundInteger(-100);
    Float32.RoundAt(KP * -500.0, -17, -13107200);
    Float32.RoundAt(-500.0 * ts, -17, -10944512);
    Float32.RoundTwice(-500.0 * ts);
    assert Sum(0.0, Product(-500.0, ts)) == -83.5;
    Float32.RoundAt(KP * 1001.0, -16, 13120307);
    Float32.RoundAt(KI_LEFT * -83.5, -17, -13133415);
    Float32.RoundAt(13120307.0 / 65536.0 - 13133415.0 / 131072.0, -17, 13107199);
    Near512(1001.0 * ts);
    Near128(-83.5 + Float32.Round(1001.0 * ts));
    var i := Float32.Round(-83.5 + Float32.Round(1001.0 * ts));
    Near128(KI_LEFT * i);
    Near128(-KP);
    Near128(Float32.Round(-KP) + Float32.Round(KI_LEFT * i));
  }

  lemma Seconds167()
    ensures Seconds(167) == 11207180.0 / 67108864.0
  {
    hide Float32.Round, Float32.Exp2;
    Powers();
    Float32.RoundInteger(167);
    Float32.RoundAt(0.167, -26, 11207180);
  }

  lemma SlowLoopFights(periodMs: int)
    requires periodMs > 166
    ensures !PushesTowardTarget(periodMs, SpeedControl.Overcharging(periodMs), (0, 0), (-1, 0))
  {
    hide Sum, Product, Demand, After, Seconds;
    var first := if periodMs == 167 then -500 else 499;
    var h1 := [] + [SpeedControl.Input(None, Some((first, 0)))];
    var ts := Seconds(periodMs);
    StartsIdle(periodMs);
    SecondsPositive(periodMs);
    if periodMs == 167 {
      Seconds167();
      TwoCharges(ts);
      ChargedLeft(periodMs, [], first);
      ChargedLeft(periodMs, h1, 1001);
      assert h1 + [SpeedControl.Input(None, Some((1001, 0)))] == SpeedControl.Overcharging(periodMs);
    } else {
      OneCharge(ts);
      ChargedLeft(periodMs, [], first);
      assert h1 == SpeedControl.Overcharging(periodMs);
    }
    ErrorAtRest(-1);
    TwoTerms(Tuning(KI_LEFT, periodMs), After(periodMs, SpeedControl.Overcharging(periodMs)).left, -1.0);
  }

  lemma StartsIdle(periodMs: int)
    requires periodMs > 0
    ensures After(periodMs, []) == State((0, 0), Pid.RESET, Pid.RESET)
  {}

  /**
   Rounding does not move the limit: in single precision, too, neither wheel is
   ever driven at full power against its speed error if and only if the loop
   period is at most 166 ms.
   */
  lemma PeriodsWithoutWindup(periodMs: int)
    requires periodMs > 0
    ensures (forall h, seen, target :: PushesTowardTarget(periodMs, h, seen, target)) <==> periodMs <= 166
  {
    hide PushesTowardTarget;
    if periodMs <= 166 {
      forall h, seen, target
        ensures PushesTowardTarget(periodMs, h, seen, target)
      {
        FullPowerFollowsError(periodMs, h, seen, target);
      }
    } else {
      SlowLoopFights(periodMs);
    }
  }
}
