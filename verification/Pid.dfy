/**
 The speed controller: PID with a saturated output, whose integral is updated
 only by unsaturated steps. Floats are reals.
 */
module Pid {

  datatype Gains = Gains(kp: real, ki: real, kd: real, umax: real, ts: real) {
    ghost predicate Valid() {
      kp >= 0.0 && ki > 0.0 && kd >= 0.0 && umax > 0.0 && ts > 0.0
    }
  }

  datatype Memory = Memory(integral: real, errorLast: real)

  const RESET := Memory(0.0, 0.0)

  /** The output before saturation. */
  function Demand(g: Gains, m: Memory, error: real): real
    requires g.ts != 0.0
  {
    g.kp * error + g.ki * m.integral + g.kd * ((error - m.errorLast) / g.ts)
  }

  function Saturate(u: real, umax: real): real {
    if u > umax then umax else if u < -umax then -umax else u
  }

  predicate Saturated(g: Gains, m: Memory, error: real)
    requires g.ts != 0.0
  {
    var u := Demand(g, m, error);
    u > g.umax || u < -g.umax
  }

  /** The memory after one step: saturated steps do not integrate. */
  function NextMemory(g: Gains, m: Memory, error: real): Memory
    requires g.ts != 0.0
  {
    Memory(if Saturated(g, m, error) then m.integral else m.integral + error * g.ts, error)
  }

  ghost function After(g: Gains, errors: seq<real>): Memory
    requires g.ts != 0.0
    decreases |errors|
  {
    if errors == [] then RESET
    else NextMemory(g, After(g, errors[..|errors| - 1]), errors[|errors| - 1])
  }

  // ---------- what the integral is ----------

  /** The errors of the unsaturated steps, added up. */
  ghost function UnsaturatedSum(g: Gains, errors: seq<real>): real
    requires g.ts != 0.0
    decreases |errors|
  {
    if errors == [] then 0.0
    else
      var before := errors[..|errors| - 1];
      UnsaturatedSum(g, before)
      + if Saturated(g, After(g, before), errors[|errors| - 1]) then 0.0 else errors[|errors| - 1]
  }

  lemma {:induction false} IntegralIsUnsaturatedSum(g: Gains, errors: seq<real>)
    requires g.ts != 0.0
    ensures After(g, errors).integral == g.ts * UnsaturatedSum(g, errors)
    decreases |errors|
  {
    hide Saturated;
    if errors != [] {
      var before, e := errors[..|errors| - 1], errors[|errors| - 1];
      IntegralIsUnsaturatedSum(g, before);
      assert g.ts * (UnsaturatedSum(g, before) + e) == g.ts * UnsaturatedSum(g, before) + e * g.ts;
    }
  }

  /** Limiting keeps a demand within the limit and sends every other one to the limit on its own side. */
  lemma SaturatesOnItsSide(u: real, umax: real)
    requires umax >= 0.0
    ensures -umax <= u <= umax ==> Saturate(u, umax) == u
    ensures u > umax ==> Saturate(u, umax) == umax
    ensures u < -umax ==> Saturate(u, umax) == -umax
  {}

  /** The control law over a run: proportional to the error, to the unsaturated sum and to the last change. */
  lemma DemandOfRun(g: Gains, errors: seq<real>, error: real)
    requires g.ts != 0.0
    ensures var last := if errors == [] then 0.0 else errors[|errors| - 1];
            Demand(g, After(g, errors), error)
            == g.kp * error + g.ki * (g.ts * UnsaturatedSum(g, errors)) + g.kd * ((error - last) / g.ts)
    ensures !Saturated(g, After(g, errors), error) <==> -g.umax <= Demand(g, After(g, errors), error) <= g.umax
  {
    hide UnsaturatedSum, After;
    IntegralIsUnsaturatedSum(g, errors);
    LastError(g, errors);
  }

  lemma LastError(g: Gains, errors: seq<real>)
    requires g.ts != 0.0
    ensures After(g, errors).errorLast == if errors == [] then 0.0 else errors[|errors| - 1]
  {}

  // ---------- bounds over runs ----------

  ghost predicate Bounded(errors: seq<real>, e: real) {
    forall i :: 0 <= i < |errors| ==> -e <= errors[i] <= e
  }

  lemma MulMono(a: real, x: real, y: real)
    requires a >= 0.0 && x <= y
    ensures a * x <= a * y
  {}

  lemma DivMono(a: real, x: real, y: real)
    requires a > 0.0 && x <= y
    ensures x / a <= y / a
  {}

  lemma NegDiv(x: real, a: real)
    requires a > 0.0
    ensures (-x) / a == -(x / a)
  {
    var p, q := x / a, (-x) / a;
    assert a * p == x && a * q == -x;
    assert a * (p + q) == a * p + a * q;
    if p + q > 0.0 {
      MulStrict(a, p + q);
    } else if p + q < 0.0 {
      MulStrict(a, -(p + q));
    }
  }

  lemma MulStrict(a: real, x: real)
    requires a > 0.0 && x > 0.0
    ensures a * x > 0.0
  {}

  /** |x| <= b, scaled. */
  lemma ScaledBound(a: real, x: real, b: real)
    requires a >= 0.0 && -b <= x <= b
    ensures -(a * b) <= a * x <= a * b
  {
    MulMono(a, x, b);
    MulMono(a, -b, x);
    assert a * (-b) == -(a * b);
  }

  /** The demand that the integral alone can make in a step that stays unsaturated, for errors up to e. */
  function IntegralLimit(g: Gains, e: real): real
    requires g.ts != 0.0
  {
    g.umax + g.kp * e + g.kd * (2.0 * e / g.ts)
  }

  lemma SlopeBound(ts: real, error: real, last: real, e: real)
    requires ts > 0.0 && -e <= error <= e && -e <= last <= e
    ensures -(2.0 * e / ts) <= (error - last) / ts <= 2.0 * e / ts
  {
    DivMono(ts, error - last, 2.0 * e);
    DivMono(ts, -(2.0 * e), error - last);
    NegDiv(2.0 * e, ts);
  }

  /** An unsaturated step proves the integral small: nothing else can hold the demand down. */
  lemma UnsaturatedIntegral(g: Gains, m: Memory, error: real, e: real)
    requires g.Valid() && -e <= error <= e && -e <= m.errorLast <= e && !Saturated(g, m, error)
    ensures -IntegralLimit(g, e) <= g.ki * m.integral <= IntegralLimit(g, e)
  {
    SlopeBound(g.ts, error, m.errorLast, e);
    ScaledBound(g.kd, (error - m.errorLast) / g.ts, 2.0 * e / g.ts);
    ScaledBound(g.kp, error, e);
  }

  /** With errors up to e, the integral's share of the output has a bound that does not grow with the run. */
  lemma {:induction false} IntegralBounded(g: Gains, errors: seq<real>, e: real)
    requires g.Valid() && e >= 0.0 && Bounded(errors, e)
    ensures var m, limit := After(g, errors), IntegralLimit(g, e) + g.ki * (e * g.ts);
            && -e <= m.errorLast <= e
            && -limit <= g.ki * m.integral <= limit
    decreases |errors|
  {
    hide NextMemory, IntegralLimit;
    LimitNonnegative(g, e);
    if errors != [] {
      IntegralBounded(g, errors[..|errors| - 1], e);
      StepKeepsBound(g, After(g, errors[..|errors| - 1]), errors[|errors| - 1], e);
    }
  }

  lemma StepKeepsBound(g: Gains, m: Memory, error: real, e: real)
    requires g.Valid() && -e <= error <= e && -e <= m.errorLast <= e
    requires var limit := IntegralLimit(g, e) + g.ki * (e * g.ts);
             -limit <= g.ki * m.integral <= limit
    ensures var n, limit := NextMemory(g, m, error), IntegralLimit(g, e) + g.ki * (e * g.ts);
            && n.errorLast == error
            && -limit <= g.ki * n.integral <= limit
  {
    hide Saturated, IntegralLimit;
    if !Saturated(g, m, error) {
      UnsaturatedIntegral(g, m, error, e);
      IntegratedStep(g, m.integral, error, e);
      var next := m.integral + error * g.ts;
      assert NextMemory(g, m, error).integral == next;
      assert -(IntegralLimit(g, e) + g.ki * (e * g.ts)) <= g.ki * next <= IntegralLimit(g, e) + g.ki * (e * g.ts);
    }
  }

  lemma IntegratedStep(g: Gains, integral: real, error: real, e: real)
    requires g.Valid() && -e <= error <= e
    ensures g.ki * integral - g.ki * (e * g.ts) <= g.ki * (integral + error * g.ts)
    ensures g.ki * (integral + error * g.ts) <= g.ki * integral + g.ki * (e * g.ts)
  {
    ScaledBound(g.ts, error, e);
    assert error * g.ts == g.ts * error && e * g.ts == g.ts * e;
    ScaledBound(g.ki, error * g.ts, e * g.ts);
    assert g.ki * (integral + error * g.ts) == g.ki * integral + g.ki * (error * g.ts);
  }

  lemma LimitNonnegative(g: Gains, e: real)
    requires g.Valid() && e >= 0.0
    ensures IntegralLimit(g, e) >= 0.0 && g.ki * (e * g.ts) >= 0.0
  {
    DivMono(g.ts, 0.0, 2.0 * e);
    MulMono(g.kd, 0.0, 2.0 * e / g.ts);
    MulMono(g.kp, 0.0, e);
    MulMono(g.ts, 0.0, e);
    MulMono(g.ki, 0.0, e * g.ts);
  }

  // ---------- anti-windup ----------

  /** In no run is the output saturated against the sign of the error. */
  ghost predicate NeverFights(g: Gains)
    requires g.ts != 0.0
  {
    forall errors: seq<real>, error: real ::
      && (Demand(g, After(g, errors), error) > g.umax ==> error > 0.0)
      && (Demand(g, After(g, errors), error) < -g.umax ==> error < 0.0)
  }

  /** With small integral steps, the integral alone never saturates the output. */
  lemma {:induction false} IntegralWithinOutput(g: Gains, errors: seq<real>)
    requires g.Valid() && g.kd == 0.0 && g.ki * g.ts <= g.kp
    ensures -g.umax <= g.ki * After(g, errors).integral <= g.umax
    decreases |errors|
  {
    hide NextMemory;
    if errors != [] {
      var before, error := errors[..|errors| - 1], errors[|errors| - 1];
      IntegralWithinOutput(g, before);
      IntegralStep(g, After(g, before), error);
    }
  }

  lemma DemandWithoutDerivative(g: Gains, m: Memory, error: real)
    requires g.Valid() && g.kd == 0.0
    ensures Demand(g, m, error) == g.kp * error + g.ki * m.integral
  {}

  lemma IntegralStep(g: Gains, m: Memory, error: real)
    requires g.Valid() && g.kd == 0.0 && g.ki * g.ts <= g.kp
    requires -g.umax <= g.ki * m.integral <= g.umax
    ensures -g.umax <= g.ki * NextMemory(g, m, error).integral <= g.umax
  {
    DemandWithoutDerivative(g, m, error);
    if !Saturated(g, m, error) {
      var next := g.ki * (m.integral + error * g.ts);
      assert next == g.ki * m.integral + (g.ki * g.ts) * error;
      ChargeBelowProportional(g.ki * g.ts, g.kp, error);
    }
  }

  /** The integral's step has the error's sign and is no larger than the proportional term. */
  lemma ChargeBelowProportional(step: real, kp: real, error: real)
    requires 0.0 <= step <= kp
    ensures error >= 0.0 ==> 0.0 <= step * error <= kp * error
    ensures error <= 0.0 ==> kp * error <= step * error <= 0.0
  {
    if error >= 0.0 {
      MulMono(step, 0.0, error);
      MulMono(error, step, kp);
    } else {
      MulMono(step, error, 0.0);
      MulMono(-error, step, kp);
    }
  }

  /** With larger steps, one step can charge the integral beyond what the output can express. */
  lemma OverchargedIntegral(g: Gains)
    requires g.Valid() && g.kd == 0.0 && g.ki * g.ts > g.kp
    ensures !NeverFights(g)
  {
    var step := g.ki * g.ts;
    var first := 2.0 * g.umax / (g.kp + step);
    FirstError(g.kp, step, g.umax);
    Charged(g, first);
    var m := After(g, [first]);
    assert g.ki * (first * g.ts) == step * first;
    var second := FightingError(g, m);
    assert Demand(g, After(g, [first]), second) > g.umax;
  }

  /** An overcharged integral outweighs a small error of the opposite sign. */
  lemma FightingError(g: Gains, m: Memory) returns (error: real)
    requires g.Valid() && g.kd == 0.0 && g.ki * m.integral > g.umax
    ensures Demand(g, m, error) > g.umax && error < 0.0
  {
    var excess := g.ki * m.integral - g.umax;
    var small := excess / (g.kp + 1.0);
    ProperFraction(g.kp, excess);
    error := -small;
    DemandWithoutDerivative(g, m, error);
    assert g.kp * error == -(g.kp * small);
  }

  /** One unsaturated step from reset. */
  lemma Charged(g: Gains, first: real)
    requires g.Valid() && g.kd == 0.0 && 0.0 <= g.kp * first <= g.umax
    ensures After(g, [first]) == Memory(first * g.ts, first)
  {}

  lemma FirstError(kp: real, step: real, umax: real)
    requires 0.0 <= kp < step && umax > 0.0
    ensures var first := 2.0 * umax / (kp + step);
            first > 0.0 && 0.0 <= kp * first < umax < step * first
  {}

  lemma ProperFraction(a: real, x: real)
    requires a >= 0.0 && x > 0.0
    ensures a * (x / (a + 1.0)) < x && x / (a + 1.0) > 0.0
  {}

  lemma SignOfDemand(g: Gains, m: Memory, error: real)
    requires g.Valid() && g.kd == 0.0 && -g.umax <= g.ki * m.integral <= g.umax
    ensures Demand(g, m, error) > g.umax ==> error > 0.0
    ensures Demand(g, m, error) < -g.umax ==> error < 0.0
  {}

  /**
   Anti-windup, exactly: without derivative action, the saturated output always
   follows the sign of the error, in every run, if and only if one step of the
   integral acts no stronger than the proportional term.
   */
  lemma AntiWindup(g: Gains)
    requires g.Valid() && g.kd == 0.0
    ensures NeverFights(g) <==> g.ki * g.ts <= g.kp
  {
    if g.ki * g.ts <= g.kp {
      SmallStepsNeverFight(g);
    } else {
      OverchargedIntegral(g);
    }
  }

  lemma SmallStepsNeverFight(g: Gains)
    requires g.Valid() && g.kd == 0.0 && g.ki * g.ts <= g.kp
    ensures NeverFights(g)
  {
    hide Demand, After;
    forall errors: seq<real>, error: real
      ensures Demand(g, After(g, errors), error) > g.umax ==> error > 0.0
      ensures Demand(g, After(g, errors), error) < -g.umax ==> error < 0.0
    {
      IntegralWithinOutput(g, errors);
      SignOfDemand(g, After(g, errors), error);
    }
  }

  // ---------- the controller ----------

  class PidController {
    const kp: real
    const ki: real
    const kd: real
    const umax: real
    const ts: real
    var integral: real
    var errorLast: real

    constructor (g: Gains)
      ensures Tuning() == g && Value() == RESET
    {
      kp, ki, kd, umax, ts := g.kp, g.ki, g.kd, g.umax, g.ts;
      integral, errorLast := 0.0, 0.0;
    }

    ghost function Tuning(): Gains {
      Gains(kp, ki, kd, umax, ts)
    }

    ghost function Value(): Memory
      reads this
    {
      Memory(integral, errorLast)
    }

    method Update(reference: real, measurement: real) returns (u: real)
      requires ts != 0.0 && umax >= 0.0
      modifies this
      ensures u == Saturate(Demand(Tuning(), old(Value()), reference - measurement), umax)
      ensures Value() == NextMemory(Tuning(), old(Value()), reference - measurement)
      ensures var d := Demand(Tuning(), old(Value()), reference - measurement);
              && (-umax <= d <= umax ==> u == d && integral == old(integral) + (reference - measurement) * ts)
              && (d > umax ==> u == umax && integral == old(integral))
              && (d < -umax ==> u == -umax && integral == old(integral))
              && errorLast == reference - measurement
    {
      var error := reference - measurement;
      var derivative := (error - errorLast) / ts;
      var newIntegral := integral + error * ts;
      u := kp * error + ki * integral + kd * derivative;
      assert u == Demand(Tuning(), Value(), error);
      if u > umax {
        u := umax;
      } else if u < -umax {
        u := -umax;
      } else {
        integral := newIntegral;
      }
      errorLast := error;
    }
  }
}
