/**
 Motion control: a desired motion becomes a pair of wheel speeds, and each
 wheel approaches its speed in limited steps, one per received message.
 Floating-point values are reals; their rounding is not modelled.
 */
module MotionControl {
  import opened CArith
  import opened MsgQueue

  datatype Motion = Motion(linear: real, angular: real)

  const ZERO_MOTION := Motion(0.0, 0.0)

  // ---------- the limiter ----------

  datatype MotionLimit = MotionLimit(accel: I16, decel: I16)

  const RPM_LIMIT := MotionLimit(3, 8)

  /** All variables are 16 bits wide, so the difference and the output may wrap. */
  function ApplyMotionLimit(limit: MotionLimit, prev: I16, value: I16): I16 {
    var diff := ToI16(value - prev);
    if prev > 0 && diff > limit.accel then ToI16(prev + limit.accel)
    else if prev < 0 && diff < Neg(limit.accel) then ToI16(prev - limit.accel)
    else if prev < 0 && diff > limit.decel then ToI16(prev + limit.decel)
    else if prev > 0 && diff < Neg(limit.decel) then ToI16(prev - limit.decel)
    else value
  }

  /** On the way from prev to value, without overshoot. */
  predicate Between(prev: int, out: int, value: int) {
    prev <= out <= value || value <= out <= prev
  }

  /**
   From a running wheel, the limiter takes a step of at most 8 rpm toward the
   target exactly when the difference fits 16 bits. From rest it does not limit.
   */
  lemma LimitExact(prev: I16, value: I16)
    ensures var out := ApplyMotionLimit(RPM_LIMIT, prev, value);
            if prev == 0 then out == value
            else Between(prev, out, value) && Abs(out - prev) <= 8 <==> -0x8000 <= value - prev < 0x8000
  {}

  /**
   A step in numbers: from rest the target itself; else the difference, at most
   3 away from rest and at most 8 toward it.
   */
  ghost predicate LimitedStep(prev: int, value: int, out: int) {
    var d := value - prev;
    && (prev == 0 ==> out == value)
    && (prev > 0 ==> out - prev == if d > 3 then 3 else if d < -8 then -8 else d)
    && (prev < 0 ==> out - prev == if d < -3 then -3 else if d > 8 then 8 else d)
  }

  /** Where the difference does not fit 16 bits, the wheel moves away from the target, by at most 3, and may wrap. */
  lemma StepInNumbers(prev: I16, value: I16)
    ensures var d, out := value - prev, ApplyMotionLimit(RPM_LIMIT, prev, value);
            && (-0x8000 <= d < 0x8000 ==> LimitedStep(prev, value, out))
            && (prev != 0 && d >= 0x8000 ==> out == ToI16(prev - if d > 0xFFFD then 0x1_0000 - d else 3))
            && (prev != 0 && d < -0x8000 ==> out == ToI16(prev + if d < -0xFFFD then 0x1_0000 + d else 3))
  {}

  /** Speeds within a bound; the difference of any two within the largest one fits 16 bits. */
  predicate Within(rpm: int, bound: int) {
    -bound <= rpm <= bound
  }

  const MODERATE := 16383

  /** Each step closes at least 3 rpm of the distance, or all of it. */
  lemma StepCloses(prev: I16, value: I16)
    requires -0x8000 <= value - prev < 0x8000
    ensures var out := ApplyMotionLimit(RPM_LIMIT, prev, value);
            && Between(prev, out, value)
            && (Abs(value - out) <= Abs(value - prev) - 3 || out == value)
  {
    assert ToI16(value - prev) == value - prev;
  }

  function Limited(prev: I16, value: I16, n: nat): I16
    decreases n
  {
    if n == 0 then prev else Limited(ApplyMotionLimit(RPM_LIMIT, prev, value), value, n - 1)
  }

  /** A constant target within range is reached, for good, in ceil(distance / 3) steps. */
  lemma {:induction false} ReachesTarget(prev: I16, value: I16, n: nat)
    requires -0x8000 <= value - prev < 0x8000
    ensures Between(prev, Limited(prev, value, n), value)
    ensures 3 * n >= Abs(value - prev) ==> Limited(prev, value, n) == value
    decreases n
  {
    if n > 0 {
      StepCloses(prev, value);
      ReachesTarget(ApplyMotionLimit(RPM_LIMIT, prev, value), value, n - 1);
    }
  }

  /** The commanded speed after n received targets, from rest. */
  function Commanded(targets: seq<I16>, n: nat): I16
    requires n <= |targets|
  {
    if n == 0 then 0 else ApplyMotionLimit(RPM_LIMIT, Commanded(targets, n - 1), targets[n - 1])
  }

  /**
   A whole run with changing targets: commands keep to the targets' bound, and
   every step goes toward its target without overshoot, by at most 8 rpm unless
   the wheel is at rest.
   */
  lemma {:induction false} CommandsFollow(targets: seq<I16>, bound: int, n: nat)
    requires 0 <= bound <= MODERATE && n <= |targets|
    requires forall i :: 0 <= i < |targets| ==> Within(targets[i], bound)
    ensures Within(Commanded(targets, n), bound)
    ensures n < |targets| ==>
      var now, next := Commanded(targets, n), Commanded(targets, n + 1);
      Between(now, next, targets[n]) && (now == 0 || Abs(next - now) <= 8) && LimitedStep(now, targets[n], next)
    decreases n
  {
    hide ApplyMotionLimit, LimitedStep;
    if n > 0 {
      CommandsFollow(targets, bound, n - 1);
    }
    if n < |targets| {
      LimitExact(Commanded(targets, n), targets[n]);
      StepInNumbers(Commanded(targets, n), targets[n]);
    }
  }

  /** Eight rpm closer to rest. */
  function TowardRest(rpm: int): int {
    if rpm > 8 then rpm - 8 else if rpm < -8 then rpm + 8 else 0
  }

  /** A zero target brakes by 8 rpm a step, for every speed but the one whose negation does not fit. */
  lemma BrakeExact(prev: I16)
    ensures ApplyMotionLimit(RPM_LIMIT, prev, 0) == TowardRest(prev) <==> prev != -0x8000
    ensures ApplyMotionLimit(RPM_LIMIT, -0x8000, 0) == 32765
  {}

  // ---------- kinematics ----------

  const WHEEL_RADIUS: real := 0.0188
  const TRACK: real := 0.185
  const PI: real := 3.14159265358979323846

  function WheelRpm(omega: real): I16 {
    ToI16(TruncReal(omega * 60.0 / (2.0 * PI)))
  }

  /** Target speeds of the left and the (inversely mounted) right wheel. */
  function WheelTargets(m: Motion): (I16, I16) {
    var omegaL := (m.linear - m.angular * TRACK) / WHEEL_RADIUS;
    var omegaR := (m.linear + m.angular * TRACK) / WHEEL_RADIUS;
    (WheelRpm(omegaL), ToI16(Neg(WheelRpm(omegaR))))
  }

  /** q is x divided by d and rounded toward zero. */
  ghost predicate IsRealQuotient(q: int, x: real, d: real) {
    && (x >= 0.0 ==> q >= 0 && q as real * d <= x < (q + 1) as real * d)
    && (x <= 0.0 ==> q <= 0 && (q - 1) as real * d < x <= q as real * d)
  }

  /**
   The wheel speeds in numbers: a wheel of radius 18.8 mm turns 60 / (2 pi
   0.0188) times a minute per m/s, and each wheel moves at the linear speed
   minus or plus 0.185 times the angular one; the right motor turns the other way.
   */
  lemma TargetsInNumbers(m: Motion)
    ensures var x, d := 60.0 * (m.linear - 0.185 * m.angular), 2.0 * 3.14159265358979323846 * 0.0188;
            -32768.0 * d < x < 32768.0 * d ==> IsRealQuotient(WheelTargets(m).0, x, d)
    ensures var x, d := 60.0 * (m.linear + 0.185 * m.angular), 2.0 * 3.14159265358979323846 * 0.0188;
            -32768.0 * d < x < 32768.0 * d ==> IsRealQuotient(-WheelTargets(m).1, x, d)
  {
    hide WheelRpm;
    RpmInNumbers(m.linear - m.angular * TRACK);
    RpmInNumbers(m.linear + m.angular * TRACK);
  }

  lemma RpmInNumbers(v: real)
    ensures var x, d, q := 60.0 * v, 2.0 * 3.14159265358979323846 * 0.0188, WheelRpm(v / WHEEL_RADIUS);
            -32768.0 * d < x < 32768.0 * d ==> -32767 <= q && IsRealQuotient(q, x, d)
  {
    var y := v / WHEEL_RADIUS * 60.0 / (2.0 * PI);
    RealTruncatesTowardZero(y);
    RealTruncatesTowardZero(-y);
  }

  /** No motion asks for no wheel speed. */
  lemma ZeroTargets()
    ensures WheelTargets(ZERO_MOTION) == (0, 0)
  {
    assert 0.0 - 0.0 * TRACK == 0.0 && 0.0 + 0.0 * TRACK == 0.0;
    assert 0.0 / WHEEL_RADIUS == 0.0;
  }

  /** Mirrored motions ask for mirrored wheel speeds. */
  lemma MirrorTargets(m: Motion)
    ensures WheelTargets(m).1 == ToI16(Neg(WheelTargets(Motion(m.linear, -m.angular)).0))
  {
    assert m.linear - (-m.angular) * TRACK == m.linear + m.angular * TRACK;
  }

  /** The motion asks for wheel speeds within the bound. */
  predicate Tame(m: Motion, bound: int) {
    Within(WheelTargets(m).0, bound) && Within(WheelTargets(m).1, bound)
  }

  const STICK_RPM := 1300

  /** Motions within twice the nominal range of the remote control. */
  lemma StickTargets(m: Motion)
    requires -2.0 <= m.linear <= 2.0 && -2.0 <= m.angular <= 2.0
    ensures Tame(m, STICK_RPM)
  {
    hide WheelRpm;
    RpmBound((m.linear - m.angular * TRACK) / WHEEL_RADIUS);
    RpmBound((m.linear + m.angular * TRACK) / WHEEL_RADIUS);
  }

  lemma RpmBound(omega: real)
    requires -130.0 <= omega <= 130.0
    ensures Within(WheelRpm(omega), STICK_RPM)
  {
    var rpm := omega * 60.0 / (2.0 * PI);
    assert -1300.0 <= rpm <= 1300.0;
  }

  // ---------- the service ----------

  type Wheels = (I16, I16)

  /** What one received motion does to the commanded wheel speeds. */
  function Approach(w: Wheels, m: Motion): Wheels {
    var t := WheelTargets(m);
    (ApplyMotionLimit(RPM_LIMIT, w.0, t.0), ApplyMotionLimit(RPM_LIMIT, w.1, t.1))
  }

  /** Both wheels, after a sequence of received motions. */
  function Driven(w: Wheels, ms: seq<Motion>): Wheels
    decreases |ms|
  {
    if ms == [] then w else Approach(Driven(w, ms[..|ms| - 1]), ms[|ms| - 1])
  }

  /** The targets that a sequence of motions sets for one wheel. */
  ghost function LeftTargets(ms: seq<Motion>): (t: seq<I16>)
    ensures |t| == |ms|
  {
    seq(|ms|, i requires 0 <= i < |ms| => WheelTargets(ms[i]).0)
  }

  ghost function RightTargets(ms: seq<Motion>): (t: seq<I16>)
    ensures |t| == |ms|
  {
    seq(|ms|, i requires 0 <= i < |ms| => WheelTargets(ms[i]).1)
  }

  lemma {:induction false} CommandedPrefix(s: seq<I16>, t: seq<I16>, n: nat)
    requires n <= |s| && s <= t
    ensures Commanded(s, n) == Commanded(t, n)
    decreases n
  {
    hide ApplyMotionLimit;
    if n > 0 {
      CommandedPrefix(s, t, n - 1);
    }
  }

  /** Each wheel runs through the commands of its own targets. */
  lemma {:induction false} WheelsFollowTargets(ms: seq<Motion>)
    ensures Driven((0, 0), ms) == (Commanded(LeftTargets(ms), |ms|), Commanded(RightTargets(ms), |ms|))
    decreases |ms|
  {
    hide ApplyMotionLimit, WheelTargets;
    if ms != [] {
      var before := ms[..|ms| - 1];
      WheelsFollowTargets(before);
      CommandedPrefix(LeftTargets(before), LeftTargets(ms), |before|);
      CommandedPrefix(RightTargets(before), RightTargets(ms), |before|);
    }
  }

  /** From rest on, motions that ask for speeds within a bound keep both wheels within it. */
  lemma {:induction false} TameWheels(ms: seq<Motion>, bound: int)
    requires 0 <= bound <= MODERATE && forall i :: 0 <= i < |ms| ==> Tame(ms[i], bound)
    ensures var w := Driven((0, 0), ms);
            Within(w.0, bound) && Within(w.1, bound)
    decreases |ms|
  {
    hide ApplyMotionLimit, WheelTargets;
    if ms != [] {
      var before, t := Driven((0, 0), ms[..|ms| - 1]), WheelTargets(ms[|ms| - 1]);
      TameWheels(ms[..|ms| - 1], bound);
      assert Tame(ms[|ms| - 1], bound);
      LimitExact(before.0, t.0);
      LimitExact(before.1, t.1);
    }
  }

  class MotionService {
    const motionQueue: Queue<Motion>
    const rpmQueue: Queue<Wheels>
    const prevTargetRpm: array<I16>

    constructor (motionQueue: Queue<Motion>, rpmQueue: Queue<Wheels>)
      requires motionQueue.Valid() && rpmQueue.Valid()
      ensures Valid() && Speeds() == (0, 0) && fresh(prevTargetRpm)
      ensures this.motionQueue == motionQueue && this.rpmQueue == rpmQueue
    {
      this.motionQueue, this.rpmQueue := motionQueue, rpmQueue;
      prevTargetRpm := new I16[2](_ => 0);
    }

    ghost predicate Valid()
      reads motionQueue, rpmQueue
    {
      motionQueue.Valid() && rpmQueue.Valid() && prevTargetRpm.Length == 2
    }

    ghost function Speeds(): Wheels
      reads prevTargetRpm
      requires prevTargetRpm.Length == 2
    {
      (prevTargetRpm[0], prevTargetRpm[1])
    }

    /** One iteration: without a message nothing changes; with one, both wheels approach it. */
    method Step()
      requires Valid()
      modifies motionQueue, rpmQueue, prevTargetRpm
      ensures Valid()
      ensures old(motionQueue.buf) == [] ==>
        motionQueue.buf == [] && rpmQueue.buf == old(rpmQueue.buf) && Speeds() == old(Speeds())
      ensures old(motionQueue.buf) != [] ==>
        && motionQueue.buf == old(motionQueue.buf)[1..]
        && Speeds() == Approach(old(Speeds()), old(motionQueue.buf)[0])
        && rpmQueue.buf == Published(old(rpmQueue.buf), rpmQueue.capacity, Speeds())
    {
      hide ApplyMotionLimit, WheelRpm, Published;
      var received := motionQueue.Get();
      if received.Some? {
        var desiredMotion := received.value;
        var omegaL := (desiredMotion.linear - desiredMotion.angular * TRACK) / WHEEL_RADIUS;
        var omegaR := (desiredMotion.linear + desiredMotion.angular * TRACK) / WHEEL_RADIUS;
        var targetRpm := new I16[2];
        targetRpm[0] := WheelRpm(omegaL);
        targetRpm[1] := WheelRpm(omegaR);
        targetRpm[1] := ToI16(Neg(targetRpm[1]));
        ghost var wanted := targetRpm[..];
        for i := 0 to 2
          modifies targetRpm
          invariant forall k :: 0 <= k < i ==> targetRpm[k] == ApplyMotionLimit(RPM_LIMIT, prevTargetRpm[k], wanted[k])
          invariant forall k :: i <= k < 2 ==> targetRpm[k] == wanted[k]
        {
          targetRpm[i] := ApplyMotionLimit(RPM_LIMIT, prevTargetRpm[i], targetRpm[i]);
        }
        prevTargetRpm[0], prevTargetRpm[1] := targetRpm[0], targetRpm[1];
        ghost var tries := rpmQueue.Publish((targetRpm[0], targetRpm[1]));
      }
    }
  }
}
