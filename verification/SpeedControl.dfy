/**
 Speed control: one PID controller per wheel, stepped when a target arrives,
 from the newest measurement, and scaled to actuator commands.
 */
module SpeedControl {
  import opened CArith
  import opened Wrappers
  import opened MsgQueue
  import opened Pid

  /** The tuning of the two controllers for a loop period in milliseconds. */
  function LeftGains(periodMs: int): Gains {
    Gains(0.2, 1.2, 0.0, 100.0, periodMs as real / 1000.0)
  }

  function RightGains(periodMs: int): Gains {
    Gains(0.2, 0.95, 0.0, 100.0, periodMs as real / 1000.0)
  }

  type Rpms = (I16, I16)
  type Measured = (int, int)
  type Command = (real, real)

  datatype State = State(target: Rpms, measured: Measured, command: Command, left: Memory, right: Memory)

  const START := State((0, 0), (0, 0), (0.0, 0.0), RESET, RESET)

  ghost function Error(target: int, measured: int): real {
    target as real - measured as real
  }

  ghost function NextState(periodMs: int, s: State, measured: Option<Measured>, target: Option<Rpms>): State
    requires periodMs > 0
  {
    var seen := measured.GetOr(s.measured);
    if target.None? then s.(measured := seen)
    else
      var t := target.value;
      var e0, e1 := Error(t.0, seen.0), Error(t.1, seen.1);
      var l, r := LeftGains(periodMs), RightGains(periodMs);
      State(t, seen,
            (Saturate(Demand(l, s.left, e0), l.umax) / 100.0, Saturate(Demand(r, s.right, e1), r.umax) / 100.0),
            NextMemory(l, s.left, e0), NextMemory(r, s.right, e1))
  }

  /** The measurement takes effect first; a target replaces the old one before the controllers step. */
  lemma NextInStages(periodMs: int, s: State, measured: Option<Measured>, target: Option<Rpms>)
    requires periodMs > 0
    ensures var polled := s.(measured := measured.GetOr(s.measured));
            NextState(periodMs, s, measured, target)
            == if target.None? then polled else NextState(periodMs, polled.(target := target.value), None, target)
  {}

  /** The inputs of one iteration. */
  datatype Input = Input(measured: Option<Measured>, target: Option<Rpms>)

  ghost function After(periodMs: int, h: seq<Input>): State
    requires periodMs > 0
    decreases |h|
  {
    if h == [] then START
    else NextState(periodMs, After(periodMs, h[..|h| - 1]), h[|h| - 1].measured, h[|h| - 1].target)
  }

  /** The errors that stepped the controllers of the two wheels. */
  ghost function ErrorLogs(periodMs: int, h: seq<Input>): (seq<real>, seq<real>)
    requires periodMs > 0
    decreases |h|
  {
    if h == [] then ([], [])
    else
      var before, last := h[..|h| - 1], h[|h| - 1];
      var (l, r) := ErrorLogs(periodMs, before);
      if last.target.None? then (l, r)
      else
        var seen := last.measured.GetOr(After(periodMs, before).measured);
        (l + [Error(last.target.value.0, seen.0)], r + [Error(last.target.value.1, seen.1)])
  }

  lemma {:induction false} ControllersFollow(periodMs: int, h: seq<Input>)
    requires periodMs > 0
    ensures After(periodMs, h).left == Pid.After(LeftGains(periodMs), ErrorLogs(periodMs, h).0)
    ensures After(periodMs, h).right == Pid.After(RightGains(periodMs), ErrorLogs(periodMs, h).1)
    decreases |h|
  {
    hide NextMemory, Demand;
    if h != [] {
      var before := h[..|h| - 1];
      ControllersFollow(periodMs, before);
      var (l, r) := ErrorLogs(periodMs, h);
      if h[|h| - 1].target.Some? {
        assert l[..|l| - 1] == ErrorLogs(periodMs, before).0 && r[..|r| - 1] == ErrorLogs(periodMs, before).1;
      }
    }
  }

  /** After history h: a wheel whose controller demands more than full power is too slow in that direction. */
  ghost predicate PushesTowardTarget(periodMs: int, h: seq<Input>, seen: Measured, target: Rpms)
    requires periodMs > 0
  {
    var l := Demand(LeftGains(periodMs), After(periodMs, h).left, Error(target.0, seen.0));
    var r := Demand(RightGains(periodMs), After(periodMs, h).right, Error(target.1, seen.1));
    && (l > 100.0 ==> target.0 > seen.0) && (l < -100.0 ==> target.0 < seen.0)
    && (r > 100.0 ==> target.1 > seen.1) && (r < -100.0 ==> target.1 < seen.1)
  }

  lemma FullPowerFollowsError(periodMs: int, h: seq<Input>, seen: Measured, target: Rpms)
    requires 0 < periodMs <= 166
    ensures PushesTowardTarget(periodMs, h, seen, target)
  {
    hide Demand, After;
    ControllersFollow(periodMs, h);
    AntiWindup(LeftGains(periodMs));
    AntiWindup(RightGains(periodMs));
  }

  /** The command of a wheel for its demand: the demand in percent, or full power on the demand's side. */
  ghost predicate Commands(command: real, demand: real) {
    && (-100.0 <= demand <= 100.0 ==> 100.0 * command == demand)
    && (demand > 100.0 ==> command == 1.0)
    && (demand < -100.0 ==> command == -1.0)
  }

  /** What each step commands, wheel by wheel, from the newest measurement. */
  lemma CommandsInNumbers(periodMs: int, h: seq<Input>, measured: Option<Measured>, target: Rpms)
    requires periodMs > 0
    ensures var s, n := After(periodMs, h), After(periodMs, h + [Input(measured, Some(target))]);
            var seen := if measured.Some? then measured.value else s.measured;
            && n.target == target && n.measured == seen
            && Commands(n.command.0, 0.2 * (target.0 - seen.0) as real + 1.2 * s.left.integral)
            && Commands(n.command.1, 0.2 * (target.1 - seen.1) as real + 0.95 * s.right.integral)
  {
    hide NextMemory;
    var g := h + [Input(measured, Some(target))];
    assert g[..|g| - 1] == h;
  }

  /** The integral of a wheel after a step: charged by error times seconds, unless the demand was beyond full power. */
  ghost predicate Charged(periodMs: int, before: real, after: real, demand: real, e: real) {
    if -100.0 <= demand <= 100.0 then after == before + e * (periodMs as real / 1000.0) else after == before
  }

  /** What each step remembers, wheel by wheel. */
  lemma IntegralsInNumbers(periodMs: int, h: seq<Input>, measured: Option<Measured>, target: Rpms)
    requires periodMs > 0
    ensures var s, n := After(periodMs, h), After(periodMs, h + [Input(measured, Some(target))]);
            var seen := if measured.Some? then measured.value else s.measured;
            var e0, e1 := (target.0 - seen.0) as real, (target.1 - seen.1) as real;
            && Charged(periodMs, s.left.integral, n.left.integral, 0.2 * e0 + 1.2 * s.left.integral, e0)
            && Charged(periodMs, s.right.integral, n.right.integral, 0.2 * e1 + 0.95 * s.right.integral, e1)
  {
    hide NextMemory, Demand, Saturate, Charged;
    var g := h + [Input(measured, Some(target))];
    assert g[..|g| - 1] == h;
    var s := After(periodMs, h);
    var seen := measured.GetOr(s.measured);
    MemoriesInNumbers(periodMs, s.left, Error(target.0, seen.0));
    MemoriesInNumbers(periodMs, s.right, Error(target.1, seen.1));
  }

  lemma MemoriesInNumbers(periodMs: int, m: Memory, e: real)
    requires periodMs > 0
    ensures Charged(periodMs, m.integral, NextMemory(LeftGains(periodMs), m, e).integral,
                    0.2 * e + 1.2 * m.integral, e)
    ensures Charged(periodMs, m.integral, NextMemory(RightGains(periodMs), m, e).integral,
                    0.2 * e + 0.95 * m.integral, e)
  {}

  /** A step without a target only takes note of the measurement. */
  lemma StepWithoutTarget(periodMs: int, h: seq<Input>, measured: Option<Measured>)
    requires periodMs > 0
    ensures var s := After(periodMs, h);
            After(periodMs, h + [Input(measured, None)])
            == State(s.target, if measured.Some? then measured.value else s.measured, s.command, s.left, s.right)
    ensures After(periodMs, []) == State((0, 0), (0, 0), (0.0, 0.0), Memory(0.0, 0.0), Memory(0.0, 0.0))
  {
    var g := h + [Input(measured, None)];
    assert g[..|g| - 1] == h;
  }

  /**
   For periods of at most 166 ms, in every history: a wheel is commanded full
   power only toward its target, and every demand beyond it does command that.
   */
  lemma FullPowerTowardTarget(periodMs: int, h: seq<Input>, measured: Option<Measured>, target: Rpms)
    requires 0 < periodMs <= 166
    ensures var s, n := After(periodMs, h), After(periodMs, h + [Input(measured, Some(target))]);
            && TowardTarget(n.command.0, 0.2 * (target.0 - n.measured.0) as real + 1.2 * s.left.integral,
                            target.0, n.measured.0)
            && TowardTarget(n.command.1, 0.2 * (target.1 - n.measured.1) as real + 0.95 * s.right.integral,
                            target.1, n.measured.1)
  {
    hide Demand, After;
    CommandsInNumbers(periodMs, h, measured, target);
    ControllersFollow(periodMs, h);
    IntegralWithinOutput(LeftGains(periodMs), ErrorLogs(periodMs, h).0);
    IntegralWithinOutput(RightGains(periodMs), ErrorLogs(periodMs, h).1);
  }

  ghost predicate TowardTarget(command: real, demand: real, target: int, seen: int) {
    && (demand > 100.0 ==> command == 1.0 && target > seen)
    && (demand < -100.0 ==> command == -1.0 && target < seen)
    && (command == 1.0 ==> target >= seen)
    && (command == -1.0 ==> target <= seen)
  }

  /** The errors that step the controllers, wheel by wheel. */
  lemma ErrorsInNumbers(periodMs: int, h: seq<Input>, measured: Option<Measured>, target: Rpms)
    requires periodMs > 0
    ensures var seen := if measured.Some? then measured.value else After(periodMs, h).measured;
            var (l, r) := ErrorLogs(periodMs, h);
            ErrorLogs(periodMs, h + [Input(measured, Some(target))])
            == (l + [(target.0 - seen.0) as real], r + [(target.1 - seen.1) as real])
    ensures ErrorLogs(periodMs, h + [Input(measured, None)]) == ErrorLogs(periodMs, h)
    ensures ErrorLogs(periodMs, []) == ([], [])
  {
    hide After;
    var g, g' := h + [Input(measured, Some(target))], h + [Input(measured, None)];
    assert g[..|g| - 1] == h && g'[..|g'| - 1] == h;
  }

  /** Targets for the left wheel that overcharge its integral while it stands still. */
  ghost function Overcharging(periodMs: int): seq<Input> {
    if periodMs == 167 then [Input(None, Some((-500, 0))), Input(None, Some((1001, 0)))]
    else [Input(None, Some((499, 0)))]
  }

  /** An unsaturated step of the left controller adds error times period to the integral. */
  lemma LeftStep(periodMs: int, h: seq<Input>, target: I16)
    requires periodMs > 0 && After(periodMs, h).measured == (0, 0)
    requires !Saturated(LeftGains(periodMs), After(periodMs, h).left, target as real)
    ensures var s, n := After(periodMs, h), After(periodMs, h + [Input(None, Some((target, 0)))]);
            && n.measured == (0, 0)
            && n.left == Memory(s.left.integral + target as real * (periodMs as real / 1000.0), target as real)
  {
    hide Demand;
    var g := h + [Input(None, Some((target, 0)))];
    assert g[..|g| - 1] == h;
  }

  /** What the left controller demands, without division. */
  lemma LeftDemand(periodMs: int, m: Memory, error: real)
    requires periodMs > 0
    ensures Demand(LeftGains(periodMs), m, error) == 0.2 * error + 1.2 * m.integral
  {}

  /** With a longer period, the left wheel at rest is then driven at full power away from a target of -1. */
  lemma SlowLoopFights(periodMs: int)
    requires periodMs > 166
    ensures !PushesTowardTarget(periodMs, Overcharging(periodMs), (0, 0), (-1, 0))
  {
    hide Demand, After, NextMemory;
    assert After(periodMs, []) == START by { StartsIdle(periodMs); }
    var ts := periodMs as real / 1000.0;
    var first := if periodMs == 167 then -500 else 499;
    LeftDemand(periodMs, RESET, first as real);
    LeftStep(periodMs, [], first);
    var h1 := [] + [Input(None, Some((first, 0)))];
    if periodMs == 167 {
      LeftDemand(periodMs, After(periodMs, h1).left, 1001.0);
      LeftStep(periodMs, h1, 1001);
      assert h1 + [Input(None, Some((1001, 0)))] == Overcharging(periodMs);
    } else {
      assert h1 == Overcharging(periodMs);
      assert 499.0 * ts >= 83.8;
    }
    LeftDemand(periodMs, After(periodMs, Overcharging(periodMs)).left, -1.0);
  }

  lemma StartsIdle(periodMs: int)
    requires periodMs > 0
    ensures After(periodMs, []) == START
  {}

  /**
   For which loop periods neither wheel is ever driven at full power against
   its speed error, whatever targets and measurements the service receives: up
   to 166 ms. The robot runs the loop every 20 ms.
   */
  lemma PeriodsWithoutWindup(periodMs: int)
    requires periodMs > 0
    ensures (forall h, seen, target :: PushesTowardTarget(periodMs, h, seen, target)) <==> periodMs <= 166
  {
    hide PushesTowardTarget;
    if periodMs <= 166 {
      forall h, seen, target
        ensures PushesTowardTarget(periodMs, h, seen, target)
      {
        FullPowerFollowsError(periodMs, h, seen, target);
      }
    } else {
      SlowLoopFights(periodMs);
    }
  }

  /** Commands are a fraction of full power. */
  ghost predicate ProperCommand(c: Command) {
    -1.0 <= c.0 <= 1.0 && -1.0 <= c.1 <= 1.0
  }

  class SpeedService {
    const periodMs: int
    const rpmQueue: Queue<Measured>
    const targetQueue: Queue<Rpms>
    const actuatorQueue: Queue<Command>
    const feedbackQueue: Queue<(Rpms, Measured)>
    const left: PidController
    const right: PidController
    var targetRpm: Rpms
    var measuredRpm: Measured
    var actuatorCmd: Command

    constructor (periodMs: int, rpmQueue: Queue<Measured>, targetQueue: Queue<Rpms>,
                 actuatorQueue: Queue<Command>, feedbackQueue: Queue<(Rpms, Measured)>)
      requires periodMs > 0
      requires rpmQueue.Valid() && targetQueue.Valid() && actuatorQueue.Valid() && feedbackQueue.Valid()
      ensures Valid() && Value() == START && this.periodMs == periodMs && fresh(left) && fresh(right)
      ensures this.rpmQueue == rpmQueue && this.targetQueue == targetQueue
      ensures this.actuatorQueue == actuatorQueue && this.feedbackQueue == feedbackQueue
    {
      this.periodMs := periodMs;
      this.rpmQueue, this.targetQueue := rpmQueue, targetQueue;
      this.actuatorQueue, this.feedbackQueue := actuatorQueue, feedbackQueue;
      targetRpm, measuredRpm, actuatorCmd := (0, 0), (0, 0), (0.0, 0.0);
      left := new PidController(LeftGains(periodMs));
      right := new PidController(RightGains(periodMs));
    }

    ghost predicate Valid()
      reads this, rpmQueue, targetQueue, actuatorQueue, feedbackQueue
    {
      && periodMs > 0 && left != right
      && left.Tuning() == LeftGains(periodMs) && right.Tuning() == RightGains(periodMs)
      && rpmQueue.Valid() && targetQueue.Valid() && actuatorQueue.Valid() && feedbackQueue.Valid()
      && ProperCommand(actuatorCmd)
    }

    ghost function Value(): State
      reads this, left, right
    {
      State(targetRpm, measuredRpm, actuatorCmd, left.Value(), right.Value())
    }

    /** Step both controllers and scale their outputs to fractions. */
    method StepControllers()
      requires Valid()
      modifies this`actuatorCmd, left, right
      ensures Valid()
      ensures Value() == NextState(periodMs, old(Value()), None, Some(targetRpm))
    {
      hide Demand, NextMemory;
      var l := left.Update(targetRpm.0 as real, measuredRpm.0 as real);
      var r := right.Update(targetRpm.1 as real, measuredRpm.1 as real);
      actuatorCmd := (l / 100.0, r / 100.0);
    }

    /** One iteration: both queues are polled; only a new target steps the controllers. */
    method Step()
      requires Valid()
      modifies this, left, right, rpmQueue, targetQueue, actuatorQueue, feedbackQueue
      ensures Valid()
      ensures Value() == NextState(periodMs, old(Value()), old(Head(rpmQueue.buf)), old(Head(targetQueue.buf)))
      ensures rpmQueue.buf == Rest(old(rpmQueue.buf)) && targetQueue.buf == Rest(old(targetQueue.buf))
      ensures actuatorQueue.buf == if old(targetQueue.buf) == [] then old(actuatorQueue.buf)
                                   else Published(old(actuatorQueue.buf), actuatorQueue.capacity, actuatorCmd)
      ensures feedbackQueue.buf
           == Published(old(feedbackQueue.buf), feedbackQueue.capacity, (targetRpm, measuredRpm))
    {
      hide NextState, Published, ProperCommand, LeftGains, RightGains;
      ghost var before := Value();
      var measured := rpmQueue.Get();
      if measured.Some? {
        measuredRpm := measured.value;
      }
      var target := targetQueue.Get();
      NextInStages(periodMs, before, measured, target);
      if target.Some? {
        targetRpm := target.value;
        StepControllers();
        ghost var tries := actuatorQueue.Publish(actuatorCmd);
      }
      ghost var tries := feedbackQueue.Publish((targetRpm, measuredRpm));
    }
  }
}
