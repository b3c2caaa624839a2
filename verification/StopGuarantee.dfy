/**
 Coordinator and motion control as two threads joined by the motion queue,
 which has room for one message. Every call on the queue is one event, so the
 motion thread may run between any two steps of the coordinator's publish loop.
 */
module StopGuarantee {
  import opened CArith
  import opened MotionControl
  import opened Coordinator

  /** Where the coordinator stands: polling, about to put, or about to purge after a failed put. */
  datatype Phase = Polling | Trying(m: Motion, purged: bool) | Failed(m: Motion)

  datatype Event = Tick(p: Poll) | Put | Purge | Drive

  /** `published` counts successful puts, `received` lists what the motion thread got. */
  datatype System = System(
    history: seq<Poll>, phase: Phase, queue: seq<Motion>, published: nat, wheels: Wheels, received: seq<Motion>)
  {
    ghost predicate Inv() {
      |queue| <= 1 && (phase.Trying? && phase.purged ==> queue == [])
    }

    ghost predicate Enabled(e: Event) {
      match e
      case Tick(_) => phase.Polling?
      case Put => phase.Trying?
      case Purge => phase.Failed?
      case Drive => true
    }

    ghost function Next(e: Event): System
      requires Enabled(e)
    {
      match e
      case Tick(p) =>
        var h := history + [p];
        var c := Coordinator.After(h);
        this.(history := h, phase := if c.robot.supMode == NON_SUPERVISED then Trying(c.motion, false) else Polling)
      case Put =>
        if queue == [] then this.(queue := [phase.m], phase := Polling, published := published + 1)
        else this.(phase := Failed(phase.m))
      case Purge => this.(queue := [], phase := Trying(phase.m, true))
      case Drive =>
        if queue == [] then this
        else this.(queue := queue[1..], wheels := Approach(wheels, queue[0]), received := received + [queue[0]])
    }

    /** Emergency stop holds and the robot is not supervised. */
    ghost predicate StopHolds() {
      EstopOf(history) && SupOf(history) == NON_SUPERVISED
    }

    /** Stop holds and the coordinator is writing nothing but rest. */
    ghost predicate Stopping() {
      StopHolds() && (phase.Polling? || phase.m == ZERO_MOTION)
    }

    /** Moreover the queue holds nothing but rest. */
    ghost predicate Halted() {
      Stopping() && (queue != [] ==> queue[0] == ZERO_MOTION)
    }
  }

  /** The events can happen in this order. */
  ghost predicate Possible(s: System, events: seq<Event>)
    decreases |events|
  {
    events == [] || (s.Enabled(events[0]) && Possible(s.Next(events[0]), events[1..]))
  }

  ghost function Ran(s: System, events: seq<Event>): System
    requires Possible(s, events)
    decreases |events|
  {
    if events == [] then s else Ran(s.Next(events[0]), events[1..])
  }

  /** Moreover stop holds after every tick among them. */
  ghost predicate StoppedRun(s: System, events: seq<Event>)
    decreases |events|
  {
    events == []
    || (s.Enabled(events[0]) && (events[0].Tick? ==> s.Next(events[0]).StopHolds())
        && StoppedRun(s.Next(events[0]), events[1..]))
  }

  /** The invariant is kept by every event; after a purge the next put cannot fail. */
  lemma InvKept(s: System, e: Event)
    requires s.Inv() && s.Enabled(e)
    ensures s.Next(e).Inv()
    ensures e == Put && s.phase.purged ==> s.Next(e).phase.Polling?
  {}

  /** A tick on which stop holds publishes rest. */
  lemma StopTickWritesRest(s: System, p: Poll)
    requires s.phase.Polling? && s.Next(Tick(p)).StopHolds()
    ensures s.Next(Tick(p)).phase == Trying(ZERO_MOTION, false) && s.Next(Tick(p)).published == s.published
  {
    hide Coordinator.After;
    PublishesWhatHistoryCallsFor(s.history + [p]);
  }

  /** Stopping lasts, and the first successful put leaves nothing but rest behind. */
  lemma StoppingKept(s: System, e: Event)
    requires s.Inv() && s.Stopping() && s.Enabled(e)
    requires e.Tick? ==> s.Next(e).StopHolds()
    ensures s.Next(e).Stopping()
    ensures s.Next(e).published > s.published || s.Halted() ==> s.Next(e).Halted()
  {
    hide EstopOf, SupOf, Coordinator.After, Approach;
    if e.Tick? {
      StopTickWritesRest(s, e.p);
    }
  }

  lemma {:induction false} HaltsOncePublished(s: System, events: seq<Event>)
    requires s.Inv() && s.Stopping() && Possible(s, events) && StoppedRun(s, events)
    ensures Ran(s, events).Inv() && Ran(s, events).Stopping() && Ran(s, events).published >= s.published
    ensures Ran(s, events).published > s.published || s.Halted() ==> Ran(s, events).Halted()
    decreases |events|
  {
    hide System.Stopping, System.Halted, System.Inv, System.StopHolds;
    if events != [] {
      InvKept(s, events[0]);
      StoppingKept(s, events[0]);
      HaltsOncePublished(s.Next(events[0]), events[1..]);
    }
  }

  /** The coordinator's own events of a run. */
  ghost function OwnSteps(events: seq<Event>): nat
    decreases |events|
  {
    if events == [] then 0 else (if events[0].Drive? then 0 else 1) + OwnSteps(events[1..])
  }

  /** Own steps that surely suffice to publish: put, purge, put. */
  ghost function StepsToPublish(phase: Phase): nat {
    match phase
    case Polling => 0
    case Trying(_, purged) => if purged then 1 else 3
    case Failed(_) => 2
  }

  /** Whatever the motion thread does in between, three steps of the coordinator publish. */
  lemma {:induction false} PublishedWithinThree(s: System, events: seq<Event>)
    requires s.Inv() && Possible(s, events)
    ensures Ran(s, events).published >= s.published
    ensures OwnSteps(events) >= StepsToPublish(s.phase) > 0 ==> Ran(s, events).published > s.published
    decreases |events|
  {
    hide System.StopHolds;
    if events != [] {
      InvKept(s, events[0]);
      PublishedWithinThree(s.Next(events[0]), events[1..]);
    }
  }

  /** Wheel speed after n messages of rest; the negation of -32768 does not fit, and the first step wraps. */
  function Braked(rpm: int, n: nat): int
    decreases n
  {
    if rpm == -0x8000 then (if n == 0 then rpm else Braked(32765, n - 1))
    else if Abs(rpm) <= 8 * n then 0
    else if rpm > 0 then rpm - 8 * n
    else rpm + 8 * n
  }

  function StepsToRest(rpm: int): nat {
    if rpm == -0x8000 then 4097 else (Abs(rpm) + 7) / 8
  }

  lemma BrakedToRest(rpm: I16, n: nat)
    ensures Braked(rpm, n) == 0 <==> n >= StepsToRest(rpm)
    ensures rpm != -0x8000 ==> Between(rpm, Braked(rpm, n), 0)
  {}

  lemma BrakedFurther(rpm: I16, n: nat)
    ensures Braked(ApplyMotionLimit(RPM_LIMIT, rpm, 0), n) == Braked(rpm, n + 1)
  {
    BrakeExact(rpm);
  }

  /** While halted, only rest is received and every reception brakes both wheels by 8 rpm. */
  lemma {:induction false} HaltedRun(s: System, events: seq<Event>)
    requires s.Inv() && s.Halted() && Possible(s, events) && StoppedRun(s, events)
    ensures var t := Ran(s, events);
            && |t.received| >= |s.received| && t.received[..|s.received|] == s.received
            && (forall i :: |s.received| <= i < |t.received| ==> t.received[i] == ZERO_MOTION)
            && t.wheels.0 == Braked(s.wheels.0, |t.received| - |s.received|)
            && t.wheels.1 == Braked(s.wheels.1, |t.received| - |s.received|)
    decreases |events|
  {
    hide System.Next, System.Stopping, System.StopHolds, System.Inv, Braked, ApplyMotionLimit;
    if events == [] {
      NotBraked(s.wheels);
    } else {
      var n := s.Next(events[0]);
      InvKept(s, events[0]);
      StoppingKept(s, events[0]);
      HaltedStep(s, events[0]);
      HaltedRun(n, events[1..]);
      if n.received != s.received {
        var more := |Ran(n, events[1..]).received| - |n.received|;
        BrakedFurther(s.wheels.0, more);
        BrakedFurther(s.wheels.1, more);
      }
    }
  }

  lemma NotBraked(w: Wheels)
    ensures Braked(w.0, 0) == w.0 && Braked(w.1, 0) == w.1
  {}

  lemma HaltedStep(s: System, e: Event)
    requires s.Inv() && s.Halted() && s.Enabled(e)
    ensures var n := s.Next(e);
            || (n.received == s.received && n.wheels == s.wheels)
            || (n.received == s.received + [ZERO_MOTION]
                && n.wheels == (ApplyMotionLimit(RPM_LIMIT, s.wheels.0, 0), ApplyMotionLimit(RPM_LIMIT, s.wheels.1, 0)))
  {
    hide EstopOf, SupOf, Coordinator.After, WheelTargets, ApplyMotionLimit;
    ZeroTargets();
  }

  /**
   The stop guarantee. A tick finds the emergency stop set and no supervision,
   and so do all later ticks. From the coordinator's next successful put on, in
   every interleaving, the motion thread receives nothing but rest, and n
   receptions brake each wheel by 8 rpm each; it is at rest exactly from
   ceil(|v| / 8) receptions on, for every speed v but -32768.
   */
  lemma StopReachesWheels(s: System, p: Poll, before: seq<Event>, after: seq<Event>)
    requires s.Inv() && s.phase.Polling? && s.Next(Tick(p)).StopHolds()
    requires Possible(s.Next(Tick(p)), before) && StoppedRun(s.Next(Tick(p)), before)
    requires Possible(Ran(s.Next(Tick(p)), before), after) && StoppedRun(Ran(s.Next(Tick(p)), before), after)
    requires Ran(s.Next(Tick(p)), before).published > s.published
    ensures var mid := Ran(s.Next(Tick(p)), before);
            StoppedWheels(mid, Ran(mid, after))
  {
    hide System.StopHolds, Braked;
    StopTickWritesRest(s, p);
    InvKept(s, Tick(p));
    HaltsOncePublished(s.Next(Tick(p)), before);
    HaltedRun(Ran(s.Next(Tick(p)), before), after);
    var mid := Ran(s.Next(Tick(p)), before);
    var n := |Ran(mid, after).received| - |mid.received|;
    BrakedToRest(mid.wheels.0, n);
    BrakedToRest(mid.wheels.1, n);
  }

  /** Between the two states only rest was received, and the wheels braked as often. */
  ghost predicate StoppedWheels(mid: System, end: System) {
    var n := |end.received| - |mid.received|;
    && n >= 0
    && (forall i :: |mid.received| <= i < |end.received| ==> end.received[i] == ZERO_MOTION)
    && end.wheels == (Braked(mid.wheels.0, n), Braked(mid.wheels.1, n))
    && (end.wheels == (0, 0) <==> n >= StepsToRest(mid.wheels.0) && n >= StepsToRest(mid.wheels.1))
  }

  /** Three further steps of the coordinator contain that put, in every interleaving. */
  lemma StopWithinThreeSteps(s: System, p: Poll, before: seq<Event>, after: seq<Event>)
    requires s.Inv() && s.phase.Polling? && s.Next(Tick(p)).StopHolds()
    requires Possible(s.Next(Tick(p)), before) && StoppedRun(s.Next(Tick(p)), before)
    requires Possible(Ran(s.Next(Tick(p)), before), after) && StoppedRun(Ran(s.Next(Tick(p)), before), after)
    requires OwnSteps(before) >= 3
    ensures var mid := Ran(s.Next(Tick(p)), before);
            mid.published > s.published && StoppedWheels(mid, Ran(mid, after))
  {
    hide System.StopHolds, Braked, StoppedWheels;
    StopTickWritesRest(s, p);
    InvKept(s, Tick(p));
    PublishedWithinThree(s.Next(Tick(p)), before);
    StopReachesWheels(s, p, before, after);
  }

  // ---------- what the motion thread receives ----------

  /** The motions that the ticks of a history call for, in order. */
  ghost function CalledFor(h: seq<Poll>): seq<Motion>
    decreases |h|
  {
    if h == [] then []
    else CalledFor(h[..|h| - 1]) + (if PublishedMotion(h).Some? then [PublishedMotion(h).value] else [])
  }

  /**
   `at` holds the places of the received motions among those called for. All
   but the one still being written are published; the queue holds the newest.
   */
  ghost predicate Delivers(s: System, at: seq<nat>) {
    var called := CalledFor(s.history);
    && |called| == s.published + (if s.phase.Polling? then 0 else 1)
    && (!s.phase.Polling? ==> s.phase.m == called[s.published])
    && |s.queue| <= s.published && (s.queue != [] ==> s.queue == [called[s.published - 1]])
    && |at| == |s.received|
    && (forall i :: 0 <= i < |at| ==> at[i] < s.published - |s.queue| && s.received[i] == called[at[i]])
    && (forall i, j :: 0 <= i < j < |at| ==> at[i] < at[j])
    && (s.phase.Polling? && s.queue == [] && s.published > 0 ==> at != [] && at[|at| - 1] == s.published - 1)
  }

  lemma DeliversKept(s: System, e: Event, at: seq<nat>) returns (at': seq<nat>)
    requires s.Inv() && Delivers(s, at) && s.Enabled(e)
    ensures Delivers(s.Next(e), at')
  {
    hide Coordinator.After, PublishedMotion, Approach;
    at' := at;
    match e
    case Tick(p) =>
      TickEnters(s, p);
      assert (s.history + [p])[..|s.history|] == s.history;
    case Drive =>
      if s.queue != [] {
        at' := at + [s.published - 1];
      }
    case _ =>
  }

  /** A tick writes what the history calls for, and nothing else. */
  lemma TickEnters(s: System, p: Poll)
    requires s.phase.Polling?
    ensures var n, called := s.Next(Tick(p)), PublishedMotion(s.history + [p]);
            && n.phase == (if called.Some? then Trying(called.value, false) else Polling)
            && n.(phase := Polling, history := s.history) == s
  {
    hide Coordinator.After, MotionOf, SupOf;
    PublishesWhatHistoryCallsFor(s.history + [p]);
  }

  lemma {:induction false} DeliversRun(s: System, events: seq<Event>, at: seq<nat>) returns (at': seq<nat>)
    requires s.Inv() && Delivers(s, at) && Possible(s, events)
    ensures Ran(s, events).Inv() && Delivers(Ran(s, events), at')
    decreases |events|
  {
    hide System.Inv, Delivers, System.Next;
    if events == [] {
      at' := at;
    } else {
      InvKept(s, events[0]);
      at' := DeliversKept(s, events[0], at);
      at' := DeliversRun(s.Next(events[0]), events[1..], at');
    }
  }

  /**
   In every interleaving the motion thread receives motions that the poll
   history called for, unchanged, in their order and none twice, and has moved
   the wheels by exactly those; between ticks the newest one is queued or was
   the last received.
   */
  lemma ReceivesWhatWasCalledFor(events: seq<Event>) returns (at: seq<nat>)
    requires Possible(START, events)
    ensures InOrderOnce(Ran(START, events), at)
    ensures Ran(START, events).wheels == Driven((0, 0), Ran(START, events).received)
  {
    hide System.Next, Approach;
    at := DeliversRun(START, events, []);
    DrivenRun(START, events);
  }

  ghost predicate InOrderOnce(s: System, at: seq<nat>) {
    var called := CalledFor(s.history);
    && |at| == |s.received|
    && (forall i :: 0 <= i < |at| ==> at[i] < |called| && s.received[i] == called[at[i]])
    && (forall i, j :: 0 <= i < j < |at| ==> at[i] < at[j])
    && (s.phase.Polling? && called != [] ==>
         s.queue == [called[|called| - 1]] || (s.queue == [] && at != [] && at[|at| - 1] == |called| - 1))
  }

  lemma {:induction false} DrivenRun(s: System, events: seq<Event>)
    requires Possible(s, events) && s.wheels == Driven((0, 0), s.received)
    ensures Ran(s, events).wheels == Driven((0, 0), Ran(s, events).received)
    decreases |events|
  {
    hide Approach, Coordinator.After;
    if events != [] {
      var n := s.Next(events[0]);
      if n.received != s.received {
        assert n.received[..|n.received| - 1] == s.received;
      }
      DrivenRun(n, events[1..]);
    }
  }

  // ---------- from the inputs alone ----------

  const START := System([], Polling, [], 0, (0, 0), [])

  ghost predicate TameEvents(events: seq<Event>, bound: int) {
    forall i :: 0 <= i < |events| && events[i].Tick? ==> TamePoll(events[i].p, bound)
  }

  /** Every motion on its way or received is within the bound, and the wheels have followed the received ones. */
  ghost predicate TameSystem(s: System, bound: int) {
    && TamePolls(s.history, bound)
    && (!s.phase.Polling? ==> Tame(s.phase.m, bound))
    && (forall i :: 0 <= i < |s.queue| ==> Tame(s.queue[i], bound))
    && (forall i :: 0 <= i < |s.received| ==> Tame(s.received[i], bound))
    && s.wheels == Driven((0, 0), s.received)
  }

  lemma TameKept(s: System, e: Event, bound: nat)
    requires s.Inv() && TameSystem(s, bound) && s.Enabled(e) && (e.Tick? ==> TamePoll(e.p, bound))
    ensures TameSystem(s.Next(e), bound)
  {
    hide Coordinator.After, MotionOf, SupOf, Approach, Tame;
    match e
    case Tick(p) =>
      PublishesWhatHistoryCallsFor(s.history + [p]);
      TameMotions(s.history + [p], bound);
    case Drive =>
      if s.queue != [] {
        var received := s.received + [s.queue[0]];
        assert received[..|received| - 1] == s.received;
      }
    case _ =>
  }

  lemma {:induction false} TameRun(s: System, events: seq<Event>, bound: nat)
    requires s.Inv() && TameSystem(s, bound) && Possible(s, events) && TameEvents(events, bound)
    ensures Ran(s, events).Inv() && TameSystem(Ran(s, events), bound)
    decreases |events|
  {
    hide System.Inv, TameSystem, System.Next;
    if events != [] {
      InvKept(s, events[0]);
      TameKept(s, events[0], bound);
      TameRun(s.Next(events[0]), events[1..], bound);
    }
  }

  /**
   From power-on, with sticks and CAN commands that never ask for more than
   `bound` rpm: whatever happened before, ceil(bound / 8) receptions after the
   stop took hold both wheels are commanded to rest, and neither speed passed
   zero on the way. For sticks in twice their nominal range that is 163
   (`StickTargets`).
   */
  lemma StopFromInputs(past: seq<Event>, p: Poll, before: seq<Event>, after: seq<Event>, bound: nat)
    requires bound <= MODERATE
    requires Possible(START, past) && TameEvents(past, bound) && TamePoll(p, bound) && TameEvents(before, bound)
    requires var s := Ran(START, past);
             s.phase.Polling? && s.Next(Tick(p)).StopHolds()
    requires var t := Ran(START, past).Next(Tick(p));
             Possible(t, before) && StoppedRun(t, before) && Ran(t, before).published > t.published
    requires var mid := Ran(Ran(START, past).Next(Tick(p)), before);
             Possible(mid, after) && StoppedRun(mid, after)
    ensures var mid := Ran(Ran(START, past).Next(Tick(p)), before);
            var end := Ran(mid, after);
            && Within(mid.wheels.0, bound) && Within(mid.wheels.1, bound)
            && Between(mid.wheels.0, end.wheels.0, 0) && Between(mid.wheels.1, end.wheels.1, 0)
            && (8 * (|end.received| - |mid.received|) >= bound ==> end.wheels == (0, 0))
  {
    hide System.StopHolds, System.Next, StoppedWheels, TamePoll, Tame;
    TameRun(START, past, bound);
    var s := Ran(START, past);
    StopTickWritesRest(s, p);
    InvKept(s, Tick(p));
    TameKept(s, Tick(p), bound);
    TameRun(s.Next(Tick(p)), before, bound);
    StopReachesWheels(s, p, before, after);
    var mid := Ran(s.Next(Tick(p)), before);
    TameWheels(mid.received, bound);
    TameBrakes(mid, Ran(mid, after), bound);
  }

  lemma TameBrakes(mid: System, end: System, bound: nat)
    requires bound <= MODERATE && Within(mid.wheels.0, bound) && Within(mid.wheels.1, bound)
    requires StoppedWheels(mid, end)
    ensures Between(mid.wheels.0, end.wheels.0, 0) && Between(mid.wheels.1, end.wheels.1, 0)
    ensures 8 * (|end.received| - |mid.received|) >= bound ==> end.wheels == (0, 0)
  {
    hide Braked;
    var n := |end.received| - |mid.received|;
    BrakedToRest(mid.wheels.0, n);
    BrakedToRest(mid.wheels.1, n);
  }
}
