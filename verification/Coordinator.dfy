/**
 The coordinator: decides from remote control, CAN commands and the supervisor
 which motion the robot executes. The two timeouts are counters in the code
 and turn out to be sliding windows over the last seven polls.
 */
module Coordinator {
  import opened CArith
  import opened Wrappers
  import opened MsgQueue
  import opened MotionControl

  datatype ControlMode = RC | CAN

  const NON_SUPERVISED: U8 := 0
  const RC_TIMEOUT_COUNT := 5
  const CAN_TIMEOUT_COUNT := 5
  const FLOAT_VALUE_DELTA: real := 0.00001
  const RECEIVER_CHANNEL_NUMBER := 8

  type ReceiverData = c: seq<real> | |c| == RECEIVER_CHANNEL_NUMBER
    witness [0.0, 0.0, 0.0, 0.0, 0.0, 0.0, 0.0, 0.0]

  predicate WantsRc(data: ReceiverData) {
    -FLOAT_VALUE_DELTA < data[7] < FLOAT_VALUE_DELTA
  }

  predicate WantsEstop(data: ReceiverData) {
    data[6] > 0.0
  }

  function StickMotion(data: ReceiverData): Motion {
    Motion(data[2], -data[0])
  }

  // ---------- one tick on values ----------

  datatype RobotState = RobotState(rcConnected: bool, estop: bool, mode: ControlMode, supMode: U8)

  datatype State = State(robot: RobotState, canMotion: Motion, motion: Motion, rcCounter: U8, canCounter: U8)

  const START := State(RobotState(false, false, CAN, NON_SUPERVISED), ZERO_MOTION, ZERO_MOTION, 0, 0)

  /** What the three input queues hold when a tick polls them. */
  datatype Poll = Poll(rc: Option<ReceiverData>, can: Option<Motion>, sup: Option<U8>)

  ghost function PollRc(s: State, rc: Option<ReceiverData>): State {
    match rc
    case Some(data) =>
      s.(rcCounter := 0,
         motion := if WantsRc(data) then StickMotion(data) else s.motion,
         robot := s.robot.(rcConnected := true, estop := WantsEstop(data), mode := if WantsRc(data) then RC else CAN))
    case None =>
      if s.rcCounter > RC_TIMEOUT_COUNT then s.(robot := s.robot.(rcConnected := false, estop := false, mode := CAN))
      else s.(rcCounter := s.rcCounter + 1)
  }

  ghost function PollCan(s: State, can: Option<Motion>): State {
    if s.robot.mode == RC then s
    else
      match can
      case Some(m) => s.(canCounter := 0, canMotion := m, motion := m)
      case None =>
        if s.canCounter > CAN_TIMEOUT_COUNT then s.(canMotion := ZERO_MOTION, motion := ZERO_MOTION)
        else s.(canCounter := s.canCounter + 1, motion := s.canMotion)
  }

  ghost function PollSup(s: State, sup: Option<U8>): State {
    if sup.Some? then s.(robot := s.robot.(supMode := sup.value)) else s
  }

  ghost function NextState(s: State, p: Poll): State {
    var t := PollSup(PollCan(PollRc(s, p.rc), p.can), p.sup);
    if t.robot.supMode == NON_SUPERVISED && t.robot.estop then t.(motion := ZERO_MOTION) else t
  }

  ghost function After(h: seq<Poll>): State
    decreases |h|
  {
    if h == [] then START else NextState(After(h[..|h| - 1]), h[|h| - 1])
  }

  // ---------- the input history, without counters ----------

  const TIMEOUT_POLLS := 7

  /** The newest message of a log of polls. */
  ghost function Newest<T>(log: seq<Option<T>>): Option<T>
    decreases |log|
  {
    if log == [] then None
    else if log[|log| - 1].Some? then log[|log| - 1]
    else Newest(log[..|log| - 1])
  }

  /** The newest message among the last seven polls. */
  ghost function Recent<T>(log: seq<Option<T>>): Option<T> {
    Newest(if |log| <= TIMEOUT_POLLS then log else log[|log| - TIMEOUT_POLLS..])
  }

  ghost function RcLog(h: seq<Poll>): (log: seq<Option<ReceiverData>>)
    ensures |log| == |h|
    decreases |h|
  {
    if h == [] then [] else RcLog(h[..|h| - 1]) + [h[|h| - 1].rc]
  }

  /** The mode after a history: remote control while a recent message asks for it. */
  ghost function ModeOf(h: seq<Poll>): ControlMode {
    var rc := Recent(RcLog(h));
    if rc.Some? && WantsRc(rc.value) then RC else CAN
  }

  /** The CAN queue is polled in CAN mode only. */
  ghost function CanLog(h: seq<Poll>): seq<Option<Motion>>
    decreases |h|
  {
    if h == [] then []
    else CanLog(h[..|h| - 1]) + (if ModeOf(h) == CAN then [h[|h| - 1].can] else [])
  }

  ghost function SupOf(h: seq<Poll>): U8
    decreases |h|
  {
    if h == [] then NON_SUPERVISED
    else if h[|h| - 1].sup.Some? then h[|h| - 1].sup.value
    else SupOf(h[..|h| - 1])
  }

  ghost predicate EstopOf(h: seq<Poll>) {
    var rc := Recent(RcLog(h));
    rc.Some? && WantsEstop(rc.value)
  }

  /** The motion a history calls for. */
  ghost function MotionOf(h: seq<Poll>): Motion {
    if EstopOf(h) then ZERO_MOTION
    else if ModeOf(h) == RC then StickMotion(Recent(RcLog(h)).value)
    else Recent(CanLog(h)).GetOr(ZERO_MOTION)
  }

  /** What the last tick of a history publishes. */
  ghost function PublishedMotion(h: seq<Poll>): Option<Motion> {
    if SupOf(h) == NON_SUPERVISED then Some(MotionOf(h)) else None
  }

  // ---------- counters are windows ----------

  /** Polls since the newest message, at most six; this is what both counters hold. */
  ghost function Misses<T>(log: seq<Option<T>>): nat
    decreases |log|
  {
    if log == [] || log[|log| - 1].Some? then 0
    else
      var m := Misses(log[..|log| - 1]);
      if m > RC_TIMEOUT_COUNT then m else m + 1
  }

  lemma {:induction false} MissesIsAge<T>(log: seq<Option<T>>)
    ensures Misses(log) <= 6 && Misses(log) <= |log|
    ensures forall i :: |log| - Misses(log) <= i < |log| ==> log[i].None?
    ensures Misses(log) < 6 ==> Misses(log) == |log| || log[|log| - 1 - Misses(log)].Some?
    decreases |log|
  {
    if log != [] && log[|log| - 1].None? {
      MissesIsAge(log[..|log| - 1]);
    }
  }

  /** A poll that finds a message makes it the recent one. */
  lemma RecentHit<T>(log: seq<Option<T>>, x: T)
    ensures Recent(log + [Some(x)]) == Some(x)
  {
    var all := log + [Some(x)];
    var window := if |all| <= TIMEOUT_POLLS then all else all[|all| - TIMEOUT_POLLS..];
    assert window[|window| - 1] == Some(x);
  }

  /** A poll that finds none keeps the recent message, unless six polls before it found none either. */
  lemma RecentMiss<T>(log: seq<Option<T>>)
    ensures Recent(log + [None]) == if Misses(log) > RC_TIMEOUT_COUNT then None else Recent(log)
  {
    hide Misses, Newest;
    MissesIsAge(log);
    var all := log + [None];
    var window := if |all| <= TIMEOUT_POLLS then all else all[|all| - TIMEOUT_POLLS..];
    var before := window[..|window| - 1];
    assert window == before + [None];
    NewestSkipsMiss(before);
    if Misses(log) > RC_TIMEOUT_COUNT {
      NewestOfNone(before);
    } else if |log| >= TIMEOUT_POLLS {
      var wide := log[|log| - TIMEOUT_POLLS..];
      assert before == wide[1..];
      assert log[|log| - 1 - Misses(log)] == wide[TIMEOUT_POLLS - 1 - Misses(log)];
      NewestInTail(wide);
    } else {
      assert before == log;
    }
  }

  lemma NewestSkipsMiss<T>(log: seq<Option<T>>)
    ensures Newest(log + [None]) == Newest(log)
  {
    assert (log + [None])[..|log|] == log;
  }

  lemma {:induction false} NewestOfNone<T>(log: seq<Option<T>>)
    requires forall i :: 0 <= i < |log| ==> log[i].None?
    ensures Newest(log) == None
    decreases |log|
  {
    if log != [] {
      NewestOfNone(log[..|log| - 1]);
    }
  }

  /** The oldest entry does not matter if a later one is a message. */
  lemma {:induction false} NewestInTail<T>(log: seq<Option<T>>)
    requires exists i :: 1 <= i < |log| && log[i].Some?
    ensures Newest(log) == Newest(log[1..])
    decreases |log|
  {
    var n := |log|;
    assert log[1..][n - 2] == log[n - 1];
    if log[n - 1].None? {
      assert log[1..][..n - 2] == log[..n - 1][1..];
      NewestInTail(log[..n - 1]);
    }
  }

  // ---------- the coordinator follows the history ----------

  /** Everything the coordinator carries, as functions of the input history. */
  ghost predicate Follows(s: State, h: seq<Poll>) {
    && s.rcCounter == Misses(RcLog(h)) && s.canCounter == Misses(CanLog(h))
    && s.robot.rcConnected == Recent(RcLog(h)).Some?
    && s.robot.estop == EstopOf(h)
    && s.robot.mode == ModeOf(h)
    && s.robot.supMode == SupOf(h)
    && s.canMotion == Recent(CanLog(h)).GetOr(ZERO_MOTION)
    && (s.robot.mode == CAN && !s.robot.estop ==> s.motion == s.canMotion)
    && (s.robot.mode == RC && !s.robot.estop ==> s.motion == StickMotion(Recent(RcLog(h)).value))
    && (s.robot.supMode == NON_SUPERVISED && s.robot.estop ==> s.motion == ZERO_MOTION)
  }

  lemma RcFollows(s: State, h: seq<Poll>, p: Poll)
    requires Follows(s, h)
    ensures var t, h' := PollRc(s, p.rc), h + [p];
            && RcLog(h') == RcLog(h) + [p.rc]
            && t.rcCounter == Misses(RcLog(h'))
            && t.robot.rcConnected == Recent(RcLog(h')).Some?
            && t.robot.estop == EstopOf(h') && t.robot.mode == ModeOf(h')
            && (t.robot.mode == RC && !t.robot.estop ==> t.motion == StickMotion(Recent(RcLog(h')).value))
  {
    var h' := h + [p];
    assert h'[..|h|] == h;
    var log := RcLog(h);
    assert (log + [p.rc])[..|log|] == log;
    match p.rc {
      case Some(data) => RecentHit(log, data);
      case None => RecentMiss(log);
    }
  }

  lemma CanFollows(s: State, h: seq<Poll>, p: Poll)
    requires s.canCounter == Misses(CanLog(h)) && s.canMotion == Recent(CanLog(h)).GetOr(ZERO_MOTION)
    requires s.robot.mode == ModeOf(h + [p])
    ensures var t, h' := PollCan(s, p.can), h + [p];
            && t.robot == s.robot && t.rcCounter == s.rcCounter
            && t.canCounter == Misses(CanLog(h')) && t.canMotion == Recent(CanLog(h')).GetOr(ZERO_MOTION)
            && t.motion == if s.robot.mode == CAN then t.canMotion else s.motion
  {
    var h' := h + [p];
    assert h'[..|h|] == h;
    var log := CanLog(h);
    assert (log + [p.can])[..|log|] == log;
    if s.robot.mode == CAN {
      match p.can {
        case Some(m) => RecentHit(log, m);
        case None => RecentMiss(log);
      }
    } else {
      assert CanLog(h') == log;
    }
  }

  /** One tick keeps the correspondence. */
  lemma TickFollows(s: State, h: seq<Poll>, p: Poll)
    requires Follows(s, h)
    ensures Follows(NextState(s, p), h + [p])
  {
    hide PollRc, PollCan, Recent, Misses, ModeOf, EstopOf;
    RcFollows(s, h, p);
    assert PollRc(s, p.rc).canCounter == s.canCounter && PollRc(s, p.rc).canMotion == s.canMotion
        && PollRc(s, p.rc).robot.supMode == s.robot.supMode by { RcKeepsCan(s, p.rc); }
    CanFollows(PollRc(s, p.rc), h, p);
    assert (h + [p])[..|h|] == h;
  }

  lemma RcKeepsCan(s: State, rc: Option<ReceiverData>)
    ensures var t := PollRc(s, rc);
            t.canCounter == s.canCounter && t.canMotion == s.canMotion && t.robot.supMode == s.robot.supMode
  {}

  /** For every input history, the coordinator's state is the one the history calls for. */
  lemma {:induction false} FollowsHistory(h: seq<Poll>)
    ensures Follows(After(h), h)
    decreases |h|
  {
    hide NextState, Recent, Misses, ModeOf, EstopOf;
    if h == [] {
      StartFollows();
    } else {
      FollowsHistory(h[..|h| - 1]);
      TickFollows(After(h[..|h| - 1]), h[..|h| - 1], h[|h| - 1]);
      assert h == h[..|h| - 1] + [h[|h| - 1]];
    }
  }

  lemma StartFollows()
    ensures Follows(START, [])
  {}

  /** The counters stay below seven; a lost link leaves neither emergency stop nor remote control behind. */
  lemma ReachableStates(h: seq<Poll>)
    ensures var s := After(h);
            && s.rcCounter <= 6 && s.canCounter <= 6
            && (s.robot.rcConnected <==> exists i :: 0 <= i < |h| && |h| - 7 <= i && h[i].rc.Some?)
            && (!s.robot.rcConnected ==> !s.robot.estop && s.robot.mode == CAN)
  {
    hide After;
    FollowsHistory(h);
    MissesIsAge(RcLog(h));
    MissesIsAge(CanLog(h));
    RecentRcExists(h);
  }

  lemma {:induction false} RcLogAt(h: seq<Poll>, i: nat)
    requires i < |h|
    ensures RcLog(h)[i] == h[i].rc
    decreases |h|
  {
    if i < |h| - 1 {
      RcLogAt(h[..|h| - 1], i);
    }
  }

  lemma {:induction false} NewestExists<T>(log: seq<Option<T>>)
    ensures Newest(log).Some? <==> exists i :: 0 <= i < |log| && log[i].Some?
    decreases |log|
  {
    if log != [] && log[|log| - 1].None? {
      NewestExists(log[..|log| - 1]);
    }
  }

  lemma RecentExists<T>(log: seq<Option<T>>)
    ensures Recent(log).Some? <==> exists i :: 0 <= i < |log| && |log| - 7 <= i && log[i].Some?
  {
    hide Newest;
    var skip := if |log| <= TIMEOUT_POLLS then 0 else |log| - TIMEOUT_POLLS;
    NewestExists(log[skip..]);
    assert forall i :: skip <= i < |log| ==> log[i] == log[skip..][i - skip];
  }

  lemma RecentRcExists(h: seq<Poll>)
    ensures Recent(RcLog(h)).Some? <==> exists i :: 0 <= i < |h| && |h| - 7 <= i && h[i].rc.Some?
  {
    hide Recent, RcLog;
    RecentExists(RcLog(h));
    forall i | 0 <= i < |h|
      ensures RcLog(h)[i] == h[i].rc
    {
      RcLogAt(h, i);
    }
  }

  /**
   What each tick publishes, in every run: nothing while supervised; no motion
   under emergency stop; the sticks of the recent message in remote control;
   else the recent CAN motion, or none.
   */
  lemma PublishesWhatHistoryCallsFor(h: seq<Poll>)
    requires h != []
    ensures PublishedMotion(h)
         == if After(h).robot.supMode == 0 then Some(After(h).motion) else None
  {
    hide After, Recent, Misses;
    FollowsHistory(h);
  }

  // ---------- the history's answers in numbers ----------

  lemma {:induction false} NewestAt<T>(log: seq<Option<T>>, i: nat)
    requires i < |log| && log[i].Some? && forall j :: i < j < |log| ==> log[j].None?
    ensures Newest(log) == log[i]
    decreases |log|
  {
    if i < |log| - 1 {
      NewestAt(log[..|log| - 1], i);
    }
  }

  lemma {:induction false} RecentAt<T>(log: seq<Option<T>>, i: nat)
    requires i < |log| && |log| - 7 <= i && log[i].Some? && forall j :: i < j < |log| ==> log[j].None?
    ensures Recent(log) == log[i]
  {
    hide Newest;
    var skip := if |log| <= TIMEOUT_POLLS then 0 else |log| - TIMEOUT_POLLS;
    NewestAt(log[skip..], i - skip);
  }

  /**
   The newest receiver message of the last seven polls decides: channel 6 above
   zero is the emergency stop, channel 7 around zero is remote control, with
   channel 2 as linear and the negated channel 0 as angular motion.
   */
  lemma {:induction false} ReceiverDecides(h: seq<Poll>, i: nat)
    requires i < |h| && |h| - 7 <= i && h[i].rc.Some? && forall j :: i < j < |h| ==> h[j].rc.None?
    ensures var data, s := h[i].rc.value, After(h);
            && s.robot.rcConnected && s.robot.estop == (data[6] > 0.0)
            && s.robot.mode == (if -0.00001 < data[7] < 0.00001 then RC else CAN)
            && (s.robot.mode == RC && !s.robot.estop ==> s.motion == Motion(data[2], -data[0]))
            && (s.robot.estop && s.robot.supMode == 0 ==> s.motion == Motion(0.0, 0.0))
  {
    hide After, Recent, Misses;
    FollowsHistory(h);
    forall j | 0 <= j < |h|
      ensures RcLog(h)[j] == h[j].rc
    {
      RcLogAt(h, j);
    }
    RecentAt(RcLog(h), i);
  }

  /** The newest CAN motion of the last seven polls of that queue decides in CAN mode. */
  lemma {:induction false} CanDecides(h: seq<Poll>, i: nat)
    requires After(h).robot.mode == CAN && !After(h).robot.estop
    requires i < |CanLog(h)| && |CanLog(h)| - 7 <= i && CanLog(h)[i].Some?
    requires forall j :: i < j < |CanLog(h)| ==> CanLog(h)[j].None?
    ensures After(h).motion == CanLog(h)[i].value
  {
    hide After, Recent, Misses, CanLog;
    FollowsHistory(h);
    RecentAt(CanLog(h), i);
  }

  /** Without one there, the robot is to stand still. */
  lemma {:induction false} SilentCan(h: seq<Poll>)
    requires After(h).robot.mode == CAN && !After(h).robot.estop
    requires forall j :: 0 <= j < |CanLog(h)| && |CanLog(h)| - 7 <= j ==> CanLog(h)[j].None?
    ensures After(h).motion == Motion(0.0, 0.0)
  {
    hide After, Recent, Misses, CanLog;
    FollowsHistory(h);
    RecentExists(CanLog(h));
  }

  /** That queue is polled by the ticks that end up in CAN mode. */
  lemma {:induction false} CanLogGrows(h: seq<Poll>, p: Poll)
    ensures CanLog([]) == []
    ensures CanLog(h + [p]) == if After(h + [p]).robot.mode == CAN then CanLog(h) + [p.can] else CanLog(h)
  {
    hide After, Misses;
    FollowsHistory(h + [p]);
    assert (h + [p])[..|h|] == h;
  }

  /** The newest supervisor command decides, however old; without one the robot is not supervised. */
  lemma {:induction false} SupervisorDecides(h: seq<Poll>, i: int)
    requires -1 <= i < |h| && (i >= 0 ==> h[i].sup.Some?) && forall j :: i < j < |h| ==> h[j].sup.None?
    ensures After(h).robot.supMode == if i >= 0 then h[i].sup.value else 0
  {
    hide After, Misses;
    FollowsHistory(h);
    SupAt(h, i);
  }

  lemma {:induction false} SupAt(h: seq<Poll>, i: int)
    requires -1 <= i < |h| && (i >= 0 ==> h[i].sup.Some?) && forall j :: i < j < |h| ==> h[j].sup.None?
    ensures SupOf(h) == if i >= 0 then h[i].sup.value else 0
    decreases |h|
  {
    if i < |h| - 1 {
      SupAt(h[..|h| - 1], i);
    }
  }

  /** Sticks and CAN command of a poll ask for wheel speeds within the bound. */
  predicate TamePoll(p: Poll, bound: int) {
    && (p.rc.Some? ==> Tame(StickMotion(p.rc.value), bound))
    && (p.can.Some? ==> Tame(p.can.value, bound))
  }

  ghost predicate TamePolls(h: seq<Poll>, bound: int) {
    forall i :: 0 <= i < |h| ==> TamePoll(h[i], bound)
  }

  lemma {:induction false} NewestIsLogged<T>(log: seq<Option<T>>)
    requires Newest(log).Some?
    ensures exists i :: 0 <= i < |log| && log[i] == Newest(log)
    decreases |log|
  {
    if log[|log| - 1].None? {
      NewestIsLogged(log[..|log| - 1]);
    }
  }

  lemma RecentIsLogged<T>(log: seq<Option<T>>) returns (i: nat)
    requires Recent(log).Some?
    ensures i < |log| && log[i] == Recent(log)
  {
    var skip := if |log| <= TIMEOUT_POLLS then 0 else |log| - TIMEOUT_POLLS;
    NewestIsLogged(log[skip..]);
    i :| 0 <= i < |log[skip..]| && log[skip..][i] == Newest(log[skip..]);
    i := skip + i;
  }

  lemma {:induction false} TameCanLog(h: seq<Poll>, bound: int)
    requires TamePolls(h, bound)
    ensures forall i :: 0 <= i < |CanLog(h)| && CanLog(h)[i].Some? ==> Tame(CanLog(h)[i].value, bound)
    decreases |h|
  {
    hide ModeOf, Tame;
    if h != [] {
      TameCanLog(h[..|h| - 1], bound);
    }
  }

  /** Inputs that ask for speeds within a bound call for a motion that does. */
  lemma TameMotions(h: seq<Poll>, bound: nat)
    requires TamePolls(h, bound)
    ensures Tame(MotionOf(h), bound)
  {
    hide Recent, WheelTargets;
    ZeroTargets();
    if !EstopOf(h) {
      if ModeOf(h) == RC {
        var i := RecentIsLogged(RcLog(h));
        RcLogAt(h, i);
      } else if Recent(CanLog(h)).Some? {
        TameCanLog(h, bound);
        var i := RecentIsLogged(CanLog(h));
      }
    }
  }

  /** Seven polls without a remote-control message release the emergency stop. */
  lemma LostLinkReleasesEstop(h: seq<Poll>, quiet: seq<Poll>)
    requires |quiet| >= 7 && forall i :: 0 <= i < |quiet| ==> quiet[i].rc.None?
    ensures !EstopOf(h + quiet)
    ensures MotionOf(h + quiet) == Recent(CanLog(h + quiet)).GetOr(ZERO_MOTION)
  {
    var all := h + quiet;
    RecentRcExists(all);
    forall i | 0 <= i < |all| && |all| - 7 <= i
      ensures all[i].rc.None?
    {
      assert all[i] == quiet[i - |h|];
    }
  }

  // ---------- the service ----------

  class CoordinatorService {
    const rcQueue: Queue<ReceiverData>
    const canQueue: Queue<Motion>
    const supQueue: Queue<U8>
    const motionQueue: Queue<Motion>
    const stateQueue: Queue<RobotState>
    var robotState: RobotState
    var desiredMotion: Motion
    var desiredMotionFromCan: Motion
    var rcCounter: U8
    var canCounter: U8

    constructor (rcQueue: Queue<ReceiverData>, canQueue: Queue<Motion>, supQueue: Queue<U8>,
                 motionQueue: Queue<Motion>, stateQueue: Queue<RobotState>)
      requires rcQueue.Valid() && canQueue.Valid() && supQueue.Valid() && motionQueue.Valid() && stateQueue.Valid()
      requires canQueue != motionQueue
      ensures Valid() && Value() == START
      ensures this.rcQueue == rcQueue && this.canQueue == canQueue && this.supQueue == supQueue
      ensures this.motionQueue == motionQueue && this.stateQueue == stateQueue
    {
      this.rcQueue, this.canQueue, this.supQueue := rcQueue, canQueue, supQueue;
      this.motionQueue, this.stateQueue := motionQueue, stateQueue;
      robotState := RobotState(false, false, CAN, NON_SUPERVISED);
      desiredMotion, desiredMotionFromCan := ZERO_MOTION, ZERO_MOTION;
      rcCounter, canCounter := 0, 0;
    }

    ghost predicate Valid()
      reads this, rcQueue, canQueue, supQueue, motionQueue, stateQueue
    {
      && rcQueue.Valid() && canQueue.Valid() && supQueue.Valid() && motionQueue.Valid() && stateQueue.Valid()
      && canQueue != motionQueue
      && rcCounter <= 6 && canCounter <= 6
    }

    ghost function Value(): State
      reads this
    {
      State(robotState, desiredMotionFromCan, desiredMotion, rcCounter, canCounter)
    }

    /** What the input queues offer to a tick. */
    ghost function Offered(): Poll
      reads this, rcQueue, canQueue, supQueue
    {
      Poll(Head(rcQueue.buf), Head(canQueue.buf), Head(supQueue.buf))
    }

    method PollReceiver()
      requires Valid()
      modifies this, rcQueue
      ensures Valid() && Value() == PollRc(old(Value()), Head(old(rcQueue.buf)))
      ensures rcQueue.buf == Rest(old(rcQueue.buf))
    {
      var rc := rcQueue.Get();
      if rc.Some? {
        rcCounter := 0;
        robotState := robotState.(rcConnected := true);
        if rc.value[7] < FLOAT_VALUE_DELTA && rc.value[7] > -FLOAT_VALUE_DELTA {
          robotState := robotState.(mode := RC);
          desiredMotion := Motion(rc.value[2], -rc.value[0]);
        } else {
          robotState := robotState.(mode := CAN);
        }
        if rc.value[6] > 0.0 {
          robotState := robotState.(estop := true);
        } else {
          robotState := robotState.(estop := false);
        }
      } else {
        if rcCounter > RC_TIMEOUT_COUNT {
          robotState := robotState.(rcConnected := false, estop := false, mode := CAN);
        } else {
          rcCounter := rcCounter + 1;
        }
      }
    }

    method PollMessenger()
      requires Valid()
      modifies this, canQueue
      ensures Valid() && Value() == PollCan(old(Value()), Head(old(canQueue.buf)))
      ensures canQueue.buf == if robotState.mode == CAN then Rest(old(canQueue.buf)) else old(canQueue.buf)
    {
      if robotState.mode == CAN {
        var can := canQueue.Get();
        if can.Some? {
          desiredMotionFromCan := can.value;
          canCounter := 0;
        } else {
          if canCounter > CAN_TIMEOUT_COUNT {
            desiredMotionFromCan := ZERO_MOTION;
          } else {
            canCounter := canCounter + 1;
          }
        }
        desiredMotion := desiredMotionFromCan;
      }
    }

    /** One iteration of the service's loop. */
    method Step()
      requires Valid()
      modifies this, rcQueue, canQueue, supQueue, motionQueue, stateQueue
      ensures Valid()
      ensures Value() == NextState(old(Value()), old(Offered()))
      ensures rcQueue.buf == Rest(old(rcQueue.buf)) && supQueue.buf == Rest(old(supQueue.buf))
      ensures canQueue.buf == if robotState.mode == CAN then Rest(old(canQueue.buf)) else old(canQueue.buf)
      ensures motionQueue.buf == if robotState.supMode == NON_SUPERVISED
                                 then Published(old(motionQueue.buf), motionQueue.capacity, desiredMotion)
                                 else old(motionQueue.buf)
      ensures stateQueue.buf == Published(old(stateQueue.buf), stateQueue.capacity, robotState)
    {
      hide PollRc, PollCan, Published;
      PollReceiver();
      PollMessenger();

      var sup := supQueue.Get();
      if sup.Some? {
        robotState := robotState.(supMode := sup.value);
      }

      if robotState.supMode == NON_SUPERVISED {
        if robotState.estop {
          desiredMotion := ZERO_MOTION;
        }
        ghost var tries := motionQueue.Publish(desiredMotion);
      }
      ghost var tries := stateQueue.Publish(robotState);
    }
  }
}
