/**
 The encoder service: one iteration of its loop as a method on the objects it
 updates, and as a function on the values they hold. The source keeps one
 array per variable, indexed by channel; here each channel is one object.
 */
module EncoderService {
  import opened CArith
  import opened MsgQueue
  import opened WheelCounter
  import opened SpeedFilter

  const ENCODER_CHANNEL_NUMBER := 2

  // ---------- one iteration on values ----------

  /** `raw` and `filtered` are the channel's entries in the message to publish. */
  datatype Wheel = Wheel(counter: Counter, acc: U16, filter: Filter, raw: int, filtered: int)

  datatype Config = Config(samplesPerEstimate: U32, pulsePerRound: seq<U32>) {
    ghost predicate Valid() {
      && samplesPerEstimate > 0
      && 1 <= |pulsePerRound| <= ENCODER_CHANNEL_NUMBER
      && forall i :: 0 <= i < |pulsePerRound| ==> pulsePerRound[i] > 0
    }
  }

  datatype Service = Service(
    firstTime: bool, timeStamp: int, accTime: int, loops: U32, estimates: nat, wheels: seq<Wheel>)
  {
    ghost predicate Valid(conf: Config) {
      && conf.Valid() && |wheels| == |conf.pulsePerRound| && ValidWheels(wheels)
    }

    /** This iteration ends with an estimate. */
    ghost predicate Due(conf: Config)
      requires conf.Valid()
    {
      !firstTime && loops % conf.samplesPerEstimate == 0
    }

    /** The clock advances; it has moved on when an estimate divides by the elapsed time. */
    ghost predicate ClockRuns(conf: Config, now: int)
      requires conf.Valid()
    {
      Due(conf) ==> accTime + (now - timeStamp) > 0
    }
  }

  /** The speed over a window, in the source's order of 32-bit products and 64-bit quotients. */
  function RawRpm(up: bool, acc: U16, elapsed: int, pulsePerRound: U32): I32
    requires elapsed > 0 && pulsePerRound > 0
  {
    var sign := if up then 1 else -1;
    var product := ToI32(ToI32(ToI32(sign * acc) * 60) * 1000);
    ToI32(TruncDiv(TruncDiv(product, elapsed), pulsePerRound))
  }

  ghost function SampleWheel(w: Wheel, cur: U16): Wheel {
    w.(counter := w.counter.Sample(cur), acc := ToU16(w.acc + w.counter.Error(cur)))
  }

  ghost function EstimateWheel(w: Wheel, elapsed: int, pulsePerRound: U32, estimates: nat): Wheel
    requires w.filter.Valid() && elapsed > 0 && pulsePerRound > 0
  {
    var raw := RawRpm(w.counter.up, w.acc, elapsed, pulsePerRound);
    var filter := w.filter.Next(raw);
    Wheel(w.counter, 0, filter, raw, filter.Report(estimates))
  }

  lemma EstimateClears(w: Wheel, elapsed: int, pulsePerRound: U32, estimates: nat)
    requires w.filter.Valid() && elapsed > 0 && pulsePerRound > 0
    ensures EstimateWheel(w, elapsed, pulsePerRound, estimates).acc == 0
  {}

  ghost function Primed(ws: seq<Wheel>, readings: seq<U16>): (r: seq<Wheel>)
    requires |readings| == |ws|
    ensures |r| == |ws|
  {
    seq(|ws|, i requires 0 <= i < |ws| => ws[i].(counter := ws[i].counter.(prev := readings[i])))
  }

  ghost function Sampled(ws: seq<Wheel>, readings: seq<U16>): (r: seq<Wheel>)
    requires |readings| == |ws|
    ensures |r| == |ws|
  {
    seq(|ws|, i requires 0 <= i < |ws| => SampleWheel(ws[i], readings[i]))
  }

  ghost predicate ValidWheels(ws: seq<Wheel>) {
    forall i :: 0 <= i < |ws| ==> ws[i].filter.Valid()
  }

  ghost function Estimated(ws: seq<Wheel>, elapsed: int, pulsePerRound: seq<U32>, estimates: nat): (r: seq<Wheel>)
    requires |pulsePerRound| == |ws| && ValidWheels(ws) && elapsed > 0
    requires forall i :: 0 <= i < |ws| ==> pulsePerRound[i] > 0
    ensures |r| == |ws| && ValidWheels(r)
  {
    seq(|ws|, i requires 0 <= i < |ws| => EstimateWheel(ws[i], elapsed, pulsePerRound[i], estimates))
  }

  /** The estimate counter stops at the number of estimates that make reports valid. */
  function CountEstimate(estimates: nat): nat {
    if estimates + 1 > MIN_ESTIMATE_NUM_BEFORE_VALID then MIN_ESTIMATE_NUM_BEFORE_VALID else estimates + 1
  }

  /** The first iteration only stores the readings; every later one samples, and some make an estimate. */
  ghost function Next(conf: Config, s: Service, now: int, readings: seq<U16>): (n: Service)
    requires s.Valid(conf) && |readings| == |s.wheels| && s.ClockRuns(conf, now)
    ensures n.Valid(conf)
  {
    if s.firstTime then s.(firstTime := false, wheels := Primed(s.wheels, readings))
    else
      var elapsed := s.accTime + (now - s.timeStamp);
      var sampled := Sampled(s.wheels, readings);
      if !s.Due(conf) then Service(false, now, elapsed, ToU32(s.loops + 1), s.estimates, sampled)
      else
        Service(false, now, 0, ToU32(s.loops + 1), CountEstimate(s.estimates),
                Estimated(sampled, elapsed, conf.pulsePerRound, s.estimates))
  }

  function Truncated(counts: seq<U32>): (r: seq<U16>)
    ensures |r| == |counts|
  {
    seq(|counts|, i requires 0 <= i < |counts| => ToU16(counts[i]))
  }

  /** Raw and filtered speed of each active channel. */
  type Speeds = seq<(int, int)>

  ghost function Message(ws: seq<Wheel>): Speeds {
    seq(|ws|, i requires 0 <= i < |ws| => (ws[i].raw, ws[i].filtered))
  }

  /** The iteration publishes: an estimate is made and at least twenty were made before it. */
  ghost predicate Publishes(conf: Config, s: Service)
    requires conf.Valid()
  {
    s.Due(conf) && s.estimates + 1 > MIN_ESTIMATE_NUM_BEFORE_VALID
  }

  // ---------- one iteration on objects ----------

  class EncoderChannel {
    var overflowDetected: bool
    var underflowDetected: bool
    var isCountingUp: bool
    var reading: U16
    var prevReading: U16
    var accumulatedError: U16
    var lastFilteredRpm: int
    const rawRpmHistory: array<int>
    const estimatedRpmHistory: array<int>
    var indexer: nat
    var rawRpm: int
    var filteredRpm: int

    /** Only channel 0 starts with its overflow flag set: the initialiser lists one value. */
    constructor (channel: nat, raw: int, filtered: int)
      ensures Valid() && fresh(Footprint())
      ensures Value() == Wheel(Counter(channel == 0, false, true, 0), 0, INITIAL, raw, filtered)
    {
      overflowDetected, underflowDetected, isCountingUp := channel == 0, false, true;
      reading, prevReading, accumulatedError, lastFilteredRpm, indexer := 0, 0, 0, 0, 0;
      rawRpmHistory := new int[2](_ => 0);
      estimatedRpmHistory := new int[10](_ => 0);
      rawRpm, filteredRpm := raw, filtered;
    }

    ghost function Footprint(): set<object> {
      {this, rawRpmHistory, estimatedRpmHistory}
    }

    ghost predicate Valid()
      reads this
    {
      rawRpmHistory != estimatedRpmHistory && rawRpmHistory.Length == 2
      && estimatedRpmHistory.Length == AVERAGE_FILTER_LEN && indexer < AVERAGE_FILTER_LEN
    }

    ghost function Value(): Wheel
      reads this, rawRpmHistory, estimatedRpmHistory
      requires Valid()
    {
      Wheel(Counter(overflowDetected, underflowDetected, isCountingUp, prevReading), accumulatedError,
            Filter(lastFilteredRpm, rawRpmHistory[0], rawRpmHistory[1], estimatedRpmHistory[..], indexer),
            rawRpm, filteredRpm)
    }

    /** Detect wrap-around, decide the direction, add up the pulses. */
    method TakeSample()
      requires Valid()
      modifies this
      ensures Valid() && reading == old(reading)
      ensures Value() == SampleWheel(old(Value()), reading)
    {
      if reading >= prevReading && reading - prevReading > MAX_PULSE_PER_PERIOD {
        underflowDetected := true;
      } else if prevReading - reading > MAX_PULSE_PER_PERIOD {
        overflowDetected := true;
      }

      if reading >= prevReading {
        if underflowDetected {
          isCountingUp := false;
          underflowDetected := false;
        } else {
          isCountingUp := true;
        }
      } else {
        if overflowDetected {
          isCountingUp := true;
          overflowDetected := false;
        } else {
          isCountingUp := false;
        }
      }

      var readingError: U16 := 0;
      if isCountingUp {
        readingError := ToU16(reading - prevReading);
      } else {
        readingError := ToU16(prevReading - reading);
      }
      accumulatedError := ToU16(accumulatedError + readingError);
      prevReading := reading;
    }

    /** Convert the window to rpm, filter, reject outliers, average. */
    method Estimate(elapsed: int, pulsePerRound: U32, estimates: nat)
      requires Valid() && elapsed > 0 && pulsePerRound > 0
      modifies Footprint()
      ensures Valid() && accumulatedError == old(accumulatedError)
      ensures Value().(acc := 0) == EstimateWheel(old(Value()), elapsed, pulsePerRound, estimates)
    {
      hide LowPass, TruncDiv, ToI32, Sum;
      ghost var before := Value().filter;
      var sign := 1;
      if !isCountingUp {
        sign := -1;
      }
      rawRpm := ToI32(TruncDiv(TruncDiv(ToI32(ToI32(ToI32(sign * accumulatedError) * 60) * 1000), elapsed),
                               pulsePerRound));

      filteredRpm := LowPass(lastFilteredRpm, rawRpmHistory[0], rawRpmHistory[1]);
      if filteredRpm > MAX_POSSIBLE_RPM || filteredRpm < -MAX_POSSIBLE_RPM {
        filteredRpm := lastFilteredRpm;
      }

      rawRpmHistory[0] := rawRpmHistory[1];
      rawRpmHistory[1] := rawRpm;
      lastFilteredRpm := filteredRpm;

      estimatedRpmHistory[indexer] := filteredRpm;
      indexer := (indexer + 1) % AVERAGE_FILTER_LEN;
      assert Value().filter == before.Next(rawRpm);
      if estimates >= AVERAGE_FILTER_LEN {
        var sum := SumHistory();
        filteredRpm := TruncDiv(sum, AVERAGE_FILTER_LEN);
      }
    }

    method SumHistory() returns (sum: int)
      requires Valid()
      ensures sum == Sum(estimatedRpmHistory[..])
    {
      sum := 0;
      for j := 0 to AVERAGE_FILTER_LEN
        invariant sum == Sum(estimatedRpmHistory[..j])
      {
        assert estimatedRpmHistory[..j + 1] == estimatedRpmHistory[..j] + [estimatedRpmHistory[j]];
        SumAppend(estimatedRpmHistory[..j], [estimatedRpmHistory[j]]);
        sum := sum + estimatedRpmHistory[j];
      }
      assert estimatedRpmHistory[..AVERAGE_FILTER_LEN] == estimatedRpmHistory[..];
    }
  }

  ghost function StartCounter(channel: nat): Counter {
    Counter(channel == 0, false, true, 0)
  }

  /** At start: everything clear, except the overflow flag of channel 0. */
  ghost function InitialWheel(channel: nat, junk: (int, int)): Wheel {
    Wheel(StartCounter(channel), 0, INITIAL, junk.0, junk.1)
  }

  ghost function Initial(conf: Config, now: int, junk: Speeds): (s: Service)
    requires conf.Valid() && |junk| == |conf.pulsePerRound|
    ensures s.Valid(conf)
  {
    Service(true, now, 0, 0, 0, seq(|junk|, i requires 0 <= i < |junk| => InitialWheel(i, junk[i])))
  }

  ghost predicate SeparateChannels(c: EncoderChannel, d: EncoderChannel) {
    && c != d && c.rawRpmHistory != d.rawRpmHistory && c.rawRpmHistory != d.estimatedRpmHistory
    && c.estimatedRpmHistory != d.rawRpmHistory && c.estimatedRpmHistory != d.estimatedRpmHistory
  }

  class EncoderLoop {
    const samplesPerEstimate: U32
    const pulsePerRound: seq<U32>
    const channels: seq<EncoderChannel>
    const rpmQueue: Queue<Speeds>
    ghost const parts: set<object>
    var firstTime: bool
    var timeStamp: int
    var accumulatedTime: int
    var loopCounter: U32
    var estimatorCounter: nat
    /** The values of all of the above, kept in step. */
    ghost var model: Service

    /** `junk` is the content of the uninitialised message. */
    constructor (conf: Config, rpmQueue: Queue<Speeds>, now: int, junk: Speeds)
      requires conf.Valid() && |junk| == |conf.pulsePerRound| && rpmQueue.Valid()
      ensures Valid() && Conf() == conf && this.rpmQueue == rpmQueue && fresh(parts)
      ensures model == Initial(conf, now, junk)
    {
      samplesPerEstimate, pulsePerRound := conf.samplesPerEstimate, conf.pulsePerRound;
      this.rpmQueue := rpmQueue;
      firstTime, timeStamp, accumulatedTime, loopCounter, estimatorCounter := true, now, 0, 0, 0;
      var left := new EncoderChannel(0, junk[0].0, junk[0].1);
      if |junk| == 1 {
        channels := [left];
        parts := left.Footprint();
      } else {
        var right := new EncoderChannel(1, junk[1].0, junk[1].1);
        channels := [left, right];
        parts := left.Footprint() + right.Footprint();
      }
      model := Initial(conf, now, junk);
    }

    ghost function Conf(): Config {
      Config(samplesPerEstimate, pulsePerRound)
    }

    /** The channels and their arrays are separate objects, all of them in `parts`. */
    ghost predicate Apart() {
      && (forall i :: 0 <= i < |channels| ==>
           && channels[i] in parts && channels[i].rawRpmHistory in parts && channels[i].estimatedRpmHistory in parts)
      && (forall i, j :: 0 <= i < j < |channels| ==> SeparateChannels(channels[i], channels[j]))
      && this !in parts && rpmQueue !in parts
    }

    /** Channel i holds the value ws[i]. */
    ghost predicate Hold(ws: seq<Wheel>)
      requires Apart()
      reads parts
    {
      && |ws| == |channels|
      && (forall i :: 0 <= i < |channels| ==> channels[i].Valid() && channels[i].Value() == ws[i])
    }

    ghost predicate Valid()
      reads this, rpmQueue, parts
    {
      && |channels| == |pulsePerRound| && model.Valid(Conf()) && Apart() && rpmQueue.Valid()
      && Hold(model.wheels)
      && firstTime == model.firstTime && timeStamp == model.timeStamp && accumulatedTime == model.accTime
      && loopCounter == model.loops && estimatorCounter == model.estimates
    }

    /** The hardware counters are read into 16-bit variables, all channels first. */
    method ReadEncoders(counts: seq<U32>, ghost ws: seq<Wheel>)
      requires Apart() && Hold(ws) && |counts| == |channels|
      modifies parts
      ensures Hold(ws) && ReadingsAre(Truncated(counts))
    {
      for i := 0 to |channels|
        invariant Hold(ws)
        invariant forall k :: 0 <= k < i ==> channels[k].reading == ToU16(counts[k])
      {
        channels[i].reading := ToU16(counts[i]);
      }
    }

    ghost predicate ReadingsAre(readings: seq<U16>)
      requires Apart()
      reads parts
    {
      |readings| == |channels| && forall k :: 0 <= k < |channels| ==> channels[k].reading == readings[k]
    }

    method StorePrevious(ghost ws: seq<Wheel>, ghost readings: seq<U16>)
      requires Apart() && Hold(ws) && ReadingsAre(readings)
      modifies parts
      ensures Hold(Primed(ws, readings))
    {
      ghost var now := ws;
      for i := 0 to |channels|
        invariant ReadingsAre(readings) && Hold(now) && HalfWay(ws, Primed(ws, readings), now, i)
      {
        channels[i].prevReading := channels[i].reading;
        now := now[i := Primed(ws, readings)[i]];
      }
      assert now == Primed(ws, readings);
    }

    /** The first i entries are new, the others still old. */
    ghost predicate HalfWay(before: seq<Wheel>, after: seq<Wheel>, now: seq<Wheel>, i: nat) {
      && |before| == |after| == |now| && i <= |now|
      && (forall k :: 0 <= k < i ==> now[k] == after[k])
      && (forall k :: i <= k < |now| ==> now[k] == before[k])
    }

    method SampleAll(ghost ws: seq<Wheel>, ghost readings: seq<U16>)
      requires Apart() && Hold(ws) && ReadingsAre(readings)
      modifies parts
      ensures Hold(Sampled(ws, readings))
    {
      hide SampleWheel, Counter.Sample;
      ghost var now := ws;
      for i := 0 to |channels|
        invariant ReadingsAre(readings) && Hold(now) && HalfWay(ws, Sampled(ws, readings), now, i)
      {
        SampleAt(i, now, readings);
        now := now[i := Sampled(ws, readings)[i]];
      }
      assert now == Sampled(ws, readings);
    }

    method SampleAt(i: nat, ghost ws: seq<Wheel>, ghost readings: seq<U16>)
      requires Apart() && Hold(ws) && ReadingsAre(readings) && i < |channels|
      modifies parts
      ensures ReadingsAre(readings) && Hold(ws[i := SampleWheel(ws[i], readings[i])])
    {
      hide SampleWheel, Counter.Sample;
      channels[i].TakeSample();
    }

    method EstimateAll(ghost ws: seq<Wheel>)
      requires Apart() && Hold(ws) && Conf().Valid() && |channels| == |pulsePerRound| && accumulatedTime > 0
      modifies parts
      ensures Hold(Estimated(ws, accumulatedTime, pulsePerRound, estimatorCounter))
    {
      hide EstimateWheel;
      ghost var target := Estimated(ws, accumulatedTime, pulsePerRound, estimatorCounter);
      ghost var uncleared := seq(|ws|, k requires 0 <= k < |ws| => target[k].(acc := ws[k].acc));
      ghost var now := ws;
      for i := 0 to |channels|
        invariant Hold(now) && HalfWay(ws, uncleared, now, i)
      {
        EstimateAt(i, now, uncleared[i]);
        now := now[i := uncleared[i]];
      }
      assert now == uncleared;
      for i := 0 to |channels|
        invariant Hold(now) && HalfWay(uncleared, target, now, i)
      {
        assert target[i].acc == 0 by { EstimateClears(ws[i], accumulatedTime, pulsePerRound[i], estimatorCounter); }
        channels[i].accumulatedError := 0;
        now := now[i := target[i]];
      }
      assert now == target;
    }

    method EstimateAt(i: nat, ghost ws: seq<Wheel>, ghost w: Wheel)
      requires Apart() && Hold(ws) && i < |channels| && Conf().Valid() && |channels| == |pulsePerRound|
      requires accumulatedTime > 0
      requires w == EstimateWheel(ws[i], accumulatedTime, pulsePerRound[i], estimatorCounter).(acc := ws[i].acc)
      modifies parts
      ensures Hold(ws[i := w])
    {
      hide EstimateWheel;
      EstimateClears(ws[i], accumulatedTime, pulsePerRound[i], estimatorCounter);
      channels[i].Estimate(accumulatedTime, pulsePerRound[i], estimatorCounter);
    }

    method MessageToPublish(ghost ws: seq<Wheel>) returns (m: Speeds)
      requires Apart() && Hold(ws)
      ensures m == Message(ws)
    {
      m := seq(|channels|, i requires 0 <= i < |channels| reads parts => (channels[i].rawRpm, channels[i].filteredRpm));
    }

    /** Estimate all channels, start a new window, publish once enough estimates were made. */
    method CloseWindow(ghost ws: seq<Wheel>)
      requires Apart() && Hold(ws) && Conf().Valid() && |channels| == |pulsePerRound|
      requires accumulatedTime > 0 && rpmQueue.Valid()
      modifies this`accumulatedTime, this`estimatorCounter, rpmQueue, parts
      ensures rpmQueue.Valid() && accumulatedTime == 0
      ensures estimatorCounter == CountEstimate(old(estimatorCounter))
      ensures var target := Estimated(ws, old(accumulatedTime), pulsePerRound, old(estimatorCounter));
              && Hold(target)
              && rpmQueue.buf == if old(estimatorCounter) + 1 <= MIN_ESTIMATE_NUM_BEFORE_VALID then old(rpmQueue.buf)
                                 else Published(old(rpmQueue.buf), rpmQueue.capacity, Message(target))
    {
      hide Estimated, Published;
      ghost var target := Estimated(ws, accumulatedTime, pulsePerRound, estimatorCounter);
      EstimateAll(ws);
      estimatorCounter := estimatorCounter + 1;
      accumulatedTime := 0;
      if estimatorCounter > MIN_ESTIMATE_NUM_BEFORE_VALID {
        estimatorCounter := MIN_ESTIMATE_NUM_BEFORE_VALID;
        var m := MessageToPublish(target);
        ghost var tries := rpmQueue.Publish(m);
      }
    }

    /** One iteration, with the counter registers and the clock as inputs. */
    method Step(now: int, counts: seq<U32>)
      requires Valid() && |counts| == |channels| && model.ClockRuns(Conf(), now)
      modifies this, rpmQueue, parts
      ensures Valid()
      ensures model == Next(Conf(), old(model), now, Truncated(counts))
      ensures rpmQueue.buf == if !Publishes(Conf(), old(model)) then old(rpmQueue.buf)
                              else Published(old(rpmQueue.buf), rpmQueue.capacity, Message(model.wheels))
    {
      hide Estimated, Sampled, Primed, Message, Truncated, Hold, ValidWheels, Published;
      ghost var readings := Truncated(counts);
      ghost var ws := model.wheels;
      ReadEncoders(counts, ws);
      if firstTime {
        StorePrevious(ws, readings);
        firstTime := false;
        model := Next(Conf(), old(model), now, readings);
      } else {
        accumulatedTime := accumulatedTime + (now - timeStamp);
        timeStamp := now;
        SampleAll(ws, readings);
        var due := loopCounter % samplesPerEstimate == 0;
        loopCounter := ToU32(loopCounter + 1);
        model := Next(Conf(), old(model), now, readings);
        if due {
          CloseWindow(Sampled(ws, readings));
        }
      }
    }
  }
}
