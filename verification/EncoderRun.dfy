/**
 Whole runs of the encoder service against the true motion of the wheels: what
 a raw speed means, and what is published when.
 */
module EncoderRun {
  import opened CArith
  import opened Nonlinear
  import opened WheelCounter
  import opened SpeedFilter
  import opened EncoderService

  // ---------- a window of one wheel's motion ----------

  /** Pulses passed between readings a and b, in either direction. */
  ghost function PathLength(pos: seq<int>, a: nat, b: nat): nat
    requires a <= b < |pos|
    decreases b
  {
    if a == b then 0 else PathLength(pos, a, b - 1) + Abs(pos[b] - pos[b - 1])
  }

  /** The service's notion of a window's displacement: the path, with the sign of the last move. */
  ghost function Signed(pos: seq<int>, a: nat, b: nat): int
    requires a < b < |pos|
  {
    WithSign(pos[b] >= pos[b - 1], PathLength(pos, a, b))
  }

  /** No move of the window goes against the last one; a last rest counts as upward. */
  ghost predicate OneWay(pos: seq<int>, a: nat, b: nat)
    requires a < b < |pos|
  {
    forall j :: a < j <= b ==> if pos[b] >= pos[b - 1] then pos[j] >= pos[j - 1] else pos[j] <= pos[j - 1]
  }

  lemma {:induction false} PathAtLeastMove(pos: seq<int>, a: nat, b: nat)
    requires a <= b < |pos|
    ensures Abs(pos[b] - pos[a]) <= PathLength(pos, a, b)
    ensures PathLength(pos, a, b) == pos[b] - pos[a] <==> forall j :: a < j <= b ==> pos[j] >= pos[j - 1]
    ensures PathLength(pos, a, b) == pos[a] - pos[b] <==> forall j :: a < j <= b ==> pos[j] <= pos[j - 1]
    decreases b
  {
    if a < b {
      PathAtLeastMove(pos, a, b - 1);
    }
  }

  /** The signed path is the displacement exactly for one-way windows. */
  lemma SignedIsDisplacement(pos: seq<int>, a: nat, b: nat)
    requires a < b < |pos|
    ensures Signed(pos, a, b) == pos[b] - pos[a] <==> OneWay(pos, a, b)
  {
    PathAtLeastMove(pos, a, b);
  }

  /** A window of downward motion that ends at rest is reported with the opposite sign. */
  lemma RestReversesSign(pos: seq<int>, a: nat, b: nat)
    requires a < b < |pos| && pos[b] == pos[b - 1]
    requires forall j :: a < j <= b ==> pos[j] <= pos[j - 1]
    ensures Signed(pos, a, b) == -(pos[b] - pos[a])
  {
    PathAtLeastMove(pos, a, b);
  }

  lemma {:induction false} PathBound(pos: seq<int>, a: nat, b: nat)
    requires a <= b < |pos| && Trackable(pos)
    ensures PathLength(pos, a, b) <= MAX_PULSE_PER_PERIOD * (b - a)
    decreases b
  {
    if a < b {
      PathBound(pos, a, b - 1);
      assert Abs(pos[b] - pos[b - 1]) <= MAX_PULSE_PER_PERIOD;
    }
  }

  /** The largest pulse count whose product with 60 * 1000 fits 32 bits. */
  const MAX_PULSES := 35791

  /** The 32-bit product is the true product up to that count and wraps from there on. */
  lemma ProductFits(pulses: int)
    requires -0x1_0000 < pulses < 0x1_0000
    ensures ToI32(ToI32(ToI32(pulses) * 60) * 1000) == 60000 * pulses <==> -MAX_PULSES <= pulses <= MAX_PULSES
  {}

  lemma FitsItself(x: int)
    requires -0x8000_0000 <= x < 0x8000_0000
    ensures ToI32(x) == x
  {}

  /** The nested divisions are one, rounded toward zero, of the product as it is left in 32 bits. */
  lemma RawRpmWrapped(up: bool, acc: U16, elapsed: int, pulsePerRound: U32)
    requires elapsed > 0 && pulsePerRound > 0
    ensures elapsed * pulsePerRound > 0
    ensures var raw, product := RawRpm(up, acc, elapsed, pulsePerRound), ToI32(60000 * WithSign(up, acc));
            raw == TruncDiv(product, elapsed * pulsePerRound) && IsQuotient(raw, product, elapsed * pulsePerRound)
  {
    hide IsQuotient;
    var product := ToI32(60000 * WithSign(up, acc));
    ProductWraps(WithSign(up, acc));
    TruncDivNested(product, elapsed, pulsePerRound);
    var d := elapsed * pulsePerRound;
    TruncatesTowardZero(product, d);
    QuotientFits(product, d);
  }

  lemma ProductWraps(pulses: int)
    ensures ToI32(ToI32(ToI32(pulses) * 60) * 1000) == ToI32(60000 * pulses)
  {
    hide ToI32;
    ScaleWraps(pulses, 60);
    ScaleWraps(pulses * 60, 1000);
    ScaleWraps(ToI32(pulses) * 60, 1000);
  }

  /** A factor may be reduced to 32 bits before it is multiplied. */
  lemma ScaleWraps(x: int, k: int)
    ensures ToI32(ToI32(x) * k) == ToI32(x * k)
  {
    hide ToI32;
    ConversionsWrap(x);
    var t, d := ToI32(x), 0x1_0000_0000;
    var q := (x - t) / d;
    DivModIdentity(x - t, d);
    ScaledSum(x, t, d, q, k);
    WidthVanishes(t * k, q * k);
  }

  lemma ScaledSum(x: int, t: int, d: int, q: int, k: int)
    requires x == t + d * q
    ensures x * k == t * k + d * (q * k)
  {
    Distribute(k, t, d * q);
    Assoc(d, q, k);
  }

  lemma WidthVanishes(x: int, m: int)
    ensures ToI32(x + 0x1_0000_0000 * m) == ToI32(x)
  {
    AddMultiple(x + 0x8000_0000, 0x1_0000_0000, m);
  }

  lemma QuotientFits(x: I32, d: int)
    requires d > 0
    ensures ToI32(TruncDiv(x, d)) == TruncDiv(x, d)
  {
    MulMono(1, d, 0x8000_0000);
    MulMono(1, d, 0x7FFF_FFFF);
    TruncDivBounds(x, d, -0x8000_0000, 0x7FFF_FFFF);
    FitsItself(TruncDiv(x, d));
  }

  /**
   Up to that count, the speed is the pulses per minute and round, rounded
   toward zero, and turning the other way changes nothing but its sign.
   */
  lemma RawRpmExact(up: bool, acc: U16, elapsed: int, pulsePerRound: U32)
    requires elapsed > 0 && pulsePerRound > 0 && acc <= MAX_PULSES
    ensures elapsed * pulsePerRound > 0
    ensures RawRpm(up, acc, elapsed, pulsePerRound)
         == TruncDiv(60000 * WithSign(up, acc), elapsed * pulsePerRound)
    ensures IsQuotient(RawRpm(up, acc, elapsed, pulsePerRound), 60000 * WithSign(up, acc), elapsed * pulsePerRound)
    ensures RawRpm(!up, acc, elapsed, pulsePerRound) == -RawRpm(up, acc, elapsed, pulsePerRound)
  {
    hide IsQuotient, RawRpm, TruncDiv;
    RawRpmWrapped(up, acc, elapsed, pulsePerRound);
    RawRpmWrapped(!up, acc, elapsed, pulsePerRound);
    FitsItself(60000 * acc);
    FitsItself(-(60000 * acc));
    TruncatesTowardZero(60000 * WithSign(up, acc), elapsed * pulsePerRound);
  }

  /** One pulse downward in 20 ms at 1320 pulses per round is -2 rpm. */
  lemma OnePulseDown()
    ensures RawRpm(false, 1, 20, 1320) == -2 && RawRpm(true, 1, 20, 1320) == 2
  {
    hide RawRpm, TruncDiv;
    RawRpmExact(false, 1, 20, 1320);
    QuotientUnique(-2, -60000, 26400);
  }

  // ---------- runs of the service ----------

  /** One iteration: the clock and the true position of each wheel. */
  datatype Instant = Instant(now: int, pos: seq<int>)

  /** Iteration k makes an estimate. Iteration 0 only stores the readings. */
  ghost predicate DueAt(conf: Config, k: nat)
    requires conf.Valid()
  {
    k >= 1 && ToU32(k - 1) % conf.samplesPerEstimate == 0
  }

  /** The iteration whose readings open the window that iteration k belongs to. */
  ghost function WindowStart(conf: Config, k: nat): (w: nat)
    requires conf.Valid() && k >= 1
    ensures w < k
  {
    if k == 1 then 0 else if DueAt(conf, k - 1) then k - 1 else WindowStart(conf, k - 1)
  }

  ghost predicate Aligned(conf: Config, xs: seq<Instant>) {
    forall k :: 0 <= k < |xs| ==> |xs[k].pos| == |conf.pulsePerRound|
  }

  /** The clock reading that the window of iteration k is timed from; the first one from thread start. */
  ghost function StartTime(conf: Config, start: int, xs: seq<Instant>, k: nat): int
    requires conf.Valid() && 1 <= k <= |xs|
  {
    var w := WindowStart(conf, k);
    if w == 0 then start else xs[w].now
  }

  /** Time has passed in every window that an estimate closes. */
  ghost predicate ClockRuns(conf: Config, start: int, xs: seq<Instant>)
    requires conf.Valid()
  {
    forall k :: 1 <= k < |xs| && DueAt(conf, k) ==> xs[k].now > StartTime(conf, start, xs, k)
  }

  datatype Run = Run(conf: Config, start: int, junk: Speeds, xs: seq<Instant>) {
    ghost predicate Valid() {
      && conf.Valid() && |junk| == |conf.pulsePerRound|
      && Aligned(conf, xs) && ClockRuns(conf, start, xs)
    }

    ghost function Readings(k: nat): (r: seq<U16>)
      requires Valid() && k < |xs|
      ensures |r| == |conf.pulsePerRound|
    {
      seq(|xs[k].pos|, i requires 0 <= i < |xs[k].pos| => ToU16(xs[k].pos[i]))
    }

    /** The state before iteration k knows how many iterations there were and since when its window runs. */
    ghost predicate InTime(s: Service, k: nat)
      requires Valid() && k <= |xs|
    {
      && s.Valid(conf) && s.firstTime == (k == 0)
      && (k == 0 ==> s.loops == 0 && s.timeStamp == start && s.accTime == 0)
      && (k >= 1 ==> s.loops == ToU32(k - 1) && s.timeStamp - s.accTime == StartTime(conf, start, xs, k))
    }

    lemma InTimeKept(s: Service, k: nat)
      requires Valid() && k < |xs| && InTime(s, k)
      ensures s.ClockRuns(conf, xs[k].now)
      ensures InTime(Next(conf, s, xs[k].now, Readings(k)), k + 1)
    {
      hide Estimated, Sampled, Primed;
      CountWraps(k - 1);
    }

    /** The service before iteration k. */
    ghost function At(k: nat): (s: Service)
      requires Valid() && k <= |xs|
      ensures InTime(s, k)
    {
      if k == 0 then Initial(conf, start, junk)
      else
        var s := At(k - 1);
        InTimeKept(s, k - 1);
        Next(conf, s, xs[k - 1].now, Readings(k - 1))
    }

    /** How long the window took that an estimate at iteration k closes. */
    ghost function Elapsed(k: nat): (t: int)
      requires Valid() && 1 <= k < |xs| && DueAt(conf, k)
      ensures t > 0
    {
      xs[k].now - StartTime(conf, start, xs, k)
    }

    /** The true positions of wheel i. */
    ghost function Positions(i: nat): (p: seq<int>)
      requires Valid() && i < |conf.pulsePerRound|
      ensures |p| == |xs|
    {
      seq(|xs|, k requires 0 <= k < |xs| => xs[k].pos[i])
    }

    /** The raw speeds of wheel i in the estimates made before iteration k. */
    ghost function Raws(i: nat, k: nat): seq<int>
      requires Valid() && i < |conf.pulsePerRound| && k <= |xs|
    {
      if k == 0 then []
      else if DueAt(conf, k - 1) then Raws(i, k - 1) + [At(k).wheels[i].raw]
      else Raws(i, k - 1)
    }
  }

  /** A window holds at most the configured number of samples, also across the wrap of the loop counter. */
  lemma WindowLength(conf: Config, k: nat)
    requires conf.Valid() && k >= 1
    ensures k - WindowStart(conf, k) <= conf.samplesPerEstimate
  {
    WindowAge(conf, k);
  }

  lemma {:induction false} WindowAge(conf: Config, k: nat)
    requires conf.Valid() && k >= 1
    ensures k - 1 - WindowStart(conf, k) <= if k == 1 then 0 else ToU32(k - 2) % conf.samplesPerEstimate
    decreases k
  {
    var n := conf.samplesPerEstimate;
    if k > 1 {
      WindowAge(conf, k - 1);
      DivModUnique(0, n, 0, 0);
      if k > 2 {
        CountWraps(k - 3);
        ModStep(ToU32(k - 3), n);
      }
    }
  }

  /** Until the loop counter wraps, estimates are made at iterations 1, 1 + n, 1 + 2n and so on. */
  lemma EstimateTimes(conf: Config, k: nat)
    requires conf.Valid() && 1 <= k <= 0x1_0000_0000
    ensures DueAt(conf, k) <==> exists t: nat :: k == 1 + conf.samplesPerEstimate * t
  {
    var n := conf.samplesPerEstimate;
    DivModIdentity(k - 1, n);
    DivNonneg(k - 1, n);
    if t: nat :| k == 1 + n * t {
      DivModUnique(k - 1, n, t, 0);
    }
  }

  /** Registers that count the wheels' positions modulo 2^16 or more take the service to its next state in the run. */
  lemma RegistersDriveRun(r: Run, k: nat, counts: seq<U32>)
    requires r.Valid() && k < |r.xs| && |counts| == |r.conf.pulsePerRound|
    requires forall i :: 0 <= i < |counts| ==> (counts[i] - r.xs[k].pos[i]) % 0x1_0000 == 0
    ensures r.At(k).Valid(r.conf) && r.At(k).ClockRuns(r.conf, r.xs[k].now)
    ensures r.At(k + 1) == Next(r.conf, r.At(k), r.xs[k].now, Truncated(counts))
  {
    hide Next, ToU16;
    r.InTimeKept(r.At(k), k);
    forall i | 0 <= i < |counts|
      ensures ToU16(counts[i]) == ToU16(r.xs[k].pos[i])
    {
      SameRemainder(counts[i], r.xs[k].pos[i]);
    }
    assert Truncated(counts) == r.Readings(k);
  }

  lemma SameRemainder(x: int, y: int)
    requires (x - y) % 0x1_0000 == 0
    ensures ToU16(x) == ToU16(y)
  {}

  /** What iteration k does to wheel i. */
  lemma WheelStep(r: Run, i: nat, k: nat)
    requires r.Valid() && i < |r.conf.pulsePerRound| && 1 <= k < |r.xs|
    ensures r.At(k).wheels[i].filter.Valid()
    ensures var sampled := SampleWheel(r.At(k).wheels[i], ToU16(r.Positions(i)[k]));
            r.At(k + 1).wheels[i] ==
              if !DueAt(r.conf, k) then sampled
              else EstimateWheel(sampled, r.Elapsed(k), r.conf.pulsePerRound[i], r.At(k).estimates)
  {
    hide SampleWheel, EstimateWheel;
  }

  /** The flags and directions follow the wheel's readings and nothing else. */
  lemma {:induction false} CounterFollows(r: Run, i: nat, k: nat)
    requires r.Valid() && i < |r.conf.pulsePerRound| && 1 <= k <= |r.xs|
    ensures r.At(k).wheels[i].counter == WheelCounter.After(StartCounter(i), r.Positions(i), k - 1)
    decreases k
  {
    hide Run.At, Run.Positions, Next, Counter.Sample, Counter.Error, Filter.Next, Filter.Report, RawRpm, DueAt, ToU16;
    if k == 1 {
      FirstCounter(r, i);
    } else {
      CounterFollows(r, i, k - 1);
      WheelStep(r, i, k - 1);
    }
  }

  /** Iteration 0 only stores the readings. */
  lemma FirstCounter(r: Run, i: nat)
    requires r.Valid() && i < |r.conf.pulsePerRound| && 1 <= |r.xs|
    ensures r.At(1).wheels[i].counter == StartCounter(i).(prev := ToU16(r.Positions(i)[0]))
  {
    assert r.At(0).wheels[i].counter == StartCounter(i);
  }

  /** Samples a+1 to b of wheel i are understood. */
  ghost predicate Understood(pos: seq<int>, i: nat, a: nat, b: nat)
    requires a <= b < |pos|
  {
    forall j :: a < j <= b ==> !Wrong(StartCounter(i), pos, j)
  }

  /** The direction decided for sample j. */
  ghost function DecidedUp(pos: seq<int>, i: nat, j: nat): bool
    requires j < |pos|
  {
    WheelCounter.After(StartCounter(i), pos, j).up
  }

  /** The moves from reading a to reading b, each with the sign of its decided direction. */
  ghost function Decided(pos: seq<int>, i: nat, a: nat, b: nat): int
    requires a <= b < |pos|
    decreases b
  {
    if a == b then 0 else Decided(pos, i, a, b - 1) + WithSign(DecidedUp(pos, i, b), pos[b] - pos[b - 1])
  }

  lemma PrevIsReading(start: Counter, pos: seq<int>, n: nat)
    requires n < |pos|
    ensures WheelCounter.After(start, pos, n).prev == ToU16(pos[n])
  {}

  lemma DifferenceWraps(p: int, q: int)
    ensures ToU16(ToU16(q) - ToU16(p)) == ToU16(q - p)
  {}

  /** Whatever direction is decided for a move, right or wrong, the count is the move with that sign. */
  lemma ErrorHasDecidedSign(c: Counter, p: int, q: int)
    requires c.prev == ToU16(p)
    ensures c.Error(ToU16(q)) == ToU16(WithSign(c.Sample(ToU16(q)).up, q - p))
  {
    hide Counter.Sample, ToU16;
    DifferenceWraps(p, q);
    DifferenceWraps(q, p);
  }

  /** Understood moves are counted with their length, so their sum is the path. */
  lemma {:induction false} DecidedIsPath(pos: seq<int>, i: nat, a: nat, b: nat)
    requires a <= b < |pos| && Understood(pos, i, a, b)
    ensures Decided(pos, i, a, b) == PathLength(pos, a, b)
    decreases b
  {
    hide Counter.Error;
    if a < b {
      DecidedIsPath(pos, i, a, b - 1);
      assert !Wrong(StartCounter(i), pos, b);
    }
  }

  /** The misunderstood sample at work: a first move from 1000 to 990 reads as 65526 pulses upward. */
  lemma FirstMoveDownMisread()
    ensures Wrong(StartCounter(0), [1000, 990], 1) && DecidedUp([1000, 990], 0, 1)
    ensures WheelCounter.After(StartCounter(0), [1000, 990], 0).Error(990) == 65526
  {
    WrongExactly(StartCounter(0), [1000, 990], 1);
    var c := WheelCounter.After(StartCounter(0), [1000, 990], 0);
    assert WheelCounter.After(StartCounter(0), [1000, 990], 1) == c.Sample(990);
  }

  /** In any window, understood or not, the accumulator holds the decided moves so far, in 16 bits. */
  lemma {:induction false} Accumulates(r: Run, i: nat, k: nat)
    requires r.Valid() && i < |r.conf.pulsePerRound| && 1 <= k <= |r.xs|
    ensures r.At(k).wheels[i].acc == ToU16(Decided(r.Positions(i), i, WindowStart(r.conf, k), k - 1))
    decreases k
  {
    hide Run.At, Run.Positions, Config.Valid, Aligned, ClockRuns, DecidedUp, ToU16, DueAt, StartTime, WithSign;
    var pos, w := r.Positions(i), WindowStart(r.conf, k);
    if k == 1 {
      FirstAcc(r, i);
    } else {
      AccStep(r, i, k - 1);
      if !DueAt(r.conf, k - 1) {
        Accumulates(r, i, k - 1);
        DecidedGrows(pos, i, w, k - 1);
      }
    }
  }

  lemma DecidedGrows(pos: seq<int>, i: nat, a: nat, b: nat)
    requires a < b < |pos|
    ensures ToU16(ToU16(Decided(pos, i, a, b - 1)) + WithSign(DecidedUp(pos, i, b), pos[b] - pos[b - 1]))
         == ToU16(Decided(pos, i, a, b))
  {
    SumWraps(Decided(pos, i, a, b - 1), WithSign(DecidedUp(pos, i, b), pos[b] - pos[b - 1]));
  }

  lemma FirstAcc(r: Run, i: nat)
    requires r.Valid() && i < |r.conf.pulsePerRound| && 1 <= |r.xs|
    ensures r.At(1).wheels[i].acc == ToU16(0)
  {
    assert r.At(0).firstTime;
  }

  lemma AccStep(r: Run, i: nat, k: nat)
    requires r.Valid() && i < |r.conf.pulsePerRound| && 1 <= k < |r.xs|
    ensures var pos := r.Positions(i);
            r.At(k + 1).wheels[i].acc
            == if DueAt(r.conf, k) then ToU16(0)
               else ToU16(r.At(k).wheels[i].acc + WithSign(DecidedUp(pos, i, k), pos[k] - pos[k - 1]))
  {
    hide Counter.Sample, Counter.Error, Filter.Next, RawRpm, Filter.Report, Next, DecidedUp, Run.At;
    WheelStep(r, i, k);
    if !DueAt(r.conf, k) {
      SampleAdds(r, i, k);
    }
  }

  /** A sample decides its direction and adds its move with that sign. */
  lemma SampleAdds(r: Run, i: nat, k: nat)
    requires r.Valid() && i < |r.conf.pulsePerRound| && 1 <= k < |r.xs|
    ensures var pos, w := r.Positions(i), SampleWheel(r.At(k).wheels[i], ToU16(r.Positions(i)[k]));
            && w.counter.up == DecidedUp(pos, i, k)
            && w.acc == ToU16(r.At(k).wheels[i].acc + WithSign(DecidedUp(pos, i, k), pos[k] - pos[k - 1]))
  {
    hide Run.At, Run.Positions, Counter.Sample, Counter.Error, ToU16, WithSign;
    var pos := r.Positions(i);
    CounterFollows(r, i, k);
    var c := r.At(k).wheels[i].counter;
    PrevIsReading(StartCounter(i), pos, k - 1);
    ErrorHasDecidedSign(c, pos[k - 1], pos[k]);
    SumWraps(WithSign(DecidedUp(pos, i, k), pos[k] - pos[k - 1]), r.At(k).wheels[i].acc);
  }

  // ---------- what an estimate means ----------

  lemma {:induction false} WindowsDoNotOverlap(conf: Config, k1: nat, k2: nat)
    requires conf.Valid() && k1 < k2 && DueAt(conf, k1)
    ensures k1 <= WindowStart(conf, k2)
    decreases k2
  {
    hide DueAt;
    if k1 < k2 - 1 && !DueAt(conf, k2 - 1) {
      WindowsDoNotOverlap(conf, k1, k2 - 1);
    }
  }

  /** In a run of a trackable wheel at most one window holds a misunderstood sample, and only on channel 0. */
  lemma AtMostOneBadWindow(r: Run, i: nat, k1: nat, k2: nat)
    requires r.Valid() && i < |r.conf.pulsePerRound| && Trackable(r.Positions(i))
    requires 1 <= k1 < k2 < |r.xs| && DueAt(r.conf, k1)
    ensures Understood(r.Positions(i), i, WindowStart(r.conf, k1), k1)
         || Understood(r.Positions(i), i, WindowStart(r.conf, k2), k2)
    ensures i != 0 ==> Understood(r.Positions(i), i, WindowStart(r.conf, k2), k2)
  {
    hide DueAt, Wrong;
    AtMostOneWrong(StartCounter(i), r.Positions(i));
    WindowsDoNotOverlap(r.conf, k1, k2);
  }

  /** Windows of at most 238 trackable samples fit the 32-bit product. */
  lemma ShortWindowsFit(r: Run, i: nat, k: nat)
    requires r.Valid() && i < |r.conf.pulsePerRound| && 1 <= k < |r.xs|
    requires Trackable(r.Positions(i)) && r.conf.samplesPerEstimate <= 238
    ensures PathLength(r.Positions(i), WindowStart(r.conf, k), k) <= MAX_PULSES
  {
    WindowLength(r.conf, k);
    PathBound(r.Positions(i), WindowStart(r.conf, k), k);
  }

  /**
   The raw speed of every estimate, whether its window was understood or not:
   the decided moves of the window, with the sign of the last decision.
   */
  lemma RawSpeedAsDecided(r: Run, i: nat, k: nat)
    requires r.Valid() && i < |r.conf.pulsePerRound| && 1 <= k < |r.xs| && DueAt(r.conf, k)
    ensures var pos := r.Positions(i);
            r.At(k + 1).wheels[i].raw
            == RawRpm(DecidedUp(pos, i, k), ToU16(Decided(pos, i, WindowStart(r.conf, k), k)),
                      r.Elapsed(k), r.conf.pulsePerRound[i])
  {
    hide Run.At, Run.Positions, Run.Elapsed, SampleWheel, Next, RawRpm, Filter.Next, Filter.Report, ToU16, DecidedUp,
      WithSign, Aligned, ClockRuns;
    WheelStep(r, i, k);
    SampleAdds(r, i, k);
    Accumulates(r, i, k);
    DecidedGrows(r.Positions(i), i, WindowStart(r.conf, k), k);
  }

  /**
   The raw speed of an understood window: its signed path, in pulses per
   minute and round, truncated once. It is the true displacement exactly when
   no move of the window goes against the last one.
   */
  lemma RawSpeed(r: Run, i: nat, k: nat)
    requires r.Valid() && i < |r.conf.pulsePerRound| && 1 <= k < |r.xs| && DueAt(r.conf, k)
    requires Understood(r.Positions(i), i, WindowStart(r.conf, k), k)
    requires PathLength(r.Positions(i), WindowStart(r.conf, k), k) <= MAX_PULSES
    ensures var pos, w, d := r.Positions(i), WindowStart(r.conf, k), r.Elapsed(k) * r.conf.pulsePerRound[i];
            && d > 0
            && r.At(k + 1).wheels[i].raw == TruncDiv(60000 * Signed(pos, w, k), d)
            && IsQuotient(r.At(k + 1).wheels[i].raw, 60000 * Signed(pos, w, k), d)
            && (Signed(pos, w, k) == pos[k] - pos[w] <==> OneWay(pos, w, k))
  {
    hide Run.At, Run.Positions, Run.Elapsed, RawRpm, TruncDiv, IsQuotient, Aligned, ClockRuns, DueAt, ToU16, OneWay;
    var pos, w := r.Positions(i), WindowStart(r.conf, k);
    SignedIsDisplacement(pos, w, k);
    RawSpeedAsDecided(r, i, k);
    DecidedIsPath(pos, i, w, k);
    SmallFits(PathLength(pos, w, k));
    UnderstoodUp(pos, i, w, k);
    RawRpmExact(pos[k] >= pos[k - 1], PathLength(pos, w, k), r.Elapsed(k), r.conf.pulsePerRound[i]);
  }

  lemma UnderstoodUp(pos: seq<int>, i: nat, a: nat, b: nat)
    requires a < b < |pos| && Understood(pos, i, a, b)
    ensures DecidedUp(pos, i, b) == (pos[b] >= pos[b - 1])
  {
    hide Counter.Error;
    assert !Wrong(StartCounter(i), pos, b);
  }

  lemma SmallFits(x: nat)
    requires x < 0x1_0000
    ensures ToU16(x) == x
  {}

  /** A misunderstood sample of a trackable wheel is a downward move counted upward; the others are understood. */
  lemma {:induction false} DecidedWithBad(pos: seq<int>, i: nat, a: nat, b: nat, bad: nat)
    requires a <= b < |pos| && Trackable(pos) && 1 <= bad < |pos| && Wrong(StartCounter(i), pos, bad)
    ensures Decided(pos, i, a, b)
         == PathLength(pos, a, b) - if a < bad <= b then 2 * Abs(pos[bad] - pos[bad - 1]) else 0
    ensures 1 <= b ==> DecidedUp(pos, i, b) == (b == bad || pos[b] >= pos[b - 1])
    ensures pos[bad] < pos[bad - 1]
    decreases b
  {
    hide Wrong, DecidedUp, Decreasing;
    WrongExactly(StartCounter(i), pos, bad);
    AtMostOneWrong(StartCounter(i), pos);
    if 1 <= b {
      DirectionDecided(pos, i, b);
    }
    if a < b {
      DecidedWithBad(pos, i, a, b - 1, bad);
    }
  }

  /** The direction of a trackable move is decided wrongly exactly when the sample is misunderstood. */
  lemma DirectionDecided(pos: seq<int>, i: nat, n: nat)
    requires Trackable(pos) && 1 <= n < |pos|
    ensures DecidedUp(pos, i, n) == if Wrong(StartCounter(i), pos, n) then true else pos[n] >= pos[n - 1]
  {
    WrongExactly(StartCounter(i), pos, n);
    FlagsAfter(StartCounter(i), pos, n - 1);
  }

  /**
   What the one bad window reports: the misunderstood move is subtracted from
   the path instead of added, and counts as upward where it comes last.
   */
  lemma RawSpeedOfBadWindow(r: Run, i: nat, k: nat, bad: nat)
    requires r.Valid() && i < |r.conf.pulsePerRound| && 1 <= k < |r.xs| && DueAt(r.conf, k)
    requires Trackable(r.Positions(i)) && WindowStart(r.conf, k) < bad <= k
    requires Wrong(StartCounter(i), r.Positions(i), bad)
    ensures var pos, d := r.Positions(i), r.Elapsed(k) * r.conf.pulsePerRound[i];
            var up := bad == k || pos[k] >= pos[k - 1];
            var counted := PathLength(pos, WindowStart(r.conf, k), k) - 2 * (pos[bad - 1] - pos[bad]);
            && d > 0
            && r.At(k + 1).wheels[i].raw == RawRpm(up, ToU16(counted), r.Elapsed(k), r.conf.pulsePerRound[i])
            && (0 <= counted <= MAX_PULSES ==>
                 r.At(k + 1).wheels[i].raw == TruncDiv(60000 * WithSign(up, counted), d)
                 && IsQuotient(r.At(k + 1).wheels[i].raw, 60000 * WithSign(up, counted), d))
  {
    hide Run.At, Run.Positions, Run.Elapsed, RawRpm, TruncDiv, IsQuotient, Aligned, ClockRuns, DueAt, ToU16,
      Wrong, DecidedUp;
    var pos, w, ppr := r.Positions(i), WindowStart(r.conf, k), r.conf.pulsePerRound[i];
    RawSpeedAsDecided(r, i, k);
    DecidedWithBad(pos, i, w, k, bad);
    var counted := PathLength(pos, w, k) - 2 * (pos[bad - 1] - pos[bad]);
    MulPositive(r.Elapsed(k), ppr);
    if 0 <= counted <= MAX_PULSES {
      SmallFits(counted);
      RawRpmExact(bad == k || pos[k] >= pos[k - 1], counted, r.Elapsed(k), ppr);
    }
  }

  /** The filter has seen exactly the raw speeds so far; the counter has counted them, up to twenty. */
  lemma {:induction false} FilterFollows(r: Run, i: nat, k: nat)
    requires r.Valid() && i < |r.conf.pulsePerRound| && k <= |r.xs|
    ensures var raws := r.Raws(i, k);
            && r.At(k).wheels[i].filter == SpeedFilter.After(raws, |raws|)
            && r.At(k).estimates
               == if |raws| < MIN_ESTIMATE_NUM_BEFORE_VALID then |raws| else MIN_ESTIMATE_NUM_BEFORE_VALID
    decreases k
  {
    hide Run.At, Filter.Next, Filter.Report, Next, Aligned, ClockRuns, DueAt;
    if k == 0 {
      StartsEmpty(r, i);
    } else {
      FilterFollows(r, i, k - 1);
      FilterStep(r, i, k - 1);
      if DueAt(r.conf, k - 1) {
        AfterPrefix(r.Raws(i, k - 1), [r.At(k).wheels[i].raw], |r.Raws(i, k - 1)|);
      }
    }
  }

  lemma StartsEmpty(r: Run, i: nat)
    requires r.Valid() && i < |r.conf.pulsePerRound|
    ensures r.At(0).wheels[i].filter == INITIAL && r.At(0).estimates == 0
  {}

  lemma FilterStep(r: Run, i: nat, k: nat)
    requires r.Valid() && i < |r.conf.pulsePerRound| && k < |r.xs|
    ensures var w, w' := r.At(k).wheels[i], r.At(k + 1).wheels[i];
            && w.filter.Valid()
            && w'.filter == (if DueAt(r.conf, k) then w.filter.Next(w'.raw) else w.filter)
            && r.At(k + 1).estimates
               == if DueAt(r.conf, k) then CountEstimate(r.At(k).estimates) else r.At(k).estimates
  {
    hide Counter.Sample, Counter.Error, RawRpm, Filter.Next, Filter.Report;
  }

  /**
   Publication: from the 21st estimate on, and on every one, the message holds
   for each wheel the raw speed of its window and the truncated mean of the
   last ten filter outputs, a possible speed whatever the raw speeds were.
   */
  lemma Publication(r: Run, i: nat, k: nat)
    requires r.Valid() && i < |r.conf.pulsePerRound| && 1 <= k < |r.xs|
    ensures var raws := r.Raws(i, k + 1);
            && (Publishes(r.conf, r.At(k)) <==> DueAt(r.conf, k) && |raws| >= 21)
            && (DueAt(r.conf, k) ==>
                 && |raws| >= 1
                 && Message(r.At(k + 1).wheels)[i] == (raws[|raws| - 1], Reported(raws, |raws| - 1))
                 && -600 <= Reported(raws, |raws| - 1) <= 600)
  {
    hide Counter.Sample, Counter.Error, RawRpm, Filter.Next, Run.At, Next, Reported;
    FilterFollows(r, i, k);
    if DueAt(r.conf, k) {
      var raws := r.Raws(i, k + 1);
      FilterFollows(r, i, k + 1);
      WheelStep(r, i, k);
      ReportIsMean(raws, |raws| - 1);
      AlwaysPossible(raws, |raws| - 1);
    }
  }

  /** The published speed in numbers: ten outputs, added up and divided by ten, rounded toward zero. */
  lemma PublishedMean(r: Run, i: nat, k: nat)
    requires r.Valid() && i < |r.conf.pulsePerRound| && 1 <= k < |r.xs| && Publishes(r.conf, r.At(k))
    ensures var raws := r.Raws(i, k + 1);
            && |raws| >= 21
            && IsQuotient(Message(r.At(k + 1).wheels)[i].1, TenOuts(raws, |raws| - 1), 10)
  {
    hide Run.At, Run.Raws, Publishes, Message, Reported, IsQuotient, TenOuts;
    Publication(r, i, k);
    var raws := r.Raws(i, k + 1);
    ReportIsMean(raws, |raws| - 1);
    ReportsInNumbers(raws, |raws| - 1);
  }

  ghost predicate ConstantFrom(raws: seq<int>, m: nat, c: int) {
    forall j :: m <= j < |raws| ==> raws[j] == c
  }

  /** A wheel whose raw speed stays at c is reported within 3 rpm of c from the 32nd such estimate on. */
  lemma SteadySpeedIsReported(r: Run, i: nat, k: nat, c: int, m: nat)
    requires r.Valid() && i < |r.conf.pulsePerRound| && 1 <= k < |r.xs| && DueAt(r.conf, k)
    requires Abs(c) <= MAX_POSSIBLE_RPM && m + 32 <= |r.Raws(i, k + 1)|
    requires ConstantFrom(r.Raws(i, k + 1), m, c)
    ensures Publishes(r.conf, r.At(k)) && Message(r.At(k + 1).wheels)[i].0 == c
    ensures c - 3 <= Message(r.At(k + 1).wheels)[i].1 <= c + 3
  {
    hide Run.At, Run.Raws, Publishes, Reported;
    Publication(r, i, k);
    Settles(r.Raws(i, k + 1), c, m, |r.Raws(i, k + 1)| - 1);
  }

  // ---------- a steady wheel ----------

  /** After iteration s, wheel i moves d pulses and the clock dt milliseconds per iteration. */
  ghost predicate Steady(r: Run, i: nat, s: nat, d: int, dt: int)
    requires r.Valid() && i < |r.conf.pulsePerRound|
  {
    forall j :: s < j < |r.xs| ==>
      r.Positions(i)[j] - r.Positions(i)[j - 1] == d && r.xs[j].now - r.xs[j - 1].now == dt
  }

  lemma {:induction false} SteadyWindow(r: Run, i: nat, s: nat, d: int, dt: int, w: nat, k: nat)
    requires r.Valid() && i < |r.conf.pulsePerRound| && Steady(r, i, s, d, dt) && s <= w <= k < |r.xs|
    ensures PathLength(r.Positions(i), w, k) == Abs(d) * (k - w)
    ensures r.xs[k].now - r.xs[w].now == dt * (k - w)
    decreases k
  {
    hide Run.Valid, Run.Positions;
    if w < k {
      SteadyWindow(r, i, s, d, dt, w, k - 1);
      Distribute(Abs(d), k - 1 - w, 1);
      Distribute(dt, k - 1 - w, 1);
    }
  }

  /** A steady wheel is misread, if at all, within two samples: of two downward moves one is a decreasing reading. */
  lemma SteadyUnderstood(r: Run, i: nat, s: nat, d: int, dt: int, w: nat, k: nat)
    requires r.Valid() && i < |r.conf.pulsePerRound| && Steady(r, i, s, d, dt) && s + 2 <= w <= k < |r.xs|
    requires Trackable(r.Positions(i))
    ensures Understood(r.Positions(i), i, w, k)
  {
    hide Run.Valid, Run.Positions, Wrong;
    var pos := r.Positions(i);
    forall j | w < j <= k
      ensures !Wrong(StartCounter(i), pos, j)
    {
      WrongExactly(StartCounter(i), pos, j);
      assert pos[j] - pos[j - 1] == d && pos[s + 1] - pos[s] == d && pos[s + 2] - pos[s + 1] == d;
      if d < 0 {
        OneOfTwoDecreases(pos, s + 1);
      }
    }
  }

  lemma OneOfTwoDecreases(pos: seq<int>, n: nat)
    requires 1 <= n && n + 1 < |pos| && Trackable(pos)
    requires pos[n] < pos[n - 1] && pos[n + 1] < pos[n]
    ensures Decreasing(pos, n) || Decreasing(pos, n + 1)
  {
    assert Abs(pos[n] - pos[n - 1]) <= MAX_PULSE_PER_PERIOD && Abs(pos[n + 1] - pos[n]) <= MAX_PULSE_PER_PERIOD;
  }

  /** From two samples on, every window of a steady wheel gives its speed. */
  lemma SteadyRaw(r: Run, i: nat, s: nat, d: int, dt: int, k: nat)
    requires r.Valid() && i < |r.conf.pulsePerRound| && Steady(r, i, s, d, dt) && Trackable(r.Positions(i))
    requires 1 <= k < |r.xs| && DueAt(r.conf, k) && WindowStart(r.conf, k) >= s + 2
    requires dt > 0 && Abs(d) * r.conf.samplesPerEstimate <= MAX_PULSES
    ensures dt * r.conf.pulsePerRound[i] > 0
    ensures r.At(k + 1).wheels[i].raw == TruncDiv(60000 * d, dt * r.conf.pulsePerRound[i])
    ensures IsQuotient(r.At(k + 1).wheels[i].raw, 60000 * d, dt * r.conf.pulsePerRound[i])
  {
    hide Run.At, Run.Positions, Understood, OneWay, TruncDiv, IsQuotient, DueAt, Aligned, ClockRuns;
    var pos, w, ppr := r.Positions(i), WindowStart(r.conf, k), r.conf.pulsePerRound[i];
    var n := k - w;
    SteadyUnderstood(r, i, s, d, dt, w, k);
    SteadyWindow(r, i, s, d, dt, w, k);
    WindowLength(r.conf, k);
    MulMono(n, r.conf.samplesPerEstimate, Abs(d));
    RawSpeed(r, i, k);
    assert r.Elapsed(k) == dt * n;
    SteadySigned(pos, w, k, d);
    MulPositive(dt, ppr);
    CancelWindow(60000 * d, dt, ppr, n);
    Assoc(60000, d, n);
    TruncatesTowardZero(60000 * d, dt * ppr);
  }

  lemma SteadySigned(pos: seq<int>, w: nat, k: nat, d: int)
    requires w < k < |pos| && pos[k] - pos[k - 1] == d && PathLength(pos, w, k) == Abs(d) * (k - w)
    ensures Signed(pos, w, k) == d * (k - w)
  {
    hide PathLength;
    Distribute(k - w, d, -d);
  }

  /** The length of the window cancels. */
  lemma CancelWindow(x: int, dt: int, ppr: int, n: int)
    requires dt > 0 && ppr > 0 && n > 0
    ensures dt * ppr > 0 && dt * n * ppr > 0
    ensures TruncDiv(x * n, dt * n * ppr) == TruncDiv(x, dt * ppr)
  {
    MulPositive(dt, ppr);
    Assoc(dt, ppr, n);
    Assoc(dt, n, ppr);
    TruncDivNested(x * n, n, dt * ppr);
    TruncDivMultiple(x, n);
  }

  lemma TruncDivMultiple(x: int, n: int)
    requires n > 0
    ensures TruncDiv(x * n, n) == x
  {
    if x >= 0 {
      MulMono(0, x, n);
      DivModUnique(x * n, n, x, 0);
    } else {
      MulMono(x, -1, n);
      DivModUnique(-(x * n), n, -x, 0);
    }
  }

  /** Every stretch of `samplesPerEstimate` iterations holds an estimate. */
  lemma {:induction false} EstimatesHappen(r: Run, i: nat, a: nat, t: nat, k: nat)
    requires r.Valid() && i < |r.conf.pulsePerRound| && 1 <= a <= k <= |r.xs|
    requires a + t * r.conf.samplesPerEstimate <= k
    ensures |r.Raws(i, k)| >= |r.Raws(i, a)| + t
    decreases t
  {
    hide Run.At, Aligned, ClockRuns, DueAt, WindowStart;
    RawsGrow(r, i, a, k);
    if t > 0 {
      var n := r.conf.samplesPerEstimate;
      Distribute(n, t, -1);
      MulMono(0, t - 1, n);
      var w := WindowStart(r.conf, k);
      WindowLength(r.conf, k);
      OpensWithEstimate(r.conf, k);
      EstimatesHappen(r, i, a, t - 1, w);
      RawsGrow(r, i, w + 1, k);
    }
  }

  lemma {:induction false} OpensWithEstimate(conf: Config, k: nat)
    requires conf.Valid() && k >= 1
    ensures WindowStart(conf, k) == 0 || DueAt(conf, WindowStart(conf, k))
    decreases k
  {
    hide DueAt;
    if k > 1 {
      OpensWithEstimate(conf, k - 1);
    }
  }

  lemma {:induction false} RawsGrow(r: Run, i: nat, a: nat, k: nat)
    requires r.Valid() && i < |r.conf.pulsePerRound| && a <= k <= |r.xs|
    ensures r.Raws(i, a) <= r.Raws(i, k)
    decreases k
  {
    hide Run.At, Run.Valid, DueAt;
    if a < k {
      RawsGrow(r, i, a, k - 1);
    }
  }

  /** After an estimate at least two samples into a steady motion, all raw speeds are the same. */
  lemma {:induction false} SteadyRaws(r: Run, i: nat, s: nat, d: int, dt: int, first: nat, k: nat)
    requires r.Valid() && i < |r.conf.pulsePerRound| && Steady(r, i, s, d, dt) && Trackable(r.Positions(i))
    requires dt > 0 && Abs(d) * r.conf.samplesPerEstimate <= MAX_PULSES
    requires s + 2 <= first < k <= |r.xs| && DueAt(r.conf, first)
    ensures dt * r.conf.pulsePerRound[i] > 0
    ensures ConstantFrom(r.Raws(i, k), |r.Raws(i, first + 1)|, TruncDiv(60000 * d, dt * r.conf.pulsePerRound[i]))
    decreases k
  {
    hide Run.At, Aligned, ClockRuns, Steady, DueAt, TruncDiv, Run.Positions;
    MulPositive(dt, r.conf.pulsePerRound[i]);
    if first + 1 < k {
      SteadyRaws(r, i, s, d, dt, first, k - 1);
      if DueAt(r.conf, k - 1) {
        WindowsDoNotOverlap(r.conf, first, k - 1);
        SteadyRaw(r, i, s, d, dt, k - 1);
      }
    }
  }

  /**
   From motion to message: 33 windows and two samples after a wheel began to
   move steadily, every report of it is within 3 rpm of its speed, for good.
   */
  lemma SteadyWheelIsReported(r: Run, i: nat, s: nat, d: int, dt: int, k: nat)
    requires r.Valid() && i < |r.conf.pulsePerRound| && Steady(r, i, s, d, dt) && Trackable(r.Positions(i))
    requires dt > 0 && Abs(d) * r.conf.samplesPerEstimate <= MAX_PULSES
    requires s + 2 + 33 * r.conf.samplesPerEstimate <= k < |r.xs| && DueAt(r.conf, k)
    requires dt * r.conf.pulsePerRound[i] > 0
    requires Abs(TruncDiv(60000 * d, dt * r.conf.pulsePerRound[i])) <= MAX_POSSIBLE_RPM
    ensures var c := TruncDiv(60000 * d, dt * r.conf.pulsePerRound[i]);
            && IsQuotient(c, 60000 * d, dt * r.conf.pulsePerRound[i])
            && Publishes(r.conf, r.At(k)) && Message(r.At(k + 1).wheels)[i].0 == c
            && c - 3 <= Message(r.At(k + 1).wheels)[i].1 <= c + 3
  {
    hide Run.At, Run.Raws, Steady, DueAt, TruncDiv, IsQuotient, Run.Positions, Publishes, Message, WindowStart;
    TruncatesTowardZero(60000 * d, dt * r.conf.pulsePerRound[i]);
    var n := r.conf.samplesPerEstimate;
    var first := WindowStart(r.conf, s + 2 + n);
    WindowLength(r.conf, s + 2 + n);
    OpensWithEstimate(r.conf, s + 2 + n);
    SteadyRaws(r, i, s, d, dt, first, k + 1);
    EstimatesHappen(r, i, first + 1, 32, k + 1);
    var c := TruncDiv(60000 * d, dt * r.conf.pulsePerRound[i]);
    SteadySpeedIsReported(r, i, k, c, |r.Raws(i, first + 1)|);
  }
}
