/**
 One wheel's 16-bit hardware counter: from two successive readings and two
 flags the encoder service decides the direction and the number of pulses.
 */
module WheelCounter {
  import opened CArith

  const MAX_PULSE_PER_PERIOD := 150

  /** The flags are file-scope variables of the service; `prev` is the last reading. */
  datatype Counter = Counter(overflow: bool, underflow: bool, up: bool, prev: U16) {

    /** One reading: update the flags, decide the direction, consume the flags. */
    ghost function Sample(cur: U16): Counter {
      var under := underflow || (cur >= prev && cur - prev > MAX_PULSE_PER_PERIOD);
      var over := overflow || (cur < prev && prev - cur > MAX_PULSE_PER_PERIOD);
      if cur >= prev then Counter(over, false, !under, cur)
      else Counter(false, under, over, cur)
    }

    /** The pulses counted for that reading, in 16-bit arithmetic. */
    ghost function Error(cur: U16): U16 {
      if Sample(cur).up then ToU16(cur - prev) else ToU16(prev - cur)
    }

    /** The reading is understood as a displacement of d pulses. */
    ghost predicate Recovers(cur: U16, d: int) {
      Sample(cur).up == (d >= 0) && Error(cur) == Abs(d)
    }
  }

  /** The counter register passes zero on the way from p to p + d. */
  ghost predicate Wraps(p: int, d: int) {
    ToU16(p) + d < 0 || ToU16(p) + d > 0xFFFF
  }

  /**
   When one sample is understood, for every displacement short of a whole
   turn of the register. With clear flags: when it is within the threshold, or
   the register wraps. A stale overflow flag turns a decreasing reading into an
   upward move.
   */
  lemma SampleExact(c: Counter, p: int, d: int)
    requires !c.underflow && c.prev == ToU16(p)
    requires Abs(d) < 0x1_0000 - MAX_PULSE_PER_PERIOD
    ensures var cur := ToU16(p + d);
            c.Recovers(cur, d) <==>
              if c.overflow && cur < c.prev then d >= 0 else Abs(d) <= 150 || Wraps(p, d)
  {
    var cur := ToU16(p + d);
    assert cur == c.prev + d || cur == c.prev + d - 0x1_0000 || cur == c.prev + d + 0x1_0000;
  }

  // ---------- whole runs ----------

  /** True positions of the wheel at successive readings, never more than 150 pulses apart. */
  ghost predicate Trackable(pos: seq<int>) {
    |pos| > 0 && forall n :: 1 <= n < |pos| ==> Abs(pos[n] - pos[n - 1]) <= MAX_PULSE_PER_PERIOD
  }

  /** The counter after n samples; position 0 only initialises the previous reading. */
  ghost function After(start: Counter, pos: seq<int>, n: nat): Counter
    requires n < |pos|
  {
    if n == 0 then start.(prev := ToU16(pos[0]))
    else After(start, pos, n - 1).Sample(ToU16(pos[n]))
  }

  ghost predicate Decreasing(pos: seq<int>, n: int)
    requires 1 <= n < |pos|
  {
    ToU16(pos[n]) < ToU16(pos[n - 1])
  }

  /** Sample n of the run is misunderstood. */
  ghost predicate Wrong(start: Counter, pos: seq<int>, n: int)
    requires 1 <= n < |pos|
  {
    !After(start, pos, n - 1).Recovers(ToU16(pos[n]), pos[n] - pos[n - 1])
  }

  /** The flags between samples: underflow is clear, overflow survives only until the first decrease. */
  lemma {:induction false} FlagsAfter(start: Counter, pos: seq<int>, n: nat)
    requires !start.underflow && n < |pos|
    ensures var c := After(start, pos, n);
            && !c.underflow && c.prev == ToU16(pos[n])
            && (c.overflow <==> start.overflow && forall j :: 1 <= j <= n ==> !Decreasing(pos, j))
    decreases n
  {
    if n > 0 {
      FlagsAfter(start, pos, n - 1);
      var c := After(start, pos, n - 1);
      assert c.prev == ToU16(pos[n - 1]);
      assert (forall j :: 1 <= j <= n ==> !Decreasing(pos, j)) <==>
        (forall j :: 1 <= j <= n - 1 ==> !Decreasing(pos, j)) && !Decreasing(pos, n);
    }
  }

  /**
   Which samples of a run are misunderstood: the first decreasing reading, if
   the overflow flag was set at the start and the move really was downward.
   */
  lemma WrongExactly(start: Counter, pos: seq<int>, n: int)
    requires !start.underflow && Trackable(pos) && 1 <= n < |pos|
    ensures Wrong(start, pos, n) <==>
      && start.overflow
      && Decreasing(pos, n) && pos[n] < pos[n - 1]
      && forall j :: 1 <= j < n ==> !Decreasing(pos, j)
  {
    FlagsAfter(start, pos, n - 1);
    SampleExact(After(start, pos, n - 1), pos[n - 1], pos[n] - pos[n - 1]);
  }

  /** At most one sample of a run is misunderstood, and none if the flag starts clear. */
  lemma AtMostOneWrong(start: Counter, pos: seq<int>)
    requires !start.underflow && Trackable(pos)
    ensures forall m, n :: 1 <= m < |pos| && 1 <= n < |pos| && Wrong(start, pos, m) && Wrong(start, pos, n) ==> m == n
    ensures !start.overflow ==> forall n :: 1 <= n < |pos| ==> !Wrong(start, pos, n)
  {
    forall n | 1 <= n < |pos| && Wrong(start, pos, n)
      ensures start.overflow && Decreasing(pos, n) && forall j :: 1 <= j < n ==> !Decreasing(pos, j)
    {
      WrongExactly(start, pos, n);
    }
  }
}
