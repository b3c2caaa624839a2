/**
 From raw speeds to reported speeds: a low-pass filter in single precision
 with truncation to whole rpm, outlier rejection, and the mean of the last ten
 results.
 */
module SpeedFilter {
  import opened CArith
  import Float32

  const MAX_POSSIBLE_RPM := 600
  const AVERAGE_FILTER_LEN := 10
  const MIN_ESTIMATE_NUM_BEFORE_VALID := 20

  /** The coefficients as the source writes them, rounded to single precision (`Coefficients`). */
  const A: real := 6111013.0 / 8388608.0
  const B: real := 9110381.0 / 67108864.0

  function ToFloat(x: int): real {
    Float32.Round(x as real)
  }

  /** Every product and every sum is rounded, in the order of evaluation. */
  function FilterSum(last: int, older: int, newer: int): real {
    Float32.Round(
      Float32.Round(Float32.Round(A * ToFloat(last)) + Float32.Round(B * ToFloat(newer)))
      + Float32.Round(B * ToFloat(older)))
  }

  function LowPass(last: int, older: int, newer: int): int {
    TruncReal(FilterSum(last, older, newer))
  }

  function RejectOutlier(x: int, last: int): int {
    if x > MAX_POSSIBLE_RPM || x < -MAX_POSSIBLE_RPM then last else x
  }

  function Sum(s: seq<int>): int {
    if s == [] then 0 else s[0] + Sum(s[1..])
  }

  /** What one wheel carries from estimate to estimate. */
  datatype Filter = Filter(last: int, older: int, newer: int, ring: seq<int>, idx: nat) {

    ghost predicate Valid() {
      |ring| == AVERAGE_FILTER_LEN && idx < AVERAGE_FILTER_LEN
    }

    ghost function Next(raw: int): Filter
      requires Valid()
    {
      var out := RejectOutlier(LowPass(last, older, newer), last);
      Filter(out, newer, raw, ring[idx := out], (idx + 1) % AVERAGE_FILTER_LEN)
    }

    /** The speed reported after an update, given the number of estimates made before it. */
    ghost function Report(estimates: nat): int
      requires Valid()
    {
      if estimates >= AVERAGE_FILTER_LEN then TruncDiv(Sum(ring), AVERAGE_FILTER_LEN) else last
    }
  }

  const INITIAL: Filter := Filter(0, 0, 0, [0, 0, 0, 0, 0, 0, 0, 0, 0, 0], 0)

  /** The state after the first n raw speeds. */
  ghost function After(raws: seq<int>, n: nat): (f: Filter)
    requires n <= |raws|
    ensures f.Valid()
  {
    if n == 0 then INITIAL else After(raws, n - 1).Next(raws[n - 1])
  }

  lemma {:induction false} AfterPrefix(raws: seq<int>, more: seq<int>, n: nat)
    requires n <= |raws|
    ensures After(raws + more, n) == After(raws, n)
    decreases n
  {
    hide Filter.Next;
    if n > 0 {
      AfterPrefix(raws, more, n - 1);
    }
  }

  // ---------- the filter outputs as a sequence, without the ring ----------

  ghost function Raw(raws: seq<int>, j: int): int
    requires j < |raws|
  {
    if j < 0 then 0 else raws[j]
  }

  /** The j-th filter output; it depends on the two raw speeds before the j-th. */
  ghost function Out(raws: seq<int>, j: int): int
    requires j < |raws|
    decreases j + 1
  {
    if j < 0 then 0
    else
      var last := Out(raws, j - 1);
      RejectOutlier(LowPass(last, Raw(raws, j - 2), Raw(raws, j - 1)), last)
  }

  ghost function LastTen(raws: seq<int>, j: int): (s: seq<int>)
    requires j < |raws|
    ensures |s| == AVERAGE_FILTER_LEN
  {
    seq(AVERAGE_FILTER_LEN, t requires 0 <= t < AVERAGE_FILTER_LEN => Out(raws, j - 9 + t))
  }

  /** The j-th report: the mean of ten outputs, once there are more than ten. */
  ghost function Reported(raws: seq<int>, j: nat): int
    requires j < |raws|
  {
    if j >= AVERAGE_FILTER_LEN then TruncDiv(Sum(LastTen(raws, j)), AVERAGE_FILTER_LEN) else Out(raws, j)
  }

  /** The filter's memory is the last output and the two newest raw speeds. */
  lemma {:induction false} FilterMemory(raws: seq<int>, n: nat)
    requires n <= |raws|
    ensures var f := After(raws, n);
            && f.last == Out(raws, n - 1) && f.newer == Raw(raws, n - 1) && f.older == Raw(raws, n - 2)
    decreases n
  {
    hide LowPass, RejectOutlier;
    if n > 0 {
      FilterMemory(raws, n - 1);
    }
  }

  /** The ring holds exactly the last ten outputs, rotated. */
  lemma {:induction false} RingHoldsLastTen(raws: seq<int>, n: nat)
    requires n <= |raws|
    ensures var f := After(raws, n);
            f.ring[f.idx..] + f.ring[..f.idx] == LastTen(raws, n - 1)
    decreases n
  {
    hide LowPass, RejectOutlier, Filter.Next;
    if n == 0 {
      assert INITIAL.ring[0..] + INITIAL.ring[..0] == INITIAL.ring;
      assert forall t :: 0 <= t < AVERAGE_FILTER_LEN ==> LastTen(raws, -1)[t] == 0;
    } else {
      RingHoldsLastTen(raws, n - 1);
      RingRotates(After(raws, n - 1), raws[n - 1]);
      FilterMemory(raws, n);
      LastTenShifts(raws, n - 1);
    }
  }

  lemma LastTenShifts(raws: seq<int>, j: nat)
    requires j < |raws|
    ensures LastTen(raws, j) == LastTen(raws, j - 1)[1..] + [Out(raws, j)]
  {
    hide Out;
  }

  /** Read from its index on, the ring drops its oldest entry and gains the new output. */
  lemma RingRotates(f: Filter, raw: int)
    requires f.Valid()
    ensures var g := f.Next(raw);
            g.ring[g.idx..] + g.ring[..g.idx] == (f.ring[f.idx..] + f.ring[..f.idx])[1..] + [g.last]
  {
    hide LowPass, RejectOutlier;
  }

  lemma {:induction false} SumAppend(a: seq<int>, b: seq<int>)
    ensures Sum(a + b) == Sum(a) + Sum(b)
    decreases |a|
  {
    if a == [] {
      assert a + b == b;
    } else {
      assert (a + b)[1..] == a[1..] + b;
      SumAppend(a[1..], b);
    }
  }

  /** What the service reports is the truncated mean of exactly the last ten outputs. */
  lemma ReportIsMean(raws: seq<int>, j: nat)
    requires j < |raws|
    ensures After(raws, j + 1).Report(j) == Reported(raws, j)
  {
    hide LowPass, TruncDiv;
    RingHoldsLastTen(raws, j + 1);
    FilterMemory(raws, j + 1);
    RotationSum(After(raws, j + 1));
  }

  /** Ten outputs ending with the j-th, added up. */
  ghost function TenOuts(raws: seq<int>, j: int): int
    requires j < |raws|
  {
    Out(raws, j - 9) + Out(raws, j - 8) + Out(raws, j - 7) + Out(raws, j - 6) + Out(raws, j - 5)
    + Out(raws, j - 4) + Out(raws, j - 3) + Out(raws, j - 2) + Out(raws, j - 1) + Out(raws, j)
  }

  /** The first ten reports are the outputs, every later one is a tenth of ten of them, rounded toward zero. */
  lemma ReportsInNumbers(raws: seq<int>, j: nat)
    requires j < |raws|
    ensures j < 10 ==> After(raws, j + 1).Report(j) == Out(raws, j)
    ensures j >= 10 ==> IsQuotient(After(raws, j + 1).Report(j), TenOuts(raws, j), 10)
  {
    hide TruncDiv, Out, LowPass, Filter.Next, IsQuotient;
    ReportIsMean(raws, j);
    TenSum(LastTen(raws, j));
    TruncatesTowardZero(TenOuts(raws, j), 10);
  }

  lemma TenSum(s: seq<int>)
    requires |s| == 10
    ensures Sum(s) == s[0] + s[1] + s[2] + s[3] + s[4] + s[5] + s[6] + s[7] + s[8] + s[9]
  {
    SumEnds(s);
    SumEnds(s[2..]);
    SumEnds(s[4..]);
    SumEnds(s[6..]);
    SumEnds(s[8..]);
  }

  lemma SumEnds(s: seq<int>)
    requires |s| >= 2
    ensures Sum(s) == s[0] + s[1] + Sum(s[2..])
    ensures |s| == 2 ==> Sum(s) == s[0] + s[1]
  {
    assert s[1..][1..] == s[2..];
  }

  /**
   What an update does, case by case: an impossible filter value is replaced by
   the last output, every other one is the output; the raw speed enters the
   history, and the output the ring.
   */
  lemma OutlierIsReplaced(f: Filter, raw: int)
    requires f.Valid()
    ensures var v, n := LowPass(f.last, f.older, f.newer), f.Next(raw);
            && (v > 600 || v < -600 ==> n.last == f.last)
            && (-600 <= v <= 600 ==> n.last == v)
            && n.older == f.newer && n.newer == raw
            && n.ring == f.ring[f.idx := n.last] && n.idx == if f.idx == 9 then 0 else f.idx + 1
  {
    hide LowPass;
  }

  /** Over runs: an output repeats its predecessor exactly where the filter value is impossible or the same. */
  lemma OutputsKeptOrFiltered(raws: seq<int>, j: nat)
    requires j < |raws|
    ensures var last, v := Out(raws, j - 1), LowPass(Out(raws, j - 1), Raw(raws, j - 2), Raw(raws, j - 1));
            && (Out(raws, j) == last <==> v > 600 || v < -600 || v == last)
            && (Out(raws, j) != last ==> Out(raws, j) == v)
    ensures Out(raws, -1) == 0
  {
    hide LowPass;
    AlwaysPossible(raws, j);
  }

  /** An outlier at work: after 590, with both raw speeds at 700, the filter value 619 is rejected and 590 kept. */
  lemma OutlierExample(f: Filter, raw: int)
    requires f.Valid() && f.last == 590 && f.older == 700 && f.newer == 700
    ensures LowPass(590, 700, 700) == 619 && f.Next(raw).last == 590
  {
    hide FilterSum;
    OutlierIsReplaced(f, raw);
    NearExact(590, 700, 700);
  }

  lemma RotationSum(f: Filter)
    requires f.Valid()
    ensures Sum(f.ring[f.idx..] + f.ring[..f.idx]) == Sum(f.ring)
  {
    SumAppend(f.ring[f.idx..], f.ring[..f.idx]);
    SumAppend(f.ring[..f.idx], f.ring[f.idx..]);
    assert f.ring == f.ring[..f.idx] + f.ring[f.idx..];
  }

  // ---------- bounds ----------

  ghost predicate Within(s: seq<int>, lo: int, hi: int) {
    forall i :: 0 <= i < |s| ==> lo <= s[i] <= hi
  }

  lemma {:induction false} SumBounds(s: seq<int>, lo: int, hi: int)
    requires Within(s, lo, hi)
    ensures |s| * lo <= Sum(s) <= |s| * hi
    decreases |s|
  {
    if s != [] {
      SumBounds(s[1..], lo, hi);
    }
  }

  lemma MeanBounds(raws: seq<int>, j: nat, lo: int, hi: int)
    requires j < |raws|
    requires if j >= AVERAGE_FILTER_LEN then forall i :: j - 9 <= i <= j ==> lo <= Out(raws, i) <= hi
             else lo <= Out(raws, j) <= hi
    ensures lo <= Reported(raws, j) <= hi
  {
    if j >= AVERAGE_FILTER_LEN {
      SumBounds(LastTen(raws, j), lo, hi);
      TruncDivBounds(Sum(LastTen(raws, j)), AVERAGE_FILTER_LEN, lo, hi);
    }
  }

  /** Whatever the raw speeds are, every output and every report is a possible speed. */
  lemma {:induction false} AlwaysPossible(raws: seq<int>, j: nat)
    requires j < |raws|
    ensures forall i :: i <= j ==> -MAX_POSSIBLE_RPM <= Out(raws, i) <= MAX_POSSIBLE_RPM
    ensures -MAX_POSSIBLE_RPM <= Reported(raws, j) <= MAX_POSSIBLE_RPM
    decreases j
  {
    if j > 0 {
      AlwaysPossible(raws, j - 1);
    }
    MeanBounds(raws, j, -MAX_POSSIBLE_RPM, MAX_POSSIBLE_RPM);
  }

  lemma Coefficients()
    ensures Float32.Round(0.7284895) == A && Float32.Round(0.13575525) == B
  {
    hide Float32.Round, Float32.Exp2;
    Powers();
    Float32.RoundAt(0.7284895, -24, 12222026);
    Float32.RoundAt(0.13575525, -26, 9110381);
  }

  lemma Powers()
    ensures Float32.Exp2(-24) == 1.0 / 16777216.0 && Float32.Exp2(-26) == 1.0 / 67108864.0
    ensures Float32.Exp2(-13) == 1.0 / 8192.0 && Float32.Exp2(8) == 256.0
  {
    assert Float32.Exp2(-12) == 1.0 / 4096.0;
    assert Float32.Exp2(-18) == 1.0 / 262144.0;
  }

  /** Rounding a number below 2^24 units errs by at most half a unit. */
  lemma RoundedNear(x: real, e: int, u: real)
    requires e >= Float32.MIN_EXPONENT && u == Float32.Exp2(e)
    requires -16777216.0 * u < x < 16777216.0 * u
    ensures x - 0.5 * u <= Float32.Round(x) <= x + 0.5 * u
  {
    hide Float32.Round, Float32.Exp2;
    Float32.ErrorBelow(x, e);
  }

  /** Five such roundings err by at most five half units together. */
  lemma RoundedSum(p: real, q: real, r: real, e: int, u: real, m: real)
    requires e >= Float32.MIN_EXPONENT && u == Float32.Exp2(e)
    requires -m <= p <= m && -m <= q <= m && -m <= r <= m && 3.0 * m + 2.0 * u < 16777216.0 * u
    ensures var sum := Float32.Round(Float32.Round(Float32.Round(p) + Float32.Round(q)) + Float32.Round(r));
            -2.5 * u <= sum - (p + q + r) <= 2.5 * u
  {
    hide *;
    RoundedNear(p, e, u);
    RoundedNear(q, e, u);
    RoundedNear(r, e, u);
    var first := Float32.Round(p) + Float32.Round(q);
    RoundedNear(first, e, u);
    RoundedNear(Float32.Round(first) + Float32.Round(r), e, u);
  }

  /** The roundings together change the sum of speeds up to 800 rpm by less than a thousandth of an rpm. */
  lemma NearExact(last: int, older: int, newer: int)
    requires Abs(last) <= 800 && Abs(older) <= 800 && Abs(newer) <= 800
    ensures var exact := A * last as real + B * newer as real + B * older as real;
            exact - 0.001 <= FilterSum(last, older, newer) <= exact + 0.001
  {
    hide Float32.Round, Float32.Exp2;
    Powers();
    Float32.RoundInteger(last);
    Float32.RoundInteger(newer);
    Float32.RoundInteger(older);
    RoundedSum(A * last as real, B * newer as real, B * older as real, -13, 1.0 / 8192.0, 600.0);
  }

  /** The filter nearly is a convex combination, and truncates: it does not leave a range around zero. */
  lemma LowPassContracts(last: int, older: int, newer: int, m: int)
    requires Abs(last) <= m && Abs(older) <= m && Abs(newer) <= m && m <= MAX_POSSIBLE_RPM
    ensures Abs(LowPass(last, older, newer)) <= m
  {
    hide FilterSum;
    NearExact(last, older, newer);
    var v := FilterSum(last, older, newer);
    assert -(m as real) - 1.0 < v < m as real + 1.0;
  }

  /** With raw speeds within a possible range, outputs and reports stay in it and nothing is rejected. */
  lemma {:induction false} Contraction(raws: seq<int>, m: int, j: nat)
    requires 0 <= m <= MAX_POSSIBLE_RPM && Within(raws, -m, m) && j < |raws|
    ensures forall i :: i <= j ==> Abs(Out(raws, i)) <= m
    ensures Out(raws, j) == LowPass(Out(raws, j - 1), Raw(raws, j - 2), Raw(raws, j - 1))
    ensures Abs(Reported(raws, j)) <= m
    decreases j
  {
    hide LowPass, Sum;
    if j > 0 {
      Contraction(raws, m, j - 1);
    }
    LowPassContracts(Out(raws, j - 1), Raw(raws, j - 2), Raw(raws, j - 1), m);
    MeanBounds(raws, j, -m, m);
  }

  /** With any raw speeds the roundings change the sum by at most 700, and it fits the 32-bit integer it becomes. */
  lemma ConversionDefined(last: int, older: I32, newer: I32)
    requires Abs(last) <= MAX_POSSIBLE_RPM
    ensures var exact := A * last as real + B * newer as real + B * older as real;
            exact - 700.0 <= FilterSum(last, older, newer) <= exact + 700.0
    ensures -0x8000_0000 <= LowPass(last, older, newer) < 0x8000_0000
  {
    hide Float32.Round, Float32.Exp2;
    Powers();
    Float32.RoundInteger(last);
    FloatNear(newer);
    FloatNear(older);
    RoundedSum(A * ToFloat(last), B * ToFloat(newer), B * ToFloat(older), 8, 256.0, 300000000.0);
  }

  /** An input at which each of the five roundings changes the result. */
  lemma EveryRoundingCounts()
    ensures FilterSum(5, 451, 100) == 10281758.0 / 131072.0
  {
    hide Float32.Round, Float32.Exp2;
    SmallerPowers();
    Float32.RoundInteger(5);
    Float32.RoundInteger(451);
    Float32.RoundInteger(100);
    Float32.RoundAt(A * 5.0, -22, 15277532);
    Float32.RoundAt(B * 100.0, -20, 14234970);
    Float32.RoundAt(18054353.0 / 1048576.0, -19, 9027176);
    Float32.RoundAt(B * 451.0, -18, 16049929);
    Float32.RoundAt(20563517.0 / 262144.0, -17, 10281758);
  }

  lemma SmallerPowers()
    ensures Float32.Exp2(-17) == 1.0 / 131072.0 && Float32.Exp2(-18) == 1.0 / 262144.0
    ensures Float32.Exp2(-19) == 1.0 / 524288.0 && Float32.Exp2(-20) == 1.0 / 1048576.0
    ensures Float32.Exp2(-22) == 1.0 / 4194304.0
  {
    assert Float32.Exp2(-12) == 1.0 / 4096.0;
  }

  lemma FloatNear(x: I32)
    ensures x as real - 128.0 <= ToFloat(x) <= x as real + 128.0
  {
    hide Float32.Round, Float32.Exp2;
    Powers();
    Float32.ErrorBelow(x as real, 8);
  }

  // ---------- convergence ----------

  /** A bound on the distance to the target after one update, rounding included. */
  function Shrink(e: nat): nat {
    (7285 * e + 20 + 9999) / 10000
  }

  /** One update toward a constant speed: never farther, strictly closer while more than 3 rpm away. */
  lemma PulledIn(c: int, f: int)
    requires Abs(c) <= MAX_POSSIBLE_RPM && Abs(f) <= MAX_POSSIBLE_RPM
    ensures var g := LowPass(f, c, c);
            && RejectOutlier(g, f) == g
            && Abs(g - c) <= Shrink(Abs(f - c))
            && (Abs(f - c) > 3 ==> Abs(g - c) < Abs(f - c))
            && (if f == c then Abs(g - c) <= 1 else Abs(g - c) <= Abs(f - c))
  {
    hide FilterSum, RejectOutlier;
    NearExact(f, c, c);
    LowPassContracts(f, c, c, MAX_POSSIBLE_RPM);
    var v, e := FilterSum(f, c, c), Abs(f - c);
    assert -(0.7285 * e as real + 0.002) <= v - c as real <= 0.7285 * e as real + 0.002;
    assert 0.7285 * e as real + 0.002 <= Shrink(e) as real;
    TruncWithin(v, c, Shrink(e));
    assert RejectOutlier(LowPass(f, c, c), f) == LowPass(f, c, c) by {
      PossibleIsKept(LowPass(f, c, c), f);
    }
  }

  /** The filter with the decimal coefficients of the source and without rounding. */
  function ExactLowPass(last: int, older: int, newer: int): int {
    TruncReal(0.7284895 * last as real + 0.13575525 * newer as real + 0.13575525 * older as real)
  }

  /**
   In exact arithmetic no update leads away from a constant speed, and one that
   was reached is kept; single precision differs by at most one rpm.
   */
  lemma AgainstExact(c: int, f: int)
    requires Abs(c) <= MAX_POSSIBLE_RPM && Abs(f) <= MAX_POSSIBLE_RPM
    ensures var g := ExactLowPass(f, c, c);
            && Abs(g - c) <= Abs(f - c)
            && (Abs(f - c) > 3 ==> Abs(g - c) < Abs(f - c))
            && Abs(LowPass(f, c, c) - g) <= 1
  {
    hide FilterSum;
    NearExact(f, c, c);
  }

  lemma TruncWithin(v: real, c: int, w: nat)
    requires -(w as real) <= v - c as real <= w as real
    ensures Abs(TruncReal(v) - c) <= w
  {}

  lemma PossibleIsKept(x: int, last: int)
    requires Abs(x) <= MAX_POSSIBLE_RPM
    ensures RejectOutlier(x, last) == x
  {}

  const SETTLING := 21

  /** The bounds on the distance, update by update, from the largest possible one on. */
  ghost function DistanceBound(t: nat): nat {
    if t >= SETTLING then 3
    else [1200, 875, 638, 465, 339, 247, 180, 132, 97, 71, 52, 38, 28, 21, 16, 12, 9, 7, 6, 5, 4][t]
  }

  lemma BoundsShrink(t: nat)
    ensures Shrink(DistanceBound(t)) == DistanceBound(t + 1)
  {}

  lemma ShrinkMonotone(d: nat, e: nat)
    requires d <= e
    ensures Shrink(d) <= Shrink(e)
  {}

  lemma {:induction false} DistanceAfter(raws: seq<int>, c: int, m: nat, t: nat)
    requires Abs(c) <= MAX_POSSIBLE_RPM && m + 1 + t < |raws|
    requires forall j :: m <= j < |raws| ==> raws[j] == c
    ensures Abs(Out(raws, m + 1 + t) - c) <= DistanceBound(t)
    decreases t
  {
    hide LowPass, Shrink;
    AlwaysPossible(raws, m + 1 + t);
    if t > 0 {
      DistanceAfter(raws, c, m, t - 1);
      OneStep(raws, c, m + 1 + t, DistanceBound(t - 1));
      BoundsShrink(t - 1);
    }
  }

  lemma OneStep(raws: seq<int>, c: int, j: nat, e: nat)
    requires Abs(c) <= MAX_POSSIBLE_RPM && 2 <= j < |raws| && raws[j - 1] == raws[j - 2] == c
    requires Abs(Out(raws, j - 1) - c) <= e
    ensures Abs(Out(raws, j) - c) <= Shrink(e)
  {
    hide LowPass, Shrink;
    AlwaysPossible(raws, j - 1);
    PulledIn(c, Out(raws, j - 1));
    ShrinkMonotone(Abs(Out(raws, j - 1) - c), e);
  }

  /**
   Settling: from the first estimate of a constant raw speed on, the output is
   within 3 rpm of it after 22 more estimates and the reported mean after 31,
   for good, whatever came before.
   */
  lemma Settles(raws: seq<int>, c: int, m: nat, j: nat)
    requires Abs(c) <= MAX_POSSIBLE_RPM && m <= j < |raws|
    requires forall i :: m <= i < |raws| ==> raws[i] == c
    ensures j >= m + 22 ==> Abs(Out(raws, j) - c) <= 3
    ensures j >= m + 31 ==> Abs(Reported(raws, j) - c) <= 3
  {
    hide Out, Reported;
    forall i | m + 22 <= i <= j
      ensures Abs(Out(raws, i) - c) <= 3
    {
      DistanceAfter(raws, c, m, i - m - 1);
    }
    if j >= m + 31 {
      MeanBounds(raws, j, c - 3, c + 3);
    }
  }
}
