/** The two estimates of dropped frames, in exact arithmetic. */
module Gaps {

  /** Nearest integer of dt / period, halves up: (uint64_t)(ratio + 0.5) and llround of a positive ratio. */
  function Periods(dt: int, period: int): int
    requires period > 0
  {
    (dt as real / period as real + 0.5).Floor
  }

  predicate Exceeds(dt: int, period: int, factor: real) {
    dt as real > period as real * factor
  }

  /** estimate_gap of the C tool. */
  function EstimateGap(dt: int, period: int, factor: real): (drops: nat) {
    if period <= 0 || dt <= 0 || !Exceeds(dt, period, factor) then 0
    else
      var periods := Periods(dt, period);
      if periods <= 1 then 1 else periods - 1
  }

  /** The estimate inside complete_sample of the C++ tool. */
  function EstimateDrops(dt: int, period: int, factor: real): (drops: nat) {
    if dt > 0 && period > 0 && Exceeds(dt, period, factor) then
      var est := Periods(dt, period) - 1;
      if est > 0 then est else 0
    else 0
  }

  const NSEC: int := 1_000_000_000

  /** The expected period of the C tool, which takes whole rates, rounded down. */
  function CapturePeriod(hz: int): int {
    if hz > 0 then NSEC / hz else 0
  }

  /** The expected period of the C++ tool, rounded to nearest. */
  function ReaderPeriod(hz: real): int {
    if hz > 0.0 then (NSEC as real / hz + 0.5).Floor else 0
  }

  lemma RealOrder(a: real, b: real, c: real)
    requires c > 0.0
    ensures a < b <==> a * c < b * c
    ensures a <= b <==> a * c <= b * c
  {}

  /** The rounding is the integer quotient (2 dt + period) / (2 period). */
  lemma PeriodsFloor(dt: int, period: int, q: int)
    requires period > 0
    requires q * (2 * period) <= 2 * dt + period < q * (2 * period) + 2 * period
    ensures Periods(dt, period) == q
  {
    var d := 2 * period;
    var x := dt as real / period as real;
    Halves(x, dt, period);
    CastTimes(q, d);
    CastTimes(q + 1, d);
    assert (q + 1) * d == q * d + d;
    FloorBetween(x + 0.5, d as real, q, q * d, 2 * dt + period, (q + 1) * d);
  }

  lemma FloorBetween(y: real, c: real, q: int, low: int, n: int, high: int)
    requires c > 0.0 && low <= n < high
    requires q as real * c == low as real && y * c == n as real && (q + 1) as real * c == high as real
    ensures y.Floor == q
  {
    RealOrder(q as real, y, c);
    RealOrder(y, (q + 1) as real, c);
    FloorUnique(y, q);
  }

  lemma Halves(x: real, dt: int, period: int)
    requires period > 0 && x == dt as real / period as real
    ensures (x + 0.5) * (2 * period) as real == (2 * dt + period) as real
  {}

  lemma CastTimes(a: int, b: int)
    ensures a as real * b as real == (a * b) as real
  {}

  lemma FloorUnique(y: real, q: int)
    requires q as real <= y < (q + 1) as real
    ensures y.Floor == q
  {}

  /** `periods` is the nearest integer iff dt is within half a period of it. */
  lemma NearestIff(dt: int, period: int, n: int)
    requires period > 0
    ensures Periods(dt, period) == n <==> 2 * (n * period) - period <= 2 * dt < 2 * (n * period) + period
  {
    var q := (2 * dt + period) / (2 * period);
    assert q * (2 * period) == 2 * (q * period);
    PeriodsFloor(dt, period, q);
    if q != n {
      Apart(q, n, period);
    }
  }

  /** At a whole rate the tools expect the same period exactly if rounding to nearest goes down. */
  lemma PeriodsAgreeIff(hz: int)
    requires hz > 0
    ensures CapturePeriod(hz) == ReaderPeriod(hz as real) <==> 2 * (NSEC % hz) < hz
  {
    NearestIff(NSEC, hz, NSEC / hz);
    assert NSEC == (NSEC / hz) * hz + NSEC % hz;
  }

  /** The C tool expects the nanoseconds of a period rounded down. */
  lemma CapturePeriodIs(hz: int)
    ensures hz <= 0 ==> CapturePeriod(hz) == 0
    ensures hz > 0 ==> CapturePeriod(hz) * hz <= 1_000_000_000 < CapturePeriod(hz) * hz + hz
  {
    if hz > 0 {
      assert NSEC == (NSEC / hz) * hz + NSEC % hz;
    }
  }

  lemma Quotient(n: real, hz: real) returns (y: real)
    requires hz > 0.0
    ensures y == n / hz && y * hz == n
  {
    y := n / hz;
  }

  lemma SumTimes(s: real, a: real, b: real, c: real)
    requires s == a + b
    ensures s * c == a * c + b * c
  {}

  /** If p is the whole number nearest to y, then p times hz is within half of hz of y times hz. */
  lemma NearestTimes(y: real, hz: real, p: real, low: real, high: real)
    requires hz > 0.0 && low == y + 0.5 && high == p + 1.0 && p <= low < high
    ensures p * hz <= y * hz + 0.5 * hz < p * hz + hz
  {
    RealOrder(p, low, hz);
    RealOrder(low, high, hz);
    SumTimes(low, y, 0.5, hz);
    SumTimes(high, p, 1.0, hz);
  }

  /** The C++ tool expects them rounded to nearest, at any rate. */
  lemma ReaderPeriodIs(hz: real)
    ensures hz <= 0.0 ==> ReaderPeriod(hz) == 0
    ensures hz > 0.0 ==>
      var x := ReaderPeriod(hz) as real * hz;
      x <= 1_000_000_000.0 + 0.5 * hz < x + hz
  {
    if hz > 0.0 {
      var n := NSEC as real;
      var y := Quotient(n, hz);
      var p := ReaderPeriod(hz) as real;
      NearestTimes(y, hz, p, y + 0.5, p + 1.0);
      assert n + 0.5 * hz < p * hz + hz;
    }
  }

  lemma PeriodsDifferAt600()
    ensures CapturePeriod(600) != ReaderPeriod(600.0)
  {
    PeriodsAgreeIff(600);
  }

  lemma Apart(m: int, n: int, period: int)
    requires period > 0 && m != n
    ensures n * period >= m * period + period || n * period <= m * period - period
  {
    if n > m {
      Grows(n - m, period);
      assert (n - m) * period == n * period - m * period;
    } else {
      Grows(m - n, period);
      assert (m - n) * period == m * period - n * period;
    }
  }

  lemma Grows(k: int, period: int)
    requires k >= 1 && period > 0
    ensures k * period >= period
  {}

  lemma NonNegative(a: int, b: int)
    requires a >= 0 && b >= 0
    ensures a * b >= 0
  {}

  /**
   * The tools disagree exactly when a step passes the threshold without reaching one and a half
   * periods: then the C tool counts one drop and the C++ tool none.
   */
  lemma EstimatesAgreeIff(dt: int, period: int, factor: real)
    requires period > 0
    ensures EstimateGap(dt, period, factor) == EstimateDrops(dt, period, factor)
      <==> !(dt > 0 && Exceeds(dt, period, factor) && 2 * dt < 3 * period)
  {
    hide Exceeds, Periods;
    var m := Periods(dt, period);
    NearestIff(dt, period, m);
    if m >= 2 {
      Grows(m - 1, period);
      assert (m - 1) * period == m * period - period;
    } else {
      NonNegative(1 - m, period);
      assert (1 - m) * period == period - m * period;
    }
  }

  /** For example at 1.3 periods with factor 1.2. */
  lemma EstimatesCanDiffer()
    ensures EstimateGap(13, 10, 1.2) == 1 && EstimateDrops(13, 10, 1.2) == 0
  {}

  lemma ExceedsOneAndHalf(dt: int, period: int)
    ensures Exceeds(dt, period, 1.5) <==> 2 * dt > 3 * period
  {
    assert (2 * dt) as real == dt as real * 2.0;
    assert (3 * period) as real == (period as real * 1.5) * 2.0;
  }

  /** Passing the threshold of a factor a / b, without division. */
  lemma ExceedsRatio(dt: int, period: int, a: int, b: int)
    requires b > 0
    ensures Exceeds(dt, period, a as real / b as real) <==> b * dt > a * period
  {
    var f := a as real / b as real;
    RealOrder(period as real * f, dt as real, b as real);
    assert (period as real * f) * b as real == period as real * (f * b as real) == period as real * a as real;
    CastTimes(period, a);
    CastTimes(dt, b);
    assert a * period == period * a && b * dt == dt * b;
  }

  /**
   * With a factor a / b a step is a gap, for either tool, exactly if it goes forward, the period is known, and
   * b steps are longer than a periods. A gap within half a period of n periods counts n - 1 drops, but at
   * least one in the C tool; any other step counts none.
   */
  lemma EstimatesOfRatio(dt: int, period: int, a: int, b: int, n: int)
    requires b > 0
    ensures var (f, gap) := (a as real / b as real, dt > 0 && period > 0 && b * dt > a * period);
      && (EstimateGap(dt, period, f) > 0 <==> gap)
      && (dt > 0 && period > 0 && Exceeds(dt, period, f) <==> gap)
      && (!gap ==> EstimateDrops(dt, period, f) == 0)
      && (gap && 2 * (n * period) - period <= 2 * dt < 2 * (n * period) + period ==>
            && EstimateGap(dt, period, f) == (if n <= 1 then 1 else n - 1)
            && EstimateDrops(dt, period, f) == (if n <= 1 then 0 else n - 1))
  {
    hide Exceeds, Periods;
    ExceedsRatio(dt, period, a, b);
    if period > 0 {
      NearestIff(dt, period, n);
    }
  }

  lemma ExceedsLess(dt: int, period: int, factor: real)
    requires period > 0 && factor >= 1.5 && Exceeds(dt, period, factor)
    ensures Exceeds(dt, period, 1.5)
  {
    RealOrder(1.5, factor, period as real);
  }

  /** With a factor of at least 1.5 they always agree. */
  lemma EstimatesAgree(dt: int, period: int, factor: real)
    requires factor >= 1.5
    ensures EstimateGap(dt, period, factor) == EstimateDrops(dt, period, factor)
  {
    hide Exceeds, Periods;
    if period > 0 && dt > 0 && Exceeds(dt, period, factor) {
      ExceedsLess(dt, period, factor);
      ExceedsOneAndHalf(dt, period);
      EstimatesAgreeIff(dt, period, factor);
    }
  }

  /** A step of n periods with jitter below half a period is read as n - 1 missing frames. */
  lemma StepExact(dt: int, period: int, n: int)
    requires period > 0 && n >= 1
    requires -period < 2 * (dt - n * period) < period
    ensures EstimateGap(dt, period, 1.5) == n - 1
  {
    hide Exceeds, Periods;
    NearestIff(dt, period, n);
    ExceedsOneAndHalf(dt, period);
    Grows(n, period);
    if n >= 2 {
      Grows(n - 1, period);
      assert (n - 1) * period == n * period - period;
    }
  }

  /** Summed estimates over the steps between consecutive timestamps. */
  function TotalGaps(ts: seq<int>, period: int, factor: real): nat {
    if |ts| < 2 then 0
    else TotalGaps(ts[..|ts| - 1], period, factor) + EstimateGap(ts[|ts| - 1] - ts[|ts| - 2], period, factor)
  }

  /** A step of `steps` grid points with jitter below half a period. */
  ghost predicate OnGrid(dt: int, steps: int, period: int) {
    steps >= 1 && -period < 2 * (dt - steps * period) < period
  }

  /** Timestamps on a grid of the period, each step off the grid by less than half a period. */
  ghost predicate FollowsGrid(ts: seq<int>, grid: seq<int>, period: int)
    requires |ts| == |grid|
  {
    forall j :: 0 < j < |ts| ==> OnGrid(ts[j] - ts[j - 1], grid[j] - grid[j - 1], period)
  }

  /** Over any such run the total estimate is the number of grid points skipped. */
  lemma {:induction false} DropsExact(ts: seq<int>, grid: seq<int>, period: int)
    requires |ts| == |grid| >= 1 && period > 0 && FollowsGrid(ts, grid, period)
    ensures TotalGaps(ts, period, 1.5) == grid[|grid| - 1] - grid[0] - (|grid| - 1)
  {
    hide FollowsGrid, OnGrid, EstimateGap, TotalGaps;
    if |ts| == 1 {
      TotalGapsNone(ts, period);
    } else {
      var n := |ts| - 1;
      TotalGapsLast(ts, period);
      InitFollows(ts, grid, period);
      DropsExact(ts[..n], grid[..n], period);
      StepOnGrid(ts[n] - ts[n - 1], grid[n] - grid[n - 1], period);
    }
  }

  lemma TotalGapsNone(ts: seq<int>, period: int)
    requires |ts| == 1
    ensures TotalGaps(ts, period, 1.5) == 0
  {}

  lemma TotalGapsLast(ts: seq<int>, period: int)
    requires |ts| >= 2
    ensures TotalGaps(ts, period, 1.5)
         == TotalGaps(ts[..|ts| - 1], period, 1.5) + EstimateGap(ts[|ts| - 1] - ts[|ts| - 2], period, 1.5)
  {}

  lemma InitFollows(ts: seq<int>, grid: seq<int>, period: int)
    requires |ts| == |grid| >= 2 && FollowsGrid(ts, grid, period)
    ensures FollowsGrid(ts[..|ts| - 1], grid[..|ts| - 1], period)
    ensures OnGrid(ts[|ts| - 1] - ts[|ts| - 2], grid[|ts| - 1] - grid[|ts| - 2], period)
  {
    hide OnGrid;
  }

  lemma StepOnGrid(dt: int, steps: int, period: int)
    requires period > 0 && OnGrid(dt, steps, period)
    ensures EstimateGap(dt, period, 1.5) == steps - 1
  {
    StepExact(dt, period, steps);
  }
}
