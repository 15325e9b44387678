/** What both user-space tools should print for a byte stream: one row per whole 24-byte slice. */
module Rows {
  import opened Frames
  import opened Gaps
  import opened Scans

  /** A row: sequence number, decoded scan, step from the previous timestamp, gap flag, estimated drops. */
  datatype Row = Row(num: nat, sample: Sample, dt: int, gap: bool, drops: nat)

  /** Number, minimum, maximum and sum of the steps a tool counts. */
  datatype StepStats = StepStats(count: nat, min: int, max: int, sum: int)

  const INT64_MAX: int := 0x7FFF_FFFF_FFFF_FFFF
  const INT64_MIN: int := -0x8000_0000_0000_0000

  /**
   * How a tool judges a step: whether it counts as a gap, how many frames it takes for missing, and what
   * it does to the statistics. The C tool counts every step, the C++ tool only positive ones.
   */
  datatype GapRule = CaptureRule(period: int, factor: real) | ReaderRule(period: int, factor: real) {
    predicate Gap(dt: int) {
      match this
      case CaptureRule(p, f) => EstimateGap(dt, p, f) > 0
      case ReaderRule(p, f) => dt > 0 && p > 0 && Exceeds(dt, p, f)
    }

    function Drops(dt: int): nat {
      match this
      case CaptureRule(p, f) => EstimateGap(dt, p, f)
      case ReaderRule(p, f) => EstimateDrops(dt, p, f)
    }

    function NoSteps(): StepStats {
      match this
      case CaptureRule(_, _) => StepStats(0, 0, 0, 0)
      case ReaderRule(_, _) => StepStats(0, INT64_MAX, INT64_MIN, 0)
    }

    function Tally(st: StepStats, dt: int): StepStats {
      match this
      case CaptureRule(_, _) =>
        StepStats(st.count + 1, if st.count == 0 || dt < st.min then dt else st.min,
                  if st.count == 0 || dt > st.max then dt else st.max, st.sum + dt)
      case ReaderRule(_, _) =>
        if dt <= 0 then st
        else StepStats(st.count + 1, if dt < st.min then dt else st.min,
                       if dt > st.max then dt else st.max, st.sum + dt)
    }
  }

  function Slot(bytes: seq<byte>, k: nat): (slot: seq<byte>)
    requires SCAN_SIZE * k + SCAN_SIZE <= |bytes|
    ensures |slot| == SCAN_SIZE
  {
    bytes[SCAN_SIZE * k..SCAN_SIZE * k + SCAN_SIZE]
  }

  /** The row a slice gets after the rows `before`. */
  function NextRow(before: seq<Row>, slot: seq<byte>, rule: GapRule): Row
    requires |slot| == SCAN_SIZE
  {
    var sample := DecodeScan(slot);
    if before == [] then Row(0, sample, 0, false, 0)
    else
      var dt := sample.timestamp - before[|before| - 1].sample.timestamp;
      Row(|before|, sample, dt, rule.Gap(dt), rule.Drops(dt))
  }

  /** The rows of the first n slices. */
  function FirstRows(bytes: seq<byte>, n: nat, rule: GapRule): (rows: seq<Row>)
    requires SCAN_SIZE * n <= |bytes|
    ensures |rows| == n
  {
    if n == 0 then []
    else
      var before := FirstRows(bytes, n - 1, rule);
      before + [NextRow(before, Slot(bytes, n - 1), rule)]
  }

  /** Row k shows slice k, whatever comes later, and its step is the difference of two neighbouring timestamps. */
  lemma {:induction false} RowShowsSlot(bytes: seq<byte>, n: nat, rule: GapRule, k: nat)
    requires SCAN_SIZE * n <= |bytes| && k < n
    ensures FirstRows(bytes, n, rule)[k] == RowAt(bytes, rule, k)
  {
    hide Slot, DecodeScan;
    if k < n - 1 {
      RowShowsSlot(bytes, n - 1, rule, k);
    } else if k > 0 {
      RowShowsSlot(bytes, n - 1, rule, k - 1);
    }
  }

  /** Row k, read off the slices k and k - 1 alone. */
  function RowAt(bytes: seq<byte>, rule: GapRule, k: nat): (row: Row)
    requires SCAN_SIZE * k + SCAN_SIZE <= |bytes|
  {
    var sample := DecodeScan(Slot(bytes, k));
    if k == 0 then Row(0, sample, 0, false, 0)
    else
      var dt := sample.timestamp - DecodeScan(Slot(bytes, k - 1)).timestamp;
      Row(k, sample, dt, rule.Gap(dt), rule.Drops(dt))
  }

  /** More input does not change the rows of the slices already there. */
  lemma {:induction false} RowsStable(bytes: seq<byte>, more: seq<byte>, n: nat, rule: GapRule)
    requires SCAN_SIZE * n <= |bytes|
    ensures FirstRows(bytes + more, n, rule) == FirstRows(bytes, n, rule)
  {
    if n > 0 {
      RowsStable(bytes, more, n - 1, rule);
      SliceLeft(bytes, more, SCAN_SIZE * (n - 1), SCAN_SIZE * (n - 1) + SCAN_SIZE);
    }
  }

  /**
   * The gap flag and the drops of a row at a factor a / b, in whole numbers: the row is a gap exactly if it has
   * a predecessor, its step goes forward, the tool knows a period, and b steps are longer than a periods. A gap
   * whose step is within half a period of q periods counts q - 1 drops, but at least one in the C tool.
   */
  lemma RowGap(bytes: seq<byte>, n: nat, rule: GapRule, k: nat, a: int, b: int, q: int)
    requires SCAN_SIZE * n <= |bytes| && k < n && b > 0 && rule.factor == a as real / b as real
    ensures var (row, p) := (FirstRows(bytes, n, rule)[k], rule.period);
      && (row.gap <==> k > 0 && row.dt > 0 && p > 0 && b * row.dt > a * p)
      && (!row.gap ==> row.drops == 0)
      && (row.gap && 2 * (q * p) - p <= 2 * row.dt < 2 * (q * p) + p ==>
            row.drops == if q >= 2 then q - 1 else if rule.CaptureRule? then 1 else 0)
  {
    hide FirstRows, Slot, DecodeScan, EstimateGap, EstimateDrops, Exceeds;
    RowShowsSlot(bytes, n, rule, k);
    EstimatesOfRatio(FirstRows(bytes, n, rule)[k].dt, rule.period, a, b, q);
  }

  /** The bytes behind the first n slices. */
  function Rest(bytes: seq<byte>, n: nat): (rest: seq<byte>)
    requires SCAN_SIZE * n <= |bytes|
    ensures |rest| == |bytes| - SCAN_SIZE * n
  {
    bytes[SCAN_SIZE * n..]
  }

  /** With less than a slice behind the first n, there are n whole slices. */
  lemma WholeSlices(bytes: seq<byte>, n: nat, rest: nat)
    requires |bytes| == SCAN_SIZE * n + rest && rest < SCAN_SIZE
    ensures |bytes| / 24 == n
  {}

  lemma RestStep(bytes: seq<byte>, n: nat)
    requires SCAN_SIZE * n + SCAN_SIZE <= |bytes|
    ensures Slot(bytes, n) == Rest(bytes, n)[..SCAN_SIZE]
    ensures Rest(bytes, n + 1) == Rest(bytes, n)[SCAN_SIZE..]
  {}

  /** A later slice, found in the bytes behind the first n. */
  lemma RestSlot(bytes: seq<byte>, n: nat, m: nat)
    requires n <= m && SCAN_SIZE * m + SCAN_SIZE <= |bytes|
    ensures Rest(bytes, n)[SCAN_SIZE * (m - n)..SCAN_SIZE * (m - n) + SCAN_SIZE] == Slot(bytes, m)
  {}

  lemma RestFrom(bytes: seq<byte>, n: nat, m: nat)
    requires n <= m && SCAN_SIZE * m <= |bytes|
    ensures Rest(bytes, n)[SCAN_SIZE * (m - n)..] == Rest(bytes, m)
  {}

  lemma RestAppend(bytes: seq<byte>, more: seq<byte>, n: nat)
    requires SCAN_SIZE * n <= |bytes|
    ensures Rest(bytes + more, n) == Rest(bytes, n) + more
  {}

  function TotalDrops(rows: seq<Row>): nat {
    if rows == [] then 0 else TotalDrops(rows[..|rows| - 1]) + rows[|rows| - 1].drops
  }

  function GapRows(rows: seq<Row>): nat {
    if rows == [] then 0 else GapRows(rows[..|rows| - 1]) + if rows[|rows| - 1].gap then 1 else 0
  }

  /** The statistics over the steps of all rows but the first, which has none. */
  function Stats(rows: seq<Row>, rule: GapRule): StepStats {
    if |rows| <= 1 then rule.NoSteps()
    else rule.Tally(Stats(rows[..|rows| - 1], rule), rows[|rows| - 1].dt)
  }

  /** The minimum and maximum bound every step that was counted. */
  lemma {:induction false} StatsBound(rows: seq<Row>, rule: GapRule, k: nat)
    requires 0 < k < |rows| && (rule.ReaderRule? ==> rows[k].dt > 0)
    ensures Stats(rows, rule).count > 0 && Stats(rows, rule).min <= rows[k].dt <= Stats(rows, rule).max
  {
    if k < |rows| - 1 {
      StatsBound(rows[..|rows| - 1], rule, k);
    }
  }

  /** The steps a tool counts: all but the first row's, in the C++ tool only those that go forward. */
  function CountedSteps(rows: seq<Row>, rule: GapRule): seq<int> {
    if |rows| <= 1 then []
    else
      CountedSteps(rows[..|rows| - 1], rule)
      + if rule.ReaderRule? && rows[|rows| - 1].dt <= 0 then [] else [rows[|rows| - 1].dt]
  }

  function Sum(xs: seq<int>): int {
    if xs == [] then 0 else Sum(xs[..|xs| - 1]) + xs[|xs| - 1]
  }

  /** Smallest and largest of the steps, both attained. */
  predicate Spans(st: StepStats, xs: seq<int>) {
    && (forall x <- xs :: st.min <= x <= st.max)
    && (xs != [] ==> st.min in xs && st.max in xs)
  }

  lemma TallySnoc(rule: GapRule, st: StepStats, xs: seq<int>, dt: int)
    requires st.count == |xs| && st.sum == Sum(xs) && (xs == [] ==> st == rule.NoSteps())
    requires rule.ReaderRule? ==> dt > 0
    ensures var st' := rule.Tally(st, dt);
      && st'.count == |xs + [dt]| && st'.sum == Sum(xs + [dt])
      && (Spans(st, xs) && (rule.ReaderRule? ==> dt <= INT64_MAX) ==> Spans(st', xs + [dt]))
  {
    var all := xs + [dt];
    assert all[..|xs|] == xs && all[|xs|] == dt;
    assert forall x <- xs :: x in all;
    assert dt in all;
  }

  /**
   * The statistics of either tool: number and sum of the steps it counts, and the smallest and the largest of
   * them, both attained (in the C++ tool as long as its steps fit 64 signed bits).
   */
  lemma {:induction false} StatsAre(rows: seq<Row>, rule: GapRule)
    ensures var (st, xs) := (Stats(rows, rule), CountedSteps(rows, rule));
      && st.count == |xs| && st.sum == Sum(xs) && (xs == [] ==> st == rule.NoSteps())
      && (rule.CaptureRule? || (forall x <- xs :: x <= INT64_MAX) ==> Spans(st, xs))
  {
    hide Spans, Sum, GapRule.NoSteps;
    if |rows| <= 1 {
      SpansNothing(rule);
    } else {
      var init, dt := rows[..|rows| - 1], rows[|rows| - 1].dt;
      StatsAre(init, rule);
      if rule.CaptureRule? || dt > 0 {
        var xs := CountedSteps(init, rule);
        assert CountedSteps(rows, rule) == xs + [dt];
        assert dt in xs + [dt] && forall x <- xs :: x in xs + [dt];
        TallySnoc(rule, Stats(init, rule), xs, dt);
      } else {
        assert CountedSteps(rows, rule) == CountedSteps(init, rule);
      }
    }
  }

  lemma SpansNothing(rule: GapRule)
    ensures Spans(rule.NoSteps(), []) && rule.NoSteps().count == 0 == rule.NoSteps().sum == Sum([])
  {}

  /** The number of rows that are gaps. */
  lemma {:induction false} GapRowsCount(rows: seq<Row>)
    ensures GapRows(rows) == |set k | 0 <= k < |rows| && rows[k].gap|
  {
    if rows != [] {
      var n := |rows| - 1;
      GapRowsCount(rows[..n]);
      var before, all := set k | 0 <= k < n && rows[..n][k].gap, set k | 0 <= k < |rows| && rows[k].gap;
      assert all == before + if rows[n].gap then {n} else {};
    }
  }

  /** The steps the C tool counts are all of them, and add up to the time between first and last row. */
  lemma {:induction false} StepsTelescope(bytes: seq<byte>, n: nat, period: int, factor: real)
    requires SCAN_SIZE * n <= |bytes| && n > 0
    ensures var rule := CaptureRule(period, factor);
      var rows := FirstRows(bytes, n, rule);
      && Stats(rows, rule).count == n - 1
      && Stats(rows, rule).sum == rows[n - 1].sample.timestamp - rows[0].sample.timestamp
  {
    hide Slot, DecodeScan, EstimateGap;
    var rule := CaptureRule(period, factor);
    if n > 1 {
      StepsTelescope(bytes, n - 1, period, factor);
      assert FirstRows(bytes, n, rule)[..n - 1] == FirstRows(bytes, n - 1, rule);
    }
  }

  /** What a tool accumulates frame by frame. */
  datatype FrameStats = FrameStats(frames: nat, havePrev: bool, firstTs: int, prevTs: int, steps: StepStats,
                                   gaps: nat, drops: nat)

  /** The statistics that belong to the rows printed so far. */
  function Summary(rows: seq<Row>, rule: GapRule): FrameStats {
    FrameStats(|rows|, rows != [], if rows == [] then 0 else rows[0].sample.timestamp,
               if rows == [] then 0 else rows[|rows| - 1].sample.timestamp,
               Stats(rows, rule), GapRows(rows), TotalDrops(rows))
  }

  lemma LastRow(rows: seq<Row>, rule: GapRule)
    ensures var st := Summary(rows, rule);
      && st.frames == |rows| && st.havePrev == (rows != [])
      && (st.havePrev ==> st.prevTs == rows[|rows| - 1].sample.timestamp)
  {}

  /** What one more row does to the statistics. */
  function Counted(st: FrameStats, row: Row, rule: GapRule): FrameStats {
    FrameStats(st.frames + 1, true, if st.havePrev then st.firstTs else row.sample.timestamp, row.sample.timestamp,
               if st.havePrev then rule.Tally(st.steps, row.dt) else st.steps,
               st.gaps + (if row.gap then 1 else 0), st.drops + row.drops)
  }

  /** Printing one more row: the specification and the statistics move along. */
  lemma PrintStep(bytes: seq<byte>, rows: seq<Row>, row: Row, rule: GapRule)
    requires SCAN_SIZE * |rows| + SCAN_SIZE <= |bytes| && rows == FirstRows(bytes, |rows|, rule)
    requires row == NextRow(rows, Slot(bytes, |rows|), rule)
    ensures rows + [row] == FirstRows(bytes, |rows| + 1, rule)
    ensures Summary(rows + [row], rule) == Counted(Summary(rows, rule), row, rule)
  {
    assert (rows + [row])[..|rows|] == rows;
  }

  function Timestamps(rows: seq<Row>): (ts: seq<int>)
    ensures |ts| == |rows|
  {
    seq(|rows|, k requires 0 <= k < |rows| => rows[k].sample.timestamp)
  }

  /** The summed column is the summed estimate over the timestamps. */
  lemma {:induction false} TotalsAgree(bytes: seq<byte>, n: nat, period: int, factor: real)
    requires SCAN_SIZE * n <= |bytes|
    ensures var rows := FirstRows(bytes, n, CaptureRule(period, factor));
      TotalDrops(rows) == TotalGaps(Timestamps(rows), period, factor)
  {
    hide DecodeScan, Slot, EstimateGap, NextRow;
    if n > 0 {
      TotalsAgree(bytes, n - 1, period, factor);
      var rule := CaptureRule(period, factor);
      var before, rows := FirstRows(bytes, n - 1, rule), FirstRows(bytes, n, rule);
      assert rows[..n - 1] == before;
      InitTimestamps(rows);
      RowShowsSlot(bytes, n, rule, n - 1);
      if n > 1 {
        RowShowsSlot(bytes, n, rule, n - 2);
      }
    }
  }

  lemma InitTimestamps(rows: seq<Row>)
    requires rows != []
    ensures Timestamps(rows)[..|rows| - 1] == Timestamps(rows[..|rows| - 1])
  {}

  /**
   * Whatever periods and factor: the rows the two tools print for the same slice agree in number, sample
   * and step. With the same period they agree on what is a gap, and from factor 1.5 on they are equal.
   */
  lemma RowsAgree(bytes: seq<byte>, n: nat, m: nat, k: nat, period: int, period': int, factor: real)
    requires SCAN_SIZE * n <= |bytes| && SCAN_SIZE * m <= |bytes| && k < n && k < m
    ensures var a := FirstRows(bytes, n, CaptureRule(period, factor))[k];
      var b := FirstRows(bytes, m, ReaderRule(period', factor))[k];
      && a.num == b.num && a.sample == b.sample && a.dt == b.dt
      && (period == period' ==> a.gap == b.gap)
      && (period == period' && factor >= 1.5 ==> a == b)
  {
    hide FirstRows, Slot, DecodeScan, EstimateGap, EstimateDrops, Exceeds;
    RowShowsSlot(bytes, n, CaptureRule(period, factor), k);
    RowShowsSlot(bytes, m, ReaderRule(period', factor), k);
    var dt := FirstRows(bytes, n, CaptureRule(period, factor))[k].dt;
    GapsAgree(dt, period, factor);
    if factor >= 1.5 {
      EstimatesAgree(dt, period, factor);
    }
  }

  lemma GapsAgree(dt: int, period: int, factor: real)
    ensures EstimateGap(dt, period, factor) > 0 <==> dt > 0 && period > 0 && Exceeds(dt, period, factor)
  {}

  /** Same input, same period, factor at least 1.5: both tools print the same rows. */
  lemma RulesAgree(bytes: seq<byte>, n: nat, period: int, factor: real)
    requires SCAN_SIZE * n <= |bytes| && factor >= 1.5
    ensures FirstRows(bytes, n, CaptureRule(period, factor)) == FirstRows(bytes, n, ReaderRule(period, factor))
  {
    hide FirstRows;
    forall k | 0 <= k < n
      ensures FirstRows(bytes, n, CaptureRule(period, factor))[k] == FirstRows(bytes, n, ReaderRule(period, factor))[k]
    {
      RowsAgree(bytes, n, n, k, period, period, factor);
    }
  }

  /** Exact drop count of a capture: frames on a grid of the period, jitter per step below half of it. */
  lemma CaptureDropsExact(bytes: seq<byte>, n: nat, period: int, grid: seq<int>)
    requires SCAN_SIZE * n <= |bytes| && n >= 1 && |grid| == n && period > 0
    requires FollowsGrid(Timestamps(FirstRows(bytes, n, CaptureRule(period, 1.5))), grid, period)
    ensures TotalDrops(FirstRows(bytes, n, CaptureRule(period, 1.5))) == (grid[n - 1] - grid[0] + 1) - n
    ensures TotalDrops(FirstRows(bytes, n, ReaderRule(period, 1.5))) == (grid[n - 1] - grid[0] + 1) - n
  {
    hide FirstRows, EstimateGap, EstimateDrops, FollowsGrid, TotalGaps, TotalDrops;
    TotalsAgree(bytes, n, period, 1.5);
    DropsExact(Timestamps(FirstRows(bytes, n, CaptureRule(period, 1.5))), grid, period);
    RulesAgree(bytes, n, period, 1.5);
  }

  /** How many of `slices` slices a frame limit lets through; 0 means no limit. */
  function Limited(limit: nat, slices: nat): (n: nat)
    ensures n <= slices && (limit > 0 ==> n <= limit)
    ensures n == slices || n == limit > 0
  {
    if limit == 0 || slices < limit then slices else limit
  }
}
