/** From the sensor's samples to the rows the user-space tools print. */
module EndToEnd {
  import opened CaptureTool
  import opened Chip
  import opened CoreSpec
  import opened Device
  import opened Frames
  import opened Gaps
  import opened Iio
  import opened IioCore
  import opened ReadOracle
  import opened ReaderTool
  import opened Rows
  import opened Runs
  import opened Scans

  /** A row of a tool that read a prefix of the stream of `scans` shows the scan of its number. */
  lemma RowShowsScan(bytes: seq<byte>, scans: seq<Scan>, n: nat, rule: GapRule, k: nat)
    requires bytes <= StreamOf(scans) && SCAN_SIZE * n <= |bytes| && k < n
    requires k < |scans| ==> IsS64(scans[k].timestamp)
    ensures k < |scans| && FirstRows(bytes, n, rule)[k].sample == SampleOf(scans[k].axes, scans[k].timestamp)
  {
    hide FirstRows, StreamOf, ScanBytes, DecodeScan, SampleOf, IsS64;
    var at := SCAN_SIZE * k;
    assert k < |scans|;
    RowShowsSlot(bytes, n, rule, k);
    StreamSlot(scans, k);
    PrefixSlice(bytes, StreamOf(scans), at, at + SCAN_SIZE);
    ScanRoundTrip(scans[k]);
  }

  lemma PrefixSlice<T>(s: seq<T>, t: seq<T>, i: nat, j: nat)
    requires s <= t && i <= j <= |s|
    ensures s[i..j] == t[i..j]
  {
    assert t == s + t[|s|..];
    SliceLeft(s, t[|s|..], i, j);
  }

  /** The sample shows accelerometer and gyroscope of the frame. */
  predicate Shows(sample: Sample, f: SensorData) {
    sample == SampleOf(FillScan(f), sample.timestamp)
  }

  /**
   * Scans and their origins: those that came out of the FIFO hold frames the sensor wrote, each a later
   * frame than the one before.
   */
  ghost predicate Written(scans: seq<Scan>, origins: seq<Origin>, all: seq<SensorData>) {
    && |scans| == |origins|
    && (forall i :: 0 <= i < |origins| && origins[i].FromFifo? ==>
          origins[i].serial < |all| && scans[i].axes == FillScan(all[origins[i].serial]))
    && (forall i, j :: 0 <= i < j < |origins| && origins[i].FromFifo? && origins[j].FromFifo? ==>
          origins[i].serial < origins[j].serial)
  }

  /**
   * Rows numbered from 0, row k for the scan of origin k: if that came out of the FIFO the row shows a
   * frame the sensor wrote, and a later one than every earlier such row.
   */
  ghost predicate ShowsWritten(rows: seq<Row>, origins: seq<Origin>, all: seq<SensorData>) {
    && |rows| <= |origins|
    && (forall k :: 0 <= k < |rows| ==> rows[k].num == k)
    && (forall k :: 0 <= k < |rows| && origins[k].FromFifo? ==>
          origins[k].serial < |all| && Shows(rows[k].sample, all[origins[k].serial]))
    && (forall i, j :: 0 <= i < j < |rows| && origins[i].FromFifo? && origins[j].FromFifo? ==>
          origins[i].serial < origins[j].serial)
  }

  /** Rows of scans that follow each other but for `most` breaks. */
  ghost predicate InRuns(rows: seq<Row>, origins: seq<Origin>, most: int) {
    |rows| <= |origins| && Breaks(origins[..|rows|], 0) <= most
  }

  /** A sequence of rows shows consecutive frames from `first` on, one row per frame. */
  ghost predicate ShowsFrames(rows: seq<Row>, all: seq<SensorData>, first: nat) {
    && first + |rows| <= |all|
    && forall k :: 0 <= k < |rows| ==> rows[k].num == k && Shows(rows[k].sample, all[first + k])
  }

  /** What a tool may have read: bytes of the scans accepted since the buffer was enabled. */
  ghost predicate ReadsSession(core: Core, bytes: seq<byte>)
    reads core, core.dev, core.dev.iio
  {
    && core.session.start <= |core.dev.iio.scans|
    && bytes <= StreamOf(core.dev.iio.scans[core.session.start..])
    && forall s <- core.dev.iio.scans :: IsS64(s.timestamp)
  }

  /**
   * Rows over the scans of the session: always frames the sensor wrote, in order, in contiguous runs with at
   * most one break for each overflow, recovery and lost frame. If the session uses the FIFO, and since it
   * began the bus did not fail and the FIFO did not overflow (Calm), or the FIFO neither overflowed nor was
   * recovered nor lost a frame (Intact), exactly the frames the sensor wrote from the beginning of the
   * session on, whether it is still on or over.
   */
  ghost predicate ShowsSession(core: Core, rows: seq<Row>)
    reads core, core.dev, core.dev.chip, core.dev.iio, core.dev.burst
    requires core.Inv()
  {
    && core.session.start <= |core.dev.iio.origins|
    && ShowsWritten(rows, core.dev.iio.origins[core.session.start..], core.dev.chip.log.all)
    && InRuns(rows, core.dev.iio.origins[core.session.start..], MishapsSince(core.dev.Now(), core.session))
    && (core.session.fifo && (Calm(core.dev.Now(), core.session) || Intact(core.dev.Now(), core.session)) ==>
          ShowsFrames(rows, core.dev.chip.log.all, core.session.epoch))
  }

  /** ReadsSession of the values alone. */
  ghost predicate Streams(accepted: seq<Scan>, from: nat, bytes: seq<byte>) {
    && from <= |accepted| && bytes <= StreamOf(accepted[from..])
    && forall s <- accepted :: IsS64(s.timestamp)
  }

  /** Row k shows scan from + k. */
  lemma StreamedRow(accepted: seq<Scan>, from: nat, bytes: seq<byte>, n: nat, rule: GapRule, k: nat)
    requires Streams(accepted, from, bytes) && SCAN_SIZE * n <= |bytes| && k < n
    ensures from + k < |accepted|
    ensures FirstRows(bytes, n, rule)[k].num == k
    ensures FirstRows(bytes, n, rule)[k].sample == SampleOf(accepted[from + k].axes, accepted[from + k].timestamp)
  {
    hide FirstRows, StreamOf, IsS64, DecodeScan;
    var scans := accepted[from..];
    assert SCAN_SIZE * k < SCAN_SIZE * |scans|;
    assert scans[k] == accepted[from + k];
    assert scans[k] in accepted;
    RowShowsScan(bytes, scans, n, rule, k);
    RowShowsSlot(bytes, n, rule, k);
  }

  /** Rows of any session. */
  lemma WrittenRows(accepted: seq<Scan>, origins: seq<Origin>, from: nat, all: seq<SensorData>,
                    bytes: seq<byte>, n: nat, rule: GapRule)
    requires Written(accepted, origins, all) && Streams(accepted, from, bytes) && SCAN_SIZE * n <= |bytes|
    requires from <= |origins|
    ensures ShowsWritten(FirstRows(bytes, n, rule), origins[from..], all)
  {
    hide FirstRows, Streams, SampleOf, FillScan, Shows;
    var rows, os := FirstRows(bytes, n, rule), origins[from..];
    if n > 0 {
      StreamedRow(accepted, from, bytes, n, rule, n - 1);
    }
    forall k | 0 <= k < n
      ensures rows[k].num == k
      ensures os[k].FromFifo? ==> os[k].serial < |all| && Shows(rows[k].sample, all[os[k].serial])
    {
      StreamedRow(accepted, from, bytes, n, rule, k);
      assert os[k] == origins[from + k];
      if os[k].FromFifo? {
        ShowsScan(rows[k].sample, accepted[from + k], all[os[k].serial]);
      }
    }
  }

  lemma ShowsScan(sample: Sample, scan: Scan, f: SensorData)
    requires sample == SampleOf(scan.axes, scan.timestamp) && scan.axes == FillScan(f)
    ensures Shows(sample, f)
  {}

  /** Rows of a session whose scans copy the frames of `all` from `first` on. */
  lemma CopiedRows(all: seq<SensorData>, first: nat, from: nat, accepted: seq<Scan>, bytes: seq<byte>, n: nat,
                   rule: GapRule)
    requires Streams(accepted, from, bytes) && SCAN_SIZE * n <= |bytes|
    requires from <= |accepted| && first + |accepted| - from <= |all|
    requires forall k :: from <= k < |accepted| ==> accepted[k].axes == FillScan(all[first + (k - from)])
    ensures ShowsFrames(FirstRows(bytes, n, rule), all, first)
  {
    hide FirstRows, Streams, SampleOf, FillScan, Shows;
    var rows := FirstRows(bytes, n, rule);
    if n > 0 {
      StreamedRow(accepted, from, bytes, n, rule, n - 1);
    }
    forall k | 0 <= k < n
      ensures rows[k].num == k && Shows(rows[k].sample, all[first + k])
    {
      StreamedRow(accepted, from, bytes, n, rule, k);
      assert first + k == first + (from + k - from);
      ShowsScan(rows[k].sample, accepted[from + k], all[first + k]);
    }
  }

  /** What the IIO buffer accepted in any run. */
  lemma AcceptedWritten(core: Core)
    requires core.Inv()
    ensures Written(core.dev.iio.scans, core.dev.iio.origins, core.dev.chip.log.all)
  {
    hide Core.Inv, FillScan;
    var scans, origins, all := core.dev.iio.scans, core.dev.iio.origins, core.dev.chip.log.all;
    AcceptedLengths(core);
    forall i | 0 <= i < |origins| && origins[i].FromFifo?
      ensures origins[i].serial < |all| && scans[i].axes == FillScan(all[origins[i].serial])
    {
      AcceptedShows(core, i);
    }
    forall i, j | 0 <= i < j < |origins| && origins[i].FromFifo? && origins[j].FromFifo?
      ensures origins[i].serial < origins[j].serial
    {
      AcceptedInOrder(core, i, j);
    }
  }

  /** The rows of either tool in one session, over the bytes it read. */
  lemma SessionRows(core: Core, bytes: seq<byte>, n: nat, rule: GapRule)
    requires core.Inv() && ReadsSession(core, bytes) && SCAN_SIZE * n <= |bytes|
    ensures ShowsSession(core, FirstRows(bytes, n, rule))
  {
    hide CoreOk, Matching, OrderedWrites, QuietFrom, Intact, Calm, Breaks, MishapsSince, ShowsFrames, StreamOf,
      FirstRows, IsS64, FillScan, Icm20602.Valid, DeviceData.Committed, DeviceData.Origins;
    var scans, origins, all := core.dev.iio.scans, core.dev.iio.origins, core.dev.chip.log.all;
    AcceptedWritten(core);
    WrittenRows(scans, origins, core.session.start, all, bytes, n, rule);
    SessionRuns(core);
    BreaksFrom(origins, core.session.start);
    BreaksPrefix(origins[core.session.start..], 0, n);
    if Calm(core.dev.Now(), core.session) {
      CalmSession(core);
    }
    if core.session.fifo && Intact(core.dev.Now(), core.session) {
      SessionCopies(core);
      CopiedRows(all, core.session.epoch, core.session.start, scans, bytes, n, rule);
    }
  }

  lemma {:induction false} DeliveredPrefix(results: seq<ReadResult>, n: nat, m: nat)
    requires n <= m <= |results|
    ensures Delivered(results, n) <= Delivered(results, m)
  {
    if n < m {
      DeliveredPrefix(results, n, m - 1);
    }
  }

  lemma RowsOfPrefix(bytes: seq<byte>, whole: seq<byte>, n: nat, rule: GapRule)
    requires bytes <= whole && SCAN_SIZE * n <= |bytes|
    ensures FirstRows(bytes, n, rule) == FirstRows(whole, n, rule)
  {
    hide FirstRows;
    assert whole == bytes + whole[|bytes|..];
    RowsStable(bytes, whole[|bytes|..], n, rule);
  }

  /**
   * How a run that took in `used` reads and returned `ret` ended: a failed read ends it; and unless a
   * signal or the clock interrupted it, it prints the slices up to the frame limit and reads on until then;
   * it never reads again with the limit already reached.
   */
  ghost predicate RunEnds(rows: seq<Row>, ret: int, used: nat, results: seq<ReadResult>, limit: nat,
                          interrupted: bool) {
    && EndsAt(results, used, ret) && NotPast(results, used, limit)
    && |rows| <= |Delivered(results, used)| / SCAN_SIZE && (limit > 0 ==> |rows| <= limit)
    && (!interrupted ==> |rows| == Limited(limit, |Delivered(results, used)| / SCAN_SIZE))
    && (!interrupted && ret == 0 && (limit == 0 || |rows| < limit) ==> used == |results|)
  }

  /** The rows both tools print agree, as far as their settings allow. */
  ghost predicate ToolsAgree(captured: seq<Row>, collected: seq<Row>, samePeriod: bool, factor: real) {
    && (forall k :: 0 <= k < |captured| && k < |collected| ==>
          var a, b := captured[k], collected[k];
          && a.num == b.num && a.sample == b.sample && a.dt == b.dt
          && (samePeriod ==> a.gap == b.gap))
    && (samePeriod && factor >= 1.5 ==> captured <= collected || collected <= captured)
  }

  lemma RunsAgree(bytes: seq<byte>, n: nat, m: nat, period: int, period': int, factor: real)
    requires SCAN_SIZE * n <= |bytes| && SCAN_SIZE * m <= |bytes|
    ensures ToolsAgree(FirstRows(bytes, n, CaptureRule(period, factor)),
                       FirstRows(bytes, m, ReaderRule(period', factor)),
                       period == period', factor)
  {
    hide FirstRows;
    var captured := FirstRows(bytes, n, CaptureRule(period, factor));
    var collected := FirstRows(bytes, m, ReaderRule(period', factor));
    forall k | 0 <= k < n && k < m
      ensures var a, b := captured[k], collected[k];
        && a.num == b.num && a.sample == b.sample && a.dt == b.dt
        && (period == period' ==> a.gap == b.gap) && (period == period' && factor >= 1.5 ==> a == b)
    {
      RowsAgree(bytes, n, m, k, period, period', factor);
    }
  }

  /** One run of the C tool over the reads. */
  method RunCapture(results: seq<ReadResult>, limit: nat, hz: int, factor: real, interruptible: bool)
    returns (rows: seq<Row>, ret: int, used: nat, ghost interrupted: bool)
    requires forall r <- results :: IsRead(r)
    ensures SCAN_SIZE * |rows| <= |Delivered(results, |results|)|
    ensures rows == FirstRows(Delivered(results, |results|), |rows|, CaptureRule(CapturePeriod(hz), factor))
    ensures RunEnds(rows, ret, used, results, limit, interrupted) && (interrupted ==> interruptible)
  {
    hide FirstRows, EndsAt, NotPast, Summary, Rest, CapturePeriod;
    var tool := new Capture(limit, hz, factor, interruptible);
    ret, used := tool.RunLoop(results);
    rows, interrupted := tool.csv, tool.cut;
    EndsWithin(results, used, ret);
    DeliveredPrefix(results, used, |results|);
    RowsOfPrefix(tool.input, Delivered(results, |results|), |rows|, tool.rule);
  }

  /** One run of the C++ tool over the reads. */
  method RunReader(results: seq<ReadResult>, limit: nat, hz: real, factor: real, interruptible: bool)
    returns (rows: seq<Row>, ret: int, used: nat, ghost interrupted: bool)
    requires forall r <- results :: IsRead(r)
    ensures SCAN_SIZE * |rows| <= |Delivered(results, |results|)|
    ensures rows == FirstRows(Delivered(results, |results|), |rows|, ReaderRule(ReaderPeriod(hz), factor))
    ensures RunEnds(rows, ret, used, results, limit, interrupted) && (interrupted ==> interruptible)
  {
    hide FirstRows, EndsAt, NotPast, Summary, Rest, ReaderPeriod;
    var reader := new Reader(limit, hz, factor, interruptible);
    ret, used := reader.RunPoll(results);
    rows, interrupted := reader.csv, reader.signalled || reader.expired;
    LastRow(rows, reader.rule);
    EndsWithin(results, used, ret);
    DeliveredPrefix(results, used, |results|);
    RowsOfPrefix(reader.input, Delivered(results, |results|), |rows|, reader.rule);
  }

  lemma EndsWithin(results: seq<ReadResult>, n: nat, ret: int)
    requires EndsAt(results, n, ret)
    ensures n <= |results|
  {}

  /**
   * From the sensor to the printed rows, for any session, any chunking of the stream, any stop of the
   * tools and any rates and factor. Each row of a FIFO scan shows a frame the sensor wrote, a later one
   * than the rows before, and they come in contiguous runs; and in a FIFO session in which the bus does not
   * fail and the FIFO does not overflow (and no old overflow bit was left) the rows are the frames from the
   * first of the session on, none missing, none twice. How many rows appear unless a tool is interrupted,
   * and on what the two tools agree, is exact as well.
   */
  method CaptureSession(core: Core, results: seq<ReadResult>, limit: nat, captureHz: int, readerHz: real,
                        factor: real, interruptible: bool)
    returns (captured: seq<Row>, collected: seq<Row>, captureEnd: (int, nat), readerEnd: (int, nat),
             ghost captureCut: bool, ghost readerCut: bool)
    requires core.Inv()
    requires ReadsSession(core, Delivered(results, |results|)) && forall r <- results :: IsRead(r)
    ensures ShowsSession(core, captured) && ShowsSession(core, collected)
    ensures RunEnds(captured, captureEnd.0, captureEnd.1, results, limit, captureCut)
    ensures RunEnds(collected, readerEnd.0, readerEnd.1, results, limit, readerCut)
    ensures captureCut || readerCut ==> interruptible
    ensures ToolsAgree(captured, collected, CapturePeriod(captureHz) == ReaderPeriod(readerHz), factor)
  {
    hide Core.Inv, ShowsSession, ReadsSession, FirstRows, ToolsAgree, RunEnds, CapturePeriod, ReaderPeriod;
    var bytes := Delivered(results, |results|);
    var ret, used;
    captured, ret, used, captureCut := RunCapture(results, limit, captureHz, factor, interruptible);
    captureEnd := (ret, used);
    collected, ret, used, readerCut := RunReader(results, limit, readerHz, factor, interruptible);
    readerEnd := (ret, used);
    SessionRows(core, bytes, |captured|, CaptureRule(CapturePeriod(captureHz), factor));
    SessionRows(core, bytes, |collected|, ReaderRule(ReaderPeriod(readerHz), factor));
    RunsAgree(bytes, |captured|, |collected|, CapturePeriod(captureHz), ReaderPeriod(readerHz), factor);
  }
}
