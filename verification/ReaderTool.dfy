/** The C++ reader: a staging vector that whole slices are erased from. */
module ReaderTool {
  import opened Frames
  import opened Gaps
  import opened ReadOracle
  import opened Rows
  import opened Scans

  class Reader {
    const maxFrames: nat   // 0 means unlimited
    const rule: GapRule
    const interruptible: bool   // a signal may arrive, or a duration is set
    var signalled: bool
    var expired: bool
    var staging: seq<byte>
    var readCalls: nat
    var bytesRead: nat
    var eagainCount: nat
    var stats: FrameStats
    var csv: seq<Row>
    ghost var input: seq<byte>   // everything read so far

    /** The printed rows are the rows of the first slices read, and the staging vector holds the rest. */
    ghost predicate Printed()
      reads this
    {
      && SCAN_SIZE * |csv| <= |input| && csv == FirstRows(input, |csv|, rule)
      && (maxFrames > 0 ==> |csv| <= maxFrames)
      && stats == Summary(csv, rule)
      && bytesRead == |input|
      && (signalled || expired ==> interruptible)
    }

    ghost predicate Valid()
      reads this
    {
      && Printed()
      && staging == Rest(input, |csv|)
      && (!Stopped() ==> |staging| < SCAN_SIZE)
    }

    predicate LimitReached()
      reads this
    {
      maxFrames > 0 && stats.frames >= maxFrames
    }

    predicate Stopped()
      reads this
    {
      signalled || LimitReached() || expired
    }

    /** The first n reads have been taken in and counted. */
    ghost predicate Consumed(results: seq<ReadResult>, n: nat)
      reads this
      requires n <= |results|
    {
      && input == Delivered(results, n)
      && readCalls == n && eagainCount == Agains(results, n)
    }

    constructor (maxFrames: nat, hz: real, factor: real, interruptible: bool)
      ensures Valid() && fresh(this)
      ensures !signalled && !expired && csv == []
      ensures input == [] && readCalls == 0 && eagainCount == 0
      ensures this.maxFrames == maxFrames && rule == ReaderRule(ReaderPeriod(hz), factor)
      ensures this.interruptible == interruptible
    {
      this.maxFrames, this.interruptible, rule := maxFrames, interruptible, ReaderRule(ReaderPeriod(hz), factor);
      signalled, expired, staging := false, false, [];
      readCalls, bytesRead, eagainCount := 0, 0, 0;
      stats := FrameStats(0, false, 0, 0, StepStats(0, INT64_MAX, INT64_MIN, 0), 0, 0);
      csv, input := [], [];
    }

    /** should_stop: the signal flag and the clock may have moved on. */
    method ShouldStop() returns (b: bool)
      modifies this`signalled, this`expired
      ensures b == Stopped()
      ensures !interruptible ==> signalled == old(signalled) && expired == old(expired)
      ensures old(signalled) ==> signalled
      ensures old(expired) ==> expired
    {
      var signal: bool, late: bool := *, *;
      if interruptible {
        signalled, expired := signalled || signal, expired || late;
      }
      b := Stopped();
    }

    /** complete_sample and write_sample for one parsed slice. */
    method CompleteSample(slot: seq<byte>)
      requires |slot| == SCAN_SIZE && rule.ReaderRule?
      requires Printed() && SCAN_SIZE * |csv| + SCAN_SIZE <= |input| && slot == Slot(input, |csv|) && !LimitReached()
      modifies this`csv, this`stats
      ensures Printed() && |csv| == |old(csv)| + 1
    {
      hide FromLe64, AxisValue, LoadBeS16, Loaded, FirstRows, Summary, Exceeds, Periods;
      LastRow(csv, rule);
      var timestamp := ReadLeS64(slot[16..24]);
      var sample := Loaded(slot, timestamp);
      LoadedIsDecoded(slot);
      var dt, gap, drops, st := 0, false, 0, stats;
      if st.havePrev {
        dt := timestamp - st.prevTs;
        if dt > 0 {
          var steps := st.steps;
          st := st.(steps := StepStats(steps.count + 1, if dt < steps.min then dt else steps.min,
                                       if dt > steps.max then dt else steps.max, steps.sum + dt));
          if rule.period > 0 {
            if Exceeds(dt, rule.period, rule.factor) {
              gap := true;
              st := st.(gaps := st.gaps + 1);
              var est := Periods(dt, rule.period) - 1;
              if est > 0 {
                drops := est;
                st := st.(drops := st.drops + drops);
              }
            }
          }
        }
      } else {
        st := st.(firstTs := timestamp);
      }
      st := st.(prevTs := timestamp, havePrev := true);
      var row := Row(st.frames, sample, dt, gap, drops);
      PrintStep(input, csv, row, rule);
      csv, stats := csv + [row], st.(frames := st.frames + 1);
    }

    /**
     * append_and_process: whatever is staged and new is cut into slices from the front; a stop leaves
     * the rest staged. The bytes count as read when it is called.
     */
    method AppendAndProcess(data: seq<byte>)
      requires Valid() && rule.ReaderRule? && !LimitReached() && |staging| < SCAN_SIZE
      modifies this
      ensures Valid() && input == old(input) + data
      ensures readCalls == old(readCalls) && eagainCount == old(eagainCount)
      ensures old(signalled) ==> signalled
      ensures old(expired) ==> expired
    {
      hide FirstRows, Summary, Rest, Slot;
      RowsStable(input, data, |csv|, rule);
      RestAppend(input, data, |csv|);
      input, bytesRead := input + data, bytesRead + |data|;
      staging := staging + data;
      ghost var done := |csv|;
      var consumed := PrintStaged();
      RestFrom(input, done, |csv|);
      if consumed > 0 {
        staging := staging[consumed..];
      }
    }

    /** The loop of append_and_process: print whole slices from the front of the staging vector until a stop. */
    method PrintStaged() returns (consumed: nat)
      requires Printed() && staging == Rest(input, |csv|) && rule.ReaderRule? && !LimitReached()
      modifies this`csv, this`stats, this`signalled, this`expired
      ensures Printed() && |csv| >= |old(csv)| && consumed == SCAN_SIZE * (|csv| - |old(csv)|) <= |staging|
      ensures !Stopped() ==> |staging| - consumed < SCAN_SIZE
      ensures old(signalled) ==> signalled
      ensures old(expired) ==> expired
    {
      hide FirstRows, Summary, Rest, Slot;
      consumed := 0;
      var full := |staging| / SCAN_SIZE * SCAN_SIZE;
      ghost var done := |csv|;
      while consumed < full
        invariant |csv| >= done && consumed == SCAN_SIZE * (|csv| - done) && consumed <= full
        invariant Printed() && !LimitReached()
        invariant old(signalled) ==> signalled
        invariant old(expired) ==> expired
      {
        RestSlot(input, done, |csv|);
        CompleteSample(staging[consumed..consumed + SCAN_SIZE]);
        consumed := consumed + SCAN_SIZE;
        var b := ShouldStop();
        if b {
          break;
        }
      }
    }

    /** drain_until_eagain on the reads from `pos` on; running out of them is EAGAIN. */
    method DrainUntilEagain(results: seq<ReadResult>, pos: nat) returns (ret: int, next: nat)
      requires Valid() && rule.ReaderRule? && EndsAt(results, pos, 0) && Consumed(results, pos)
      requires NotPast(results, pos, maxFrames)
      requires forall r <- results :: IsRead(r)
      modifies this
      ensures Valid() && pos <= next && EndsAt(results, next, ret) && Consumed(results, next)
      ensures NotPast(results, next, maxFrames)
      ensures ret == 0 && !Stopped() ==>
        next == |results| || (next > pos && (results[next - 1].Again? || results[next - 1].Eof?))
    {
      hide NotPast, FirstRows, Summary, Rest;
      next := pos;
      while next < |results|
        invariant Valid() && pos <= next && EndsAt(results, next, 0) && Consumed(results, next)
        invariant NotPast(results, next, maxFrames)
      {
        var b := ShouldStop();
        if b {
          return 0, next;
        }
        var r := results[next];
        assert IsRead(r);
        LastRow(csv, rule);
        WholeSlices(input, |csv|, |staging|);
        ReadBelow(results, next, maxFrames);
        readCalls := readCalls + 1;
        next := next + 1;
        match r {
          case Data(bytes) => AppendAndProcess(bytes);
          case Eof => return 0, next;
          case Interrupted =>
          case Again =>
            eagainCount := eagainCount + 1;
            return 0, next;
          case Failed(errno) => return -errno, next;
        }
      }
      ret := 0;
    }

    /** run_poll around the drain. */
    method RunPoll(results: seq<ReadResult>) returns (ret: int, used: nat)
      requires Valid() && rule.ReaderRule? && !signalled && !expired && csv == [] && Consumed(results, 0)
      requires forall r <- results :: IsRead(r)
      modifies this
      ensures Valid() && EndsAt(results, used, ret) && Consumed(results, used) && NotPast(results, used, maxFrames)
      ensures ret == 0 && !Stopped() ==> used == |results|
      ensures signalled || expired ==> interruptible
      ensures csv == FirstRows(input, |csv|, rule)
      ensures stats == Summary(csv, rule)
      // without a limit or an outside stop every whole slice is printed and the rest stays staged
      ensures !Stopped() ==> |csv| == |input| / SCAN_SIZE && bytesRead == SCAN_SIZE * |csv| + |staging|
      // with only the limit active exactly min(limit, slices) rows appear
      ensures !signalled && !expired ==> |csv| == Limited(maxFrames, |input| / SCAN_SIZE)
    {
      hide FirstRows, Summary;
      ret, used := 0, 0;
      while ret == 0 && used < |results|
        invariant Valid() && EndsAt(results, used, ret) && Consumed(results, used) && NotPast(results, used, maxFrames)
        decreases |results| - used, if ret == 0 && !Stopped() then 1 else 0
      {
        var b := ShouldStop();
        if b {
          break;
        }
        ret, used := DrainUntilEagain(results, used);
        if Stopped() {
          break;
        }
      }
      LastRow(csv, rule);
    }
  }
}
