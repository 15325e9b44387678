/** The C capture tool: a 24-byte carry buffer in front of the frame decoder. */
module CaptureTool {
  import opened Frames
  import opened Gaps
  import opened ReadOracle
  import opened Rows
  import opened Scans

  lemma BehindNothing(none: seq<byte>, rest: seq<byte>)
    requires none == []
    ensures none + rest == rest
  {}

  lemma NextSlice(buf: seq<byte>, off: nat)
    requires off + SCAN_SIZE <= |buf|
    ensures buf[off..][..SCAN_SIZE] == buf[off..off + SCAN_SIZE]
    ensures buf[off..][SCAN_SIZE..] == buf[off + SCAN_SIZE..]
  {}

  class Capture {
    const maxFrames: nat   // 0 means unlimited
    const rule: GapRule
    const interruptible: bool   // a signal may arrive, or a duration is set
    var stop: bool
    const carry: array<byte>
    var carryLen: nat
    var readCalls: nat
    var successfulReadCalls: nat
    var bytesRead: nat
    var eagainCount: nat
    var stats: FrameStats
    var csv: seq<Row>
    ghost var input: seq<byte>   // everything read so far
    ghost var cut: bool          // stopped by a signal or the duration, not by the frame limit
    ghost var skipped: bool      // bytes were dropped after the stop

    ghost predicate Valid()
      reads this, carry
    {
      && carry.Length == SCAN_SIZE && carryLen < SCAN_SIZE
      && bytesRead == |input|
      && PrintedOk()
      && (!skipped ==> Rest(input, |csv|) == carry[..carryLen])
      && (skipped ==> stop)
      && StopOk()
    }

    predicate LimitReached()
      reads this
    {
      maxFrames > 0 && |csv| >= maxFrames
    }

    /** The printed rows are the rows of the first slices read, and the statistics sum them up. */
    ghost predicate PrintedOk()
      reads this
    {
      && SCAN_SIZE * |csv| <= |input| && csv == FirstRows(input, |csv|, rule)
      && (maxFrames > 0 ==> |csv| <= maxFrames)
      && stats == Summary(csv, rule)
    }

    /** The first n reads have been taken in and counted. */
    ghost predicate Consumed(results: seq<ReadResult>, n: nat)
      reads this
      requires n <= |results|
    {
      && input == Delivered(results, n)
      && readCalls == n && eagainCount == Agains(results, n) && successfulReadCalls == Successes(results, n)
    }

    constructor (maxFrames: nat, hz: int, factor: real, interruptible: bool)
      ensures Valid() && fresh(this) && fresh(carry)
      ensures !stop && !cut && !skipped && csv == []
      ensures input == [] && readCalls == 0 && eagainCount == 0 && successfulReadCalls == 0
      ensures this.maxFrames == maxFrames && rule == CaptureRule(CapturePeriod(hz), factor)
      ensures this.interruptible == interruptible
    {
      this.maxFrames, this.interruptible, rule := maxFrames, interruptible, CaptureRule(CapturePeriod(hz), factor);
      stop := false;
      carry := new byte[SCAN_SIZE](_ => 0);
      carryLen, readCalls, successfulReadCalls, bytesRead, eagainCount := 0, 0, 0, 0, 0;
      stats := FrameStats(0, false, 0, 0, StepStats(0, 0, 0, 0), 0, 0);
      csv := [];
      input, cut, skipped := [], false, false;
    }

    /** process_frame; afterwards a signal may already have set the stop flag. */
    method ProcessFrame(frame: seq<byte>)
      requires |frame| == SCAN_SIZE && rule.CaptureRule?
      requires PrintedOk() && SCAN_SIZE * |csv| + SCAN_SIZE <= |input| && frame == Slot(input, |csv|)
      requires !LimitReached() && StopOk()
      modifies this`csv, this`stats, this`stop, this`cut
      ensures PrintedOk() && |csv| == |old(csv)| + 1
      ensures StopOk() && (old(cut) ==> cut)
    {
      hide EstimateGap, FromLe64, AxisValue, LoadBeS16, Loaded, FirstRows, Summary, Rest;
      LastRow(csv, rule);
      var ts := LoadLeS64(frame[16..24]);
      var sample := Loaded(frame, ts);
      LoadedIsDecoded(frame);
      var dt, gap, st := 0, 0, stats;
      if st.havePrev {
        dt := ts - st.prevTs;
        gap := EstimateGap(dt, rule.period, rule.factor);
        var steps := st.steps;
        if steps.count == 0 || dt < steps.min {
          steps := steps.(min := dt);
        }
        if steps.count == 0 || dt > steps.max {
          steps := steps.(max := dt);
        }
        st := st.(steps := steps.(sum := steps.sum + dt, count := steps.count + 1));
        if gap > 0 {
          st := st.(gaps := st.gaps + 1, drops := st.drops + gap);
        }
      } else {
        st := st.(firstTs := ts);
      }
      st := st.(prevTs := ts, havePrev := true);
      var row := Row(st.frames, sample, dt, gap > 0, gap);
      PrintStep(input, csv, row, rule);
      csv, stats := csv + [row], st.(frames := st.frames + 1);
      if maxFrames > 0 && stats.frames >= maxFrames {
        stop := true;
      }
      TakeSignal();
    }

    /** A signal handler may have set the stop flag. */
    method TakeSignal()
      modifies this`stop, this`cut
      ensures (stop, cut) == old((stop, cut)) || (interruptible && stop && cut)
    {
      var signal: bool := *;
      if signal && interruptible {
        stop, cut := true, true;
      }
    }

    ghost predicate StopOk()
      reads this
    {
      (LimitReached() ==> stop) && (stop ==> cut || LimitReached()) && (cut ==> interruptible)
    }

    /** The input beyond the printed rows is the carry and then buf[off..]. */
    ghost predicate Ahead(buf: seq<byte>, off: nat)
      reads this, carry
    {
      && carry.Length == SCAN_SIZE && carryLen < SCAN_SIZE && off <= |buf|
      && SCAN_SIZE * |csv| <= |input|
      && Rest(input, |csv|) == carry[..carryLen] + buf[off..]
      && (carryLen > 0 ==> off == |buf|)
    }

    /** First part of process_bytes: fill up the carried slice and print it once it is whole. */
    method CompleteCarry(buf: seq<byte>) returns (off: nat)
      requires rule.CaptureRule? && PrintedOk() && StopOk() && !LimitReached()
      requires carry.Length == SCAN_SIZE && 0 < carryLen < SCAN_SIZE
      requires Rest(input, |csv|) == carry[..carryLen] + buf
      modifies this`csv, this`stats, this`stop, this`cut, this`carryLen, carry
      ensures PrintedOk() && StopOk() && Ahead(buf, off) && (old(cut) ==> cut)
    {
      hide FirstRows, Summary;
      ghost var held := carry[..carryLen];
      var need := SCAN_SIZE - carryLen;
      var take := if |buf| < need then |buf| else need;
      forall i | 0 <= i < take {
        carry[carryLen + i] := buf[i];
      }
      carryLen := carryLen + take;
      off := take;
      assert carry[..carryLen] == held + buf[..take];
      assert held + buf == carry[..carryLen] + buf[take..];
      if carryLen == SCAN_SIZE {
        assert carry[..] == carry[..carryLen];
        RestStep(input, |csv|);
        ProcessFrame(carry[..]);
        carryLen := 0;
      }
    }

    /** Second part: print whole slices straight from the buffer. */
    method PrintWhole(buf: seq<byte>, start: nat) returns (off: nat)
      requires rule.CaptureRule? && PrintedOk() && StopOk() && Ahead(buf, start)
      modifies this`csv, this`stats, this`stop, this`cut
      ensures PrintedOk() && StopOk() && Ahead(buf, off) && (old(cut) ==> cut)
      ensures !stop ==> |buf| < off + SCAN_SIZE
    {
      hide FirstRows, Summary, Rest, Slot;
      off := start;
      while !stop && off + SCAN_SIZE <= |buf|
        invariant PrintedOk() && StopOk() && Ahead(buf, off) && (old(cut) ==> cut)
      {
        BehindNothing(carry[..carryLen], buf[off..]);
        RestStep(input, |csv|);
        NextSlice(buf, off);
        ProcessFrame(buf[off..off + SCAN_SIZE]);
        off := off + SCAN_SIZE;
        BehindNothing(carry[..carryLen], buf[off..]);
      }
    }

    /**
     * process_bytes: complete the carried slice, print whole slices in place, carry the rest. The
     * bytes of `buf` count as read when it is called.
     */
    method ProcessBytes(buf: seq<byte>)
      requires Valid() && rule.CaptureRule? && !skipped && !LimitReached()
      modifies this`csv, this`stats, this`stop, this`cut, this`carryLen, this`input, this`bytesRead, this`skipped, carry
      ensures Valid()
      ensures input == old(input) + buf
      ensures old(cut) ==> cut
    {
      hide FirstRows, Summary, Rest;
      RowsStable(input, buf, |csv|, rule);
      RestAppend(input, buf, |csv|);
      input, bytesRead := input + buf, bytesRead + |buf|;
      var off: nat := 0;
      if carryLen > 0 {
        off := CompleteCarry(buf);
      } else {
        assert buf[0..] == buf && carry[..carryLen] == [];
      }
      off := PrintWhole(buf, off);
      KeepRest(buf, off);
    }

    /** Third part: carry the bytes of the slice that is not whole yet; after a stop they are dropped. */
    method KeepRest(buf: seq<byte>, off: nat)
      requires PrintedOk() && StopOk() && Ahead(buf, off) && !skipped && bytesRead == |input|
      requires !stop ==> |buf| < off + SCAN_SIZE
      modifies this`carryLen, this`skipped, carry
      ensures Valid()
    {
      hide FirstRows, Summary;
      if !stop && off < |buf| {
        carryLen := |buf| - off;
        forall i | 0 <= i < carryLen {
          carry[i] := buf[off + i];
        }
        assert carry[..carryLen] == buf[off..];
      } else if off < |buf| {
        skipped := true;
      }
    }

    /** A successful read: process it, then stop if the duration has expired. */
    method TakeData(buf: seq<byte>)
      requires Valid() && rule.CaptureRule? && !skipped && !LimitReached()
      modifies this, carry
      ensures Valid()
      ensures input == old(input) + buf
      ensures readCalls == old(readCalls) && eagainCount == old(eagainCount)
      ensures successfulReadCalls == old(successfulReadCalls) + 1
      ensures old(cut) ==> cut
    {
      hide FirstRows, Summary, Rest;
      successfulReadCalls := successfulReadCalls + 1;
      ProcessBytes(buf);
      var expired: bool := *;
      if stop || (expired && interruptible) {
        if !stop {
          cut := true;
        }
        stop := true;
      }
    }

    /** One call of read(2); a signal may set the stop flag before it returns. */
    method StartRead()
      requires Valid()
      modifies this`readCalls, this`stop, this`cut
      ensures Valid() && readCalls == old(readCalls) + 1
      ensures old(stop) ==> stop
      ensures old(cut) ==> cut
    {
      hide FirstRows, Summary, Rest;
      readCalls := readCalls + 1;
      TakeSignal();
    }

    /**
     * drain_reads_until_eagain on the reads from `pos` on, running out of them being EAGAIN; between
     * reads the duration may expire, and a signal may set the stop flag during any of them.
     */
    method DrainReadsUntilEagain(results: seq<ReadResult>, pos: nat) returns (ret: int, next: nat)
      requires Valid() && rule.CaptureRule? && !skipped && !LimitReached()
      requires EndsAt(results, pos, 0) && Consumed(results, pos) && NotPast(results, pos, maxFrames)
      requires forall r <- results :: IsRead(r)
      modifies this, carry
      ensures Valid() && pos <= next && EndsAt(results, next, ret) && Consumed(results, next)
      ensures NotPast(results, next, maxFrames)
      ensures ret == 0 && !stop ==>
        next == |results| || (next > 0 && (results[next - 1].Again? || results[next - 1].Eof?))
      ensures old(cut) ==> cut
      ensures pos < |results| ==> next > pos
    {
      hide NotPast, FirstRows, Summary, Rest;
      next := pos;
      while next < |results|
        invariant Valid() && !skipped && !LimitReached()
        invariant pos <= next && EndsAt(results, next, 0) && Consumed(results, next)
        invariant NotPast(results, next, maxFrames)
        invariant old(cut) ==> cut
      {
        var r := results[next];
        assert IsRead(r);
        WholeSlices(input, |csv|, carryLen);
        ReadBelow(results, next, maxFrames);
        StartRead();
        next := next + 1;
        match r {
          case Data(bytes) =>
            TakeData(bytes);
            if stop {
              return 0, next;
            }
          case Eof =>
            return 0, next;
          case Again =>
            eagainCount := eagainCount + 1;
            return 0, next;
          case Interrupted =>
          case Failed(errno) =>
            return -errno, next;
        }
      }
      ret := 0;
    }

    /** The poll loop around the drain, for as long as it is woken and neither stopped nor out of time. */
    method RunLoop(results: seq<ReadResult>) returns (ret: int, used: nat)
      requires Valid() && rule.CaptureRule? && !stop && !cut && !skipped && csv == [] && Consumed(results, 0)
      requires forall r <- results :: IsRead(r)
      modifies this, carry
      ensures Valid() && EndsAt(results, used, ret) && Consumed(results, used) && NotPast(results, used, maxFrames)
      ensures ret == 0 && !stop && !cut ==> used == |results|
      ensures cut ==> interruptible
      ensures csv == FirstRows(input, |csv|, rule)
      ensures stats == Summary(csv, rule)
      // without a limit or an outside stop every whole slice is printed and the rest is carried
      ensures !stop ==> |csv| == |input| / SCAN_SIZE && bytesRead == SCAN_SIZE * |csv| + carryLen
      // with only the limit active exactly min(limit, slices) rows appear
      ensures !cut ==> |csv| == Limited(maxFrames, |input| / SCAN_SIZE)
    {
      hide FirstRows, Summary;
      ret, used := DrainReadsUntilEagain(results, 0);
      while ret == 0 && !stop && used < |results|
        invariant Valid() && EndsAt(results, used, ret) && Consumed(results, used) && NotPast(results, used, maxFrames)
        invariant ret == 0 && !stop && used < |results| ==> !skipped && !LimitReached()
      {
        var signal: bool, expired: bool := *, *;
        if interruptible && (signal || expired) {
          stop, cut := signal, true;
          break;
        }
        ret, used := DrainReadsUntilEagain(results, used);
      }
    }
  }
}
