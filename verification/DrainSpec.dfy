/** The steps of a drain as relations between snapshots of the device, and what they add up to. */
module DrainSpec {
  import opened Batches
  import opened Chip
  import opened Delivery
  import opened Device
  import opened Errno
  import opened FifoLogs
  import opened Frames
  import opened Iio
  import opened Ledgers
  import opened Registers
  import opened Runs

  predicate IsWatermark(w: int) {
    WATERMARK_MIN <= w <= WATERMARK_MAX
  }

  function Distance(a: int, b: int): int {
    if a < b then b - a else a - b
  }

  /** icm20602_fifo_watermark_clamp: the nearest watermark. */
  function WatermarkClamp(watermark: int): (w: int)
    ensures IsWatermark(w) && (IsWatermark(watermark) ==> w == watermark)
    ensures forall v :: IsWatermark(v) ==> Distance(w, watermark) <= Distance(v, watermark)
  {
    if watermark < WATERMARK_MIN then WATERMARK_MIN
    else if watermark > WATERMARK_MAX then WATERMARK_MAX
    else watermark
  }

  const MAX_LOOPS: nat := (WATERMARK_MAX + BURST_MAX - 1) / BURST_MAX + 2

  /** How a drain ended: below its threshold at the last count, overflow recovered, four bursts, or an error. */
  datatype DrainEnd = Below | Recovered | BurstLimit | Failed

  /** Where the frames of a burst taken at `at` come from: a misaligned FIFO yields torn frames. */
  ghost function BurstOrigins(at: FifoLog, n: nat): (from: seq<Origin>)
    ensures |from| == n
  {
    seq(n, j requires 0 <= j < n => if at.over then Torn else FromFifo(at.Next() + j))
  }

  lemma BurstIsFromFifo(at: FifoLog, n: nat)
    ensures FromRegisters !in BurstOrigins(at, n)
    ensures n > 0 ==> (Torn in BurstOrigins(at, n) <==> at.over)
  {
    if n > 0 && at.over {
      assert BurstOrigins(at, n)[0] == Torn;
    }
  }

  function BurstSize(frames: int): int {
    if frames < BURST_MAX then frames else BURST_MAX
  }

  /** `b` was counted at `log`, read at `at` and recounted at `log'`. */
  ghost predicate BurstTaken(b: Batch, log: FifoLog, at: FifoLog, log': FifoLog) {
    && log.Ok() && at.Ok() && log'.Ok()
    && b.before == log.Frames() > 0 && b.seenBefore == |log.all|
    && |b.frames| == BurstSize(b.before)
    && FRAME_SIZE * |b.frames| <= at.Count() && b.from == BurstOrigins(at, |b.frames|)
    && log.Grew(at) && at.Popped(FRAME_SIZE * |b.frames|).Grew(log')
    && (!at.over ==> at.Next() + |b.frames| <= |at.all| && b.frames == at.all[at.Next()..at.Next() + |b.frames|])
    && b.after == log'.Frames() && b.seenAfter == |log'.all|
  }

  /** A popped and dated burst extends a faithful delivery. */
  lemma BurstDelivers(scans: seq<Scan>, origins: seq<Origin>, log: FifoLog, at: FifoLog, log': FifoLog, b: Batch)
    requires Faithful(scans, origins, log) && BurstTaken(b, log, at, log')
    ensures Faithful(scans + b.Scans(), origins + b.from, log')
  {
    hide Faithful, FifoLog.Contents, FifoLog.Frames, FifoLog.Count;
    BurstAccounts(log, at, log', |b.frames|);
    forall k | 0 <= k < |b.from| && b.from[k].FromFifo?
      ensures b.Scans()[k].axes == FillScan(log'.all[at.Next() + k])
    {
      assert b.frames[k] == at.all[at.Next() + k] == log'.all[at.Next() + k];
    }
    FaithfulBurst(scans, origins, log, log', b.Scans(), b.from, at.Next());
  }

  /** The account of a burst between the counts of `log` and `log'` when nothing overflowed. */
  ghost predicate Accounted(b: Batch, log: FifoLog, log': FifoLog) {
    && b.Balanced()
    && log'.epoch == log.epoch && log'.over == log.over
    && log'.Next() == log.Next() + |b.frames|
    && log'.Count() == log.Count() - FRAME_SIZE * |b.frames| + FRAME_SIZE * (b.seenAfter - b.seenBefore)
    && (!log.over ==> b.Aligned() && forall j :: 0 <= j < |b.from| ==> b.from[j] == FromFifo(log.Next() + j))
  }

  lemma BurstIsAccounted(b: Batch, log: FifoLog, at: FifoLog, log': FifoLog)
    requires BurstTaken(b, log, at, log') && log.overruns == log'.overruns
    ensures Accounted(b, log, log')
  {
    BurstAccounts(log, at, log', |b.frames|);
  }

  /** The history around a burst of n frames that did (`popped`) or did not leave the FIFO. */
  ghost predicate AroundBurst(log: FifoLog, at: FifoLog, log': FifoLog, n: nat, popped: bool) {
    && at.Ok() && log.Grew(at)
    && if popped then FRAME_SIZE * n <= at.Count() && at.Popped(FRAME_SIZE * n).Grew(log') else log' == at
  }

  lemma AroundBurstLater(log: FifoLog, at: FifoLog, log': FifoLog, n: nat, popped: bool)
    requires log.Ok() && log'.Ok() && AroundBurst(log, at, log', n, popped)
    ensures log.Later(log') && log.overruns <= log'.overruns
    ensures log.overruns == log'.overruns ==>
      && log'.over == log.over && log'.epoch == log.epoch && log.all <= log'.all
      && at.over == log.over && at.Next() == log.Next()
      && log'.Next() == log.Next() + (if popped then n else 0)
      && log'.Frames() == log.Frames() - (if popped then n else 0) + (|log'.all| - |log.all|)
      && log'.Count() == log.Count() - FRAME_SIZE * (if popped then n else 0) + FRAME_SIZE * (|log'.all| - |log.all|)
    ensures log.overruns < log'.overruns ==> log'.over
  {
    if popped {
      BurstAccounts(log, at, log', n);
    } else if log.overruns == log'.overruns {
      ArrivalsCount(log, log');
    }
  }

  /**
   * The effect of a burst of min(frames, 64) frames on the device. `out` is missing iff the bus failed;
   * if it failed after the frames were popped they are lost, and otherwise the FIFO still has them.
   */
  ghost predicate BurstStep(s: Snapshot, s': Snapshot, frames: int, ret: int, out: Option<Batch>, at: FifoLog) {
    && 0 < frames
    && (out.None? <==> ret == -EIO)
    && s'.faults == s.faults + (if ret == -EIO then 1 else 0)
    && s'.refusals == s.refusals && s'.accepted == s.accepted
    && s'.committed == s.committed + (if out.Some? then out.value.Scans() else [])
    && s'.origins == s.origins + (if out.Some? then out.value.from else [])
    && s'.regs == s.regs && s'.writes == s.writes && s'.fifoEnabled == s.fifoEnabled
    && s'.overflowCount == s.overflowCount && s'.hazards == s.hazards
    && s'.oflow == (s.oflow || s'.log.overruns > s.log.overruns)
    && (s'.ledger == s.ledger || (out.None? && s'.ledger == s.ledger.Plus(BurstOrigins(at, BurstSize(frames)))))
    && AroundBurst(s.log, at, s'.log, BurstSize(frames), out.Some? || s'.ledger != s.ledger)
    && (out.Some? ==> BurstTaken(out.value, s.log, at, s'.log) && out.value.before == frames)
  }

  lemma BurstStepFields(s: Snapshot, s': Snapshot, frames: int, ret: int, out: Option<Batch>, at: FifoLog)
    requires s.Ok() && s'.Ok() && BurstStep(s, s', frames, ret, out, at)
    ensures ret != -EIO ==> out.Some? && out.value.after == s'.log.Frames() && s'.ledger == s.ledger
    ensures ret == -EIO ==> out.None?
    ensures s'.faults == s.faults + (if ret == -EIO then 1 else 0)
    ensures s'.refusals == s.refusals && s'.overflowCount == s.overflowCount
    ensures s.log.overruns <= s'.log.overruns && s'.oflow == (s.oflow || s'.log.overruns > s.log.overruns)
    ensures s.log.over ==> s'.log.over
  {
    AroundBurstLater(s.log, at, s'.log, BurstSize(frames), out.Some? || s'.ledger != s.ledger);
  }

  /** Burst by burst, delivery stays exact, overflows stay visible and the books balance. */
  lemma BurstStepKeeps(s: Snapshot, s': Snapshot, frames: int, ret: int, out: Option<Batch>, at: FifoLog)
    requires s.Ok() && s'.Ok() && BurstStep(s, s', frames, ret, out, at)
    ensures s.log.Later(s'.log)
    ensures s.Visible() ==> s'.Visible()
    ensures s.Delivers() ==> s'.Delivers()
    ensures s.Conserves() ==> s'.Conserves()
  {
    AroundBurstLater(s.log, at, s'.log, BurstSize(frames), out.Some? || s'.ledger != s.ledger);
    BurstStepDelivers(s, s', frames, ret, out, at);
    if s.Conserves() {
      BurstStepConserves(s, s', frames, ret, out, at);
    }
  }

  /** A burst breaks the run of scans at most where an overflow or a loss did. */
  lemma BurstStepRuns(s: Snapshot, s': Snapshot, frames: int, ret: int, out: Option<Batch>, at: FifoLog)
    requires s.Ok() && s'.Ok() && BurstStep(s, s', frames, ret, out, at) && s.fifoEnabled
    ensures KeepsRuns(s, s')
  {
    hide FifoLog.Next, FifoLog.Contents, FifoLog.Ok, FifoLog.Later, KeepsRuns, Unbroken, Batch.Scans;
    var n, popped := BurstSize(frames), out.Some? || s'.ledger != s.ledger;
    AroundBurstLater(s.log, at, s'.log, n, popped);
    if out.Some? {
      GrewNext(s.log, at);
      PoppedNext(at, s'.log, n);
      BurstUnbroken(at, n);
      BurstKeepsRuns(s, at, s', BurstOrigins(at, n));
    } else {
      NothingCommitted(s, s');
    }
  }

  lemma BurstUnbroken(at: FifoLog, n: nat)
    ensures Unbroken(BurstOrigins(at, n))
  {}

  lemma GrewNext(log: FifoLog, at: FifoLog)
    requires log.Ok() && at.Ok() && log.Grew(at)
    ensures log.overruns <= at.overruns && (log.over ==> at.over)
    ensures at.overruns == log.overruns ==> at.over == log.over && at.Next() == log.Next()
  {}

  lemma PoppedNext(at: FifoLog, log': FifoLog, n: nat)
    requires at.Ok() && log'.Ok() && FRAME_SIZE * n <= at.Count() && at.Popped(FRAME_SIZE * n).Grew(log')
    ensures at.overruns <= log'.overruns && (at.over ==> log'.over)
    ensures log'.overruns == at.overruns ==> log'.over == at.over && log'.Next() == at.Next() + n
  {}

  lemma BurstStepDelivers(s: Snapshot, s': Snapshot, frames: int, ret: int, out: Option<Batch>, at: FifoLog)
    requires s.Ok() && s'.Ok() && BurstStep(s, s', frames, ret, out, at) && s.log.Later(s'.log)
    ensures s.Delivers() ==> s'.Delivers()
  {
    if s.Delivers() {
      if out.Some? {
        BurstDelivers(s.committed, s.origins, s.log, at, s'.log, out.value);
      } else {
        FaithfulLater(s.committed, s.origins, s.log, s'.log);
      }
    }
  }

  lemma BurstStepConserves(s: Snapshot, s': Snapshot, frames: int, ret: int, out: Option<Batch>, at: FifoLog)
    requires s.Ok() && s'.Ok() && BurstStep(s, s', frames, ret, out, at) && s.Conserves()
    ensures s'.Conserves()
  {
    hide Conserved, Leave;
    var popped := out.Some? || s'.ledger != s.ledger;
    AroundBurstLater(s.log, at, s'.log, BurstSize(frames), popped);
    if out.Some? {
      BurstLeaves(s.log, at, s'.log, BurstSize(frames));
      ConservedBurst(s.origins, |s.accepted|, s.log, s'.log, s.ledger, s.fifoEnabled, out.value.from);
    } else if popped {
      assert s'.origins == s.origins;
      BurstLeaves(s.log, at, s'.log, BurstSize(frames));
      var from := BurstOrigins(at, BurstSize(frames));
      ConservedLoss(s.origins, |s.accepted|, s.log, s'.log, s.ledger, s.fifoEnabled, from);
    } else {
      assert s'.origins == s.origins;
      ConservedGrows(s.origins, |s.accepted|, s.log, s'.log, s.ledger, s.fifoEnabled);
    }
  }

  /** A burst takes the next frames out of the FIFO, unless the FIFO is misaligned by then. */
  lemma BurstLeaves(log: FifoLog, at: FifoLog, log': FifoLog, n: nat)
    requires log.Ok() && log'.Ok() && AroundBurst(log, at, log', n, true)
    ensures Leave(BurstOrigins(at, n), log, log')
  {
    BurstIsFromFifo(at, n);
    AroundBurstLater(log, at, log', n, true);
    if !log'.over {
      var from, next := BurstOrigins(at, n), Serials(log.Next(), log.Next() + n);
      forall j | 0 <= j < n
        ensures from[j] == next[j]
      {
        assert at.Next() == log.Next();
      }
    }
  }

  /**
   * The account of a drain from `log0` to `log` without overflow, bus failures included: the bursts chain
   * up, they are the consecutive frames from the oldest one on, the frames `lost` come right after them,
   * and every byte is delivered, belongs to a lost frame, or is still there.
   */
  ghost predicate DrainAccount(log0: FifoLog, log: FifoLog, batches: seq<Batch>, lost: seq<Origin>) {
    && log0.Ok() && log.Ok()
    && Chained(batches)
    && log.epoch == log0.epoch && log.over == log0.over && log0.all <= log.all
    && log.Next() == log0.Next() + |AllOrigins(batches)| + |lost|
    && log.Count() == log0.Count() - FRAME_SIZE * (|AllOrigins(batches)| + |lost|)
                      + FRAME_SIZE * (|log.all| - |log0.all|)
    && (batches == [] ==> log.Frames() == log0.Frames() - |lost| + (|log.all| - |log0.all|))
    && (batches != [] ==>
          && var a, z := batches[0], batches[|batches| - 1];
          && |log0.all| <= a.seenBefore && a.before == log0.Frames() + (a.seenBefore - |log0.all|)
          && z.seenAfter <= |log.all| && log.Frames() == z.after - |lost| + (|log.all| - z.seenAfter))
    && (!log0.over ==>
          && (forall i :: 0 <= i < |batches| ==> batches[i].Aligned())
          && (forall j :: 0 <= j < |AllOrigins(batches)| ==> AllOrigins(batches)[j] == FromFifo(log0.Next() + j))
          && (forall j :: 0 <= j < |lost| ==> lost[j] == FromFifo(log0.Next() + |AllOrigins(batches)| + j)))
  }

  /** Between two bursts, and in a burst that fails: arrivals, and n frames lost if any were popped. */
  lemma AccountAround(log0: FifoLog, log: FifoLog, at: FifoLog, log': FifoLog, batches: seq<Batch>, n: nat,
                      popped: bool)
    requires DrainAccount(log0, log, batches, []) && log'.Ok() && AroundBurst(log, at, log', n, popped)
    requires log.overruns == log'.overruns
    ensures DrainAccount(log0, log', batches, if popped then BurstOrigins(at, n) else [])
  {
    AroundBurstLater(log, at, log', n, popped);
  }

  lemma AccountBurst(log0: FifoLog, log: FifoLog, log': FifoLog, batches: seq<Batch>, b: Batch)
    requires DrainAccount(log0, log, batches, []) && log'.Ok() && log.all <= log'.all
    requires Accounted(b, log, log') && |b.from| == |b.frames|
    requires b.before == log.Frames() && b.seenBefore == |log.all|
    requires b.after == log'.Frames() && b.seenAfter == |log'.all|
    requires batches != [] ==> b.trigger == batches[0].trigger && b.period == batches[0].period
    ensures DrainAccount(log0, log', batches + [b], [])
  {
    hide Chained, AllScans, AllOrigins, FifoLog.Ok, FifoLog.Contents, FifoLog.Next, Batch.Scans;
    ChainSnoc(batches, b);
    AllSnoc(batches, b);
  }

  /** The overflow check: 0 when no overflow showed, 1 after a recovery. */
  ghost predicate CheckStep(s: Snapshot, s': Snapshot, ret: int)
    requires s.Ok() && s'.Ok()
  {
    && (ret == 0 || ret == 1 || ret == -EIO)
    && s'.faults == s.faults + (if ret == -EIO then 1 else 0)
    && s'.refusals == s.refusals && s'.hazards == s.hazards
    && s'.accepted == s.accepted && s'.committed == s.committed && s'.origins == s.origins
    && s.log.Later(s'.log) && s.writes <= s'.writes
    && (s.Conserves() ==> s'.Conserves())
    && (s'.ledger == s.ledger || s'.ledger == s.ledger.Marked(|s.origins|))
    && OnlyChanged(s.regs, s'.regs, {FIFO_EN, USER_CTRL})
    && Caused(s, s') && s'.overflowCount <= s.overflowCount + 1
    && (s'.fifoEnabled ==> s.fifoEnabled)
    && (s.fifoEnabled ==> KeepsQuiet(s.writes, s'.writes))
    && (s'.overflowCount == s.overflowCount ==>
          && ret != 1 && s'.fifoEnabled == s.fifoEnabled && s'.regs == s.regs && s'.ledger == s.ledger
          && s'.writes == s.writes && s.log.Grew(s'.log))
    && (ret == 0 ==>
          && s'.overflowCount == s.overflowCount && !s.oflow && !s'.oflow && s'.log.overruns == s.log.overruns)
    && (ret == 1 ==>
          && s'.log.Fresh() && s'.fifoEnabled == s.fifoEnabled && s'.ledger == s.ledger.Marked(|s.origins|)
          && (s'.fifoEnabled ==> Collecting(s'.regs) && SourcesOn(s'.regs))
          && (s.oflow || s'.log.overruns > s.log.overruns))
  }

  lemma CheckKeepsRuns(s: Snapshot, s': Snapshot, ret: int)
    requires s.Ok() && s'.Ok() && CheckStep(s, s', ret)
    ensures KeepsRuns(s, s')
  {
    if s'.overflowCount == s.overflowCount {
      ArrivalsKeepRuns(s, s');
    } else {
      NothingCommitted(s, s');
    }
  }

  /** The loop top: the check and, if it returned 0, a count. */
  ghost predicate LookStep(s: Snapshot, s': Snapshot, ret: int, frames: int)
    requires s.Ok() && s'.Ok()
  {
    if ret == 0 then
      && s' == s.(log := s'.log, oflow := s'.oflow) && !s.oflow
      && s'.oflow == (s'.log.overruns > s.log.overruns)
      && s.log.Grew(s'.log) && s.log.Later(s'.log)
      && (s.Conserves() ==> s'.Conserves())
      && frames == s'.log.Frames()
    else CheckStep(s, s', ret)
  }

  lemma LookKeepsRuns(s: Snapshot, s': Snapshot, ret: int, frames: int)
    requires s.Ok() && s'.Ok() && LookStep(s, s', ret, frames)
    ensures KeepsRuns(s, s')
  {
    if ret == 0 {
      ArrivalsKeepRuns(s, s');
    } else {
      CheckKeepsRuns(s, s', ret);
    }
  }

  lemma CheckedLook(s: Snapshot, s': Snapshot, ret: int, frames: int)
    requires s.Ok() && s'.Ok() && CheckStep(s, s', ret)
    ensures ret != 0 ==> LookStep(s, s', ret, frames)
  {}

  /** After a check that returned 0: counting lets time pass, and the bus may fail. */
  lemma CountedLook(s: Snapshot, mid: Snapshot, s': Snapshot, ret: int, frames: int)
    requires s.Ok() && mid.Ok() && s'.Ok() && CheckStep(s, mid, 0) && mid.log.Grew(s'.log)
    requires s' == mid.(log := s'.log, oflow := s'.oflow, faults := s'.faults)
    requires s'.oflow == (mid.oflow || s'.log.overruns > mid.log.overruns)
    requires s'.faults == mid.faults + (if ret == 0 then 0 else 1) && (ret == 0 || ret == -EIO)
    requires ret == 0 ==> frames == s'.log.Frames()
    ensures LookStep(s, s', ret, frames)
  {
    GrewTransitive(s.log, mid.log, s'.log);
    EvolvedIsLater(s.log, s'.log, false, false);
    if s.Conserves() {
      ConservedGrows(s.origins, |s.accepted|, s.log, s'.log, s.ledger, s.fifoEnabled);
    }
  }

  /** Offering the pending scans moves them from pending to accepted and changes nothing else. */
  ghost predicate PushStep(s: Snapshot, s': Snapshot, ret: int) {
    && (ret == 0 || ret == -EBUSY)
    && s.accepted <= s'.accepted && |s'.accepted| <= |s'.origins|
    && s' == s.(accepted := s'.accepted, refusals := s.refusals + (if ret == 0 then 0 else 1))
  }

  /** No overflow and no recovery between two snapshots. */
  ghost predicate NoOverflow(s: Snapshot, s': Snapshot) {
    s'.log.overruns == s.log.overruns && s'.overflowCount == s.overflowCount
  }

  /** No bus failure either. */
  ghost predicate Undisturbed(s: Snapshot, s': Snapshot) {
    s'.faults == s.faults && NoOverflow(s, s')
  }

  /** What stops a drain: fewer than `watermark` whole frames, or none at all when forced. */
  predicate BelowThreshold(frames: int, watermark: int, force: bool) {
    if force then frames == 0 else frames < watermark
  }

  /** One call of the drain: the device it found, and its arguments. */
  datatype Job = Job(start: Snapshot, trigger: int, period: int, watermark: int, force: bool) {
    predicate Below(frames: int) {
      BelowThreshold(frames, watermark, force)
    }
  }

  /**
   * What a drain has done by `s`, however it goes on or ends: every burst is committed once, in order,
   * behind what was committed before, and nothing else is.
   */
  ghost predicate Progress(job: Job, s: Snapshot, batches: seq<Batch>) {
    var s0 := job.start;
    && s0.Ok() && s.Ok()
    && s.committed == s0.committed + AllScans(batches)
    && s.origins == s0.origins + AllOrigins(batches)
    && s0.accepted <= s.accepted
    && (forall i :: 0 <= i < |batches| ==>
          && batches[i].trigger == job.trigger && batches[i].period == job.period
          && |batches[i].frames| == if batches[i].before < 64 then batches[i].before else 64)
    && s0.log.Later(s.log) && s0.writes <= s.writes
    && OnlyChanged(s0.regs, s.regs, {FIFO_EN, USER_CTRL})
    && s0.faults <= s.faults && s0.refusals <= s.refusals
    && Caused(s0, s) && s0.hazards <= s.hazards && s0.ledger.lost <= s.ledger.lost
    && (s.fifoEnabled ==> s0.fifoEnabled)
    && (s0.fifoEnabled ==> KeepsQuiet(s0.writes, s.writes) && KeepsRuns(s0, s))
    && (s.overflowCount == s0.overflowCount ==>
          && s.regs == s0.regs && s.fifoEnabled == s0.fifoEnabled
          && s0.ledger.Grew(s.ledger))
    && (s0.Delivers() ==> s.Delivers())
    && (s0.Conserves() ==> s.Conserves())
    // a burst is torn by an overflow between check and burst, or if a recovery failed before the drain
    && (Torn in AllOrigins(batches) <==> s.hazards > s0.hazards || (batches != [] && !s0.Visible()))
    && (s0.Visible() && s.faults == s0.faults ==> s.Visible())
  }

  /** Without overflow every frame that left the FIFO is in the bursts, in order, or lost. */
  ghost predicate Accounts(job: Job, s: Snapshot, batches: seq<Batch>) {
    NoOverflow(job.start, s) ==>
      && job.start.ledger.Grew(s.ledger)
      && DrainAccount(job.start.log, s.log, batches, job.start.ledger.More(s.ledger))
  }

  /** The drain is still going: no error, no recovery, and every burst left enough behind to go on. */
  ghost predicate Draining(job: Job, s: Snapshot, batches: seq<Batch>) {
    var s0 := job.start;
    && Progress(job, s, batches) && Accounts(job, s, batches)
    && s.faults == s0.faults && s.refusals == s0.refusals && s.overflowCount == s0.overflowCount
    && s.ledger == s0.ledger
    && (forall i :: 0 <= i < |batches| ==> !job.Below(batches[i].after))
    && (s0.log.over ==> s.log.over)
    && (s0.oflow ==> batches == [] && s.oflow)
    && (s.oflow ==> s0.oflow || s.log.overruns > s0.log.overruns)
  }

  lemma DrainStarts(job: Job, s: Snapshot, ret: int)
    requires job.start.Ok() && PushStep(job.start, s, ret)
    ensures Progress(job, s, []) && Accounts(job, s, [])
    ensures ret == 0 ==> Draining(job, s, [])
    ensures ret < 0 ==> EndsWith(job, s, [], ret, Failed)
  {
    PushConserves(job.start, s, ret);
    NothingCommitted(job.start, s);
    assert job.start.committed + AllScans([]) == job.start.committed;
    assert job.start.origins + AllOrigins([]) == job.start.origins;
  }

  lemma PushConserves(s: Snapshot, s': Snapshot, ret: int)
    requires PushStep(s, s', ret)
    ensures s.Conserves() ==> s'.Conserves()
  {
    if s.Conserves() {
      ConservedAccepts(s.origins, |s.accepted|, |s'.accepted|, s.log, s.ledger, s.fifoEnabled, s.fifoEnabled);
    }
  }

  lemma PushedProgress(job: Job, s: Snapshot, s': Snapshot, batches: seq<Batch>, ret: int)
    requires Progress(job, s, batches) && Accounts(job, s, batches) && PushStep(s, s', ret)
    ensures Progress(job, s', batches) && Accounts(job, s', batches)
    ensures ret == 0 || ret == -EBUSY
    ensures s'.faults == s.faults && s'.overflowCount == s.overflowCount && s'.log == s.log && s'.ledger == s.ledger
    ensures s'.oflow == s.oflow && s'.refusals == s.refusals + (if ret == 0 then 0 else 1)
  {
    PushConserves(s, s', ret);
  }

  lemma LookProgress(job: Job, s: Snapshot, s': Snapshot, batches: seq<Batch>, ret: int, frames: int)
    requires Draining(job, s, batches)
    requires s'.Ok() && LookStep(s, s', ret, frames)
    ensures Progress(job, s', batches) && Accounts(job, s', batches)
    ensures ret == 0 ==> Draining(job, s', batches) && !job.start.oflow
    ensures ret == 0 && job.start.Visible() ==> !s.log.over
  {
    hide Conserved, Faithful, DrainAccount, KeepsRuns, FifoLog.Contents, FifoLog.Ok;
    LaterTransitive(job.start.log, s.log, s'.log);
    LookKeepsRuns(s, s', ret, frames);
    if job.start.fifoEnabled {
      KeepsRunsTransitive(job.start, s, s');
    }
    if s.Delivers() {
      FaithfulLater(s.committed, s.origins, s.log, s'.log);
    }
    NoneMore(s.ledger);
    if NoOverflow(job.start, s') {
      AccountAround(job.start.log, s.log, s'.log, s'.log, batches, 0, false);
    }
  }

  /** The account of a drain after one more burst. */
  lemma BurstKeepsAccount(job: Job, s: Snapshot, s': Snapshot, batches: seq<Batch>, ret: int, b: Batch, at: FifoLog)
    requires Draining(job, s, batches)
    requires s'.Ok() && BurstStep(s, s', b.before, ret, Some(b), at)
    requires b.trigger == job.trigger && b.period == job.period
    ensures Accounts(job, s', batches + [b])
  {
    hide Conserved, Faithful, DrainAccount, FifoLog.Contents, AllScans, AllOrigins, FifoLog.Next, FifoLog.Count;
    AroundBurstLater(s.log, at, s'.log, BurstSize(b.before), true);
    NoneMore(s.ledger);
    if NoOverflow(job.start, s') {
      BurstIsAccounted(b, s.log, at, s'.log);
      AccountBurst(job.start.log, s.log, s'.log, batches, b);
    }
  }

  /** The hazard a burst runs into: an overflow after the overflow check at `top`. */
  ghost function Hazard(top: FifoLog, at: FifoLog): nat {
    if at.over && !top.over then 1 else 0
  }

  lemma BurstStepTaken(s: Snapshot, s': Snapshot, ret: int, b: Batch, at: FifoLog)
    requires s.Ok() && s'.Ok() && BurstStep(s, s', b.before, ret, Some(b), at)
    ensures |b.from| == |b.frames| == BurstSize(b.before)
    ensures Torn in b.from <==> at.over
    ensures s.log.over ==> at.over
    ensures s'.committed == s.committed + b.Scans() && s'.origins == s.origins + b.from
    ensures ret != -EIO && s'.ledger == s.ledger && s'.accepted == s.accepted
  {
    BurstIsFromFifo(at, |b.frames|);
    assert b.from == BurstOrigins(at, |b.frames|);
  }

  lemma TornJoin(a: seq<Origin>, b: seq<Origin>)
    ensures Torn in a + b <==> Torn in a || Torn in b
  {}

  /** `top` is the instant of the overflow check before the count at `s`. */
  lemma BurstProgress(job: Job, top: FifoLog, s: Snapshot, s': Snapshot, batches: seq<Batch>, ret: int, b: Batch,
                      at: FifoLog)
    requires Draining(job, s, batches) && !job.start.oflow
    requires job.start.Visible() ==> !top.over
    requires s'.Ok() && BurstStep(s, s', b.before, ret, Some(b), at)
    requires b.trigger == job.trigger && b.period == job.period
    ensures Progress(job, s'.(hazards := s'.hazards + Hazard(top, at)), batches + [b])
  {
    hide Conserved, Faithful, DrainAccount, BurstTaken, AroundBurst, OnlyChanged, FifoLog.Contents, FifoLog.Ok,
      AllScans, AllOrigins, Batch.Scans, KeepsQuiet, Cuts;
    if s.fifoEnabled {
      BurstStepRuns(s, s', b.before, ret, Some(b), at);
      KeepsRunsTransitive(job.start, s, s');
    }
    BurstStepKeeps(s, s', b.before, ret, Some(b), at);
    BurstStepTaken(s, s', ret, b, at);
    LaterTransitive(job.start.log, s.log, s'.log);
    AllSnoc(batches, b);
    TornJoin(AllOrigins(batches), b.from);
  }

  /** `more` is `log` and one burst that left `after` whole frames behind. */
  ghost predicate Extends(log: seq<Batch>, more: seq<Batch>, after: int) {
    |more| == |log| + 1 && more[..|log|] == log && more[|log|].after == after
  }

  lemma KeepsDraining(job: Job, s: Snapshot, s': Snapshot, batches: seq<Batch>, more: seq<Batch>)
    requires Draining(job, s, batches) && !job.start.oflow
    requires Progress(job, s', more) && Accounts(job, s', more)
    requires s'.faults == s.faults && s'.refusals == s.refusals && s'.overflowCount == s.overflowCount
    requires s'.ledger == s.ledger && (s.log.over ==> s'.log.over)
    requires s.log.overruns <= s'.log.overruns && (s'.oflow ==> s.oflow || s'.log.overruns > s.log.overruns)
    requires Extends(batches, more, s'.log.Frames()) && !job.Below(s'.log.Frames())
    ensures Draining(job, s', more)
  {
    hide Accounts, Conserved, Faithful, AllScans, AllOrigins, OnlyChanged;
    forall i | 0 <= i < |more|
      ensures !job.Below(more[i].after)
    {
      if i < |batches| {
        assert more[i] == batches[i];
      }
    }
  }

  /** A burst the bus cut short commits nothing; if its frames were popped, exactly those are lost. */
  lemma LostProgress(job: Job, s: Snapshot, s': Snapshot, batches: seq<Batch>, frames: int, at: FifoLog)
    requires Draining(job, s, batches)
    requires s'.Ok() && BurstStep(s, s', frames, -EIO, None, at)
    ensures Progress(job, s', batches) && Accounts(job, s', batches)
    ensures s'.ledger == s.ledger || s'.ledger == s.ledger.Plus(BurstOrigins(at, BurstSize(frames)))
    ensures NoOverflow(s, s') ==> s'.log.Next() == s.log.Next() + (s'.ledger.lost - s.ledger.lost)
  {
    hide Conserved, Faithful, DrainAccount, FifoLog.Contents, FifoLog.Ok, OnlyChanged, AllOrigins, FifoLog.Next,
      FifoLog.Count, KeepsRuns;
    if s.fifoEnabled {
      BurstStepRuns(s, s', frames, -EIO, None, at);
      KeepsRunsTransitive(job.start, s, s');
    }
    BurstStepKeeps(s, s', frames, -EIO, None, at);
    LaterTransitive(job.start.log, s.log, s'.log);
    AroundBurstLater(s.log, at, s'.log, BurstSize(frames), s'.ledger != s.ledger);
    NoneMore(s.ledger);
    PlusMore(s.ledger, BurstOrigins(at, BurstSize(frames)));
    if NoOverflow(job.start, s') {
      AccountAround(job.start.log, s.log, at, s'.log, batches, BurstSize(frames), s'.ledger != s.ledger);
    }
  }

  /** Why a drain returned, and what that says about the FIFO it leaves behind. */
  ghost predicate EndsWith(job: Job, s: Snapshot, batches: seq<Batch>, ret: int, end: DrainEnd)
    requires s.Ok()
  {
    var s0 := job.start;
    && |batches| <= 4
    && (forall i :: 0 <= i < |batches| - 1 ==> !job.Below(batches[i].after))
    && (ret == 0 || ret == -EIO || ret == -EBUSY)
    && s.faults == s0.faults + (if ret == -EIO then 1 else 0)
    && s.refusals == s0.refusals + (if ret == -EBUSY then 1 else 0)
    && s.overflowCount <= s0.overflowCount + 1
    && (s.overflowCount > s0.overflowCount ==> end.Recovered? || ret == -EIO)
    && (s.ledger.lost != s0.ledger.lost ==> ret == -EIO && s.overflowCount == s0.overflowCount)
    && s0.ledger.lost <= s.ledger.lost <= s0.ledger.lost + BURST_MAX
    && (s0.oflow && ret == 0 ==> end.Recovered? && batches == [])
    && match end
       case Failed => ret != 0
       case Recovered =>
         && ret == 0 && s.log.Fresh() && s.overflowCount > s0.overflowCount
         && s.ledger == s0.ledger.Marked(|s.origins|)
         && (s0.oflow || s.log.overruns > s0.log.overruns)
         && s.fifoEnabled == s0.fifoEnabled
         && (s.fifoEnabled ==> Collecting(s.regs) && SourcesOn(s.regs))
       case BurstLimit => ret == 0 && |batches| == 4
       case Below => ret == 0 && job.Below(s.log.Frames())
  }

  lemma EndsAtLook(job: Job, s: Snapshot, s': Snapshot, batches: seq<Batch>, ret: int, frames: int)
    requires Draining(job, s, batches) && |batches| < MAX_LOOPS
    requires s'.Ok() && LookStep(s, s', ret, frames)
    ensures ret == 0 || ret == 1 || ret == -EIO
    ensures ret == 0 ==> 0 <= frames == s'.log.Frames()
    ensures s'.ledger.lost == s.ledger.lost
    ensures ret == 1 ==> EndsWith(job, s', batches, 0, Recovered)
    ensures ret < 0 ==> EndsWith(job, s', batches, ret, Failed)
    ensures ret == 0 && job.Below(frames) ==> EndsWith(job, s', batches, 0, Below)
  {}

  /** After a burst: `s` was the count before it, `s'` is after the push that returned `ret`. */
  lemma EndsAfterBurst(job: Job, s: Snapshot, s': Snapshot, batches: seq<Batch>, more: seq<Batch>, ret: int)
    requires Draining(job, s, batches) && !job.start.oflow && |batches| < MAX_LOOPS
    requires s'.Ok() && (ret == 0 || ret == -EIO || ret == -EBUSY)
    requires more == batches || (|more| == |batches| + 1 && more[..|batches|] == batches)
    requires s'.faults == s.faults + (if ret == -EIO then 1 else 0)
    requires s'.refusals == s.refusals + (if ret == -EBUSY then 1 else 0)
    requires s'.overflowCount == s.overflowCount
    requires s.ledger.lost <= s'.ledger.lost <= s.ledger.lost + BURST_MAX
    requires ret != -EIO ==> s'.ledger.lost == s.ledger.lost
    ensures ret < 0 ==> EndsWith(job, s', more, ret, Failed)
    ensures ret == 0 && job.Below(s'.log.Frames()) ==> EndsWith(job, s', more, 0, Below)
    ensures ret == 0 && |more| == MAX_LOOPS ==> EndsWith(job, s', more, 0, BurstLimit)
  {
    hide Progress, Accounts;
    forall i | 0 <= i < |more| - 1
      ensures !job.Below(more[i].after)
    {
      assert more[i] == batches[i];
    }
  }
}
