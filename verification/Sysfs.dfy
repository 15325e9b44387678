/** The fifo_flush and fifo_watermark attributes. */
module Sysfs {
  import opened Batches
  import opened Chip
  import opened Delivery
  import opened Device
  import opened Drain
  import opened DrainLaws
  import opened DrainSpec
  import opened Errno
  import opened FifoControl
  import opened FifoLogs
  import opened Frames
  import opened Ledgers
  import opened Rates
  import opened Registers
  import opened Runs

  /** Nothing arrived, overflowed, failed or was refused between two snapshots. */
  ghost predicate Still(s: Snapshot, s': Snapshot) {
    Undisturbed(s, s') && s'.log.all == s.log.all && s'.refusals == s.refusals
  }

  /** What a flush promises when the FIFO held `s` at its start and nothing interferes. */
  ghost predicate Flushed(s: Snapshot, s': Snapshot) {
    && s.Ok() && s'.Ok()
    && s'.accepted == s'.committed
    && |s'.committed| == |s.committed| + s.log.Frames()
    && s'.log.Count() == s.log.Count() % FRAME_SIZE
  }

  lemma CountMoves(s: Snapshot, s': Snapshot)
    requires s.Ok() && s'.Ok() && s.log.Grew(s'.log)
    requires s' == s.(log := s'.log, oflow := s'.oflow, faults := s'.faults) && s.faults <= s'.faults
    requires s'.oflow == (s.oflow || s'.log.overruns > s.log.overruns)
    ensures Moved(s, s')
    ensures Still(s, s') ==> s' == s
  {
    hide Conserved, Faithful;
    EvolvedIsLater(s.log, s'.log, false, false);
    ArrivalsKeepRuns(s, s');
    if s.Delivers() {
      FaithfulLater(s.committed, s.origins, s.log, s'.log);
    }
    if s.Conserves() {
      ConservedGrows(s.origins, |s.accepted|, s.log, s'.log, s.ledger, s.fifoEnabled);
    }
  }

  /** One forced drain that nothing interferes with flushes the FIFO. */
  lemma DrainFlushes(job: Job, s: Snapshot, batches: seq<Batch>, end: DrainEnd)
    requires Progress(job, s, batches) && Accounts(job, s, batches) && Still(job.start, s)
    requires EndsWith(job, s, batches, 0, end) && job.force && s.accepted == s.committed
    ensures Flushed(job.start, s)
  {
    IdleForcedDrain(job, s, batches, end);
  }

  lemma CannotFail(job: Job, s: Snapshot, batches: seq<Batch>, ret: int, end: DrainEnd)
    requires s.Ok() && EndsWith(job, s, batches, ret, end) && Still(job.start, s)
    ensures ret == 0
  {}

  /** The count at the top of the flush loop. */
  method FlushCount(dev: DeviceData) returns (ret: int, frames: int)
    requires dev.Valid()
    modifies dev.chip
    ensures dev.Valid()
    ensures Moved(old(dev.Now()), dev.Now())
    ensures Still(old(dev.Now()), dev.Now()) ==> dev.Now() == old(dev.Now()) && ret == 0
    ensures if ret == 0 then dev.chip.faults == old(dev.chip.faults) && frames == dev.chip.log.Frames()
            else ret == -EIO && dev.chip.faults > old(dev.chip.faults)
  {
    ghost var s := dev.Now();
    var count;
    ret, count := GetCount(dev);
    CountMoves(s, dev.Now());
    frames := count / FRAME_SIZE;
  }

  /** The result says whether anything failed: `good` iff the bus and the IIO buffer played along. */
  ghost predicate Outcome(s: Snapshot, s': Snapshot, ret: int, good: nat) {
    && (ret == good || ret == -EIO || ret == -EBUSY)
    && (ret == good <==> s'.faults == s.faults && s'.refusals == s.refusals)
  }

  /** The forced drain inside a flush. */
  method FlushPass(dev: DeviceData, timestamp: int) returns (ret: int, ghost log: seq<Batch>)
    requires dev.Valid() && dev.fifoEnabled
    modifies dev`fifoEnabled, dev`pendingFrames, dev`pendingPos, dev`pendingBaseTs, dev`pendingPeriodNs,
      dev`pendingFrom, dev`burstPushFailCount, dev`burstReadCount, dev`overflowCount, dev`ledger, dev`hazards, dev.chip,
      dev.iio, dev.burst
    ensures dev.Valid()
    ensures Moved(old(dev.Now()), dev.Now())
    ensures Still(old(dev.Now()), dev.Now()) ==> ret == 0 && Flushed(old(dev.Now()), dev.Now())
    ensures !dev.fifoEnabled ==> dev.pendingFrames == 0
    ensures ret == 0 ==> dev.pendingFrames == 0 && dev.fifoEnabled
    ensures Outcome(old(dev.Now()), dev.Now(), ret, 0)
    ensures var job := JobFor(dev, old(dev.Now()), timestamp, true);
      Progress(job, dev.Now(), log) && Accounts(job, dev.Now(), log) && IsPeriod(job.period, dev.samplingFrequency)
  {
    hide DeviceData.Valid, FifoLog.Contents, FifoLog.Ok, OrderedWrites, Progress, Accounts, Moved, Flushed, IsPeriod,
      DeviceData.Committed, DeviceData.Origins;
    ghost var job := JobFor(dev, dev.Now(), timestamp, true);
    ghost var end, cut;
    ret, log, end, cut := Run(dev, timestamp, true);
    ghost var s := dev.Now();
    DrainMoves(job, s, log, ret, end);
    DrainOutcome(job, s, log, ret, end);
    if ret == -EBUSY {
      RefusedKeepsMode(job, s, log, end);
    }
    if Still(job.start, s) {
      CannotFail(job, s, log, ret, end);
      NothingPending(dev);
      DrainFlushes(job, s, log, end);
    }
  }

  lemma DrainOutcome(job: Job, s: Snapshot, batches: seq<Batch>, ret: int, end: DrainEnd)
    requires s.Ok() && EndsWith(job, s, batches, ret, end) && Moved(job.start, s)
    ensures Outcome(job.start, s, ret, 0)
    ensures ret == 0 ==> s.fifoEnabled == job.start.fifoEnabled
  {}

  /** A flush that started at `s0`, before its pass number `loops` + 1. */
  ghost predicate Flushing(s0: Snapshot, s: Snapshot, loops: nat) {
    && Moved(s0, s)
    && (loops == 0 ==> s == s0)
    && (loops > 0 && Still(s0, s) ==> s0.log.Frames() >= 1 && Flushed(s0, s))
  }

  /**
   * A flush that nothing interferes with delivers the pending scans and then every whole frame; with
   * less than one whole frame in hardware it does nothing, even if scans are pending.
   */
  ghost predicate FlushDone(s0: Snapshot, s: Snapshot) {
    && Moved(s0, s)
    && (Still(s0, s) ==> if s0.log.Frames() >= 1 then Flushed(s0, s) else s == s0)
  }

  lemma FlushPasses(s0: Snapshot, top: Snapshot, counted: Snapshot, s: Snapshot, loops: nat)
    requires Flushing(s0, top, loops) && Moved(top, counted) && Moved(counted, s)
    requires Still(top, counted) ==> counted == top
    requires counted.log.Frames() >= 1
    requires Still(counted, s) ==> Flushed(counted, s)
    ensures Flushing(s0, s, loops + 1) && FlushDone(s0, s) && Moved(s0, s)
    ensures Still(s0, s) ==> Still(counted, s)
  {
    hide Conserved, Faithful, OnlyChanged, GaplessStep, FifoLog.Contents;
    MovedTransitive(s0, top, counted);
    MovedTransitive(s0, counted, s);
    if Still(s0, s) {
      assert Still(s0, top) && Still(top, counted) && Still(counted, s);
    }
  }

  /** The flush ends at a count: it found no whole frame, or the bus failed. */
  lemma FlushStops(s0: Snapshot, top: Snapshot, counted: Snapshot, loops: nat)
    requires Flushing(s0, top, loops) && Moved(top, counted)
    requires Still(top, counted) ==> counted == top && counted.log.Frames() == 0
    ensures FlushDone(s0, counted) && Moved(s0, counted)
    ensures Still(s0, counted) ==> counted.faults == top.faults
  {
    hide Conserved, Faithful, OnlyChanged, GaplessStep, FifoLog.Contents;
    MovedTransitive(s0, top, counted);
    if Still(s0, counted) {
      assert Still(s0, top) && Still(top, counted);
    }
  }

  /**
   * The passes of a flush, given the whole frames counted before each: at most four, and only a count
   * above what one burst takes leads to another.
   */
  ghost predicate Passes(counts: seq<int>) {
    && |counts| <= 4
    && (forall i :: 0 <= i < |counts| ==> counts[i] >= 1)
    && (forall i :: 0 <= i < |counts| - 1 ==> counts[i] > 64)
  }

  /**
   * icm20602_fifo_flush_store; `request` is what kstrtobool made of the input and `counts` the whole
   * frames counted before each forced drain.
   */
  method FifoFlushStore(dev: DeviceData, request: Option<bool>, len: nat) returns (ret: int, ghost counts: seq<int>)
    requires dev.Valid()
    modifies dev`fifoEnabled, dev`pendingFrames, dev`pendingPos, dev`pendingBaseTs, dev`pendingPeriodNs,
      dev`pendingFrom, dev`burstPushFailCount, dev`burstReadCount, dev`overflowCount, dev`ledger, dev`hazards, dev.chip,
      dev.iio, dev.burst
    ensures dev.Valid()
    ensures old(!dev.fifoEnabled ==> dev.pendingFrames == 0) ==> (!dev.fifoEnabled ==> dev.pendingFrames == 0)
    ensures Passes(counts)
    ensures ret == len && request == Some(true) ==>
      dev.chip.log.Frames() == 0 || |counts| == 4 || (counts != [] && counts[|counts| - 1] <= 64)
    ensures Moved(old(dev.Now()), dev.Now())
    ensures
      if request == None || (request.value && !(dev.bufferEnabled && old(dev.fifoEnabled))) then
        ret == -EINVAL && dev.Now() == old(dev.Now())
      else if !request.value then
        ret == len && dev.Now() == old(dev.Now())
      else
        FlushDone(old(dev.Now()), dev.Now()) && Outcome(old(dev.Now()), dev.Now(), ret, len)
  {
    hide Progress, Accounts, IsPeriod, Conserved, Faithful, OnlyChanged, GaplessStep, FifoLog.Contents, FifoLog.Later,
      FifoLog.Ok, OrderedWrites, QuietFrom, SourcesOn, FifoOn, Moved, Flushing, FlushDone, Flushed, Still,
      DeviceData.Committed, DeviceData.Origins;
    counts := [];
    ghost var s0 := dev.Now();
    FlushStarts(s0);
    if request == None {
      ret := -EINVAL;
      return;
    }
    if !request.value {
      ret := len;
      return;
    }
    if !dev.bufferEnabled || !dev.fifoEnabled {
      ret := -EINVAL;
      return;
    }
    var loops := 0;
    while loops < MAX_LOOPS
      invariant dev.Valid() && dev.fifoEnabled
      invariant 0 <= loops <= MAX_LOOPS && |counts| == loops && Passes(counts)
      invariant forall i :: 0 <= i < loops ==> counts[i] > DRAIN_MAX_FRAMES
      invariant dev.chip.faults == s0.faults && dev.iio.refusals == s0.refusals
      invariant Flushing(s0, dev.Now(), loops) && Moved(s0, dev.Now())
      invariant loops > 0 ==> FlushDone(s0, dev.Now())
    {
      ghost var top := dev.Now();
      var frames;
      ret, frames := FlushCount(dev);
      ghost var counted := dev.Now();
      if ret != 0 {
        FlushStops(s0, top, counted, loops);
        return;
      }
      if frames == 0 {
        FlushStops(s0, top, counted, loops);
        return len, counts;
      }
      var timestamp: int := *;
      ghost var log;
      ret, log := FlushPass(dev, timestamp);
      FlushPasses(s0, top, counted, dev.Now(), loops);
      loops, counts := loops + 1, counts + [frames];
      if ret != 0 {
        return;
      }
      if frames <= DRAIN_MAX_FRAMES {
        return len, counts;
      }
    }
    ret := len;
  }

  lemma FlushStarts(s: Snapshot)
    requires s.Ok()
    ensures Flushing(s, s, 0) && Moved(s, s)
  {
    NothingCommitted(s, s);
  }

  /**
   * The flush law: with at least one whole frame in an aligned FIFO and nothing interfering, everything
   * pending is accepted, then the whole frames follow in order, and less than one frame stays behind.
   */
  lemma FlushDelivers(s0: Snapshot, s: Snapshot)
    requires FlushDone(s0, s) && Still(s0, s) && s0.fifoEnabled && s0.Delivers() && !s0.log.over && s0.log.Frames() >= 1
    ensures s.accepted == s.committed && s0.committed <= s.committed
    ensures |s.committed| == |s0.committed| + s0.log.Frames()
    ensures s0.log.Next() + s0.log.Frames() <= |s0.log.all|
    ensures forall k :: |s0.committed| <= k < |s.committed| ==>
      s.committed[k].axes == FillScan(s0.log.all[s0.log.Next() + (k - |s0.committed|)])
    ensures s.log.Count() == s0.log.Count() % FRAME_SIZE
  {}
}
