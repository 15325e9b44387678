/** What the bursts, the end and the account of a drain add up to. */
module DrainLaws {
  import opened Batches
  import opened Chip
  import opened Delivery
  import opened Device
  import opened DrainSpec
  import opened Errno
  import opened FifoLogs
  import opened Frames
  import opened Iio
  import opened Ledgers
  import opened Registers
  import opened Runs

  /**
   * No lost wake-up: a drain that returns success recovered an overflow, left fewer than
   * `watermark` frames behind, or used all its bursts. With at most 55 arrivals between the first two
   * counts and fewer than `watermark` during the second burst, two bursts are enough.
   */
  lemma NoLostWakeup(job: Job, s: Snapshot, batches: seq<Batch>, end: DrainEnd)
    requires Progress(job, s, batches) && Accounts(job, s, batches)
    requires EndsWith(job, s, batches, 0, end) && !job.force
    ensures s.overflowCount > job.start.overflowCount || s.log.Frames() < job.watermark || |batches| == 4
    ensures Undisturbed(job.start, s) && FewArrivals(batches, job.watermark) ==>
      |batches| <= 2 && s.log.Frames() < job.watermark
  {
    if Undisturbed(job.start, s) && FewArrivals(batches, job.watermark) {
      TwoBurstsSuffice(batches, job.watermark);
    }
  }

  /** Without overflow every seam obeys the seam law, and inside a batch stamps are exact. */
  lemma DrainStamps(job: Job, s: Snapshot, batches: seq<Batch>, i: nat, j: nat)
    requires Progress(job, s, batches) && Accounts(job, s, batches) && NoOverflow(job.start, s)
    requires i < |batches| && j < |batches[i].frames|
    ensures batches[i].Scans()[j].timestamp
         == job.trigger - (batches[i].after + |batches[i].frames| - 1 - j) * job.period
    ensures j > 0 ==> batches[i].Scans()[j].timestamp - batches[i].Scans()[j - 1].timestamp == job.period
    ensures j == 0 && i > 0 ==>
      batches[i].Scans()[0].timestamp - batches[i - 1].Scans()[|batches[i - 1].frames| - 1].timestamp
      == (1 - (batches[i].seenAfter - batches[i - 1].seenAfter)) * job.period
  {
    hide Faithful, Conserved, BurstScans, AllScans, AllOrigins, Batch.Stamp, Batch.Base;
    ScanStamps(batches[i]);
    StampFromTrigger(batches[i], j);
    if j > 0 {
      StepInside(batches[i], j - 1);
    } else if i > 0 {
      assert Linked(batches[i - 1], batches[i]) && batches[i].Balanced() && batches[i - 1].Balanced();
      ScanStamps(batches[i - 1]);
      SeamStep(batches[i - 1], batches[i]);
    }
  }

  /** A forced drain that meets no arrival, overflow or error delivers every whole frame. */
  lemma IdleForcedDrain(job: Job, s: Snapshot, batches: seq<Batch>, end: DrainEnd)
    requires Progress(job, s, batches) && Accounts(job, s, batches) && Undisturbed(job.start, s)
    requires EndsWith(job, s, batches, 0, end) && job.force
    requires s.log.all == job.start.log.all
    ensures |AllScans(batches)| == job.start.log.Frames()
    ensures s.log.Count() == job.start.log.Count() % FRAME_SIZE
    ensures |batches| <= 2
  {
    hide Faithful, Conserved, BurstScans, AllScans, AllOrigins, OnlyChanged, FifoLog.Contents, FifoLog.Later,
      FifoLog.Next;
    AllLengths(batches);
    if batches != [] {
      SeenMonotone(batches, 0, |batches| - 1);
      assert batches[0].Balanced();
      IdleDrainEmpties(batches);
    }
  }

  /**
   * An overflow bit that shows when a drain starts, however old it is, costs the frames collected since:
   * the drain delivers nothing and restarts the FIFO. Without such a bit and without an overflow nothing
   * is recovered.
   */
  lemma StaleOverflow(job: Job, s: Snapshot, batches: seq<Batch>, end: DrainEnd)
    requires Progress(job, s, batches) && Accounts(job, s, batches)
    requires EndsWith(job, s, batches, 0, end)
    ensures job.start.oflow ==>
      && end == Recovered && s.committed == job.start.committed && s.log.Fresh()
      && s.overflowCount > job.start.overflowCount
    ensures !job.start.oflow && s.log.overruns == job.start.log.overruns ==>
      end != Recovered && s.overflowCount == job.start.overflowCount
  {
    if job.start.oflow {
      assert batches == [] && AllScans(batches) == [];
    }
  }

  /**
   * Conservation in one drain that meets no overflow, bus failures included: what was in the FIFO and
   * what arrived is committed, lost or still there. Frames are lost only by a drain that fails, and they
   * are those right after the ones committed.
   */
  lemma DrainConserves(job: Job, s: Snapshot, batches: seq<Batch>, ret: int, end: DrainEnd)
    requires Progress(job, s, batches) && Accounts(job, s, batches) && EndsWith(job, s, batches, ret, end)
    requires NoOverflow(job.start, s)
    ensures job.start.log.Frames() + (|s.log.all| - |job.start.log.all|)
         == (|s.committed| - |job.start.committed|) + (s.ledger.lost - job.start.ledger.lost) + s.log.Frames()
    ensures s.ledger.lost > job.start.ledger.lost ==> ret == -EIO && s.faults > job.start.faults
    ensures job.start.ledger.Grew(s.ledger)
    ensures s.ledger.lost - job.start.ledger.lost == |job.start.ledger.More(s.ledger)|
    ensures !job.start.log.over ==> forall j :: 0 <= j < |job.start.ledger.More(s.ledger)| ==>
      job.start.ledger.More(s.ledger)[j] == FromFifo(job.start.log.Next() + |s.committed| - |job.start.committed| + j)
  {
    hide Faithful, Conserved, BurstScans, AllScans, AllOrigins, OnlyChanged, FifoLog.Next, FifoLog.Later,
      FifoLog.Contents;
    var left := |AllOrigins(batches)| + (s.ledger.lost - job.start.ledger.lost);
    AllLengths(batches);
    FramesMove(job.start.log.Count(), s.log.Count(), (|s.log.all| - |job.start.log.all|) - left);
  }

  lemma FramesMove(count: int, count': int, k: int)
    requires count' == count + FRAME_SIZE * k
    ensures count' / FRAME_SIZE == count / FRAME_SIZE + k
  {}

  lemma {:induction false} AllLengths(batches: seq<Batch>)
    requires forall i :: 0 <= i < |batches| ==> |batches[i].from| == |batches[i].frames|
    ensures |AllOrigins(batches)| == |AllScans(batches)|
  {
    if batches != [] {
      AllLengths(batches[..|batches| - 1]);
    }
  }

  /** FIFO collection is what `fifoEnabled` says. */
  ghost predicate InMode(s: Snapshot)
    requires s.Ok()
  {
    SourcesOn(s.regs) == s.fifoEnabled && FifoOn(s.regs) == s.fifoEnabled
  }

  /** No scan from number n on is torn. */
  ghost predicate WholeFrom(origins: seq<Origin>, n: nat) {
    forall k :: n <= k < |origins| ==> origins[k] != Torn
  }

  /** Between the snapshots the next frames of the epoch were committed, or lost after those committed. */
  ghost predicate GaplessStep(s: Snapshot, s': Snapshot) {
    && |s.origins| <= |s'.origins|
    && s'.log.epoch == s.log.epoch && s'.log.over == s.log.over
    && s'.log.Next() == s.log.Next() + (|s'.origins| - |s.origins|) + (s'.ledger.lost - s.ledger.lost)
    && (!s.log.over && s'.ledger.lost == s.ledger.lost ==> forall k :: |s.origins| <= k < |s'.origins| ==>
          s'.origins[k] == FromFifo(s.log.Next() + (k - |s.origins|)))
  }

  /**
   * What anything on the data path does between two snapshots: commits more, takes nothing back,
   * keeps delivery exact and the books balanced, and keeps mode, overflow visibility and reset
   * discipline unless the bus fails.
   */
  ghost predicate Moved(s: Snapshot, s': Snapshot) {
    && s.Ok() && s'.Ok()
    && s.accepted <= s'.accepted && s.committed <= s'.committed && s.origins <= s'.origins
    && s.log.Later(s'.log) && s.writes <= s'.writes
    && OnlyChanged(s.regs, s'.regs, {FIFO_EN, USER_CTRL})
    && s.faults <= s'.faults && s.refusals <= s'.refusals
    && Caused(s, s') && s.hazards <= s'.hazards && s.ledger.lost <= s'.ledger.lost
    && (s'.fifoEnabled ==> s.fifoEnabled)
    && (s.Delivers() ==> s'.Delivers())
    && (s.Conserves() ==> s'.Conserves())
    && KeepsRuns(s, s')
    && (s'.overflowCount == s.overflowCount ==>
          s'.fifoEnabled == s.fifoEnabled && s.ledger.Grew(s'.ledger))
    && (s'.faults == s.faults ==>
          && s'.ledger.lost == s.ledger.lost
          && (s.Visible() ==> s'.Visible())
          && s'.fifoEnabled == s.fifoEnabled
          && KeepsQuiet(s.writes, s'.writes)
          && (InMode(s) ==> InMode(s'))
          && (s.Visible() && s'.hazards == s.hazards ==> WholeFrom(s'.origins, |s.origins|)))
    && (NoOverflow(s, s') && s.fifoEnabled ==> GaplessStep(s, s'))
  }

  lemma MovedTransitive(a: Snapshot, b: Snapshot, c: Snapshot)
    requires Moved(a, b) && Moved(b, c)
    ensures Moved(a, c)
  {
    hide Conserved, Faithful, OnlyChanged, FifoLog.Later, GaplessStep, QuietFrom, KeepsRuns;
    KeepsRunsTransitive(a, b, c);
    LaterTransitive(a.log, b.log, c.log);
    OnlyChangedChain(a.regs, b.regs, c.regs, {FIFO_EN, USER_CTRL}, {FIFO_EN, USER_CTRL});
    if NoOverflow(a, c) && a.fifoEnabled {
      LaterRuns(a.log, b.log);
      LaterRuns(b.log, c.log);
      GaplessStepTransitive(a, b, c);
    }
  }

  lemma LaterRuns(a: FifoLog, b: FifoLog)
    requires a.Later(b)
    ensures a.overruns <= b.overruns
  {}

  lemma GaplessStepTransitive(a: Snapshot, b: Snapshot, c: Snapshot)
    requires GaplessStep(a, b) && GaplessStep(b, c) && b.origins <= c.origins
    requires a.ledger.lost <= b.ledger.lost <= c.ledger.lost
    ensures GaplessStep(a, c)
  {
    if !a.log.over && a.ledger.lost == c.ledger.lost {
      forall k | |a.origins| <= k < |c.origins|
        ensures c.origins[k] == FromFifo(a.log.Next() + (k - |a.origins|))
      {
        if k < |b.origins| {
          assert b.origins[k] == c.origins[k];
        }
      }
    }
  }

  lemma DrainMoves(job: Job, s: Snapshot, batches: seq<Batch>, ret: int, end: DrainEnd)
    requires Progress(job, s, batches) && Accounts(job, s, batches)
    requires EndsWith(job, s, batches, ret, end) && job.start.fifoEnabled
    ensures Moved(job.start, s)
  {
    hide Conserved, Faithful, AllScans, AllOrigins, Chained, FifoLog.Contents, FifoLog.Later, FifoLog.Next,
      OnlyChanged;
    if NoOverflow(job.start, s) && s.ledger.lost == job.start.ledger.lost && !job.start.log.over {
      forall k | |job.start.origins| <= k < |s.origins|
        ensures s.origins[k] == FromFifo(job.start.log.Next() + (k - |job.start.origins|))
      {
        assert s.origins[k] == AllOrigins(batches)[k - |job.start.origins|];
      }
    }
  }

  /** A drain that leaves scans pending was refused by the IIO buffer and did not touch the mode. */
  lemma RefusedKeepsMode(job: Job, s: Snapshot, batches: seq<Batch>, end: DrainEnd)
    requires Progress(job, s, batches)
    requires EndsWith(job, s, batches, -EBUSY, end)
    ensures s.fifoEnabled == job.start.fifoEnabled && s.overflowCount == job.start.overflowCount
  {}
}
