/**
 * States that satisfy the invariant and in which a flush does nothing, a drain throws away what the session
 * collected, and a drain delivers torn frames.
 */
module Instances {
  import opened Batches
  import opened CoreSpec
  import opened Device
  import opened DrainLaws
  import opened DrainSpec
  import opened FifoLogs
  import opened Frames
  import opened Iio
  import opened Ledgers
  import opened Registers
  import opened Sysfs

  /** The registers while an external trigger collects into the FIFO. */
  function CollectingRegs(): (regs: seq<bv8>)
    ensures IsRegisterFile(regs) && Collecting(regs) && SourcesOn(regs)
  {
    seq(REGISTER_COUNT, i => if i == FIFO_EN then 0x18 else if i == USER_CTRL then 0x40 else 0)
  }

  /** A running FIFO session in which nothing was accepted yet. */
  ghost function Running(log: FifoLog, oflow: bool, failures: nat, committed: seq<Scan>,
                         origins: seq<Origin>): Snapshot {
    Snapshot(log, oflow, CollectingRegs(), [], failures, 0, failures, 0, Ledger(0, 0, []), true, [], committed, origins)
  }

  /** An external trigger's session that began at `epoch` after `overruns` overflows. */
  ghost function BeganAt(epoch: nat, overruns: nat, stale: bool): Session {
    NO_SESSION.(fifo := true, epoch := epoch, overruns := overruns, stale := stale, ended := false)
  }

  /** The invariant of driver and core, with such a session running. */
  ghost predicate Invariant(s: Snapshot, idle: bool, c: Session) {
    CoreOk(s, Flags(true, false, false, WATERMARK_DEFAULT, idle), Phase.Running, Some(External(0)), c)
  }

  /** One frame was popped and refused, and the FIFO is empty. */
  ghost function RefusedOnce(f: SensorData, timestamp: int): Snapshot {
    Running(FifoLog([f], 0, FRAME_SIZE, false, 0), false, 0, [Scan(FillScan(f), timestamp)], [FromFifo(0)])
  }

  lemma RefusedOnceInvariant(f: SensorData, timestamp: int)
    ensures Invariant(RefusedOnce(f, timestamp), false, BeganAt(0, 0, false))
  {
    hide FillScan, CollectingRegs, FifoLog.Contents;
    var s := RefusedOnce(f, timestamp);
    assert Since(s.origins, s.ledger) == [FromFifo(0)] && Serials(0, 1) == [FromFifo(0)];
    assert s.Ok() && s.Delivers() && s.Conserves();
  }

  /** A flush of that state that nothing interferes with leaves the refused scan pending. */
  lemma FlushIgnoresPending(f: SensorData, timestamp: int, s: Snapshot)
    requires FlushDone(RefusedOnce(f, timestamp), s) && Still(RefusedOnce(f, timestamp), s)
    ensures Invariant(RefusedOnce(f, timestamp), false, BeganAt(0, 0, false))
    ensures s.committed == [Scan(FillScan(f), timestamp)] && s.accepted == []
  {
    hide Invariant, FillScan, CollectingRegs, Moved, Flushed, FifoLog.Contents;
    RefusedOnceInvariant(f, timestamp);
  }

  /**
   * `before` was written in an earlier session, which overflowed and never read the overflow bit;
   * `collected` since the FIFO was reset for this one.
   */
  ghost function BitLeftOver(before: seq<SensorData>, collected: seq<SensorData>): Snapshot {
    Running(FifoLog(before + collected, |before|, 0, false, 1), true, 0, [], [])
  }

  lemma BitLeftOverInvariant(before: seq<SensorData>, collected: seq<SensorData>)
    requires FRAME_SIZE * |collected| <= FIFO_SIZE_BYTES
    ensures Invariant(BitLeftOver(before, collected), true, BeganAt(|before|, 1, true))
    ensures BitLeftOver(before, collected).Ok() && BitLeftOver(before, collected).log.Frames() == |collected|
  {
    hide CollectingRegs, FifoLog.Contents;
    var s := BitLeftOver(before, collected);
    assert Since(s.origins, s.ledger) == [] && Serials(|before|, |before|) == [];
    assert s.Ok() && s.Delivers() && s.Conserves();
  }

  /**
   * The session of that state is clean, and calm but for the old bit, yet any drain of it that succeeds
   * throws all it collected away; after that the session is no longer intact.
   */
  lemma StaleOverflowDiscards(before: seq<SensorData>, collected: seq<SensorData>, job: Job, s: Snapshot,
                              batches: seq<Batch>, end: DrainEnd)
    requires FRAME_SIZE * |collected| <= FIFO_SIZE_BYTES && job.start == BitLeftOver(before, collected)
    requires Progress(job, s, batches) && Accounts(job, s, batches) && EndsWith(job, s, batches, 0, end)
    ensures var c := BeganAt(|before|, 1, true);
      && Invariant(job.start, true, c)
      && Intact(job.start, c) && Clean(job.start, c) && !Intact(s, c)
      && Calm(job.start, c.(stale := false))
    ensures job.start.log.Frames() == |collected|
    ensures s.committed == [] && s.log.Fresh() && |before + collected| <= s.log.epoch
  {
    hide Invariant, CollectingRegs, FifoLog.Contents;
    BitLeftOverInvariant(before, collected);
    StaleOverflow(job, s, batches, end);
  }

  /**
   * The FIFO has overflowed, the check that saw it cleared the bit, and the recovery failed on its first
   * register access, so that the FIFO goes on collecting.
   */
  ghost function RecoveryFailed(all: seq<SensorData>): Snapshot
    requires |all| > 73
  {
    Running(FifoLog(all, 0, FRAME_SIZE * |all| - FIFO_SIZE_BYTES, true, |all| - 73), false, 1, [], [])
  }

  lemma RecoveryFailedInvariant(all: seq<SensorData>)
    requires |all| > 73
    ensures Invariant(RecoveryFailed(all), true, BeganAt(0, 0, false))
    ensures RecoveryFailed(all).Ok() && RecoveryFailed(all).log.Frames() == 73
  {
    hide CollectingRegs, FifoLog.Contents;
    var s := RecoveryFailed(all);
    assert s.Ok() && s.Delivers() && s.Conserves();
  }

  /** From that state every drain that meets no bus failure and no further overflow delivers torn frames. */
  lemma FailedRecoveryTears(all: seq<SensorData>, job: Job, s: Snapshot, batches: seq<Batch>, end: DrainEnd)
    requires |all| > 73 && job.start == RecoveryFailed(all) && IsWatermark(job.watermark)
    requires Progress(job, s, batches) && Accounts(job, s, batches) && EndsWith(job, s, batches, 0, end)
    requires Undisturbed(job.start, s)
    ensures Invariant(job.start, true, BeganAt(0, 0, false))
    ensures Torn in s.origins
  {
    hide Invariant, CollectingRegs, FifoLog.Contents, FifoLog.Next, AllScans, AllOrigins, Chained;
    RecoveryFailedInvariant(all);
    assert batches != [];
    assert Torn in AllOrigins(batches);
  }
}
