/** Draining the hardware FIFO into the IIO buffer. */
module Drain {
  import opened Batches
  import opened Chip
  import opened Delivery
  import opened Device
  import opened DrainSpec
  import opened Errno
  import opened FifoControl
  import opened FifoLogs
  import opened Frames
  import opened Iio
  import opened Ledgers
  import opened Rates
  import opened Registers

  lemma SliceSplit<T>(s: seq<T>, all: seq<T>, start: nat, i: nat)
    requires start <= i <= |all|
    ensures (s + all[start..i]) + all[i..] == s + all[start..]
  {}

  lemma SliceWhole<T>(s: seq<T>, all: seq<T>, start: nat)
    requires start <= |all|
    ensures s + all[start..|all|] == s + all[start..]
  {}

  lemma SliceStep<T>(s: seq<T>, all: seq<T>, start: nat, i: nat)
    requires start <= i < |all|
    ensures (s + all[start..i]) + [all[i]] == s + all[start..i + 1]
  {}

  /** The pending scans, accepted or not. */
  ghost function Staged(dev: DeviceData): (scans: seq<Scan>)
    reads dev`pendingFrames, dev`pendingPos, dev`pendingFrom, dev`pendingBaseTs, dev`pendingPeriodNs, dev.burst
    requires dev.PendingOk()
    ensures |scans| == dev.pendingFrames
  {
    BurstScans(dev.burst[..dev.pendingFrames], dev.pendingBaseTs, dev.pendingPeriodNs)
  }

  /** The loop of icm20602_fifo_push_pending: frames are offered in order up to the first refusal, at `i`. */
  method Offer(dev: DeviceData) returns (ret: int, i: int)
    requires dev.PendingOk() && dev.iio.Valid()
    modifies dev.iio
    ensures dev.iio.Valid()
    ensures ret == 0 || ret == -EBUSY
    ensures dev.pendingPos <= i <= dev.pendingFrames && (ret == 0 <==> i == dev.pendingFrames)
    ensures dev.iio.scans == old(dev.iio.scans) + Staged(dev)[dev.pendingPos..i]
    ensures dev.iio.origins == old(dev.iio.origins) + dev.pendingFrom[dev.pendingPos..i]
    ensures dev.iio.refusals == old(dev.iio.refusals) + if ret == 0 then 0 else 1
  {
    i := dev.pendingPos;
    while i < dev.pendingFrames
      invariant dev.pendingPos <= i <= dev.pendingFrames
      invariant dev.iio.Valid() && dev.iio.refusals == old(dev.iio.refusals)
      invariant dev.iio.scans == old(dev.iio.scans) + Staged(dev)[dev.pendingPos..i]
      invariant dev.iio.origins == old(dev.iio.origins) + dev.pendingFrom[dev.pendingPos..i]
    {
      var axes := FillScan(dev.burst[i]);
      var ts := dev.pendingBaseTs + i * dev.pendingPeriodNs;
      ret := dev.iio.Push(axes, ts, dev.pendingFrom[i]);
      if ret < 0 {
        return;
      }
      SliceStep(old(dev.iio.scans), Staged(dev), dev.pendingPos, i);
      SliceStep(old(dev.iio.origins), dev.pendingFrom, dev.pendingPos, i);
      i := i + 1;
    }
    ret := 0;
  }

  /**
   * icm20602_fifo_push_pending: offers burst[pos..frames] to the IIO buffer in order. Whether it
   * gets through or is refused half way, what is accepted plus what is left to offer stays the
   * same, timestamps included, so retrying never changes, skips or repeats a scan.
   */
  method PushPending(dev: DeviceData) returns (ret: int)
    requires dev.Valid()
    modifies dev`pendingFrames, dev`pendingPos, dev`pendingBaseTs, dev`pendingPeriodNs, dev`pendingFrom,
      dev`burstPushFailCount, dev.iio
    ensures dev.Valid()
    ensures ret == 0 || ret == -EBUSY
    ensures dev.Committed() == old(dev.Committed())
    ensures dev.Origins() == old(dev.Origins())
    ensures PushStep(old(dev.Now()), dev.Now(), ret)
    ensures ret == 0 ==> dev.pendingFrames == 0
    ensures ret != 0 ==> old(dev.pendingPos) <= dev.pendingPos < dev.pendingFrames == old(dev.pendingFrames)
    ensures dev.burstPushFailCount == old(dev.burstPushFailCount) + if ret == -EBUSY then 1 else 0
  {
    hide FifoLog.Contents, FifoLog.Ok, OrderedWrites, QuietFrom, SourcesOn, FifoOn, BurstScans;
    ghost var all, from, start := Staged(dev), dev.pendingFrom, dev.pendingPos;
    var i;
    ret, i := Offer(dev);
    if ret < 0 {
      SliceSplit(old(dev.iio.scans), all, start, i);
      SliceSplit(old(dev.iio.origins), from, start, i);
      dev.pendingPos := i;
      dev.burstPushFailCount := dev.burstPushFailCount + 1;
      return;
    }
    SliceWhole(old(dev.iio.scans), all, start);
    SliceWhole(old(dev.iio.origins), from, start);
    ClearPending(dev);
    NothingPending(dev);
  }

  /** The transfer lands in the buffer the frames overlay. */
  method StoreBurst(buf: array<SensorData>, bytes: seq<byte>, frames: nat)
    requires frames <= buf.Length && |bytes| == FRAME_SIZE * frames
    modifies buf
    ensures Overlays(buf[..frames], bytes)
  {
    forall i | 0 <= i < frames {
      buf[i] := Decode(bytes[FRAME_SIZE * i..FRAME_SIZE * i + FRAME_SIZE]);
    }
  }

  /**
   * icm20602_fifo_read_frames: one burst into burst[..frames]. `at` is the FIFO history at the
   * instant of the transfer. An aligned FIFO yields its oldest frames whole, as many as it holds, and
   * they are gone from it; a failed transfer takes nothing out.
   */
  method ReadFrames(dev: DeviceData, frames: int) returns (ret: int, ghost at: FifoLog)
    requires dev.Valid() && dev.pendingFrames == 0
    modifies dev.chip, dev.burst
    ensures dev.Valid()
    ensures frames <= 0 || frames > 64 ==> ret == -EINVAL
    ensures 0 < frames <= 64 ==> ret == 0 || ret == -EIO
    ensures ret == -EIO ==> dev.chip.faults == old(dev.chip.faults) + 1
    ensures ret == 0 ==> dev.chip.faults == old(dev.chip.faults)
    ensures dev.chip.regs == old(dev.chip.regs) && dev.chip.writes == old(dev.chip.writes)
    ensures at.Ok() && old(dev.chip.log).Grew(at)
    ensures dev.chip.log == if ret == 0 then at.AfterRead(FRAME_SIZE * frames) else at
    ensures dev.chip.oflow == (old(dev.chip.oflow) || dev.chip.log.overruns > old(dev.chip.log).overruns)
    ensures ret == 0 && !at.over ==>
      var n := if frames <= at.Frames() then frames else at.Frames();
      at.Next() + n <= |at.all| && dev.burst[..n] == at.all[at.Next()..at.Next() + n]
  {
    hide Overlays, Decode, FifoLog.Contents, FifoLog.Later, FifoLog.Next, OrderedWrites, IioBuffer.Valid,
      FifoLog.Count;
    at := dev.chip.log;
    if frames <= 0 || frames > DRAIN_MAX_FRAMES {
      ret := -EINVAL;
      return;
    }
    var bytes;
    ret, bytes, at := dev.chip.ReadFifo(frames * FRAME_SIZE);
    if ret == 0 {
      StoreBurst(dev.burst, bytes, frames);
      if !at.over {
        BurstHoldsNext(at, bytes, dev.burst[..frames]);
        ghost var n := if frames <= at.Frames() then frames else at.Frames();
        assert dev.burst[..frames][..n] == dev.burst[..n];
      }
    }
  }

  /** The whole frames the FIFO holds come out first. */
  lemma BurstHoldsNext(at: FifoLog, bytes: seq<byte>, burst: seq<SensorData>)
    requires at.Ok() && !at.over && Overlays(burst, bytes) && bytes == ReadOut(at.Contents(), |bytes|)
    ensures var n := if |burst| <= at.Frames() then |burst| else at.Frames();
      at.Next() + n <= |at.all| && burst[..n] == at.all[at.Next()..at.Next() + n]
  {
    hide Decode, FifoLog.Contents, FifoLog.Next;
    var n := if |burst| <= at.Frames() then |burst| else at.Frames();
    var head := bytes[..FRAME_SIZE * n];
    forall i | 0 <= i < n
      ensures burst[..n][i] == Decode(head[FRAME_SIZE * i..FRAME_SIZE * i + FRAME_SIZE])
    {
      assert head[FRAME_SIZE * i..FRAME_SIZE * i + FRAME_SIZE] == bytes[FRAME_SIZE * i..FRAME_SIZE * i + FRAME_SIZE];
    }
    assert head == at.Contents()[..|head|];
    BurstIsNext(at, head, burst[..n]);
  }

  /** Dates the burst and makes it pending. */
  method Stage(dev: DeviceData, timestamp: int, periodNs: int, drainFrames: int, framesAfter: int, ghost b: Batch)
    requires dev.Valid() && 0 < drainFrames <= DRAIN_MAX_FRAMES
    requires b.frames == dev.burst[..drainFrames] && |b.from| == drainFrames && FromRegisters !in b.from
    requires b.trigger == timestamp && b.period == periodNs && b.after == framesAfter
    modifies dev`pendingFrames, dev`pendingPos, dev`pendingBaseTs, dev`pendingPeriodNs, dev`pendingFrom
    ensures dev.Valid() && dev.pendingFrames == drainFrames
    ensures dev.Pending() == b.Scans()
    ensures dev.Committed() == dev.iio.scans + b.Scans()
    ensures dev.Origins() == dev.iio.origins + b.from
  {
    if periodNs != 0 {
      var newestTs := timestamp - framesAfter * periodNs;
      dev.pendingBaseTs := newestTs - (drainFrames - 1) * periodNs;
    } else {
      dev.pendingBaseTs := timestamp;
    }
    dev.pendingFrames, dev.pendingPos, dev.pendingPeriodNs := drainFrames, 0, periodNs;
    dev.pendingFrom := b.from;
  }

  /**
   * The burst of min(frames, 64) frames and the count re-read after it. If the transfer fails the FIFO
   * keeps its frames; if the re-read fails they are lost, and only burstReadCount tells.
   */
  method Pop(dev: DeviceData, frames: int, ghost timestamp: int, ghost periodNs: int)
    returns (ret: int, drainFrames: nat, framesAfter: int, ghost b: Batch, ghost at: FifoLog)
    requires dev.Valid() && dev.pendingFrames == 0
    requires frames == dev.chip.log.Frames() && 0 < frames
    modifies dev`burstReadCount, dev`ledger, dev.chip, dev.burst
    ensures dev.Valid()
    ensures ret == 0 || ret == -EIO
    ensures dev.chip.faults == old(dev.chip.faults) + if ret == -EIO then 1 else 0
    ensures dev.chip.regs == old(dev.chip.regs) && dev.chip.writes == old(dev.chip.writes)
    ensures dev.burstReadCount == old(dev.burstReadCount) + 1
         || (ret != 0 && dev.burstReadCount == old(dev.burstReadCount))
    ensures AroundBurst(old(dev.chip.log), at, dev.chip.log, drainFrames, dev.burstReadCount != old(dev.burstReadCount))
    ensures dev.ledger == if ret != 0 && dev.burstReadCount != old(dev.burstReadCount)
                          then old(dev.ledger).Plus(BurstOrigins(at, BurstSize(frames))) else old(dev.ledger)
    ensures dev.chip.oflow == (old(dev.chip.oflow) || dev.chip.log.overruns > old(dev.chip.log).overruns)
    ensures drainFrames == BurstSize(frames)
    ensures ret == 0 ==>
      && BurstTaken(b, old(dev.chip.log), at, dev.chip.log)
      && b.trigger == timestamp && b.period == periodNs && b.after == framesAfter
      && b.frames == dev.burst[..drainFrames]
  {
    hide FifoLog.Contents, OrderedWrites, Icm20602.Ordered, FifoLog.Next, FifoLog.Count;
    ghost var log0 := dev.chip.log;
    framesAfter := 0;
    drainFrames := frames;
    if drainFrames > DRAIN_MAX_FRAMES {
      drainFrames := DRAIN_MAX_FRAMES;
    }
    b := Batch([], [], timestamp, periodNs, frames, |log0.all|, 0, 0);
    FramesFit(log0, drainFrames);
    ret, at := ReadFrames(dev, drainFrames);
    if ret != 0 {
      return;
    }
    ghost var popped := dev.chip.log;
    dev.burstReadCount := dev.burstReadCount + 1;
    var countAfter;
    ret, countAfter := GetCount(dev);
    framesAfter := countAfter / FRAME_SIZE;
    if ret != 0 {
      dev.ledger := dev.ledger.Plus(BurstOrigins(at, drainFrames));
      return;
    }
    b := b.(frames := dev.burst[..drainFrames], from := BurstOrigins(at, drainFrames),
            after := framesAfter, seenAfter := |dev.chip.log.all|);
  }

  /**
   * One burst: popped, counted again, dated and made pending. `out` is the burst unless the bus
   * failed, in which case frames already popped are lost.
   */
  method Take(dev: DeviceData, timestamp: int, periodNs: int, frames: int)
    returns (ret: int, framesAfter: int, ghost out: Option<Batch>, ghost at: FifoLog)
    requires dev.Valid() && dev.pendingFrames == 0
    requires frames == dev.chip.log.Frames() && 0 < frames
    modifies dev`pendingFrames, dev`pendingPos, dev`pendingBaseTs, dev`pendingPeriodNs, dev`pendingFrom,
      dev`burstReadCount, dev`ledger, dev.chip, dev.burst
    ensures dev.Valid()
    ensures ret == 0 || (ret == -EIO && dev.pendingFrames == 0)
    ensures dev.burstReadCount == old(dev.burstReadCount) + 1
         || (ret != 0 && dev.burstReadCount == old(dev.burstReadCount))
    ensures dev.ledger == if ret != 0 && dev.burstReadCount != old(dev.burstReadCount)
                          then old(dev.ledger).Plus(BurstOrigins(at, BurstSize(frames))) else old(dev.ledger)
    ensures BurstStep(old(dev.Now()), dev.Now(), frames, ret, out, at)
    ensures out.Some? ==>
      && out.value.trigger == timestamp && out.value.period == periodNs
      && out.value.after == framesAfter && out.value.before == frames
  {
    hide FifoLog.Contents, FifoLog.Ok, FifoLog.Frames, OrderedWrites, QuietFrom, BurstTaken, AroundBurst, BurstScans,
      Batch.Scans, DeviceData.Committed, DeviceData.Origins, Icm20602.Ordered;
    out := None;
    NothingPending(dev);
    var drainFrames;
    ghost var b;
    ret, drainFrames, framesAfter, b, at := Pop(dev, frames, timestamp, periodNs);
    if ret != 0 {
      NothingPending(dev);
      return;
    }
    out := Some(b);
    TakenFields(b, old(dev.chip.log), at, dev.chip.log);
    Stage(dev, timestamp, periodNs, drainFrames, framesAfter, b);
  }

  lemma TakenFields(b: Batch, log: FifoLog, at: FifoLog, log': FifoLog)
    requires log.Ok() && BurstTaken(b, log, at, log')
    ensures b.before == log.Frames() && |b.frames| == BurstSize(b.before)
    ensures |b.from| == |b.frames| && FromRegisters !in b.from
  {
    BurstIsFromFifo(at, |b.frames|);
  }

  /** Loop top of the drain: the overflow check, then the count. */
  method Look(dev: DeviceData) returns (ret: int, frames: int)
    requires dev.Valid() && dev.pendingFrames == 0
    modifies dev`fifoEnabled, dev.chip, dev`pendingFrames, dev`pendingPos, dev`pendingBaseTs, dev`pendingPeriodNs,
      dev`pendingFrom, dev`overflowCount, dev`ledger
    ensures dev.Valid() && dev.pendingFrames == 0
    ensures LookStep(old(dev.Now()), dev.Now(), ret, frames)
  {
    hide FifoLog.Contents, FifoLog.Ok, OrderedWrites, CheckStep, LookStep, DeviceData.Committed, DeviceData.Origins;
    frames := 0;
    ret := Check(dev);
    ghost var checked := dev.Now();
    CheckedLook(old(dev.Now()), checked, ret, frames);
    if ret == 0 {
      var count;
      ret, count := GetCount(dev);
      frames := count / FRAME_SIZE;
      CountedLook(old(dev.Now()), checked, dev.Now(), ret, frames);
    }
  }

  /** The overflow check of the loop top. */
  method Check(dev: DeviceData) returns (ret: int)
    requires dev.Valid() && dev.pendingFrames == 0
    modifies dev`fifoEnabled, dev.chip, dev`pendingFrames, dev`pendingPos, dev`pendingBaseTs, dev`pendingPeriodNs,
      dev`pendingFrom, dev`overflowCount, dev`ledger
    ensures dev.Valid() && dev.pendingFrames == 0
    ensures CheckStep(old(dev.Now()), dev.Now(), ret)
  {
    hide FifoLog.Contents, FifoLog.Ok, FifoLog.Later, FifoLog.Grew, OrderedWrites, QuietFrom, SourcesOn, FifoOn,
      Collecting, OnlyChanged, Conserved, DeviceData.Committed, DeviceData.Origins;
    ret := CheckAndRecoverOverflow(dev);
  }

  /** The first half of TakeAndPush: the burst becomes pending. */
  method Burst(dev: DeviceData, frames: int, ghost job: Job, ghost log: seq<Batch>, ghost top: FifoLog,
               timestamp: int, periodNs: int)
    returns (ret: int, framesAfter: int, ghost more: seq<Batch>)
    requires dev.Valid() && dev.pendingFrames == 0
    requires frames == dev.chip.log.Frames() && 0 < frames
    requires Draining(job, dev.Now(), log) && !job.start.oflow && timestamp == job.trigger && periodNs == job.period
    requires job.start.Visible() ==> !top.over
    modifies dev`pendingFrames, dev`pendingPos, dev`pendingBaseTs, dev`pendingPeriodNs, dev`pendingFrom,
      dev`burstReadCount, dev`ledger, dev`hazards, dev.chip, dev.burst
    ensures dev.Valid()
    ensures ret == 0 || ret == -EIO
    ensures Progress(job, dev.Now(), more) && Accounts(job, dev.Now(), more)
    ensures dev.chip.faults == old(dev.chip.faults) + (if ret == -EIO then 1 else 0)
    ensures dev.burstReadCount == old(dev.burstReadCount) + 1
         || (ret != 0 && dev.burstReadCount == old(dev.burstReadCount))
    ensures dev.ledger.lost == old(dev.ledger.lost) + if ret != 0 && dev.burstReadCount != old(dev.burstReadCount)
                                                      then BurstSize(frames) else 0
    ensures ret == 0 ==> dev.ledger == old(dev.ledger) && (old(dev.chip.log).over ==> dev.chip.log.over)
    ensures old(dev.chip.log).overruns <= dev.chip.log.overruns
    ensures dev.chip.oflow == (old(dev.chip.oflow) || dev.chip.log.overruns > old(dev.chip.log).overruns)
    ensures if ret == -EIO then more == log && dev.pendingFrames == 0 else Extends(log, more, framesAfter)
    ensures ret == 0 ==> framesAfter == dev.chip.log.Frames()
  {
    hide FifoLog.Contents, FifoLog.Ok, OrderedWrites, Progress, Accounts, Draining, BurstStep, DeviceData.Committed,
      DeviceData.Origins;
    more := log;
    ghost var counted := dev.Now();
    ghost var out, at;
    ret, framesAfter, out, at := Take(dev, timestamp, periodNs, frames);
    ghost var taken := dev.Now();
    BurstStepFields(counted, taken, frames, ret, out, at);
    if ret < 0 {
      LostProgress(job, counted, taken, log, frames, at);
      return;
    }
    ghost var b := out.value;
    dev.hazards := dev.hazards + Hazard(top, at);
    more := log + [b];
    BurstProgress(job, top, counted, taken, log, ret, b, at);
    BurstKeepsAccount(job, counted, taken, log, ret, b, at);
    AccountsHazard(job, taken, dev.Now(), more);
  }

  lemma AccountsHazard(job: Job, s: Snapshot, s': Snapshot, batches: seq<Batch>)
    requires Accounts(job, s, batches) && s' == s.(hazards := s'.hazards)
    ensures Accounts(job, s', batches)
  {}

  /**
   * Burst and push in the middle of a drain that took `log` so far; `top` was the history at the overflow
   * check. `more` is `log` and the new burst, if the bus delivered it.
   */
  method TakeAndPush(dev: DeviceData, frames: int, ghost job: Job, ghost log: seq<Batch>, ghost top: FifoLog,
                     timestamp: int, periodNs: int)
    returns (ret: int, framesAfter: int, ghost more: seq<Batch>)
    requires dev.Valid() && dev.pendingFrames == 0
    requires frames == dev.chip.log.Frames() && 0 < frames
    requires Draining(job, dev.Now(), log) && !job.start.oflow && timestamp == job.trigger && periodNs == job.period
    requires (job.start.Visible() ==> !top.over) && |log| < MAX_LOOPS
    modifies dev`pendingFrames, dev`pendingPos, dev`pendingBaseTs, dev`pendingPeriodNs, dev`pendingFrom,
      dev`burstPushFailCount, dev`burstReadCount, dev`ledger, dev`hazards, dev.chip, dev.iio, dev.burst
    ensures dev.Valid()
    ensures ret == 0 || ret == -EIO || ret == -EBUSY
    ensures Progress(job, dev.Now(), more) && Accounts(job, dev.Now(), more)
    ensures ret != -EBUSY ==> dev.pendingFrames == 0
    ensures ret == 0 ==> framesAfter == dev.chip.log.Frames()
    ensures |more| == if ret == -EIO then |log| else |log| + 1
    ensures dev.burstPushFailCount == old(dev.burstPushFailCount) + if ret == -EBUSY then 1 else 0
    ensures dev.burstReadCount == old(dev.burstReadCount) + 1
         || (ret == -EIO && dev.burstReadCount == old(dev.burstReadCount))
    ensures dev.ledger.lost == old(dev.ledger.lost) + if ret == -EIO && dev.burstReadCount > old(dev.burstReadCount)
                                                      then BurstSize(frames) else 0
    ensures ret < 0 ==> EndsWith(job, dev.Now(), more, ret, Failed)
    ensures ret == 0 && job.Below(framesAfter) ==> EndsWith(job, dev.Now(), more, 0, Below)
    ensures ret == 0 && |more| == MAX_LOOPS ==> EndsWith(job, dev.Now(), more, 0, BurstLimit)
    ensures ret == 0 && !job.Below(framesAfter) ==> Draining(job, dev.Now(), more)
  {
    hide FifoLog.Contents, FifoLog.Ok, OrderedWrites, Progress, Accounts, Draining, EndsWith, PushStep,
      BelowThreshold, DeviceData.Committed, DeviceData.Origins;
    ghost var counted := dev.Now();
    ret, framesAfter, more := Burst(dev, frames, job, log, top, timestamp, periodNs);
    if ret < 0 {
      EndsAfterBurst(job, counted, dev.Now(), log, log, ret);
      return;
    }
    ghost var taken := dev.Now();
    ret := PushPending(dev);
    PushedProgress(job, taken, dev.Now(), more, ret);
    EndsAfterBurst(job, counted, dev.Now(), log, more, ret);
    if ret == 0 && !job.Below(framesAfter) {
      KeepsDraining(job, counted, dev.Now(), log, more);
    }
  }

  /** The start of a drain: what an earlier one left pending goes first. */
  method Resume(dev: DeviceData, ghost job: Job) returns (ret: int)
    requires dev.Valid() && job.start == dev.Now()
    modifies dev`pendingFrames, dev`pendingPos, dev`pendingBaseTs, dev`pendingPeriodNs, dev`pendingFrom,
      dev`burstPushFailCount, dev.iio
    ensures dev.Valid()
    ensures ret == 0 || ret == -EBUSY
    ensures Progress(job, dev.Now(), []) && Accounts(job, dev.Now(), [])
    ensures ret == 0 ==> dev.pendingFrames == 0 && Draining(job, dev.Now(), [])
    ensures ret != 0 ==> EndsWith(job, dev.Now(), [], ret, Failed)
    ensures dev.burstPushFailCount == old(dev.burstPushFailCount) + if ret == -EBUSY then 1 else 0
  {
    hide FifoLog.Contents, FifoLog.Ok, OrderedWrites, Progress, Accounts, Draining, EndsWith, DeviceData.Committed,
      DeviceData.Origins;
    ret := 0;
    AcceptedPart(dev);
    if dev.pendingFrames > 0 {
      ret := PushPending(dev);
    }
    DrainStarts(job, dev.Now(), ret);
  }

  /**
   * One turn of the loop of icm20602_fifo_drain: look, and if there is enough, take a burst and push it;
   * `last` says that it is the turn after which the loop gives up. `log` is the bursts before it.
   */
  method Turn(dev: DeviceData, timestamp: int, periodNs: int, watermark: int, force: bool, last: bool,
              ghost job: Job, ghost log: seq<Batch>)
    returns (ret: int, done: bool, ghost more: seq<Batch>, ghost end: DrainEnd, ghost cut: int)
    requires dev.Valid() && dev.pendingFrames == 0
    requires job == Job(job.start, timestamp, periodNs, watermark, force) && Draining(job, dev.Now(), log)
    requires |log| < MAX_LOOPS && last == (|log| == MAX_LOOPS - 1)
    requires IsWatermark(watermark)
    modifies dev`fifoEnabled, dev`pendingFrames, dev`pendingPos, dev`pendingBaseTs, dev`pendingPeriodNs,
      dev`pendingFrom, dev`burstPushFailCount, dev`burstReadCount, dev`overflowCount, dev`ledger, dev`hazards, dev.chip,
      dev.iio, dev.burst
    ensures dev.Valid()
    ensures ret != -EBUSY ==> dev.pendingFrames == 0
    ensures if done
            then Progress(job, dev.Now(), more) && Accounts(job, dev.Now(), more)
                 && EndsWith(job, dev.Now(), more, ret, end)
            else ret == 0 && !last && cut == 0 && |more| == |log| + 1 && Draining(job, dev.Now(), more)
    ensures cut > 0 ==> ret == -EIO && !job.Below(cut)
    ensures dev.burstPushFailCount == old(dev.burstPushFailCount) + if ret == -EBUSY then 1 else 0
    ensures dev.burstReadCount == old(dev.burstReadCount) + (|more| - |log|) + if cut > 0 then 1 else 0
    ensures dev.ledger.lost == old(dev.ledger.lost) + if cut > 0 then BurstSize(cut) else 0
  {
    hide FifoLog.Contents, FifoLog.Ok, FifoLog.Frames, OrderedWrites, QuietFrom, SourcesOn, FifoOn, BurstSize,
      Progress, Accounts, Draining, EndsWith, PushStep, LookStep, DeviceData.Committed, DeviceData.Origins;
    more, end, cut, done := log, Failed, 0, true;
    ghost var top := dev.Now();
    var frames;
    ret, frames := Look(dev);
    LookProgress(job, top, dev.Now(), log, ret, frames);
    EndsAtLook(job, top, dev.Now(), log, ret, frames);
    if ret < 0 {
      return;
    }
    if ret > 0 {
      end := Recovered;
      ret := 0;
      return;
    }
    if frames == 0 || (!force && frames < watermark) {
      end := Below;
      return;
    }
    var framesAfter;
    ret, framesAfter, more := TakeAndPush(dev, frames, job, log, top.log, timestamp, periodNs);
    if ret < 0 {
      cut := if dev.burstReadCount > old(dev.burstReadCount) && ret == -EIO then frames else 0;
      return;
    }
    assert dev.pendingFrames == 0;  // so the -EBUSY branch of the driver is dead
    if BelowThreshold(framesAfter, watermark, force) {
      end := Below;
      return;
    }
    if last {
      end := BurstLimit;
      return;
    }
    done := false;
  }

  /**
   * icm20602_fifo_drain. `log` is the bursts it took, `end` how it ended. Whatever happens, what was
   * committed before and then every burst once, in order, is what is committed afterwards. Frames are
   * lost if and only if a burst was read and the count re-read after it failed: then `cut` whole frames
   * had been counted before it, and what is lost is that one burst.
   */
  method Run(dev: DeviceData, timestamp: int, force: bool)
    returns (ret: int, ghost log: seq<Batch>, ghost end: DrainEnd, ghost cut: int)
    requires dev.Valid()
    modifies dev`fifoEnabled, dev`pendingFrames, dev`pendingPos, dev`pendingBaseTs, dev`pendingPeriodNs,
      dev`pendingFrom, dev`burstPushFailCount, dev`burstReadCount, dev`overflowCount, dev`ledger, dev`hazards, dev.chip,
      dev.iio, dev.burst
    ensures dev.Valid()
    ensures var job := JobFor(dev, old(dev.Now()), timestamp, force);
      && Progress(job, dev.Now(), log) && Accounts(job, dev.Now(), log) && EndsWith(job, dev.Now(), log, ret, end)
      && (cut > 0 ==> ret == -EIO && !job.Below(cut))
    ensures IsPeriod(JobFor(dev, old(dev.Now()), timestamp, force).period, dev.samplingFrequency)
    ensures ret != -EBUSY ==> dev.pendingFrames == 0
    ensures dev.burstPushFailCount == old(dev.burstPushFailCount) + if ret == -EBUSY then 1 else 0
    ensures dev.burstReadCount == old(dev.burstReadCount) + |log| + if cut > 0 then 1 else 0
    ensures dev.ledger.lost == old(dev.ledger.lost) + if cut > 0 then BurstSize(cut) else 0
  {
    hide FifoLog.Contents, FifoLog.Ok, OrderedWrites, QuietFrom, SourcesOn, FifoOn, PeriodNs, IsPeriod, BurstSize,
      Progress, Accounts, Draining, EndsWith, DeviceData.Committed, DeviceData.Origins;
    log, end, cut := [], Failed, 0;
    PeriodOf(dev.samplingFrequency);
    var periodNs := PeriodNs(dev.samplingFrequency);
    var watermark := WatermarkClamp(dev.fifoWatermark);
    ghost var job := Job(dev.Now(), timestamp, periodNs, watermark, force);
    ret := Resume(dev, job);
    if ret < 0 {
      return;
    }
    var loops, done := 0, false;
    while !done
      invariant dev.Valid() && (ret != -EBUSY ==> dev.pendingFrames == 0)
      invariant if done
                then Progress(job, dev.Now(), log) && Accounts(job, dev.Now(), log)
                     && EndsWith(job, dev.Now(), log, ret, end)
                else ret == 0 && 0 <= loops < MAX_LOOPS && |log| == loops && cut == 0 && Draining(job, dev.Now(), log)
      invariant cut > 0 ==> ret == -EIO && !job.Below(cut)
      invariant dev.burstPushFailCount == old(dev.burstPushFailCount) + if ret == -EBUSY then 1 else 0
      invariant dev.burstReadCount == old(dev.burstReadCount) + |log| + if cut > 0 then 1 else 0
      invariant dev.ledger.lost == old(dev.ledger.lost) + if cut > 0 then BurstSize(cut) else 0
      decreases if done then 0 else MAX_LOOPS - loops
    {
      loops := loops + 1;
      ret, done, log, end, cut := Turn(dev, timestamp, periodNs, watermark, force, loops >= MAX_LOOPS, job, log);
    }
  }

  /** The drain a call with these arguments is, on a device found at `start`. */
  ghost function JobFor(dev: DeviceData, start: Snapshot, timestamp: int, force: bool): Job
    reads dev
  {
    Job(start, timestamp, PeriodNs(dev.samplingFrequency), WatermarkClamp(dev.fifoWatermark), force)
  }
}
