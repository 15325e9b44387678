/** The driver's private data and the invariants every callback keeps. */
module Device {
  import opened Chip
  import opened Delivery
  import opened FifoLogs
  import opened Frames
  import opened Iio
  import opened Ledgers
  import opened Registers
  import opened Rates

  datatype Option<+T> = None | Some(value: T)

  datatype Trigger = DataReady | FifoWatermark | External(id: nat)

  const DRAIN_MAX_FRAMES: nat := 64
  const WATERMARK_MIN: int := 1
  const WATERMARK_MAX: int := 73
  const WATERMARK_DEFAULT: int := 16

  /** What the drain's contracts speak about, taken at one instant. */
  datatype Snapshot = Snapshot(log: FifoLog, oflow: bool, regs: seq<bv8>, writes: seq<RegWrite>,
                               faults: nat, refusals: nat, overflowCount: nat, hazards: nat, ledger: Ledger,
                               fifoEnabled: bool, accepted: seq<Scan>, committed: seq<Scan>, origins: seq<Origin>) {

    /** Every overflow since the last reset still shows in INT_STATUS. */
    ghost predicate Visible() {
      log.over ==> oflow
    }

    /** Exactly-once, in-order delivery so far. */
    ghost predicate Delivers() {
      Faithful(committed, origins, log)
    }

    /** Every frame written since the last FIFO reset is accounted for. */
    ghost predicate Conserves() {
      Conserved(origins, |accepted|, log, ledger, fifoEnabled)
    }

    /** Nothing is pending. */
    ghost predicate Idle() {
      |accepted| == |origins|
    }

    ghost predicate Ok() {
      log.Ok() && IsRegisterFile(regs)
    }
  }

  /** Between the snapshots neither an overflow bit nor a recovery appeared out of nothing. */
  ghost predicate Caused(s: Snapshot, s': Snapshot) {
    && s.log.overruns <= s'.log.overruns && s.overflowCount <= s'.overflowCount
    && (s'.oflow || s'.overflowCount > s.overflowCount ==> s.oflow || s'.log.overruns > s.log.overruns)
  }

  ghost predicate Matching(regs: seq<bv8>, rate: int, accelIdx: int, gyroIdx: int)
    requires IsRegisterFile(regs)
  {
    && rate == RealRate(regs[SMPLRT_DIV] as int)
    && ScaleIndex(regs[ACCEL_CONFIG]) == accelIdx
    && ScaleIndex(regs[GYRO_CONFIG]) == gyroIdx
  }

  /** The settings the driver keeps: rate, scale indices and watermark. */
  datatype Cache = Cache(rate: int, accelIdx: int, gyroIdx: int, watermark: int)

  class DeviceData {
    const chip: Icm20602
    const iio: IioBuffer
    const trig: Option<Trigger>       // the data-ready trigger, if the device has an interrupt
    const fifoTrig: Option<Trigger>   // the FIFO watermark trigger, likewise
    const burst: array<SensorData>

    var accelScaleIdx: int
    var gyroScaleIdx: int
    var samplingFrequency: int
    var bufferEnabled: bool
    var fifoEnabled: bool
    var fifoWatermark: int
    var overflowCount: nat
    var drdyTriggerEnabled: bool
    var fifoWmTriggerEnabled: bool
    var pendingFrames: int
    var pendingPos: int
    var pendingBaseTs: int
    var pendingPeriodNs: int
    var burstReadCount: nat
    var burstPushFailCount: nat
    ghost var pendingFrom: seq<Origin>   // origins of burst[..pendingFrames]
    ghost var hazards: nat               // bursts with an overflow between check and read
    ghost var ledger: Ledger             // frames lost, and what was committed at the last FIFO reset

    /** Zeroed private data, as probe allocates it; the triggers exist if there is an interrupt. */
    constructor (chip: Icm20602, iio: IioBuffer, hasIrq: bool)
      ensures this.chip == chip && this.iio == iio && fresh(burst) && burst.Length == DRAIN_MAX_FRAMES
      ensures trig == (if hasIrq then Some(DataReady) else None)
      ensures fifoTrig == (if hasIrq then Some(FifoWatermark) else None)
      ensures pendingFrames == 0 && pendingPos == 0 && pendingFrom == [] && hazards == 0 && ledger == Ledger(0, 0, [])
      ensures !bufferEnabled && !fifoEnabled && !drdyTriggerEnabled && !fifoWmTriggerEnabled
    {
      this.chip, this.iio := chip, iio;
      trig := if hasIrq then Some(DataReady) else None;
      fifoTrig := if hasIrq then Some(FifoWatermark) else None;
      var zero := Be16(0, 0);
      burst := new SensorData[DRAIN_MAX_FRAMES](_ => SensorData(zero, zero, zero, zero, zero, zero, zero));
      accelScaleIdx, gyroScaleIdx, samplingFrequency := 0, 0, 0;
      bufferEnabled, fifoEnabled, drdyTriggerEnabled, fifoWmTriggerEnabled := false, false, false, false;
      fifoWatermark, overflowCount := 0, 0;
      pendingFrames, pendingPos, pendingBaseTs, pendingPeriodNs := 0, 0, 0, 0;
      burstReadCount, burstPushFailCount := 0, 0;
      pendingFrom, hazards, ledger := [], 0, Ledger(0, 0, []);
    }

    ghost predicate Valid()
      reads this, chip, iio, burst
    {
      && chip.Valid() && chip.Ordered()
      && iio.Valid()
      && PendingOk()
      && WATERMARK_MIN <= fifoWatermark <= WATERMARK_MAX
    }

    /** The burst buffer holds burst[pos..frames] for the IIO buffer. */
    ghost predicate PendingOk()
      reads this`pendingFrames, this`pendingPos, this`pendingFrom
    {
      && burst.Length == DRAIN_MAX_FRAMES
      && 0 <= pendingPos <= pendingFrames <= DRAIN_MAX_FRAMES
      && |pendingFrom| == pendingFrames && FromRegisters !in pendingFrom
    }

    /** Scans popped from the hardware but not yet accepted by the IIO buffer. */
    ghost function Pending(): seq<Scan>
      reads this`pendingFrames, this`pendingPos, this`pendingFrom, this`pendingBaseTs, this`pendingPeriodNs, burst
      requires PendingOk()
    {
      BurstScans(burst[..pendingFrames], pendingBaseTs, pendingPeriodNs)[pendingPos..]
    }

    /** Everything the IIO buffer accepted, then everything it still has to be offered. */
    ghost function Committed(): seq<Scan>
      reads this`pendingFrames, this`pendingPos, this`pendingFrom, this`pendingBaseTs, this`pendingPeriodNs, burst, iio
      requires PendingOk()
    {
      iio.scans + Pending()
    }

    ghost function Origins(): seq<Origin>
      reads this`pendingFrames, this`pendingPos, this`pendingFrom, iio
      requires PendingOk()
    {
      iio.origins + pendingFrom[pendingPos..]
    }

    ghost function Now(): (s: Snapshot)
      reads this, chip, iio, burst
      requires Valid()
      ensures s.Ok()
    {
      Snapshot(chip.log, chip.oflow, chip.regs, chip.writes, chip.faults, iio.refusals,
               overflowCount, hazards, ledger, fifoEnabled, iio.scans, Committed(), Origins())
    }

    function Cached(): Cache
      reads this
    {
      Cache(samplingFrequency, accelScaleIdx, gyroScaleIdx, fifoWatermark)
    }

    /** The cached settings are what the registers hold. */
    ghost predicate SettingsMatch()
      reads this, chip
      requires IsRegisterFile(chip.regs)
    {
      Matching(chip.regs, samplingFrequency, accelScaleIdx, gyroScaleIdx)
    }
  }

  lemma NoBurst(frames: seq<SensorData>, base: int, period: int)
    requires frames == []
    ensures BurstScans(frames, base, period) == []
  {}

  lemma EmptyTail<T>(s: seq<T>, all: seq<T>, i: nat)
    requires s == [] && i == 0
    ensures s[i..] == [] && all + s[i..] == all
  {}

  lemma NothingPending(dev: DeviceData)
    requires dev.Valid() && dev.pendingFrames == 0
    ensures dev.Committed() == dev.iio.scans && dev.Origins() == dev.iio.origins
  {
    hide Icm20602.Valid, Icm20602.Ordered, OrderedWrites, QuietFrom, BurstScans;
    NoBurst(dev.burst[..0], dev.pendingBaseTs, dev.pendingPeriodNs);
    EmptyTail(BurstScans(dev.burst[..0], dev.pendingBaseTs, dev.pendingPeriodNs), dev.iio.scans, dev.pendingPos);
    EmptyTail(dev.pendingFrom, dev.iio.origins, dev.pendingPos);
  }

  lemma NothingPendingNow(dev: DeviceData)
    requires dev.Valid() && dev.pendingFrames == 0
    ensures dev.Now().Idle() && dev.Now().accepted == dev.Now().committed
  {
    hide Icm20602.Valid, Icm20602.Ordered, OrderedWrites, QuietFrom, DeviceData.Committed, DeviceData.Origins;
    NothingPending(dev);
  }

  /** What the IIO buffer already accepted does not depend on what is pending. */
  lemma AcceptedPart(dev: DeviceData)
    requires dev.Valid()
    ensures |dev.Origins()| == |dev.iio.scans| + (dev.pendingFrames - dev.pendingPos) >= |dev.iio.scans|
    ensures dev.iio.scans <= dev.Committed() && dev.iio.origins == dev.Origins()[..|dev.iio.scans|]
    ensures dev.Origins()[|dev.iio.scans|..] == dev.pendingFrom[dev.pendingPos..]
  {}
}
