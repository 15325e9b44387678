/** Rate, full-scale and watermark settings, and device initialisation. */
module Settings {
  import opened Chip
  import opened Device
  import opened DrainSpec
  import opened Errno
  import opened FifoControl
  import opened FifoLogs
  import opened Ledgers
  import opened ModeSpec
  import opened Rates
  import opened RegisterBytes
  import opened Registers

  datatype ChannelType = AccelChannel | GyroChannel | OtherChannel
  datatype InfoMask = ScaleInfo | SampFreqInfo | OtherInfo

  /** Some entry of the table has the micro scale `uscale`. */
  predicate Offers(table: seq<ScaleEntry>, uscale: int) {
    exists i :: 0 <= i < |table| && table[i].uscale == uscale
  }

  /** The registers of rate and full-scale ranges. */
  const SETTING_REGISTERS: set<nat> := {SMPLRT_DIV, GYRO_CONFIG, ACCEL_CONFIG}

  /** A setting call: of registers and driver state nothing but rate and ranges may change. */
  ghost predicate SettingStep(s: Snapshot, s': Snapshot) {
    && s.Ok() && s'.Ok()
    && s'.accepted == s.accepted && s'.committed == s.committed && s'.origins == s.origins
    && s'.refusals == s.refusals && s'.overflowCount == s.overflowCount && s'.hazards == s.hazards
    && s'.fifoEnabled == s.fifoEnabled && s'.ledger == s.ledger
    && s.faults <= s'.faults && s.writes <= s'.writes
    && s.log.Grew(s'.log) && s.log.Later(s'.log)
    && (s.Conserves() ==> s'.Conserves())
    && (s.Visible() ==> s'.Visible()) && Caused(s, s')
    && KeepsQuiet(s.writes, s'.writes)
    && OnlyChanged(s.regs, s'.regs, SETTING_REGISTERS)
  }

  lemma SettingGrows(s: Snapshot, s': Snapshot)
    requires s.Ok() && s'.Ok() && s.log.Grew(s'.log)
    requires s' == s.(log := s'.log, oflow := s'.oflow, regs := s'.regs, writes := s'.writes, faults := s'.faults)
    requires s'.oflow == (s.oflow || s'.log.overruns > s.log.overruns)
    requires s.faults <= s'.faults && s.writes <= s'.writes && KeepsQuiet(s.writes, s'.writes)
    requires OnlyChanged(s.regs, s'.regs, SETTING_REGISTERS)
    ensures SettingStep(s, s')
  {
    EvolvedIsLater(s.log, s'.log, false, false);
    if s.Conserves() {
      ConservedGrows(s.origins, |s.accepted|, s.log, s'.log, s.ledger, s.fifoEnabled);
    }
  }

  /** Entry `idx` of the table has the micro scale, and bits 4:3 of the register select it. */
  predicate Selected(table: seq<ScaleEntry>, idx: int, uscale: int, reg: bv8) {
    0 <= idx < |table| && table[idx].uscale == uscale && reg & 0x18 == table[idx].regval
  }

  /**
   * What an accepted request does: the driver's bits of one register and one cached value take the rate or the
   * range asked for, and nothing else moves.
   */
  ghost predicate Wrote(chan: ChannelType, val: int, val2: int, mask: InfoMask, before: seq<bv8>, after: seq<bv8>,
                        cached: Cache, cached': Cache)
    requires IsRegisterFile(before) && IsRegisterFile(after)
  {
    match mask
    case SampFreqInfo =>
      && OnlyChanged(before, after, {SMPLRT_DIV}) && cached' == cached.(rate := cached'.rate)
      && LargestDivider(val, after[SMPLRT_DIV] as int) && IsRate(cached'.rate, after[SMPLRT_DIV] as int)
    case ScaleInfo =>
      if chan == AccelChannel then
        && OnlyChanged(before, after, {ACCEL_CONFIG}) && cached' == cached.(accelIdx := cached'.accelIdx)
        && Selected(ACCEL_SCALES, cached'.accelIdx, val2, after[ACCEL_CONFIG])
      else
        && OnlyChanged(before, after, {GYRO_CONFIG}) && cached' == cached.(gyroIdx := cached'.gyroIdx)
        && Selected(GYRO_SCALES, cached'.gyroIdx, val2, after[GYRO_CONFIG])
    case OtherInfo => false
  }

  /** Writing a table entry under the scale mask selects that entry and leaves the other bits alone. */
  lemma ScaleMerged(o: bv8, table: seq<ScaleEntry>, i: int)
    requires (table == ACCEL_SCALES || table == GYRO_SCALES) && 0 <= i < |table|
    ensures ScaleIndex(Merge(o, SCALE_MASK, table[i].regval)) == i
    ensures Updated(o, Merge(o, SCALE_MASK, table[i].regval), SCALE_MASK, table[i].regval)
    ensures Merge(o, SCALE_MASK, table[i].regval) & 0x18 == table[i].regval
  {}

  /** The loop of set_accel_scale and set_gyro_scale over one table and one register. */
  method SetScale(dev: DeviceData, addr: nat, table: seq<ScaleEntry>, val: int, val2: int) returns (ret: int, idx: int)
    requires dev.Valid()
    requires (addr == ACCEL_CONFIG && table == ACCEL_SCALES) || (addr == GYRO_CONFIG && table == GYRO_SCALES)
    modifies dev.chip
    ensures dev.Valid()
    ensures SettingStep(old(dev.Now()), dev.Now())
    ensures ret == -EINVAL <==> val != 0 || !Offers(table, val2)
    ensures ret == -EINVAL ==> dev.Now() == old(dev.Now())
    ensures ret == 0 || ret == -EINVAL || ret == -EIO
    ensures ret == 0 ==> Selected(table, idx, val2, dev.chip.regs[addr]) && ScaleIndex(dev.chip.regs[addr]) == idx
    ensures ret == 0 ==> OnlyChanged(old(dev.chip.regs), dev.chip.regs, {addr})
    ensures ret == 0 ==> Updated(old(dev.chip.regs)[addr], dev.chip.regs[addr], SCALE_MASK, table[idx].regval)
    ensures ret != 0 ==> dev.chip.regs == old(dev.chip.regs)
    ensures ret != -EIO ==> dev.chip.faults == old(dev.chip.faults)
  {
    hide FifoLog.Contents, FifoLog.Ok, OrderedWrites, QuietFrom, SettingStep, DeviceData.Committed,
      DeviceData.Origins, Merge, Updated, ScaleIndex, Collecting, SourcesOn, FifoOn, DataReadyOn, OverflowIrqOn,
      Threshold;
    SettingStepRefl(dev.Now());
    idx := 0;
    if val != 0 {
      return -EINVAL, 0;
    }
    for i := 0 to |table|
      invariant forall k :: 0 <= k < i ==> table[k].uscale != val2
      invariant dev.Now() == old(dev.Now()) && dev.Valid()
    {
      if val2 == table[i].uscale {
        ScaleMerged(dev.chip.regs[addr], table, i);
        ret := UpdateOther(dev, addr, SCALE_MASK, table[i].regval);
        OnlyChangedWiden(old(dev.chip.regs), dev.chip.regs, {addr}, SETTING_REGISTERS);
        SettingGrows(old(dev.Now()), dev.Now());
        return ret, i;
      }
    }
    return -EINVAL, 0;
  }

  /** icm20602_set_sampling_frequency. */
  method SetSamplingFrequency(dev: DeviceData, val: int) returns (ret: int)
    requires dev.Valid()
    modifies dev.chip, dev`samplingFrequency
    ensures dev.Valid()
    ensures SettingStep(old(dev.Now()), dev.Now())
    ensures ret == -EINVAL <==> !(4 <= val <= 1000)
    ensures ret == -EINVAL ==> dev.Now() == old(dev.Now())
    ensures ret == 0 || ret == -EINVAL || ret == -EIO
    ensures ret == 0 ==>
      && LargestDivider(val, dev.chip.regs[SMPLRT_DIV] as int)
      && IsRate(dev.samplingFrequency, dev.chip.regs[SMPLRT_DIV] as int)
      && dev.samplingFrequency == RealRate(dev.chip.regs[SMPLRT_DIV] as int)
      && OnlyChanged(old(dev.chip.regs), dev.chip.regs, {SMPLRT_DIV})
    ensures ret != 0 ==> dev.chip.regs == old(dev.chip.regs) && dev.samplingFrequency == old(dev.samplingFrequency)
    ensures ret != -EIO ==> dev.chip.faults == old(dev.chip.faults)
  {
    hide LargestDivider, IsRate, FifoLog.Contents, FifoLog.Ok, OrderedWrites, QuietFrom, SettingStep, SourcesOn,
      FifoOn, DataReadyOn, OverflowIrqOn, Threshold, OnlyChanged, DeviceData.Committed, DeviceData.Origins,
      Icm20602.Valid;
    SettingStepRefl(dev.Now());
    if val <= 0 || val > 1000 {
      return -EINVAL;
    }
    DividerFits(val);
    var div := 1000 / val - 1;
    if div < 0 || div > 255 {
      return -EINVAL;
    }
    var realHz := 1000 / (div + 1);
    DividerOf(val);
    ret := WriteDivider(dev, div);
    if ret != 0 {
      return;
    }
    dev.samplingFrequency := realHz;
  }

  /** The sample rate divider is programmed, or nothing changes. */
  method WriteDivider(dev: DeviceData, div: int) returns (ret: int)
    requires dev.Valid() && 0 <= div <= 255
    modifies dev.chip
    ensures dev.Valid()
    ensures SettingStep(old(dev.Now()), dev.Now())
    ensures ret == 0 || (ret == -EIO && dev.chip.regs == old(dev.chip.regs))
    ensures ret == 0 ==>
      && dev.chip.regs[SMPLRT_DIV] as int == div && OnlyChanged(old(dev.chip.regs), dev.chip.regs, {SMPLRT_DIV})
      && dev.chip.faults == old(dev.chip.faults)
  {
    hide FifoLog.Contents, FifoLog.Ok, OrderedWrites, QuietFrom, SettingStep, SourcesOn, FifoOn, DataReadyOn,
      OverflowIrqOn, Threshold, DeviceData.Committed, DeviceData.Origins;
    ByteRoundTrip(div);
    ret := WriteOther(dev, SMPLRT_DIV, div as bv8);
    OnlyChangedWiden(old(dev.chip.regs), dev.chip.regs, {SMPLRT_DIV}, SETTING_REGISTERS);
    SettingGrows(old(dev.Now()), dev.Now());
  }

  /**
   * icm20602_write_raw. `enabled` is iio_buffer_enabled and `claim` what iio_device_claim_direct_mode
   * returned. Whatever is asked and wherever the bus fails, the cached settings are what the registers
   * hold; nothing changes while the buffer is enabled; and an accepted request changes what was asked for,
   * as asked, and nothing else.
   */
  method WriteRaw(dev: DeviceData, enabled: bool, claim: int, chan: ChannelType, val: int, val2: int, mask: InfoMask)
    returns (ret: int)
    requires dev.Valid() && dev.SettingsMatch()
    modifies dev.chip, dev`accelScaleIdx, dev`gyroScaleIdx, dev`samplingFrequency
    ensures dev.Valid() && dev.SettingsMatch()
    ensures SettingStep(old(dev.Now()), dev.Now())
    ensures enabled ==> ret == -EBUSY
    ensures !enabled && claim != 0 ==> ret == claim
    ensures enabled || claim != 0 || ret == -EINVAL ==> dev.Now() == old(dev.Now())
    ensures enabled || claim != 0 || ret != 0 ==>
      dev.chip.regs == old(dev.chip.regs) && dev.Cached() == old(dev.Cached())
    ensures !enabled && claim == 0 ==> (ret == -EINVAL <==> !Supported(chan, val, val2, mask))
    ensures !enabled && claim == 0 && ret == 0 ==>
      Wrote(chan, val, val2, mask, old(dev.chip.regs), dev.chip.regs, old(dev.Cached()), dev.Cached())
  {
    hide FifoLog.Contents, FifoLog.Ok, DeviceData.Committed, DeviceData.Origins, SettingStep, RealRate,
      LargestDivider, IsRate, Selected, Updated, ScaleIndex, DriverBits, Threshold, Icm20602.Valid, Icm20602.Ordered,
      Conserved, QuietFrom, Offers;
    SettingStepRefl(dev.Now());
    if enabled {
      return -EBUSY;
    }
    if claim != 0 {
      return claim;
    }
    match mask {
      case ScaleInfo =>
        var idx;
        match chan {
          case AccelChannel =>
            ret, idx := SetScale(dev, ACCEL_CONFIG, ACCEL_SCALES, val, val2);
            if ret == 0 {
              dev.accelScaleIdx := idx;
            }
          case GyroChannel =>
            ret, idx := SetScale(dev, GYRO_CONFIG, GYRO_SCALES, val, val2);
            if ret == 0 {
              dev.gyroScaleIdx := idx;
            }
          case OtherChannel =>
            ret := -EINVAL;
        }
      case SampFreqInfo =>
        if val2 != 0 {
          ret := -EINVAL;
        } else {
          ret := SetSamplingFrequency(dev, val);
        }
      case OtherInfo =>
        ret := -EINVAL;
    }
  }

  lemma SettingStepRefl(s: Snapshot)
    requires s.Ok()
    ensures SettingStep(s, s)
  {}

  /** The requests write_raw understands. */
  predicate Supported(chan: ChannelType, val: int, val2: int, mask: InfoMask) {
    match mask
    case ScaleInfo =>
      && val == 0
      && ((chan == AccelChannel && Offers(ACCEL_SCALES, val2)) || (chan == GyroChannel && Offers(GYRO_SCALES, val2)))
    case SampFreqInfo => val2 == 0 && 4 <= val <= 1000
    case OtherInfo => false
  }

  /** What kstrtoint makes of the text written to fifo_watermark. */
  datatype ParsedInt = Number(value: int) | Malformed | OutOfRange

  /** icm20602_fifo_watermark_store. */
  method FifoWatermarkStore(dev: DeviceData, parsed: ParsedInt, len: nat) returns (ret: int)
    requires dev.Valid()
    modifies dev`fifoWatermark
    ensures dev.Valid()
    ensures !parsed.Number? ==> ret == if parsed.Malformed? then -EINVAL else -ERANGE
    ensures parsed.Number? ==> ret == if dev.bufferEnabled then -EBUSY else len
    ensures dev.fifoWatermark ==
      if parsed.Number? && !dev.bufferEnabled then WatermarkClamp(parsed.value) else old(dev.fifoWatermark)
  {
    match parsed {
      case Malformed => return -EINVAL;
      case OutOfRange => return -ERANGE;
      case Number(value) =>
        var watermark := WatermarkClamp(value);
        if dev.bufferEnabled {
          return -EBUSY;
        }
        dev.fifoWatermark := watermark;
        return len;
    }
  }

  /** struct icm20602_config, as the device tree left it. */
  datatype Config = Config(pwrMgmt1: bv8, pwrMgmt2: bv8, config: bv8, smplrtDiv: bv8,
                           gyroConfig: bv8, accelConfig: bv8, accelConfig2: bv8)

  /** icm20602_accel_scale_idx_from_reg and its gyroscope twin: the search always finds an entry. */
  method ScaleIdxFromReg(table: seq<ScaleEntry>, reg: bv8) returns (i: int)
    requires table == ACCEL_SCALES || table == GYRO_SCALES
    ensures i == ScaleIndex(reg)
  {
    ScaleBits(reg);
    assert table[0].regval == 0x00 && table[1].regval == 0x08 && table[2].regval == 0x10 && table[3].regval == 0x18;
    for k := 0 to |table|
      invariant forall m :: 0 <= m < k ==> table[m].regval != reg & 0x18
    {
      if table[k].regval == reg & 0x18 {
        return k;
      }
    }
    return -EINVAL;
  }

  /** Programming the configuration leaves FIFO and interrupts alone. */
  ghost predicate Applied(before: seq<bv8>, after: seq<bv8>)
    requires IsRegisterFile(before) && IsRegisterFile(after)
  {
    SameFifo(before, after) && SameInterrupts(before, after)
  }

  lemma AppliedChains(a: seq<bv8>, b: seq<bv8>, c: seq<bv8>)
    requires IsRegisterFile(a) && IsRegisterFile(b) && IsRegisterFile(c)
    requires Applied(a, b) && Applied(b, c)
    ensures Applied(a, c) && Collecting(c) == Collecting(a)
  {}

  /** The writes of icm20602_apply_settings, in order. The last one makes reading INT_STATUS clear it. */
  ghost function ConfigWrites(cfg: Config): (ws: seq<(nat, bv8)>)
    ensures |ws| == 8 && forall w <- ws :: w.0 < REGISTER_COUNT
  {
    [(PWR_MGMT_1, cfg.pwrMgmt1), (PWR_MGMT_2, cfg.pwrMgmt2), (CONFIG, cfg.config), (SMPLRT_DIV, cfg.smplrtDiv),
     (GYRO_CONFIG, cfg.gyroConfig), (ACCEL_CONFIG, cfg.accelConfig), (ACCEL_CONFIG_2, cfg.accelConfig2),
     (INT_PIN_CFG, INT_RD_CLEAR)]
  }

  /** The registers after the first n of those writes. */
  ghost function After(regs: seq<bv8>, cfg: Config, n: nat): (after: seq<bv8>)
    requires IsRegisterFile(regs) && n <= 8
    ensures IsRegisterFile(after)
  {
    if n == 0 then regs else After(regs, cfg, n - 1)[ConfigWrites(cfg)[n - 1].0 := ConfigWrites(cfg)[n - 1].1]
  }

  /** The whole configuration is in place, and reading INT_STATUS clears it. */
  ghost predicate Programmed(regs: seq<bv8>, cfg: Config)
    requires IsRegisterFile(regs)
  {
    && regs[PWR_MGMT_1] == cfg.pwrMgmt1 && regs[PWR_MGMT_2] == cfg.pwrMgmt2 && regs[CONFIG] == cfg.config
    && regs[SMPLRT_DIV] == cfg.smplrtDiv && regs[GYRO_CONFIG] == cfg.gyroConfig
    && regs[ACCEL_CONFIG] == cfg.accelConfig && regs[ACCEL_CONFIG_2] == cfg.accelConfig2
    && regs[INT_PIN_CFG] == INT_RD_CLEAR
  }

  /** The writes go to eight different registers, so all of them are still there at the end. */
  lemma AfterAll(regs: seq<bv8>, cfg: Config)
    requires IsRegisterFile(regs)
    ensures Programmed(After(regs, cfg, 8), cfg)
  {
    var ws := ConfigWrites(cfg);
    forall k | 0 <= k < 8
      ensures After(regs, cfg, 8)[ws[k].0] == ws[k].1
    {
      AfterKeeps(regs, cfg, k, 8);
    }
    assert ws[0].0 == PWR_MGMT_1 && ws[1].0 == PWR_MGMT_2 && ws[2].0 == CONFIG && ws[3].0 == SMPLRT_DIV;
    assert ws[4].0 == GYRO_CONFIG && ws[5].0 == ACCEL_CONFIG && ws[6].0 == ACCEL_CONFIG_2 && ws[7].0 == INT_PIN_CFG;
  }

  lemma Different(cfg: Config, i: nat, j: nat)
    requires i < j < 8
    ensures ConfigWrites(cfg)[i].0 != ConfigWrites(cfg)[j].0
  {}

  lemma {:induction false} AfterKeeps(regs: seq<bv8>, cfg: Config, k: nat, n: nat)
    requires IsRegisterFile(regs) && k < n <= 8
    ensures After(regs, cfg, n)[ConfigWrites(cfg)[k].0] == ConfigWrites(cfg)[k].1
  {
    hide ConfigWrites;
    if k < n - 1 {
      AfterKeeps(regs, cfg, k, n - 1);
      Different(cfg, k, n - 1);
    }
  }

  /** icm20602_apply_settings: `done` of the eight writes went through, in order, and nothing else did. */
  method ApplySettings(chip: Icm20602, cfg: Config) returns (ret: int, ghost done: nat)
    requires chip.Valid() && chip.Ordered() && !Collecting(chip.regs)
    modifies chip
    ensures chip.Valid() && chip.Ordered()
    ensures ret == 0 || ret == -EIO
    ensures chip.faults == old(chip.faults) + if ret == 0 then 0 else 1
    ensures done <= 8 && (ret == 0 <==> done == 8) && chip.regs == After(old(chip.regs), cfg, done)
    ensures Applied(old(chip.regs), chip.regs)
    ensures ret == 0 ==> Programmed(chip.regs, cfg)
    ensures chip.log == old(chip.log) && chip.oflow == old(chip.oflow)
    ensures KeepsQuiet(old(chip.writes), chip.writes)
  {
    hide FifoLog.Contents, FifoLog.Ok, Applied, SourcesOn, FifoOn, Collecting, After, ConfigWrites, Programmed,
      Icm20602.Ordered, QuietFrom, OrderedWrites;
    ghost var regs0 := chip.regs;
    NothingApplied(regs0, cfg);
    AfterAll(regs0, cfg);
    WritesInOrder(cfg);
    ret, done := ApplyFirst(chip, cfg);
    if ret != 0 {
      return;
    }
    ret, done := Configure(chip, ACCEL_CONFIG, cfg.accelConfig, regs0, cfg, 5);
    if ret != 0 {
      return;
    }
    ret, done := Configure(chip, ACCEL_CONFIG_2, cfg.accelConfig2, regs0, cfg, 6);
    if ret != 0 {
      return;
    }
    ret, done := Configure(chip, INT_PIN_CFG, INT_RD_CLEAR, regs0, cfg, 7);
  }

  /** The first five writes. */
  method ApplyFirst(chip: Icm20602, cfg: Config) returns (ret: int, ghost done: nat)
    requires chip.Valid() && chip.Ordered() && !Collecting(chip.regs)
    modifies chip
    ensures chip.Valid() && chip.Ordered() && !Collecting(chip.regs)
    ensures ret == 0 || ret == -EIO
    ensures chip.faults == old(chip.faults) + if ret == 0 then 0 else 1
    ensures done <= 5 && (ret == 0 <==> done == 5) && chip.regs == After(old(chip.regs), cfg, done)
    ensures Applied(old(chip.regs), chip.regs)
    ensures chip.log == old(chip.log) && chip.oflow == old(chip.oflow)
    ensures KeepsQuiet(old(chip.writes), chip.writes)
  {
    hide FifoLog.Contents, FifoLog.Ok, Applied, SourcesOn, FifoOn, Collecting, After, ConfigWrites, Icm20602.Ordered,
      QuietFrom, OrderedWrites;
    ghost var regs0 := chip.regs;
    NothingApplied(regs0, cfg);
    WritesInOrder(cfg);
    ret, done := Configure(chip, PWR_MGMT_1, cfg.pwrMgmt1, regs0, cfg, 0);
    if ret != 0 {
      return;
    }
    ret, done := Configure(chip, PWR_MGMT_2, cfg.pwrMgmt2, regs0, cfg, 1);
    if ret != 0 {
      return;
    }
    ret, done := Configure(chip, CONFIG, cfg.config, regs0, cfg, 2);
    if ret != 0 {
      return;
    }
    ret, done := Configure(chip, SMPLRT_DIV, cfg.smplrtDiv, regs0, cfg, 3);
    if ret != 0 {
      return;
    }
    ret, done := Configure(chip, GYRO_CONFIG, cfg.gyroConfig, regs0, cfg, 4);
  }

  /** A write to a register that steers neither FIFO nor interrupts. */
  lemma Aside(regs0: seq<bv8>, regs: seq<bv8>, addr: nat, value: bv8)
    requires IsRegisterFile(regs0) && IsRegisterFile(regs) && addr < REGISTER_COUNT
    requires addr !in {FIFO_EN, USER_CTRL, INT_ENABLE, FIFO_WM_TH1, FIFO_WM_TH2}
    ensures var after := regs[addr := value];
      && SourcesOn(after) == SourcesOn(regs) && FifoOn(after) == FifoOn(regs) && Collecting(after) == Collecting(regs)
      && (Applied(regs0, regs) ==> Applied(regs0, after))
  {}

  lemma NothingApplied(regs: seq<bv8>, cfg: Config)
    requires IsRegisterFile(regs)
    ensures Applied(regs, regs) && After(regs, cfg, 0) == regs
  {}

  lemma WritesInOrder(cfg: Config)
    ensures var ws := ConfigWrites(cfg);
      && ws[0] == (PWR_MGMT_1, cfg.pwrMgmt1) && ws[1] == (PWR_MGMT_2, cfg.pwrMgmt2) && ws[2] == (CONFIG, cfg.config)
      && ws[3] == (SMPLRT_DIV, cfg.smplrtDiv) && ws[4] == (GYRO_CONFIG, cfg.gyroConfig)
      && ws[5] == (ACCEL_CONFIG, cfg.accelConfig) && ws[6] == (ACCEL_CONFIG_2, cfg.accelConfig2)
      && ws[7] == (INT_PIN_CFG, INT_RD_CLEAR)
  {}

  /** The next configuration write while the FIFO is off; `n` of them have gone through so far. */
  method Configure(chip: Icm20602, addr: nat, value: bv8, ghost regs0: seq<bv8>, ghost cfg: Config, ghost n: nat)
    returns (ret: int, ghost done: nat)
    requires chip.Valid() && chip.Ordered() && !Collecting(chip.regs)
    requires n < 8 && ConfigWrites(cfg)[n] == (addr, value)
    requires addr < REGISTER_COUNT && addr !in {FIFO_EN, USER_CTRL, INT_ENABLE, FIFO_WM_TH1, FIFO_WM_TH2}
    requires IsRegisterFile(regs0) && Applied(regs0, chip.regs) && chip.regs == After(regs0, cfg, n)
    modifies chip
    ensures chip.Valid() && chip.Ordered() && !Collecting(chip.regs)
    ensures ret == 0 || ret == -EIO
    ensures if ret == 0 then chip.faults == old(chip.faults) else chip.faults == old(chip.faults) + 1
    ensures done == (if ret == 0 then n + 1 else n) && chip.regs == After(regs0, cfg, done)
    ensures Applied(regs0, chip.regs)
    ensures chip.log == old(chip.log) && chip.oflow == old(chip.oflow)
    ensures KeepsQuiet(old(chip.writes), chip.writes)
  {
    hide FifoLog.Later, FifoLog.Next, FifoLog.Contents, FifoLog.Ok, QuietFrom, OrderedWrites, ConfigWrites, Applied,
      SourcesOn, FifoOn, Collecting, SameFifo, SameInterrupts, Entry;
    Aside(regs0, chip.regs, addr, value);
    ret := chip.Write(addr, value);
    done := if ret == 0 then n + 1 else n;
  }

  /**
   * icm20602_init_device after the soft reset. On success every run invariant of the driver holds:
   * nothing is enabled, nothing is pending, and the cached settings match the registers.
   */
  method InitDevice(dev: DeviceData, cfg: Config) returns (ret: int)
    requires dev.chip.Valid() && dev.chip.Ordered() && dev.iio.Valid() && dev.burst.Length == DRAIN_MAX_FRAMES
    requires dev.chip.regs == seq(REGISTER_COUNT, _ => 0) && !dev.fifoWmTriggerEnabled
    modifies dev, dev.chip
    ensures ret == 0 || ret == -EIO
    ensures ret == 0 <==> dev.chip.faults == old(dev.chip.faults)
    ensures ret == 0 ==> Initialised(dev) && Programmed(dev.chip.regs, cfg)
    ensures ret == 0 ==> dev.chip.regs == After(old(dev.chip.regs), cfg, 8)
    ensures dev.chip.log == old(dev.chip.log) && dev.chip.oflow == old(dev.chip.oflow)
    ensures dev.hazards == old(dev.hazards) && dev.ledger == old(dev.ledger)
    ensures KeepsQuiet(old(dev.chip.writes), dev.chip.writes)
  {
    hide FifoLog.Contents, FifoLog.Ok, Collecting, SourcesOn, FifoOn, DataReadyOn, OverflowIrqOn, Threshold;
    ZeroRegisters(dev.chip.regs);
    ghost var done;
    ret, done := ApplySettings(dev.chip, cfg);
    if ret == 0 {
      var accelIdx := ScaleIdxFromReg(ACCEL_SCALES, cfg.accelConfig);
      var gyroIdx := ScaleIdxFromReg(GYRO_SCALES, cfg.gyroConfig);
      InitRuntime(dev, cfg, accelIdx, gyroIdx);
    }
  }

  /** The state the driver starts from. */
  ghost predicate Initialised(dev: DeviceData)
    reads dev, dev.chip, dev.iio, dev.burst
  {
    && dev.Valid() && dev.SettingsMatch() && dev.pendingFrames == 0
    && !dev.bufferEnabled && !dev.fifoEnabled && !dev.drdyTriggerEnabled && !dev.fifoWmTriggerEnabled
    && dev.fifoWatermark == WATERMARK_DEFAULT && dev.overflowCount == 0
    && FifoOff(dev.chip.regs) && !DataReadyOn(dev.chip.regs) && !OverflowIrqOn(dev.chip.regs)
    && Threshold(dev.chip.regs) == 0
  }

  /** The run-time state init_device sets up from the configuration it programmed. */
  method InitRuntime(dev: DeviceData, cfg: Config, accelIdx: int, gyroIdx: int)
    requires dev.chip.Valid() && dev.chip.Ordered() && dev.iio.Valid() && dev.burst.Length == DRAIN_MAX_FRAMES
    requires Programmed(dev.chip.regs, cfg) && !dev.fifoWmTriggerEnabled
    requires accelIdx == ScaleIndex(cfg.accelConfig) && gyroIdx == ScaleIndex(cfg.gyroConfig)
    requires FifoOff(dev.chip.regs) && !DataReadyOn(dev.chip.regs) && !OverflowIrqOn(dev.chip.regs)
    requires Threshold(dev.chip.regs) == 0
    modifies dev
    ensures Initialised(dev) && dev.hazards == old(dev.hazards) && dev.ledger == old(dev.ledger)
  {
    hide FifoLog.Contents, FifoLog.Ok, FifoLog.Count, FifoOff, Icm20602.Ordered, Matching, Programmed, ScaleIndex,
      RealRate, OrderedWrites, Collecting, SourcesOn, FifoOn, DataReadyOn, OverflowIrqOn, Threshold;
    ProgrammedMatches(dev.chip.regs, cfg);
    dev.accelScaleIdx, dev.gyroScaleIdx := accelIdx, gyroIdx;
    dev.samplingFrequency := RealRate(cfg.smplrtDiv as int);
    ClearRunState(dev);
    ClearPending(dev);
  }

  /** Everything off, the default watermark, no overflow seen. */
  method ClearRunState(dev: DeviceData)
    modifies dev`bufferEnabled, dev`drdyTriggerEnabled, dev`fifoEnabled, dev`fifoWatermark, dev`overflowCount
    ensures !dev.bufferEnabled && !dev.drdyTriggerEnabled && !dev.fifoEnabled
    ensures dev.fifoWatermark == WATERMARK_DEFAULT && dev.overflowCount == 0
  {
    dev.bufferEnabled, dev.drdyTriggerEnabled, dev.fifoEnabled := false, false, false;
    dev.fifoWatermark := WATERMARK_DEFAULT;
    dev.overflowCount := 0;
  }

  lemma ProgrammedMatches(regs: seq<bv8>, cfg: Config)
    requires IsRegisterFile(regs) && Programmed(regs, cfg)
    ensures Matching(regs, RealRate(cfg.smplrtDiv as int), ScaleIndex(cfg.accelConfig), ScaleIndex(cfg.gyroConfig))
  {}

  lemma ZeroRegisters(regs: seq<bv8>)
    requires regs == seq(REGISTER_COUNT, _ => 0)
    ensures IsRegisterFile(regs) && FifoOff(regs) && !Collecting(regs)
    ensures !DataReadyOn(regs) && !OverflowIrqOn(regs) && Threshold(regs) == 0
  {}
}
