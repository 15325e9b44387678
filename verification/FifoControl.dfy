/** FIFO reset, enable, disable, count, overflow recovery and the hardware watermark registers. */
module FifoControl {
  import opened Chip
  import opened Device
  import opened Errno
  import opened FifoLogs
  import opened Ledgers
  import opened Frames
  import opened ModeSpec
  import opened Registers

  /** regmap_update_bits of the driver's bits in a register that does not switch the FIFO. */
  method UpdateOther(dev: DeviceData, addr: nat, mask: bv8, value: bv8) returns (ret: int)
    requires dev.Valid() && addr < REGISTER_COUNT && addr != USER_CTRL && addr != FIFO_EN
    requires mask & !DriverBits(addr) == 0
    modifies dev.chip
    ensures dev.Valid()
    ensures addr in MODE_REGISTERS ==> ModeStep(old(dev.Now()), dev.Now())
    ensures OnlyChanged(old(dev.chip.regs), dev.chip.regs, {addr})
    ensures ret == 0 || (ret == -EIO && dev.chip.regs == old(dev.chip.regs))
    ensures if ret == 0 then dev.chip.faults == old(dev.chip.faults) else dev.chip.faults == old(dev.chip.faults) + 1
    ensures ret == 0 ==> dev.chip.regs == old(dev.chip.regs)[addr := Merge(old(dev.chip.regs)[addr], mask, value)]
    ensures old(dev.chip.log).Grew(dev.chip.log)
    ensures dev.chip.oflow == (old(dev.chip.oflow) || dev.chip.log.overruns > old(dev.chip.log).overruns)
    ensures old(dev.chip.writes) <= dev.chip.writes
    ensures KeepsQuiet(old(dev.chip.writes), dev.chip.writes)
  {
    hide FifoLog.Contents, FifoLog.Ok, Merge, FifoLog.Later, FifoLog.Next, OrderedWrites, QuietFrom, ModeStep,
      DeviceData.Committed, DeviceData.Origins, OnlyChanged, DriverBits;
    NothingChanged(dev.chip.regs, {addr});
    MergeChanges(dev.chip.regs, addr, mask, value);
    ret := dev.chip.UpdateBits(addr, mask, value);
    if addr in MODE_REGISTERS {
      OnlyChangedWiden(old(dev.chip.regs), dev.chip.regs, {addr}, MODE_REGISTERS);
      ModeStepGrows(old(dev.Now()), dev.Now());
    }
  }

  /** regmap_write, likewise. */
  method WriteOther(dev: DeviceData, addr: nat, value: bv8) returns (ret: int)
    requires dev.Valid() && addr < REGISTER_COUNT && addr != USER_CTRL && addr != FIFO_EN
    requires DriverBits(addr) == 0xFF
    modifies dev.chip
    ensures dev.Valid()
    ensures addr in MODE_REGISTERS ==> ModeStep(old(dev.Now()), dev.Now())
    ensures OnlyChanged(old(dev.chip.regs), dev.chip.regs, {addr})
    ensures ret == 0 || (ret == -EIO && dev.chip.regs == old(dev.chip.regs))
    ensures if ret == 0 then dev.chip.faults == old(dev.chip.faults) else dev.chip.faults == old(dev.chip.faults) + 1
    ensures ret == 0 ==> dev.chip.regs == old(dev.chip.regs)[addr := value]
    ensures old(dev.chip.log).Grew(dev.chip.log)
    ensures dev.chip.oflow == (old(dev.chip.oflow) || dev.chip.log.overruns > old(dev.chip.log).overruns)
    ensures old(dev.chip.writes) <= dev.chip.writes
    ensures KeepsQuiet(old(dev.chip.writes), dev.chip.writes)
  {
    hide FifoLog.Contents, FifoLog.Ok, FifoLog.Later, FifoLog.Next, ModeStep, DeviceData.Committed,
      DeviceData.Origins, OnlyChanged, DriverBits;
    NothingChanged(dev.chip.regs, {addr});
    WriteChanges(dev.chip.regs, addr, value);
    ret := dev.chip.Write(addr, value);
    if addr in MODE_REGISTERS {
      OnlyChangedWiden(old(dev.chip.regs), dev.chip.regs, {addr}, MODE_REGISTERS);
      ModeStepGrows(old(dev.Now()), dev.Now());
    }
  }

  /** Select or deselect both FIFO sources in FIFO_EN. */
  method SetSources(dev: DeviceData, on: bool) returns (ret: int)
    requires dev.Valid() && (on ==> FifoOn(dev.chip.regs))
    modifies dev.chip
    ensures dev.Valid()
    ensures ModeStep(old(dev.Now()), dev.Now())
    ensures ret == 0 || (ret == -EIO && dev.chip.regs == old(dev.chip.regs))
    ensures if ret == 0 then dev.chip.faults == old(dev.chip.faults) else dev.chip.faults == old(dev.chip.faults) + 1
    ensures ret == 0 ==> SourcesOn(dev.chip.regs) == on && (on ==> Collecting(dev.chip.regs))
    ensures OnlyChanged(old(dev.chip.regs), dev.chip.regs, {FIFO_EN})
    ensures old(dev.chip.log).Evolved(dev.chip.log, !Collecting(old(dev.chip.regs)), false)
    ensures dev.chip.oflow == (old(dev.chip.oflow) || dev.chip.log.overruns > old(dev.chip.log).overruns)
    ensures KeepsQuiet(old(dev.chip.writes), dev.chip.writes)
  {
    hide FifoLog.Contents, FifoLog.Ok, Merge, FifoLog.Later, FifoLog.Next, OrderedWrites, QuietFrom, ModeStep,
      DeviceData.Committed, DeviceData.Origins;
    var value := if on then FIFO_EN_ACCEL_GYRO else 0;
    MergeMasked(dev.chip.regs[FIFO_EN], FIFO_EN_ACCEL_GYRO, value);
    NothingChanged(dev.chip.regs, {FIFO_EN});
    MergeChanges(dev.chip.regs, FIFO_EN, FIFO_EN_ACCEL_GYRO, value);
    ret := dev.chip.UpdateBits(FIFO_EN, FIFO_EN_ACCEL_GYRO, value);
    OnlyChangedWiden(old(dev.chip.regs), dev.chip.regs, {FIFO_EN}, MODE_REGISTERS);
    ModeStepGrows(old(dev.Now()), dev.Now());
  }

  /** Switch the FIFO itself on or off in USER_CTRL. */
  method SetFifo(dev: DeviceData, on: bool) returns (ret: int)
    requires dev.Valid() && !SourcesOn(dev.chip.regs)
    modifies dev.chip
    ensures dev.Valid()
    ensures ModeStep(old(dev.Now()), dev.Now())
    ensures ret == 0 || (ret == -EIO && dev.chip.regs == old(dev.chip.regs))
    ensures if ret == 0 then dev.chip.faults == old(dev.chip.faults) else dev.chip.faults == old(dev.chip.faults) + 1
    ensures ret == 0 ==> FifoOn(dev.chip.regs) == on
    ensures !SourcesOn(dev.chip.regs) && !Collecting(dev.chip.regs)
    ensures OnlyChanged(old(dev.chip.regs), dev.chip.regs, {USER_CTRL})
    ensures dev.chip.log == old(dev.chip.log)
    ensures dev.chip.oflow == old(dev.chip.oflow)
    ensures KeepsQuiet(old(dev.chip.writes), dev.chip.writes)
  {
    hide FifoLog.Contents, FifoLog.Ok, Merge, FifoLog.Later, FifoLog.Next, OrderedWrites, QuietFrom, ModeStep,
      DeviceData.Committed, DeviceData.Origins;
    var value := if on then USER_CTRL_FIFO_EN else 0;
    MergeMasked(dev.chip.regs[USER_CTRL], USER_CTRL_FIFO_EN, value);
    MergeOutside(dev.chip.regs[USER_CTRL], USER_CTRL_FIFO_EN, value, USER_CTRL_FIFO_RST);
    NothingChanged(dev.chip.regs, {USER_CTRL});
    MergeChanges(dev.chip.regs, USER_CTRL, USER_CTRL_FIFO_EN, value);
    ret := dev.chip.UpdateBits(USER_CTRL, USER_CTRL_FIFO_EN, value);
    OnlyChangedWiden(old(dev.chip.regs), dev.chip.regs, {USER_CTRL}, MODE_REGISTERS);
    ModeStepGrows(old(dev.Now()), dev.Now());
  }

  /** icm20602_fifo_reset. The driver advises, but does not check, that the FIFO is off. */
  method Reset(dev: DeviceData) returns (ret: int)
    requires dev.Valid()
    modifies dev.chip, dev`ledger
    ensures dev.Valid()
    ensures ModeStep(old(dev.Now()), dev.Now())
    ensures ret == 0 || ret == -EIO
    ensures dev.ledger == if ret == 0 then old(dev.ledger).Marked(|dev.Origins()|) else old(dev.ledger)
    ensures dev.chip.regs == old(dev.chip.regs)
    ensures if ret == 0 then dev.chip.faults == old(dev.chip.faults) else dev.chip.faults == old(dev.chip.faults) + 1
    ensures old(dev.chip.log).Evolved(dev.chip.log, !Collecting(old(dev.chip.regs)), ret == 0)
    ensures dev.chip.oflow == (old(dev.chip.oflow) || dev.chip.log.overruns > old(dev.chip.log).overruns)
    ensures !SourcesOn(dev.chip.regs) && !FifoOn(dev.chip.regs) ==> KeepsQuiet(old(dev.chip.writes), dev.chip.writes)
  {
    hide FifoLog.Contents, FifoLog.Ok, Merge, FifoLog.Later, FifoLog.Next, OrderedWrites, QuietFrom, ModeStep,
      DeviceData.Committed, DeviceData.Origins;
    MergeMasked(dev.chip.regs[USER_CTRL], USER_CTRL_FIFO_RST, USER_CTRL_FIFO_RST);
    StoredResetIsUnchanged(dev.chip.regs[USER_CTRL]);
    NothingChanged(dev.chip.regs, MODE_REGISTERS);
    ret := dev.chip.UpdateBits(USER_CTRL, USER_CTRL_FIFO_RST, USER_CTRL_FIFO_RST);
    if ret == 0 {
      dev.ledger := dev.ledger.Marked(|dev.Origins()|);
      ModeStepReset(old(dev.Now()), dev.Now());
    } else {
      ModeStepGrows(old(dev.Now()), dev.Now());
    }
  }

  /** Pulsing the reset bit leaves the other USER_CTRL bits alone. */
  lemma StoredResetIsUnchanged(v: bv8)
    requires v & USER_CTRL_FIFO_RST == 0
    ensures Stored(USER_CTRL, Merge(v, USER_CTRL_FIFO_RST, USER_CTRL_FIFO_RST)) == v
  {}

  /** The steps fifo_enable and fifo_disable share: sources off, FIFO off, reset. */
  method Stop(dev: DeviceData) returns (ret: int)
    requires dev.Valid()
    modifies dev.chip, dev`ledger
    ensures dev.Valid()
    ensures ModeStep(old(dev.Now()), dev.Now())
    ensures SameInterrupts(old(dev.chip.regs), dev.chip.regs)
    ensures ret == 0 || ret == -EIO
    ensures dev.ledger == if ret == 0 then old(dev.ledger).Marked(|dev.Origins()|) else old(dev.ledger)
    ensures if ret == 0 then dev.chip.faults == old(dev.chip.faults) else dev.chip.faults == old(dev.chip.faults) + 1
    ensures ret == 0 ==> !SourcesOn(dev.chip.regs) && !FifoOn(dev.chip.regs) && dev.chip.log.Fresh()
    ensures OnlyChanged(old(dev.chip.regs), dev.chip.regs, {FIFO_EN, USER_CTRL})
    ensures KeepsQuiet(old(dev.chip.writes), dev.chip.writes)
  {
    hide FifoLog.Contents, FifoLog.Ok, Threshold, DataReadyOn, OverflowIrqOn, FifoLog.Later, FifoLog.Next, ModeStep,
      DeviceData.Committed, DeviceData.Origins;
    ghost var s0 := dev.Now();
    ret := SetSources(dev, false);
    UntouchedInterrupts(s0.regs, dev.chip.regs, {FIFO_EN, USER_CTRL});
    if ret != 0 {
      return;
    }
    ghost var s1 := dev.Now();
    ret := SetFifo(dev, false);
    ModeStepTransitive(s0, s1, dev.Now());
    UntouchedInterrupts(s0.regs, dev.chip.regs, {FIFO_EN, USER_CTRL});
    if ret != 0 {
      return;
    }
    ghost var s2 := dev.Now();
    ret := Reset(dev);
    ModeStepTransitive(s0, s2, dev.Now());
  }

  /** FIFO on, then both sources on: from here on every sample goes into the FIFO. */
  method Start(dev: DeviceData) returns (ret: int)
    requires dev.Valid() && !SourcesOn(dev.chip.regs)
    modifies dev.chip
    ensures dev.Valid()
    ensures ModeStep(old(dev.Now()), dev.Now())
    ensures SameInterrupts(old(dev.chip.regs), dev.chip.regs)
    ensures ret == 0 || ret == -EIO
    ensures if ret == 0 then dev.chip.faults == old(dev.chip.faults) else dev.chip.faults == old(dev.chip.faults) + 1
    ensures ret == 0 ==> Collecting(dev.chip.regs) && SourcesOn(dev.chip.regs) && dev.chip.log == old(dev.chip.log)
    ensures OnlyChanged(old(dev.chip.regs), dev.chip.regs, {FIFO_EN, USER_CTRL})
    ensures KeepsQuiet(old(dev.chip.writes), dev.chip.writes)
  {
    hide OnlyChanged, SourcesOn, FifoOn, Collecting, FifoLog.Contents, FifoLog.Ok, Threshold, DataReadyOn,
      OverflowIrqOn, FifoLog.Later, FifoLog.Next, ModeStep, DeviceData.Committed, DeviceData.Origins;
    ghost var s0 := dev.Now();
    ret := SetFifo(dev, true);
    OnlyChangedWiden(s0.regs, dev.chip.regs, {USER_CTRL}, {FIFO_EN, USER_CTRL});
    UntouchedInterrupts(s0.regs, dev.chip.regs, {FIFO_EN, USER_CTRL});
    if ret != 0 {
      return;
    }
    ghost var s1 := dev.Now();
    ret := SetSources(dev, true);
    OnlyChangedChain(s0.regs, s1.regs, dev.chip.regs, {FIFO_EN, USER_CTRL}, {FIFO_EN});
    ModeStepTransitive(s0, s1, dev.Now());
    UntouchedInterrupts(s0.regs, dev.chip.regs, {FIFO_EN, USER_CTRL});
  }

  /**
   * icm20602_fifo_enable: sources off, FIFO off, reset, FIFO on, sources on. On success the FIFO
   * collects from empty.
   */
  method Enable(dev: DeviceData) returns (ret: int)
    requires dev.Valid()
    modifies dev`fifoEnabled, dev.chip, dev`ledger
    ensures dev.Valid()
    ensures ModeStep(old(dev.Now()), dev.Now())
    ensures SameInterrupts(old(dev.chip.regs), dev.chip.regs)
    ensures ret == 0 || ret == -EIO
    ensures dev.ledger == old(dev.ledger) || dev.ledger == old(dev.ledger).Marked(|dev.Origins()|)
    ensures ret == 0 ==> dev.ledger == old(dev.ledger).Marked(|dev.Origins()|)
    ensures if ret == 0 then dev.chip.faults == old(dev.chip.faults) else dev.chip.faults == old(dev.chip.faults) + 1
    ensures ret == 0 ==>
      && dev.fifoEnabled && Collecting(dev.chip.regs) && SourcesOn(dev.chip.regs)
      && dev.chip.log.Fresh()
    ensures ret != 0 ==> dev.fifoEnabled == old(dev.fifoEnabled)
    ensures OnlyChanged(old(dev.chip.regs), dev.chip.regs, {FIFO_EN, USER_CTRL})
    ensures KeepsQuiet(old(dev.chip.writes), dev.chip.writes)
  {
    hide OnlyChanged, SourcesOn, FifoOn, Collecting, FifoLog.Contents, FifoLog.Ok, Threshold, DataReadyOn,
      OverflowIrqOn, FifoLog.Later, FifoLog.Next, ModeStep, DeviceData.Committed, DeviceData.Origins;
    ghost var s0 := dev.Now();
    ret := Stop(dev);
    if ret != 0 {
      return;
    }
    ghost var s1 := dev.Now();
    ret := Start(dev);
    OnlyChangedChain(s0.regs, s1.regs, dev.chip.regs, {FIFO_EN, USER_CTRL}, {FIFO_EN, USER_CTRL});
    ModeStepTransitive(s0, s1, dev.Now());
    if ret != 0 {
      return;
    }
    ghost var s := dev.Now();
    dev.fifoEnabled := true;
    ModeStepFlag(s0, s, dev.Now());
  }

  /** icm20602_fifo_disable: sources off, FIFO off, reset. On success the FIFO is off and empty. */
  method Disable(dev: DeviceData) returns (ret: int)
    requires dev.Valid()
    modifies dev`fifoEnabled, dev.chip, dev`ledger
    ensures dev.Valid()
    ensures ModeStep(old(dev.Now()), dev.Now())
    ensures SameInterrupts(old(dev.chip.regs), dev.chip.regs)
    ensures ret == 0 || ret == -EIO
    ensures dev.ledger == if ret == 0 then old(dev.ledger).Marked(|dev.Origins()|) else old(dev.ledger)
    ensures if ret == 0 then dev.chip.faults == old(dev.chip.faults) else dev.chip.faults == old(dev.chip.faults) + 1
    ensures ret == 0 ==> !dev.fifoEnabled && !SourcesOn(dev.chip.regs) && !FifoOn(dev.chip.regs) && dev.chip.log.Fresh()
    ensures ret != 0 ==> dev.fifoEnabled == old(dev.fifoEnabled)
    ensures OnlyChanged(old(dev.chip.regs), dev.chip.regs, {FIFO_EN, USER_CTRL})
    ensures KeepsQuiet(old(dev.chip.writes), dev.chip.writes)
  {
    hide FifoLog.Contents, FifoLog.Ok, FifoLog.Later, FifoLog.Next, ModeStep, DeviceData.Committed,
      DeviceData.Origins;
    ghost var s0 := dev.Now();
    ret := Stop(dev);
    if ret != 0 {
      return;
    }
    ghost var s := dev.Now();
    dev.fifoEnabled := false;
    ModeStepFlag(s0, s, dev.Now());
  }

  /** icm20602_fifo_clear_pending. */
  method ClearPending(dev: DeviceData)
    modifies dev`pendingFrames, dev`pendingPos, dev`pendingBaseTs, dev`pendingPeriodNs, dev`pendingFrom
    ensures dev.pendingFrames == 0 && dev.pendingPos == 0 && dev.pendingFrom == []
    ensures dev.pendingBaseTs == 0 && dev.pendingPeriodNs == 0
  {
    dev.pendingFrames, dev.pendingPos := 0, 0;
    dev.pendingBaseTs, dev.pendingPeriodNs := 0, 0;
    dev.pendingFrom := [];
  }

  /** icm20602_fifo_get_count. */
  method GetCount(dev: DeviceData) returns (ret: int, count: int)
    requires dev.Valid()
    modifies dev.chip
    ensures dev.Valid()
    ensures ret == 0 || ret == -EIO
    ensures if ret == 0 then dev.chip.faults == old(dev.chip.faults) else dev.chip.faults == old(dev.chip.faults) + 1
    ensures ret == 0 ==> count == |dev.chip.fifo| == dev.chip.log.Count() && count / FRAME_SIZE == dev.chip.log.Frames()
    ensures dev.chip.regs == old(dev.chip.regs) && dev.chip.writes == old(dev.chip.writes)
    ensures old(dev.chip.log).Grew(dev.chip.log)
    ensures dev.chip.oflow == (old(dev.chip.oflow) || dev.chip.log.overruns > old(dev.chip.log).overruns)
  {
    var hi, lo;
    ret, hi, lo := dev.chip.ReadCount();
    count := 256 * (hi as int) + lo as int;
  }

  /**
   * icm20602_fifo_recover. Whatever the state of the FIFO was, success leaves it collecting from
   * empty if the driver was using it.
   */
  method Recover(dev: DeviceData) returns (ret: int)
    requires dev.Valid()
    modifies dev`fifoEnabled, dev.chip, dev`pendingFrames, dev`pendingPos, dev`pendingBaseTs, dev`pendingPeriodNs,
      dev`pendingFrom, dev`ledger
    ensures dev.Valid()
    ensures ret == 0 || ret == -EIO
    ensures if ret == 0 then dev.chip.faults == old(dev.chip.faults) else dev.chip.faults == old(dev.chip.faults) + 1
    ensures ret == 0 ==> dev.fifoEnabled == old(dev.fifoEnabled) && dev.chip.log.Fresh()
    ensures ret == 0 && dev.fifoEnabled ==>
      && Collecting(dev.chip.regs) && SourcesOn(dev.chip.regs)
      && dev.pendingFrames == 0
    ensures old(dev.pendingFrames) == 0 ==>
      && (dev.ledger == old(dev.ledger) || dev.ledger == old(dev.ledger).Marked(|dev.Origins()|))
      && (ret == 0 ==> dev.ledger == old(dev.ledger).Marked(|dev.Origins()|))
      && (old(dev.Now()).Conserves() ==> dev.Now().Conserves())
    ensures dev.fifoEnabled ==> old(dev.fifoEnabled)
    ensures ret != 0 && old(dev.fifoEnabled) ==>
      dev.ledger == if dev.fifoEnabled then old(dev.ledger) else old(dev.ledger).Marked(|dev.Origins()|)
    ensures old(dev.chip.writes) <= dev.chip.writes
    ensures OnlyChanged(old(dev.chip.regs), dev.chip.regs, {FIFO_EN, USER_CTRL})
    ensures old(dev.chip.log).Later(dev.chip.log) && old(dev.chip.log).overruns <= dev.chip.log.overruns
    ensures dev.chip.oflow ==> old(dev.chip.oflow) || dev.chip.log.overruns > old(dev.chip.log).overruns
    ensures !(ret == 0 && dev.fifoEnabled) ==>
      && dev.pendingFrames == old(dev.pendingFrames) && dev.pendingPos == old(dev.pendingPos)
      && dev.pendingBaseTs == old(dev.pendingBaseTs) && dev.pendingPeriodNs == old(dev.pendingPeriodNs)
      && dev.pendingFrom == old(dev.pendingFrom)
    ensures old(dev.fifoEnabled) ==> KeepsQuiet(old(dev.chip.writes), dev.chip.writes)
  {
    hide DriverBits, FifoLog.Contents, FifoLog.Ok, FifoLog.Next, OrderedWrites, QuietFrom, Threshold, DataReadyOn,
      OverflowIrqOn, Collecting, SourcesOn, FifoOn, Conserved, ModeFrame, DeviceData.Committed, DeviceData.Origins,
      Icm20602.Valid;
    ghost var idle := dev.pendingFrames == 0;
    if idle {
      NothingPendingNow(dev);
      NothingPending(dev);
    }
    var restart := dev.fifoEnabled;
    if restart {
      ret := Disable(dev);
      if ret != 0 {
        return;
      }
      ret := Enable(dev);
      if ret != 0 {
        return;
      }
      ClearPending(dev);
      return;
    }
    ret := Reset(dev);
  }

  /** icm20602_fifo_check_overflow: the read that reports the overflow clears it. */
  method CheckOverflow(dev: DeviceData) returns (ret: int, overflow: bool)
    requires dev.Valid()
    modifies dev.chip
    ensures dev.Valid()
    ensures ret == 0 || ret == -EIO
    ensures if ret == 0 then dev.chip.faults == old(dev.chip.faults) else dev.chip.faults == old(dev.chip.faults) + 1
    ensures dev.chip.regs == old(dev.chip.regs) && dev.chip.writes == old(dev.chip.writes)
    ensures old(dev.chip.log).Grew(dev.chip.log) && old(dev.chip.log).Later(dev.chip.log)
    ensures ret == 0 ==>
      !dev.chip.oflow && overflow == (old(dev.chip.oflow) || dev.chip.log.overruns > old(dev.chip.log).overruns)
    ensures ret != 0 ==> dev.chip.oflow == (old(dev.chip.oflow) || dev.chip.log.overruns > old(dev.chip.log).overruns)
    ensures old(dev.Now()).Conserves() ==> dev.Now().Conserves()
  {
    hide FifoLog.Contents, FifoLog.Ok, OrderedWrites, Conserved, FifoLog.Later, DeviceData.Committed,
      DeviceData.Origins;
    ghost var s := dev.Now();
    ret, overflow := dev.chip.ReadOverflow();
    EvolvedIsLater(s.log, dev.chip.log, false, false);
    if s.Conserves() {
      ConservedGrows(s.origins, |s.accepted|, s.log, dev.chip.log, s.ledger, s.fifoEnabled);
    }
  }

  /**
   * icm20602_fifo_check_and_recover_overflow: 0 if INT_STATUS showed no overflow, 1 if it did and
   * the FIFO was restarted. An overflow that is still visible never gets past the check.
   */
  method CheckAndRecoverOverflow(dev: DeviceData) returns (ret: int)
    requires dev.Valid() && dev.pendingFrames == 0
    modifies dev`fifoEnabled, dev.chip, dev`pendingFrames, dev`pendingPos, dev`pendingBaseTs, dev`pendingPeriodNs,
      dev`pendingFrom, dev`overflowCount, dev`ledger
    ensures dev.Valid() && dev.pendingFrames == 0
    ensures dev.Committed() == old(dev.Committed()) && dev.Origins() == old(dev.Origins())
    ensures ret == 0 || ret == 1 || ret == -EIO
    ensures if ret >= 0 then dev.chip.faults == old(dev.chip.faults) else dev.chip.faults == old(dev.chip.faults) + 1
    ensures old(dev.chip.writes) <= dev.chip.writes
    ensures OnlyChanged(old(dev.chip.regs), dev.chip.regs, {FIFO_EN, USER_CTRL})
    ensures old(dev.chip.log).Later(dev.chip.log)
    ensures dev.overflowCount <= old(dev.overflowCount) + 1
    ensures dev.overflowCount == old(dev.overflowCount) ==>
      ret <= 0 && old(dev.chip.log).Grew(dev.chip.log) && dev.chip.regs == old(dev.chip.regs)
        && dev.fifoEnabled == old(dev.fifoEnabled)
    ensures ret == 0 ==>
      && dev.overflowCount == old(dev.overflowCount)
      && !dev.chip.oflow && !old(dev.chip.oflow) && dev.chip.log.overruns == old(dev.chip.log).overruns
    ensures ret == 1 ==>
      && dev.overflowCount == old(dev.overflowCount) + 1
      && (old(dev.chip.oflow) || dev.chip.log.overruns > old(dev.chip.log).overruns)
      && dev.chip.log.Fresh()
      && dev.fifoEnabled == old(dev.fifoEnabled)
      && (dev.fifoEnabled ==> Collecting(dev.chip.regs) && SourcesOn(dev.chip.regs))
    ensures dev.ledger == old(dev.ledger) || dev.ledger == old(dev.ledger).Marked(|dev.Origins()|)
    ensures dev.overflowCount == old(dev.overflowCount) ==>
      dev.ledger == old(dev.ledger) && dev.chip.writes == old(dev.chip.writes)
    ensures ret == 1 ==> dev.ledger == old(dev.ledger).Marked(|dev.Origins()|)
    ensures old(dev.Now()).Conserves() ==> dev.Now().Conserves()
    ensures dev.fifoEnabled ==> old(dev.fifoEnabled)
    ensures old(dev.fifoEnabled) ==> KeepsQuiet(old(dev.chip.writes), dev.chip.writes)
    ensures Caused(old(dev.Now()), dev.Now())
  {
    hide FifoLog.Contents, FifoLog.Ok, FifoLog.Later, OrderedWrites, QuietFrom, Threshold, DataReadyOn, OverflowIrqOn,
      Collecting, SourcesOn, FifoOn, Conserved, DeviceData.Committed, DeviceData.Origins;
    NothingPending(dev);
    var overflow;
    ret, overflow := CheckOverflow(dev);
    ghost var checked := dev.chip.log;
    if ret != 0 || !overflow {
      return;
    }
    dev.overflowCount := dev.overflowCount + 1;
    ret := Recover(dev);
    LaterTransitive(old(dev.chip.log), checked, dev.chip.log);
    NothingPending(dev);
    if ret == 0 {
      ret := 1;
    }
  }

  /** TH1 under its mask, then TH2. */
  method WriteThreshold(dev: DeviceData, bytes: nat) returns (ret: int)
    requires dev.Valid() && bytes < 1024
    modifies dev.chip
    ensures dev.Valid()
    ensures ModeStep(old(dev.Now()), dev.Now())
    ensures ret == 0 || ret == -EIO
    ensures if ret == 0 then dev.chip.faults == old(dev.chip.faults) else dev.chip.faults == old(dev.chip.faults) + 1
    ensures ret == 0 ==> Threshold(dev.chip.regs) == bytes
    ensures SameFifo(old(dev.chip.regs), dev.chip.regs) && SameEnables(old(dev.chip.regs), dev.chip.regs)
    ensures OnlyChanged(old(dev.chip.regs), dev.chip.regs, {FIFO_WM_TH1, FIFO_WM_TH2})
    ensures old(dev.chip.log).Grew(dev.chip.log)
    ensures dev.chip.oflow == (old(dev.chip.oflow) || dev.chip.log.overruns > old(dev.chip.log).overruns)
    ensures KeepsQuiet(old(dev.chip.writes), dev.chip.writes)
  {
    hide FifoLog.Contents, FifoLog.Ok, Merge, Threshold, SourcesOn, FifoOn, Collecting, DataReadyOn, OverflowIrqOn,
      ModeStep, DeviceData.Committed, DeviceData.Origins, FifoLog.Later, ModeFrame;
    ghost var s0 := dev.Now();
    ThresholdRoundTrip(dev.chip.regs, bytes);
    ret := UpdateOther(dev, FIFO_WM_TH1, FIFO_WM_TH1_MASK, (bytes / 256) as bv8);
    UntouchedFifo(s0.regs, dev.chip.regs, {FIFO_WM_TH1, FIFO_WM_TH2});
    if ret != 0 {
      return;
    }
    ghost var s1 := dev.Now();
    ret := WriteOther(dev, FIFO_WM_TH2, (bytes % 256) as bv8);
    ModeStepTransitive(s0, s1, dev.Now());
    UntouchedFifo(s0.regs, dev.chip.regs, {FIFO_WM_TH1, FIFO_WM_TH2});
  }

  /** CONFIG bit 7 off, as the watermark feature asks; the other bits stay. */
  method UseWatermarks(dev: DeviceData) returns (ret: int)
    requires dev.Valid()
    modifies dev.chip
    ensures dev.Valid()
    ensures ModeStep(old(dev.Now()), dev.Now())
    ensures ret == 0 || (ret == -EIO && dev.chip.regs == old(dev.chip.regs))
    ensures if ret == 0 then dev.chip.faults == old(dev.chip.faults) else dev.chip.faults == old(dev.chip.faults) + 1
    ensures ret == 0 ==> Updated(old(dev.chip.regs)[CONFIG], dev.chip.regs[CONFIG], FIFO_WM_MODE, 0)
    ensures OnlyChanged(old(dev.chip.regs), dev.chip.regs, {CONFIG})
    ensures SameFifo(old(dev.chip.regs), dev.chip.regs) && SameEnables(old(dev.chip.regs), dev.chip.regs)
    ensures old(dev.chip.log).Grew(dev.chip.log)
    ensures dev.chip.oflow == (old(dev.chip.oflow) || dev.chip.log.overruns > old(dev.chip.log).overruns)
    ensures KeepsQuiet(old(dev.chip.writes), dev.chip.writes)
  {
    hide FifoLog.Contents, FifoLog.Ok, Merge, Updated, SourcesOn, FifoOn, Collecting, DataReadyOn, OverflowIrqOn,
      ModeStep, DeviceData.Committed, DeviceData.Origins;
    MergeUpdates(dev.chip.regs[CONFIG], FIFO_WM_MODE, 0);
    ret := UpdateOther(dev, CONFIG, FIFO_WM_MODE, 0);
    UntouchedFifo(old(dev.chip.regs), dev.chip.regs, {CONFIG});
  }

  /** icm20602_fifo_set_watermark_hw: success programs a threshold of `frames` whole frames. */
  method SetWatermarkHw(dev: DeviceData, frames: nat) returns (ret: int)
    requires dev.Valid()
    modifies dev.chip
    ensures dev.Valid()
    ensures ModeStep(old(dev.Now()), dev.Now())
    ensures frames == 0 || frames > WATERMARK_MAX ==> ret == -EINVAL && dev.chip.faults == old(dev.chip.faults)
    ensures 1 <= frames <= WATERMARK_MAX ==> ret == 0 || ret == -EIO
    ensures ret == 0 ==> Threshold(dev.chip.regs) == FRAME_SIZE * frames && dev.chip.faults == old(dev.chip.faults)
    ensures ret == 0 ==> Updated(old(dev.chip.regs)[CONFIG], dev.chip.regs[CONFIG], FIFO_WM_MODE, 0)
    ensures ret == -EIO ==> dev.chip.faults == old(dev.chip.faults) + 1
    ensures SameFifo(old(dev.chip.regs), dev.chip.regs) && SameEnables(old(dev.chip.regs), dev.chip.regs)
    ensures OnlyChanged(old(dev.chip.regs), dev.chip.regs, {CONFIG, FIFO_WM_TH1, FIFO_WM_TH2})
    ensures old(dev.chip.log).Grew(dev.chip.log)
    ensures dev.chip.oflow == (old(dev.chip.oflow) || dev.chip.log.overruns > old(dev.chip.log).overruns)
    ensures KeepsQuiet(old(dev.chip.writes), dev.chip.writes)
  {
    hide FifoLog.Contents, FifoLog.Ok, Merge, Updated, Threshold, SourcesOn, FifoOn, Collecting, DataReadyOn,
      OverflowIrqOn, ModeStep, DeviceData.Committed, DeviceData.Origins, ModeFrame;
    ghost var s0 := dev.Now();
    ModeStepRefl(s0);
    if frames == 0 {
      return -EINVAL;
    }
    var bytes := frames * FRAME_SIZE;
    if bytes > 1023 {
      return -EINVAL;
    }
    ret := UseWatermarks(dev);
    if ret != 0 {
      return;
    }
    ghost var s1 := dev.Now();
    ret := WriteThreshold(dev, bytes);
    ModeStepTransitive(s0, s1, dev.Now());
  }

  /** icm20602_fifo_disable_watermark_hw. */
  method DisableWatermarkHw(dev: DeviceData) returns (ret: int)
    requires dev.Valid()
    modifies dev.chip
    ensures dev.Valid()
    ensures ModeStep(old(dev.Now()), dev.Now())
    ensures ret == 0 || ret == -EIO
    ensures if ret == 0 then dev.chip.faults == old(dev.chip.faults) else dev.chip.faults == old(dev.chip.faults) + 1
    ensures ret == 0 ==> Threshold(dev.chip.regs) == 0
    ensures SameFifo(old(dev.chip.regs), dev.chip.regs) && SameEnables(old(dev.chip.regs), dev.chip.regs)
    ensures OnlyChanged(old(dev.chip.regs), dev.chip.regs, {FIFO_WM_TH1, FIFO_WM_TH2})
    ensures old(dev.chip.log).Grew(dev.chip.log)
    ensures dev.chip.oflow == (old(dev.chip.oflow) || dev.chip.log.overruns > old(dev.chip.log).overruns)
    ensures KeepsQuiet(old(dev.chip.writes), dev.chip.writes)
  {
    hide ModeStep, DeviceData.Committed, DeviceData.Origins;
    ghost var s0 := dev.Now();
    ret := WriteThreshold(dev, 0);
  }
}
