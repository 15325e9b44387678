/** Buffer setup callbacks, trigger callbacks, the interrupt handler and the trigger handler. */
module BufferOps {
  import opened Batches
  import opened Chip
  import opened Delivery
  import opened Device
  import opened Drain
  import opened DrainLaws
  import opened DrainSpec
  import opened Errno
  import opened FifoControl
  import opened FifoLogs
  import opened Frames
  import opened Iio
  import opened Ledgers
  import opened ModeSpec
  import opened Rates
  import opened Registers
  import opened Runs

  /** Set or clear the data-ready enable in INT_ENABLE. */
  method SetDataReady(dev: DeviceData, on: bool) returns (ret: int)
    requires dev.Valid()
    modifies dev.chip
    ensures dev.Valid()
    ensures ret == 0 || (ret == -EIO && dev.chip.regs == old(dev.chip.regs))
    ensures ret == 0 <==> dev.chip.faults == old(dev.chip.faults)
    ensures ret == 0 ==> DataReadyOn(dev.chip.regs) == on
    ensures OverflowIrqOn(dev.chip.regs) == OverflowIrqOn(old(dev.chip.regs))
    ensures SameFifo(old(dev.chip.regs), dev.chip.regs) && Threshold(dev.chip.regs) == Threshold(old(dev.chip.regs))
    ensures OnlyChanged(old(dev.chip.regs), dev.chip.regs, {INT_ENABLE})
    ensures ModeStep(old(dev.Now()), dev.Now())
    ensures old(dev.chip.log).Grew(dev.chip.log)
    ensures KeepsQuiet(old(dev.chip.writes), dev.chip.writes)
  {
    hide FifoLog.Contents, FifoLog.Ok, Merge, ModeStep, DeviceData.Committed, DeviceData.Origins;
    var value := if on then DATA_RDY_INT_EN else 0;
    MergeMasked(dev.chip.regs[INT_ENABLE], DATA_RDY_INT_EN, value);
    MergeOutside(dev.chip.regs[INT_ENABLE], DATA_RDY_INT_EN, value, FIFO_OFLOW_EN);
    ret := UpdateOther(dev, INT_ENABLE, DATA_RDY_INT_EN, value);
  }

  /** Set or clear the overflow enable in INT_ENABLE; the data-ready enable stays. */
  method SetOverflowInterrupt(dev: DeviceData, on: bool) returns (ret: int)
    requires dev.Valid()
    modifies dev.chip
    ensures dev.Valid()
    ensures ret == 0 || ret == -EIO
    ensures ret == 0 <==> dev.chip.faults == old(dev.chip.faults)
    ensures ret == 0 ==> OverflowIrqOn(dev.chip.regs) == on
    ensures DataReadyOn(dev.chip.regs) == DataReadyOn(old(dev.chip.regs))
    ensures SameFifo(old(dev.chip.regs), dev.chip.regs) && Threshold(dev.chip.regs) == Threshold(old(dev.chip.regs))
    ensures OnlyChanged(old(dev.chip.regs), dev.chip.regs, {INT_ENABLE})
    ensures ModeStep(old(dev.Now()), dev.Now())
    ensures old(dev.chip.log).Grew(dev.chip.log)
    ensures KeepsQuiet(old(dev.chip.writes), dev.chip.writes)
  {
    hide FifoLog.Contents, FifoLog.Ok, Merge, ModeStep, DeviceData.Committed, DeviceData.Origins;
    var value := if on then FIFO_OFLOW_EN else 0;
    MergeMasked(dev.chip.regs[INT_ENABLE], FIFO_OFLOW_EN, value);
    MergeOutside(dev.chip.regs[INT_ENABLE], FIFO_OFLOW_EN, value, DATA_RDY_INT_EN);
    ret := UpdateOther(dev, INT_ENABLE, FIFO_OFLOW_EN, value);
  }

  /** Clear the data-ready and the overflow enable together. */
  method MaskInterrupts(dev: DeviceData) returns (ret: int)
    requires dev.Valid()
    modifies dev.chip
    ensures dev.Valid()
    ensures ret == 0 || ret == -EIO
    ensures dev.chip.faults >= old(dev.chip.faults)
    ensures ret == 0 <==> dev.chip.faults == old(dev.chip.faults)
    ensures ret == 0 ==> !DataReadyOn(dev.chip.regs) && !OverflowIrqOn(dev.chip.regs)
    ensures SameFifo(old(dev.chip.regs), dev.chip.regs) && Threshold(dev.chip.regs) == Threshold(old(dev.chip.regs))
    ensures OnlyChanged(old(dev.chip.regs), dev.chip.regs, {INT_ENABLE})
    ensures LeaveStep(old(dev.Now()), dev.Now())
  {
    hide FifoLog.Contents, FifoLog.Ok, Merge, DeviceData.Committed, DeviceData.Origins;
    MergeMasked(dev.chip.regs[INT_ENABLE], DATA_RDY_INT_EN | FIFO_OFLOW_EN, 0);
    ret := UpdateOther(dev, INT_ENABLE, DATA_RDY_INT_EN | FIFO_OFLOW_EN, 0);
  }

  /** CONFIG with bit 7 off, as the hardware watermark wants it. */
  function ModeBitOff(config: bv8): bv8 {
    config & 0x7F
  }

  lemma ModeBitCleared(before: bv8, after: bv8)
    requires Updated(before, after, FIFO_WM_MODE, 0)
    ensures after == ModeBitOff(before)
  {
    assert after == (after & 0x80) | (after & !0x80);
  }

  /** Case 1 of preenable: the data-ready trigger, one direct read per sample. */
  method EnableDataReadyPath(dev: DeviceData) returns (ret: int)
    requires dev.Valid()
    modifies dev`fifoEnabled, dev`ledger, dev.chip
    ensures dev.Valid()
    ensures ret == 0 || ret == -EIO
    ensures ret == 0 <==> dev.chip.faults == old(dev.chip.faults)
    ensures ModeStep(old(dev.Now()), dev.Now())
    ensures ret == 0 ==>
      && !dev.fifoEnabled && FifoOff(dev.chip.regs) && Threshold(dev.chip.regs) == 0
      && DataReadyOn(dev.chip.regs) && !OverflowIrqOn(dev.chip.regs)
    ensures ret == 0 ==> Renewed(old(dev.Now()), dev.Now())
    ensures dev.chip.regs[CONFIG] == old(dev.chip.regs)[CONFIG]
  {
    hide FifoLog.Contents, FifoLog.Ok, ModeStep, OnlyChanged, SourcesOn, FifoOn, Collecting, DataReadyOn,
      OverflowIrqOn, Threshold, DeviceData.Committed, DeviceData.Origins;
    ghost var s0 := dev.Now();
    ret := DisableWatermarkHw(dev);
    Outside(s0.regs, dev.chip.regs, {FIFO_WM_TH1, FIFO_WM_TH2}, CONFIG);
    if ret != 0 {
      return;
    }
    ghost var s1 := dev.Now();
    ret := Disable(dev);
    ghost var s2 := dev.Now();
    Outside(s1.regs, s2.regs, {FIFO_EN, USER_CTRL}, CONFIG);
    ModeStepTransitive(s0, s1, s2);
    if ret != 0 {
      return;
    }
    ret := SetOverflowInterrupt(dev, false);
    ghost var s3 := dev.Now();
    Outside(s2.regs, s3.regs, {INT_ENABLE}, CONFIG);
    ModeStepTransitive(s0, s2, s3);
    RenewedStep(s0, s2, s3);
    if ret != 0 {
      return;
    }
    ret := SetDataReady(dev, true);
    Outside(s3.regs, dev.chip.regs, {INT_ENABLE}, CONFIG);
    ModeStepTransitive(s0, s3, dev.Now());
    RenewedStep(s0, s3, dev.Now());
  }

  /** Case 2 of preenable: the hardware watermark trigger. */
  method EnableWatermarkPath(dev: DeviceData) returns (ret: int)
    requires dev.Valid()
    modifies dev`fifoEnabled, dev`ledger, dev.chip
    ensures dev.Valid()
    ensures ret == 0 || ret == -EIO
    ensures ret == 0 <==> dev.chip.faults == old(dev.chip.faults)
    ensures ret == 0 ==> dev.ledger == dev.ledger.Marked(|dev.Origins()|)
    ensures ModeStep(old(dev.Now()), dev.Now())
    ensures ret == 0 ==>
      && dev.fifoEnabled && Collecting(dev.chip.regs) && SourcesOn(dev.chip.regs)
      && !DataReadyOn(dev.chip.regs)
    ensures ret == 0 ==> Threshold(dev.chip.regs) == FRAME_SIZE * dev.fifoWatermark && OverflowIrqOn(dev.chip.regs)
    ensures ret == 0 && !dev.chip.log.over ==> dev.chip.log.head == 0
    ensures ret == 0 ==> Renewed(old(dev.Now()), dev.Now())
    ensures ret == 0 ==> dev.chip.regs[CONFIG] == ModeBitOff(old(dev.chip.regs)[CONFIG])
  {
    hide QuietFrom, OrderedWrites, FifoLog.Later, FifoLog.Next, FifoLog.Count, DriverBits, ModeBitOff,
      FifoLog.Contents, FifoLog.Ok, ModeStep, OnlyChanged, Updated, SourcesOn, FifoOn, Collecting, DataReadyOn,
      OverflowIrqOn, Threshold, DeviceData.Committed, DeviceData.Origins, Icm20602.Valid, Icm20602.Ordered;
    ghost var s0 := dev.Now();
    ret := SetDataReady(dev, false);
    Outside(s0.regs, dev.chip.regs, {INT_ENABLE}, CONFIG);
    if ret != 0 {
      return;
    }
    ghost var s1 := dev.Now();
    ret := Reset(dev);
    ModeStepChain(s0, s1, dev.Now());
    if ret != 0 {
      return;
    }
    ghost var s2 := dev.Now();
    ret := SetWatermarkHw(dev, dev.fifoWatermark);
    ModeStepTransitive(s0, s2, dev.Now());
    if ret != 0 {
      return;
    }
    ghost var s3 := dev.Now();
    ModeBitCleared(s2.regs[CONFIG], s3.regs[CONFIG]);
    ret := Enable(dev);
    Outside(s3.regs, dev.chip.regs, {FIFO_EN, USER_CTRL}, CONFIG);
    ModeStepTransitive(s0, s3, dev.Now());
    if ret != 0 {
      return;
    }
    ghost var s4 := dev.Now();
    ret := SetOverflowInterrupt(dev, true);
    Outside(s4.regs, dev.chip.regs, {INT_ENABLE}, CONFIG);
    ModeStepTransitive(s0, s4, dev.Now());
    RenewedStep(s0, s4, dev.Now());
  }

  /** Case 3 of preenable: an external trigger drains the FIFO by software watermark. */
  method EnableExternalPath(dev: DeviceData) returns (ret: int)
    requires dev.Valid()
    modifies dev`fifoEnabled, dev`ledger, dev.chip
    ensures dev.Valid()
    ensures ret == 0 || ret == -EIO
    ensures ret == 0 <==> dev.chip.faults == old(dev.chip.faults)
    ensures ret == 0 ==> dev.ledger == dev.ledger.Marked(|dev.Origins()|)
    ensures ModeStep(old(dev.Now()), dev.Now())
    ensures ret == 0 ==>
      && dev.fifoEnabled && Collecting(dev.chip.regs) && SourcesOn(dev.chip.regs)
      && !DataReadyOn(dev.chip.regs)
    ensures ret == 0 ==> Threshold(dev.chip.regs) == 0 && dev.chip.log.Fresh()
    ensures OverflowIrqOn(dev.chip.regs) == OverflowIrqOn(old(dev.chip.regs))
    ensures ret == 0 ==> Renewed(old(dev.Now()), dev.Now())
    ensures dev.chip.regs[CONFIG] == old(dev.chip.regs)[CONFIG]
  {
    hide FifoLog.Contents, FifoLog.Ok, ModeStep, OnlyChanged, SourcesOn, FifoOn, Collecting, DataReadyOn,
      OverflowIrqOn, Threshold, DeviceData.Committed, DeviceData.Origins;
    ghost var s0 := dev.Now();
    ret := SetDataReady(dev, false);
    Outside(s0.regs, dev.chip.regs, {INT_ENABLE}, CONFIG);
    if ret != 0 {
      return;
    }
    ghost var s1 := dev.Now();
    ret := DisableWatermarkHw(dev);
    Outside(s1.regs, dev.chip.regs, {FIFO_WM_TH1, FIFO_WM_TH2}, CONFIG);
    ModeStepTransitive(s0, s1, dev.Now());
    if ret != 0 {
      return;
    }
    ghost var s2 := dev.Now();
    ret := Reset(dev);
    ModeStepChain(s0, s2, dev.Now());
    if ret != 0 {
      return;
    }
    ghost var s3 := dev.Now();
    ret := Enable(dev);
    Outside(s3.regs, dev.chip.regs, {FIFO_EN, USER_CTRL}, CONFIG);
    ModeStepTransitive(s0, s3, dev.Now());
  }

  /**
   * What preenable establishes for the trigger `current` of the IIO device, from the registers `before`: the
   * overflow interrupt is on with the watermark trigger, off with the data-ready trigger, and left as it was
   * with any other; bit 7 of CONFIG is cleared for the watermark trigger alone.
   */
  ghost predicate ModeEntered(dev: DeviceData, current: Option<Trigger>, before: seq<bv8>)
    reads dev, dev.chip
    requires IsRegisterFile(dev.chip.regs) && IsRegisterFile(before)
  {
    if current == dev.trig then
      && dev.drdyTriggerEnabled && !dev.fifoEnabled && !dev.fifoWmTriggerEnabled
      && FifoOff(dev.chip.regs) && Threshold(dev.chip.regs) == 0
      && DataReadyOn(dev.chip.regs) && !OverflowIrqOn(dev.chip.regs) && dev.chip.regs[CONFIG] == before[CONFIG]
    else
      && !dev.drdyTriggerEnabled && dev.fifoEnabled
      && Collecting(dev.chip.regs) && SourcesOn(dev.chip.regs) && !DataReadyOn(dev.chip.regs)
      && (!dev.chip.log.over ==> dev.chip.log.head == 0)
      && dev.fifoWmTriggerEnabled == (dev.fifoTrig.Some? && current == dev.fifoTrig)
      && OverflowIrqOn(dev.chip.regs) == (dev.fifoWmTriggerEnabled || OverflowIrqOn(before))
      && dev.chip.regs[CONFIG] == (if dev.fifoWmTriggerEnabled then ModeBitOff(before[CONFIG]) else before[CONFIG])
      && Threshold(dev.chip.regs) == if dev.fifoWmTriggerEnabled then FRAME_SIZE * dev.fifoWatermark else 0
  }

  /** The trigger of the IIO device is neither of the two the device registered. */
  ghost predicate UsesExternal(dev: DeviceData, current: Option<Trigger>) {
    current != dev.trig && !(dev.fifoTrig.Some? && current == dev.fifoTrig)
  }

  /** The three cases of preenable. */
  method EnterMode(dev: DeviceData, current: Option<Trigger>) returns (ret: int)
    requires dev.Valid() && !dev.fifoWmTriggerEnabled
    modifies dev`fifoEnabled, dev`fifoWmTriggerEnabled, dev`drdyTriggerEnabled, dev`ledger, dev.chip
    ensures dev.Valid()
    ensures ret == 0 || ret == -EIO
    ensures ret == 0 <==> dev.chip.faults == old(dev.chip.faults)
    ensures ret == 0 && dev.fifoEnabled ==> dev.ledger == dev.ledger.Marked(|dev.Origins()|)
    ensures ModeStep(old(dev.Now()), dev.Now())
    ensures ret == 0 ==> ModeEntered(dev, current, old(dev.chip.regs)) && Renewed(old(dev.Now()), dev.Now())
    ensures UsesExternal(dev, current) ==> OverflowIrqOn(dev.chip.regs) == OverflowIrqOn(old(dev.chip.regs))
  {
    hide ModeBitOff, DeviceData.Valid, FifoLog.Contents, FifoLog.Ok, OrderedWrites, QuietFrom, ModeStep, FifoOff,
      SourcesOn, FifoOn, Collecting, DataReadyOn, OverflowIrqOn, Threshold, DeviceData.Committed, DeviceData.Origins,
      Icm20602.Valid, IioBuffer.Valid;
    if current == dev.trig {
      ret := EnableDataReadyPath(dev);
      if ret == 0 {
        SetModeFlags(dev, true, false, false);
      }
      return;
    }
    if dev.fifoTrig.Some? && current == dev.fifoTrig {
      ret := EnableWatermarkPath(dev);
      if ret == 0 {
        SetModeFlags(dev, false, true, true);
      }
      return;
    }
    ret := EnableExternalPath(dev);
    if ret == 0 {
      SetModeFlags(dev, false, true, false);
    }
  }

  /** The flags at the end of each case of preenable; `fifo` is what fifoEnabled already says. */
  method SetModeFlags(dev: DeviceData, drdy: bool, fifo: bool, watermark: bool)
    requires dev.Valid() && dev.fifoEnabled == fifo
    modifies dev`fifoEnabled, dev`fifoWmTriggerEnabled, dev`drdyTriggerEnabled
    ensures dev.Valid() && dev.Now() == old(dev.Now())
    ensures dev.drdyTriggerEnabled == drdy && dev.fifoEnabled == fifo && dev.fifoWmTriggerEnabled == watermark
  {
    hide Icm20602.Valid, Icm20602.Ordered, QuietFrom, DeviceData.Committed, DeviceData.Origins;
    dev.drdyTriggerEnabled := drdy;
    dev.fifoEnabled := fifo;
    dev.fifoWmTriggerEnabled := watermark;
  }

  /** What is pending is dropped, and counts as lost. */
  method DropPending(dev: DeviceData)
    requires dev.Valid()
    modifies dev`pendingFrames, dev`pendingPos, dev`pendingBaseTs, dev`pendingPeriodNs, dev`pendingFrom, dev`ledger
    ensures dev.Valid() && dev.pendingFrames == 0
    ensures dev.Now() == Cleared(old(dev.Now())).(fifoEnabled := dev.fifoEnabled)
  {
    hide FifoLog.Contents, FifoLog.Ok, OrderedWrites, QuietFrom, SourcesOn, FifoOn, DeviceData.Committed,
      DeviceData.Origins;
    AcceptedPart(dev);
    dev.ledger := dev.ledger.Plus(dev.pendingFrom[dev.pendingPos..]);
    ClearPending(dev);
    NothingPending(dev);
  }

  /** The session state of the previous buffer run goes away. */
  method DropSession(dev: DeviceData)
    requires dev.Valid()
    modifies dev`fifoEnabled, dev`fifoWmTriggerEnabled, dev`pendingFrames, dev`pendingPos, dev`pendingBaseTs,
      dev`pendingPeriodNs, dev`pendingFrom, dev`ledger
    ensures dev.Valid() && dev.pendingFrames == 0 && !dev.fifoEnabled && !dev.fifoWmTriggerEnabled
    ensures dev.Now() == Cleared(old(dev.Now()))
  {
    hide FifoLog.Contents, FifoLog.Ok, OrderedWrites, QuietFrom, DeviceData.Committed, DeviceData.Origins;
    dev.fifoEnabled := false;
    dev.fifoWmTriggerEnabled := false;
    DropPending(dev);
  }

  method ClearModeFlags(dev: DeviceData)
    requires dev.Valid()
    modifies dev`bufferEnabled, dev`fifoEnabled, dev`fifoWmTriggerEnabled, dev`drdyTriggerEnabled
    ensures dev.Valid()
    ensures !dev.bufferEnabled && !dev.fifoEnabled && !dev.fifoWmTriggerEnabled && !dev.drdyTriggerEnabled
    ensures dev.Now() == old(dev.Now()).(fifoEnabled := false)
  {
    hide FifoLog.Contents, FifoLog.Ok, DeviceData.Committed, DeviceData.Origins;
    dev.bufferEnabled := false;
    dev.fifoEnabled := false;
    dev.fifoWmTriggerEnabled := false;
    dev.drdyTriggerEnabled := false;
  }

  /**
   * icm20602_buffer_preenable; `current` is the trigger of the IIO device. Comparing it with the
   * data-ready trigger also matches when neither exists.
   */
  method BufferPreenable(dev: DeviceData, current: Option<Trigger>) returns (ret: int)
    requires dev.Valid()
    modifies dev`bufferEnabled, dev`fifoEnabled, dev`fifoWmTriggerEnabled, dev`drdyTriggerEnabled, dev`pendingFrames,
      dev`pendingPos, dev`pendingBaseTs, dev`pendingPeriodNs, dev`pendingFrom, dev`ledger, dev.chip
    ensures dev.Valid() && dev.pendingFrames == 0
    ensures ret == 0 || ret == -EIO
    ensures ret == 0 <==> dev.chip.faults == old(dev.chip.faults)
    ensures ret == 0 && dev.fifoEnabled ==> dev.ledger == dev.ledger.Marked(|dev.Origins()|)
    ensures ModeStep(Cleared(old(dev.Now())), dev.Now())
    ensures dev.bufferEnabled == (ret == 0)
    ensures ret != 0 ==> !dev.fifoEnabled && !dev.fifoWmTriggerEnabled && !dev.drdyTriggerEnabled
    ensures ret == 0 ==> ModeEntered(dev, current, old(dev.chip.regs)) && Renewed(old(dev.Now()), dev.Now())
    ensures OnlyChanged(old(dev.chip.regs), dev.chip.regs, MODE_REGISTERS)
    ensures UsesExternal(dev, current) ==> OverflowIrqOn(dev.chip.regs) == OverflowIrqOn(old(dev.chip.regs))
  {
    hide ModeBitOff, FifoLog.Contents, FifoLog.Ok, ModeStep, ModeEntered, DeviceData.Committed, DeviceData.Origins,
      OnlyChanged, OverflowIrqOn;
    dev.bufferEnabled := true;
    DropSession(dev);
    ghost var s0 := dev.Now();
    ret := EnterMode(dev, current);
    if ret != 0 {
      ghost var s1 := dev.Now();
      ClearModeFlags(dev);
      ModeStepFlag(s0, s1, dev.Now());
    }
    FrameOf(s0, dev.Now());
  }

  /** What a teardown leaves on: the interrupts, a threshold, and the FIFO if the driver was using it. */
  ghost function LeftOn(regs: seq<bv8>, fifo: bool): nat
    requires IsRegisterFile(regs)
  {
    (if DataReadyOn(regs) || OverflowIrqOn(regs) then 1 else 0)
    + (if Threshold(regs) != 0 then 1 else 0)
    + (if fifo && !FifoOff(regs) then 1 else 0)
  }

  /** Disable the FIFO and, whether or not that worked, reset it once more. */
  method DisableAndReset(dev: DeviceData) returns (ret: int)
    requires dev.Valid()
    modifies dev`fifoEnabled, dev`ledger, dev.chip
    ensures dev.Valid()
    ensures ret == 0 || ret == -EIO
    ensures dev.chip.faults >= old(dev.chip.faults)
    ensures ret == 0 <==> dev.chip.faults == old(dev.chip.faults)
    ensures ret == 0 ==> FifoOff(dev.chip.regs)
    ensures SameInterrupts(old(dev.chip.regs), dev.chip.regs)
    ensures dev.chip.log.Fresh() || dev.chip.faults >= old(dev.chip.faults) + 2
    ensures LeaveStep(old(dev.Now()), dev.Now())
  {
    hide FifoLog.Contents, FifoLog.Ok, ModeStep, SourcesOn, FifoOn, DataReadyOn, OverflowIrqOn, Threshold,
      DeviceData.Committed, DeviceData.Origins;
    ghost var s0 := dev.Now();
    ret := 0;
    var tmp := Disable(dev);
    if tmp != 0 {
      ret := tmp;
    }
    ghost var s1 := dev.Now();
    LeaveStepRefl(s0, s1);
    tmp := Reset(dev);
    if ret == 0 {
      LeaveStepFrom(s0, s1, dev.Now());
    } else {
      LeaveStepLoud(s0, s1, dev.Now());
    }
    if tmp != 0 && ret == 0 {
      ret := tmp;
    }
  }

  /** Shut the FIFO down if the driver was using it. */
  method RetireFifo(dev: DeviceData) returns (ret: int)
    requires dev.Valid()
    modifies dev`fifoEnabled, dev`ledger, dev.chip
    ensures dev.Valid() && !dev.fifoEnabled
    ensures ret == 0 || ret == -EIO
    ensures dev.chip.faults >= old(dev.chip.faults)
    ensures ret == 0 <==> dev.chip.faults == old(dev.chip.faults)
    ensures ret == 0 ==>
      if old(dev.fifoEnabled) then FifoOff(dev.chip.regs) else SameFifo(old(dev.chip.regs), dev.chip.regs)
    ensures SameInterrupts(old(dev.chip.regs), dev.chip.regs)
    ensures old(dev.fifoEnabled) ==> dev.chip.log.Fresh() || dev.chip.faults >= old(dev.chip.faults) + 2
    ensures LeaveStep(old(dev.Now()), dev.Now())
  {
    hide FifoLog.Contents, FifoLog.Ok, ModeStep, SourcesOn, FifoOn, Collecting, DataReadyOn, OverflowIrqOn, Threshold,
      DeviceData.Committed, DeviceData.Origins;
    if !dev.fifoEnabled {
      ModeStepRefl(dev.Now());
      LeaveStepRefl(dev.Now(), dev.Now());
      return 0;
    }
    ghost var s0 := dev.Now();
    ret := DisableAndReset(dev);
    ghost var s := dev.Now();
    dev.fifoEnabled := false;
    LeaveStepFlag(s0, s, dev.Now());
  }

  /**
   * The tail postdisable and stop_device share: every step is tried, so whatever is left on is owed to a bus
   * failure of its own, and a FIFO in use is empty unless two accesses failed.
   */
  method QuiesceHardware(dev: DeviceData) returns (ret: int)
    requires dev.Valid()
    modifies dev`fifoEnabled, dev`ledger, dev.chip
    ensures dev.Valid() && !dev.fifoEnabled
    ensures ret == 0 || ret == -EIO
    ensures ret == 0 <==> dev.chip.faults == old(dev.chip.faults)
    ensures ret == 0 ==>
      !DataReadyOn(dev.chip.regs) && !OverflowIrqOn(dev.chip.regs) && Threshold(dev.chip.regs) == 0
    ensures ret == 0 ==>
      if old(dev.fifoEnabled) then FifoOff(dev.chip.regs) else SameFifo(old(dev.chip.regs), dev.chip.regs)
    ensures old(dev.fifoEnabled) ==> dev.chip.log.Fresh() || dev.chip.faults >= old(dev.chip.faults) + 2
    ensures LeftOn(dev.chip.regs, old(dev.fifoEnabled)) <= dev.chip.faults - old(dev.chip.faults)
    ensures LeaveStep(old(dev.Now()), dev.Now())
  {
    hide FifoLog.Contents, FifoLog.Ok, LeaveStep, ModeStep, OnlyChanged, SourcesOn, FifoOn, Collecting, DataReadyOn,
      OverflowIrqOn, Threshold, DeviceData.Committed, DeviceData.Origins;
    ghost var s0 := dev.Now();
    ret := MaskInterrupts(dev);
    ghost var s1 := dev.Now();
    var tmp := DisableWatermarkHw(dev);
    LeaveStepFrom(s0, s1, dev.Now());
    if tmp != 0 && ret == 0 {
      ret := tmp;
    }
    ghost var s2 := dev.Now();
    tmp := RetireFifo(dev);
    LeaveStepTransitive(s0, s2, dev.Now());
    if tmp != 0 && ret == 0 {
      ret := tmp;
    }
  }

  /** icm20602_buffer_postdisable. */
  method BufferPostdisable(dev: DeviceData) returns (ret: int)
    requires dev.Valid()
    modifies dev`bufferEnabled, dev`fifoEnabled, dev`fifoWmTriggerEnabled, dev`drdyTriggerEnabled, dev`pendingFrames,
      dev`pendingPos, dev`pendingBaseTs, dev`pendingPeriodNs, dev`pendingFrom, dev`ledger, dev.chip
    ensures dev.Valid() && dev.pendingFrames == 0
    ensures !dev.bufferEnabled && !dev.fifoEnabled && !dev.fifoWmTriggerEnabled && !dev.drdyTriggerEnabled
    ensures ret == 0 || ret == -EIO
    ensures ret == 0 <==> dev.chip.faults == old(dev.chip.faults)
    ensures ret == 0 ==>
      !DataReadyOn(dev.chip.regs) && !OverflowIrqOn(dev.chip.regs) && Threshold(dev.chip.regs) == 0
    ensures ret == 0 ==>
      if old(dev.fifoEnabled) then FifoOff(dev.chip.regs) else SameFifo(old(dev.chip.regs), dev.chip.regs)
    ensures old(dev.fifoEnabled) ==> dev.chip.log.Fresh() || dev.chip.faults >= old(dev.chip.faults) + 2
    ensures LeftOn(dev.chip.regs, old(dev.fifoEnabled)) <= dev.chip.faults - old(dev.chip.faults)
    ensures LeaveStep(Cleared(old(dev.Now())).(fifoEnabled := old(dev.fifoEnabled)), dev.Now())
    ensures OnlyChanged(old(dev.chip.regs), dev.chip.regs, MODE_REGISTERS)
  {
    hide FifoLog.Contents, FifoLog.Ok, OrderedWrites, QuietFrom, LeaveStep, SourcesOn, FifoOn, Collecting,
      DataReadyOn, OverflowIrqOn, Threshold, DeviceData.Committed, DeviceData.Origins;
    dev.bufferEnabled := false;
    dev.drdyTriggerEnabled := false;
    dev.fifoWmTriggerEnabled := false;
    DropPending(dev);
    ret := QuiesceHardware(dev);
    FrameOf(old(Cleared(dev.Now()).(fifoEnabled := dev.fifoEnabled)), dev.Now());
  }

  /** icm20602_stop_device_locked: the same without dropping what is pending. */
  method StopDeviceLocked(dev: DeviceData) returns (ret: int)
    requires dev.Valid()
    modifies dev`bufferEnabled, dev`fifoEnabled, dev`fifoWmTriggerEnabled, dev`drdyTriggerEnabled, dev`ledger, dev.chip
    ensures dev.Valid()
    ensures !dev.bufferEnabled && !dev.fifoEnabled && !dev.fifoWmTriggerEnabled && !dev.drdyTriggerEnabled
    ensures ret == 0 || ret == -EIO
    ensures ret == 0 <==> dev.chip.faults == old(dev.chip.faults)
    ensures ret == 0 ==>
      !DataReadyOn(dev.chip.regs) && !OverflowIrqOn(dev.chip.regs) && Threshold(dev.chip.regs) == 0
    ensures ret == 0 ==>
      if old(dev.fifoEnabled) then FifoOff(dev.chip.regs) else SameFifo(old(dev.chip.regs), dev.chip.regs)
    ensures old(dev.fifoEnabled) ==> dev.chip.log.Fresh() || dev.chip.faults >= old(dev.chip.faults) + 2
    ensures LeftOn(dev.chip.regs, old(dev.fifoEnabled)) <= dev.chip.faults - old(dev.chip.faults)
    ensures LeaveStep(old(dev.Now()), dev.Now())
    ensures OnlyChanged(old(dev.chip.regs), dev.chip.regs, MODE_REGISTERS)
  {
    hide FifoLog.Contents, FifoLog.Ok, LeaveStep, SourcesOn, FifoOn, Collecting, DataReadyOn, OverflowIrqOn,
      Threshold, DeviceData.Committed, DeviceData.Origins;
    dev.drdyTriggerEnabled := false;
    dev.fifoWmTriggerEnabled := false;
    dev.bufferEnabled := false;
    ret := QuiesceHardware(dev);
    FrameOf(old(dev.Now()), dev.Now());
  }

  /** icm20602_set_trigger_state of the data-ready trigger. */
  method SetTriggerState(dev: DeviceData, state: bool) returns (ret: int)
    requires dev.Valid()
    modifies dev`drdyTriggerEnabled, dev.chip
    ensures dev.Valid()
    ensures ret == 0 || ret == -EIO
    ensures ret == 0 <==> dev.chip.faults == old(dev.chip.faults)
    ensures ret == 0 ==> dev.drdyTriggerEnabled == state && DataReadyOn(dev.chip.regs) == state
    ensures ret != 0 ==> dev.drdyTriggerEnabled == old(dev.drdyTriggerEnabled) && dev.chip.regs == old(dev.chip.regs)
    ensures OnlyChanged(old(dev.chip.regs), dev.chip.regs, {INT_ENABLE})
    ensures OverflowIrqOn(dev.chip.regs) == OverflowIrqOn(old(dev.chip.regs))
    ensures SameFifo(old(dev.chip.regs), dev.chip.regs) && Threshold(dev.chip.regs) == Threshold(old(dev.chip.regs))
    ensures ModeStep(old(dev.Now()), dev.Now())
    ensures old(dev.chip.log).Grew(dev.chip.log)
    ensures KeepsQuiet(old(dev.chip.writes), dev.chip.writes)
  {
    hide FifoLog.Contents, FifoLog.Ok, ModeStep, DeviceData.Committed, DeviceData.Origins;
    ret := SetDataReady(dev, state);
    if ret == 0 {
      dev.drdyTriggerEnabled := state;
    }
  }

  /** icm20602_fifo_trigger_set_state: only the flag. */
  method FifoTriggerSetState(dev: DeviceData, state: bool) returns (ret: int)
    modifies dev`fifoWmTriggerEnabled
    ensures ret == 0 && dev.fifoWmTriggerEnabled == state
    ensures old(dev.Valid()) ==> dev.Valid() && dev.Now() == old(dev.Now())
  {
    hide Icm20602.Valid, Icm20602.Ordered, QuietFrom, DeviceData.Committed, DeviceData.Origins;
    dev.fifoWmTriggerEnabled := state;
    ret := 0;
  }

  /** icm20602_irq_handler: the trigger it polls, if any. */
  method IrqHandler(dev: DeviceData) returns (polled: Option<Trigger>)
    ensures polled.Some? ==>
      || (dev.fifoWmTriggerEnabled && polled == dev.fifoTrig)
      || (!(dev.fifoWmTriggerEnabled && dev.fifoTrig.Some?) && dev.drdyTriggerEnabled && polled == dev.trig)
    ensures polled.None? ==>
      && !(dev.fifoWmTriggerEnabled && dev.fifoTrig.Some?)
      && !(dev.drdyTriggerEnabled && dev.trig.Some?)
  {
    if dev.fifoWmTriggerEnabled && dev.fifoTrig.Some? {
      return dev.fifoTrig;
    }
    if dev.drdyTriggerEnabled && dev.trig.Some? {
      return dev.trig;
    }
    return None;
  }

  /** The direct path: one read of the output registers, one push. */
  method PushSample(dev: DeviceData, timestamp: int)
    requires dev.Valid() && dev.pendingFrames == 0 && !dev.fifoEnabled
    modifies dev.chip, dev.iio
    ensures dev.Valid()
    ensures Moved(old(dev.Now()), dev.Now())
    ensures dev.chip.regs == old(dev.chip.regs)
    ensures dev.iio.scans == old(dev.iio.scans)
      + if dev.chip.faults == old(dev.chip.faults) && dev.iio.refusals == old(dev.iio.refusals)
        then [Scan(FillScan(dev.chip.sample), timestamp)] else []
  {
    hide FifoLog.Contents, FifoLog.Ok, OrderedWrites, QuietFrom, SourcesOn, FifoOn, Moved, DeviceData.Committed,
      DeviceData.Origins;
    ghost var s0 := dev.Now();
    NothingPending(dev);
    var ret, frame := dev.chip.ReadSample();
    ghost var pushed := [];
    if ret == 0 {
      var failed := dev.iio.Push(FillScan(frame), timestamp, FromRegisters);
      pushed := if failed == 0 then [Scan(FillScan(frame), timestamp)] else [];
    }
    NothingPending(dev);
    DirectMoves(s0, dev.Now(), pushed);
  }

  /** A direct sample, or nothing, comes behind whatever was committed before. */
  lemma DirectMoves(s: Snapshot, s': Snapshot, pushed: seq<Scan>)
    requires s.Ok() && s'.Ok() && s.log.Grew(s'.log) && !s.fifoEnabled && |pushed| <= 1
    requires s.accepted == s.committed && s.Idle()
    requires s'.oflow == (s.oflow || s'.log.overruns > s.log.overruns)
    requires s.faults <= s'.faults && s.refusals <= s'.refusals
    requires s' == s.(log := s'.log, oflow := s'.oflow, faults := s'.faults, refusals := s'.refusals,
                      accepted := s.accepted + pushed, committed := s.committed + pushed,
                      origins := if pushed == [] then s.origins else s.origins + [FromRegisters])
    ensures Moved(s, s')
  {
    hide Conserved, Faithful;
    EvolvedIsLater(s.log, s'.log, false, false);
    DirectKeepsRuns(s, s');
    if s.Delivers() {
      DirectDelivers(s, s', pushed);
    }
    if s.Conserves() {
      ConservedGrows(s.origins, |s.accepted|, s.log, s'.log, s.ledger, false);
      if pushed != [] {
        ConservedDirect(s.origins, s'.log, s.ledger);
      }
    }
  }

  lemma DirectDelivers(s: Snapshot, s': Snapshot, pushed: seq<Scan>)
    requires s.Delivers() && s.log.Later(s'.log) && |pushed| <= 1 && s'.committed == s.committed + pushed
    requires s'.origins == if pushed == [] then s.origins else s.origins + [FromRegisters]
    ensures s'.Delivers()
  {
    FaithfulLater(s.committed, s.origins, s.log, s'.log);
    if pushed == [] {
      assert s'.committed == s.committed;
    } else {
      FaithfulBurst(s.committed, s.origins, s.log, s'.log, pushed, [FromRegisters], 0);
    }
  }

  /**
   * icm20602_trigger_handler: the FIFO path if fifo_enabled, else the direct path. Whichever it
   * takes, scans are only added and delivery stays exact.
   */
  method TriggerHandler(dev: DeviceData, timestamp: int)
    returns (ghost ret: int, ghost log: seq<Batch>, ghost end: DrainEnd)
    requires dev.Valid() && (!dev.fifoEnabled ==> dev.pendingFrames == 0)
    modifies dev`fifoEnabled, dev`pendingFrames, dev`pendingPos, dev`pendingBaseTs, dev`pendingPeriodNs,
      dev`pendingFrom, dev`burstPushFailCount, dev`burstReadCount, dev`overflowCount, dev`ledger, dev`hazards, dev.chip,
      dev.iio, dev.burst
    ensures dev.Valid() && (!dev.fifoEnabled ==> dev.pendingFrames == 0)
    ensures Moved(old(dev.Now()), dev.Now())
    ensures old(dev.fifoEnabled) ==>
      var job := Job(old(dev.Now()), timestamp, PeriodNs(dev.samplingFrequency), dev.fifoWatermark, false);
      Progress(job, dev.Now(), log) && Accounts(job, dev.Now(), log) && EndsWith(job, dev.Now(), log, ret, end)
        && IsPeriod(job.period, dev.samplingFrequency)
    ensures !old(dev.fifoEnabled) ==>
      dev.iio.scans == old(dev.iio.scans)
        + if dev.chip.faults == old(dev.chip.faults) && dev.iio.refusals == old(dev.iio.refusals)
          then [Scan(FillScan(dev.chip.sample), timestamp)] else []
  {
    hide FifoLog.Contents, FifoLog.Ok, Progress, Accounts, EndsWith, Moved, DeviceData.Committed, DeviceData.Origins,
      IsPeriod;
    ret, log, end := 0, [], Below;
    if dev.fifoEnabled {
      ghost var job := JobFor(dev, dev.Now(), timestamp, false);
      var status;
      ghost var cut;
      status, log, end, cut := Run(dev, timestamp, false);
      ret := status;
      DrainMoves(job, dev.Now(), log, ret, end);
      if status == -EBUSY {
        RefusedKeepsMode(job, dev.Now(), log, end);
      }
    } else {
      PushSample(dev, timestamp);
    }
  }
}
