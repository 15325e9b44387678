/**
 * The IIO core around the driver: the legal orders of its callbacks, with interrupts, trigger
 * firings and sysfs accesses in between. Callbacks are atomic; the bus may fail inside any of them.
 */
module IioCore {
  import opened Batches
  import opened BufferOps
  import opened Chip
  import opened CoreSpec
  import opened Delivery
  import opened Device
  import opened DrainLaws
  import opened DrainSpec
  import opened Errno
  import opened FifoLogs
  import opened Frames
  import opened Iio
  import opened Ledgers
  import opened ModeSpec
  import opened Rates
  import opened Registers
  import opened Runs
  import opened Settings
  import opened Sysfs

  class Core {
    const dev: DeviceData
    var phase: Phase
    var current: Option<Trigger>
    ghost var session: Session   // since the buffer was last enabled

    ghost function FlagsNow(): Flags
      reads dev
    {
      Flags(dev.bufferEnabled, dev.drdyTriggerEnabled, dev.fifoWmTriggerEnabled, dev.fifoWatermark,
        dev.pendingFrames == 0)
    }

    /** The cached settings are `cached`, and no registers but those of the mode have moved since `regs`. */
    ghost predicate SettingsStay(regs: seq<bv8>, cached: Cache)
      reads dev, dev.chip
    {
      && IsRegisterFile(regs) && IsRegisterFile(dev.chip.regs) && ModeFrame(regs, dev.chip.regs)
      && dev.Cached() == cached
    }

    lemma SettingsStayed(regs: seq<bv8>, cached: Cache)
      requires IsRegisterFile(regs) && IsRegisterFile(dev.chip.regs) && ModeFrame(regs, dev.chip.regs)
      requires dev.Cached() == cached
      ensures SettingsStay(regs, cached)
    {}

    /** A trigger the core can select: an external one, or one this device registered. */
    predicate Registered(t: Option<Trigger>) {
      t.None? || t.value.External? || t == dev.trig || t == dev.fifoTrig
    }

    /** The device registers both triggers or none. */
    ghost predicate Triggers() {
      || (dev.trig.None? && dev.fifoTrig.None?)
      || (dev.trig == Some(DataReady) && dev.fifoTrig == Some(FifoWatermark))
    }

    ghost predicate Inv()
      reads this, dev, dev.chip, dev.iio, dev.burst
    {
      && dev.Valid() && dev.SettingsMatch()
      && Triggers()
      && Registered(current)
      && CoreOk(dev.Now(), FlagsNow(), phase, current, session)
    }

    /** Probe: the chip after soft reset, then init_device. The core is usable iff that succeeds. */
    constructor (hasIrq: bool, cfg: Config)
      ensures dev.chip.faults == 0 ==> Inv()
      ensures dev.chip.faults == 0 ==> dev.fifoWatermark == 16 && dev.overflowCount == 0
      ensures phase == Off && dev.iio.scans == [] && session == NO_SESSION
    {
      hide CoreOk, FifoLog.Contents, FifoLog.Ok, OrderedWrites, QuietFrom, Matching, Programmed, SourcesOn, FifoOn,
        DataReadyOn, OverflowIrqOn, Threshold, Collecting, DeviceData.Committed, DeviceData.Origins;
      var chip := new Icm20602();
      var iio := new IioBuffer();
      var data := new DeviceData(chip, iio, hasIrq);
      dev := data;
      phase := Off;
      current := None;
      session := NO_SESSION;
      new;
      var ret := InitDevice(dev, cfg);
      if ret == 0 {
        CoreStarts(dev, FlagsNow());
      }
    }

    /** current_trigger can be written only while the buffer is off. */
    method SelectTrigger(t: Option<Trigger>) returns (ret: int)
      requires Inv() && Registered(t)
      modifies this`current
      ensures Inv()
      ensures ret == (if phase == Off then 0 else -EBUSY)
      ensures current == if ret == 0 then t else old(current)
    {
      if phase != Off {
        return -EBUSY;
      }
      current := t;
      return 0;
    }

    /**
     * The core runs preenable only with a trigger selected. Success begins a session; a session that uses
     * the FIFO begins clean unless the FIFO has overflowed already since it was reset.
     */
    method Preenable() returns (ret: int)
      requires Inv() && phase == Off && current.Some?
      modifies this`phase, this`session, dev, dev.chip
      ensures Inv()
      ensures phase == if ret == 0 then Prepared else Off
      ensures dev.chip.faults == old(dev.chip.faults) ==> ret == 0
      ensures Grows(old(dev.Now()), dev.Now()) && dev.Now().accepted == old(dev.Now()).accepted
      ensures session == if ret == 0 then Begin(dev.Now(), current != Some(DataReady)) else old(session)
      ensures Succeeds(old(dev.Now()), old(session), dev.Now(), session)
      ensures ret == 0 && dev.chip.log.overruns == old(dev.chip.log.overruns) ==> !dev.chip.log.over
      ensures ret == 0 && session.fifo && !dev.chip.log.over ==>
        Intact(dev.Now(), session) && Clean(dev.Now(), session)
      ensures ret == 0 && !old(dev.chip.oflow) && dev.chip.log.overruns == old(dev.chip.log.overruns) ==>
        Calm(dev.Now(), session)
      ensures SettingsStay(old(dev.chip.regs), old(dev.Cached()))
      ensures current.value.External? ==> OverflowIrqOn(dev.chip.regs) == OverflowIrqOn(old(dev.chip.regs))
    {
      hide SettingsStay, FifoLog.Contents, FifoLog.Ok, OrderedWrites, QuietFrom, Matching, CoreOk, Grows,
        DeviceData.Committed, DeviceData.Origins, Succeeds, Intact, Clean, Calm, OverflowIrqOn, DeviceData.Valid;
      ret := EnterBuffer();
      if ret == 0 {
        session := Begin(dev.Now(), current != Some(DataReady));
        if !dev.chip.log.over {
          BeginsClean(dev.Now(), FlagsNow(), current);
        }
      }
    }

    /** preenable itself: success leaves the device in the mode of the trigger, failure leaves the buffer off. */
    method EnterBuffer() returns (ret: int)
      requires Inv() && phase == Off && current.Some?
      modifies this`phase, dev, dev.chip
      ensures dev.Valid() && dev.SettingsMatch() && SettingsStay(old(dev.chip.regs), old(dev.Cached()))
      ensures phase == if ret == 0 then Prepared else Off
      ensures ret == 0 <==> dev.chip.faults == old(dev.chip.faults)
      ensures Grows(old(dev.Now()), dev.Now()) && dev.Now().accepted == old(dev.Now()).accepted
      ensures var c := if ret == 0 then Begin(dev.Now(), current != Some(DataReady)) else session;
        && CoreOk(dev.Now(), FlagsNow(), phase, current, c) && Succeeds(old(dev.Now()), session, dev.Now(), c)
        && (ret == 0 && !old(dev.chip.oflow) && dev.chip.log.overruns == old(dev.chip.log.overruns) ==>
              Calm(dev.Now(), c))
      ensures ret == 0 && dev.chip.log.overruns == old(dev.chip.log.overruns) ==> !dev.chip.log.over
      ensures current.value.External? ==> OverflowIrqOn(dev.chip.regs) == OverflowIrqOn(old(dev.chip.regs))
    {
      hide SettingsStay, FifoLog.Contents, FifoLog.Ok, OrderedWrites, QuietFrom, Matching, ModeFrame, CoreOk, Grows,
        Entered, ModeEntered, ModeStep, DeviceData.Committed, DeviceData.Origins, Collecting, SourcesOn, FifoOn,
        DataReadyOn, OverflowIrqOn, Threshold, Icm20602.Valid, Conserved, Succeeds, Calm, DeviceData.Valid;
      ghost var s, f := dev.Now(), FlagsNow();
      OffIsCleared(dev, f, current, session);
      ret := BufferPreenable(dev, current);
      phase := if ret == 0 then Prepared else Off;
      ghost var s' := dev.Now();
      ModeStepSettings(s, s');
      MatchingKept(s.regs, s'.regs, dev.samplingFrequency, dev.accelScaleIdx, dev.gyroScaleIdx);
      SettingsStayed(s.regs, old(dev.Cached()));
      NothingPending(dev);
      if ret == 0 {
        EntersMode(s, f);
        EnableStarts(s, f, s', FlagsNow(), current, session);
      } else {
        EnableFails(s, f, s', FlagsNow(), current, session);
        EnableSucceeds(s, s', session);
      }
    }

    /** What preenable establishes, in the terms of the core. */
    lemma EntersMode(s: Snapshot, f: Flags)
      requires s.Ok() && dev.Valid() && current.Some? && Registered(current) && Triggers()
      requires ModeEntered(dev, current, s.regs) && f.watermark == dev.fifoWatermark
      requires dev.fifoEnabled ==> dev.ledger == dev.ledger.Marked(|dev.Origins()|)
      ensures Entered(s, f, dev.Now(), FlagsNow(), current)
    {
      hide DataReadyOn, OverflowIrqOn, Threshold, DeviceData.Committed, DeviceData.Origins, FifoLog.Contents,
        FifoLog.Ok, Icm20602.Valid, Icm20602.Ordered;
    }

    /**
     * iio_triggered_buffer_postenable attaches the trigger and switches it on. If that fails the core
     * runs postdisable.
     */
    method Postenable() returns (ret: int)
      requires Inv() && phase == Prepared
      modifies this`phase, this`session, dev, dev.chip
      ensures Inv()
      ensures phase == if ret == 0 then Running else Off
      ensures ret == 0 ==> session == old(session)
      ensures SettingsStay(old(dev.chip.regs), old(dev.Cached()))
      ensures Succeeds(old(dev.Now()), old(session), dev.Now(), session)
      ensures ret == 0 ==> Attached(true)
      ensures ret == 0 && current != Some(DataReady) ==> dev.Now() == old(dev.Now())
      ensures dev.chip.faults == old(dev.chip.faults) ==> ret == 0
      ensures Grows(old(dev.Now()), dev.Now())
    {
      hide FifoLog.Contents, FifoLog.Ok, OrderedWrites, QuietFrom, Matching, CoreOk, Grows, Attached,
        DeviceData.Committed, DeviceData.Origins;
      ret := SwitchTrigger(true, Running);
      SucceedsSame(old(dev.Now()), dev.Now(), session);
      if ret != 0 {
        ghost var s := dev.Now();
        phase := Detached;
        PhaseKeeps(dev.Now(), FlagsNow(), FlagsNow(), Running, Detached, current, session);
        var tmp := Postdisable();
        GrowsTransitive(old(dev.Now()), s, dev.Now());
        SucceedsTransitive(old(dev.Now()), old(session), s, old(session), dev.Now(), session);
        ModeFrameTransitive(old(dev.chip.regs), s.regs, dev.chip.regs);
      }
    }

    /** predisable detaches the trigger; a failure to switch it off is not acted upon. */
    method Predisable()
      requires Inv() && phase == Running
      modifies this`phase, dev, dev.chip
      ensures Inv() && phase == Detached
      ensures dev.chip.faults == old(dev.chip.faults) ==> Attached(false)
      ensures Grows(old(dev.Now()), dev.Now())
      ensures current != Some(DataReady) ==> dev.Now() == old(dev.Now())
      ensures Succeeds(old(dev.Now()), old(session), dev.Now(), session)
      ensures SettingsStay(old(dev.chip.regs), old(dev.Cached()))
    {
      var ret := SwitchTrigger(false, Detached);
      SucceedsSame(old(dev.Now()), dev.Now(), session);
    }

    /** Interrupts poll the selected trigger, if it is one of the device's own, iff it is switched on. */
    predicate Attached(on: bool)
      reads this, dev
    {
      && (current == Some(DataReady) ==> dev.drdyTriggerEnabled == on)
      && (current == Some(FifoWatermark) ==> dev.fifoWmTriggerEnabled == on)
    }

    /** set_trigger_state of whichever trigger is selected; an external one does not involve the device. */
    method SwitchTrigger(on: bool, next: Phase) returns (ret: int)
      requires Inv() && phase != Off && next != Off
      modifies this`phase, dev, dev.chip
      ensures Inv() && phase == next && dev.chip.faults >= old(dev.chip.faults)
      ensures dev.chip.faults == old(dev.chip.faults) ==> ret == 0
      ensures ret == 0 ==> Attached(on)
      ensures current != Some(DataReady) ==> dev.Now() == old(dev.Now())
      ensures Grows(old(dev.Now()), dev.Now())
      ensures dev.ledger == old(dev.ledger)
      ensures SettingsStay(old(dev.chip.regs), old(dev.Cached()))
    {
      hide FifoLog.Contents, FifoLog.Ok, OrderedWrites, QuietFrom, Matching, CoreOk, Grows, DeviceData.Committed,
        DeviceData.Origins;
      CurrentExists(dev.Now(), FlagsNow(), phase, current, session);
      if current == Some(DataReady) {
        ret := SwitchDataReady(on, next);
      } else {
        GrowsRefl(dev.Now());
        ret := SwitchFlag(on, next);
      }
    }

    method SwitchDataReady(on: bool, next: Phase) returns (ret: int)
      requires Inv() && phase != Off && next != Off && current == Some(DataReady)
      modifies this`phase, dev`drdyTriggerEnabled, dev.chip
      ensures Inv() && phase == next && dev.chip.faults >= old(dev.chip.faults)
      ensures dev.chip.faults == old(dev.chip.faults) ==> ret == 0
      ensures ret == 0 ==> dev.drdyTriggerEnabled == on
      ensures Grows(old(dev.Now()), dev.Now())
      ensures SettingsStay(old(dev.chip.regs), old(dev.Cached()))
    {
      hide DeviceData.Valid, FifoLog.Contents, FifoLog.Ok, OrderedWrites, QuietFrom, Matching, ModeFrame, CoreOk,
        Grows, ModeStep, DeviceData.Committed, DeviceData.Origins, Collecting, SourcesOn, FifoOn, DataReadyOn,
        OverflowIrqOn, Threshold;
      ghost var s, f := dev.Now(), FlagsNow();
      RoutedDataReady(s, f, phase, current, session);
      CurrentExists(s, f, phase, current, session);
      NothingPendingNow(dev);
      ret := SetTriggerState(dev, on);
      ghost var was := phase;
      phase := next;
      ModeStepSettings(s, dev.Now());
      MatchingKept(s.regs, dev.chip.regs, dev.samplingFrequency, dev.accelScaleIdx, dev.gyroScaleIdx);
      DataReadyStateKeeps(s, f, dev.Now(), FlagsNow(), was, next, current, session);
    }

    method SwitchFlag(on: bool, next: Phase) returns (ret: int)
      requires Inv() && phase != Off && next != Off && current != Some(DataReady)
      modifies this`phase, dev`fifoWmTriggerEnabled
      ensures Inv() && phase == next && ret == 0
      ensures current == Some(FifoWatermark) ==> dev.fifoWmTriggerEnabled == on
      ensures dev.Now() == old(dev.Now())
    {
      hide FifoLog.Contents, FifoLog.Ok, OrderedWrites, QuietFrom, Matching, CoreOk, DeviceData.Committed,
        DeviceData.Origins, Collecting, SourcesOn, FifoOn, DataReadyOn, OverflowIrqOn, Threshold, Icm20602.Valid,
        Faithful, DeviceData.Valid;
      ghost var s, f := dev.Now(), FlagsNow();
      ret := 0;
      if current == Some(FifoWatermark) {
        ret := FifoTriggerSetState(dev, on);
      }
      ghost var was := phase;
      phase := next;
      PhaseKeeps(s, f, FlagsNow(), was, next, current, session);
    }

    /** postdisable, after predisable. */
    method Postdisable() returns (ret: int)
      requires Inv() && phase == Detached
      modifies this`phase, this`session, dev, dev.chip
      ensures Inv() && phase == Off && dev.chip.faults >= old(dev.chip.faults)
      ensures session == Ended(old(dev.Now()), old(session))
      ensures Succeeds(old(dev.Now()), old(session), dev.Now(), session)
      ensures old(Intact(dev.Now(), session)) && dev.chip.log.overruns == old(dev.chip.log.overruns) ==>
        Intact(dev.Now(), session)
      ensures dev.chip.faults == old(dev.chip.faults) ==> ret == 0
      ensures LeftOn(dev.chip.regs, old(dev.fifoEnabled)) <= dev.chip.faults - old(dev.chip.faults)
      ensures Grows(old(dev.Now()), dev.Now())
      ensures SettingsStay(old(dev.chip.regs), old(dev.Cached()))
    {
      hide OnlyChanged, FifoOff, LeftOn, DeviceData.Valid, FifoLog.Contents, FifoLog.Ok, OrderedWrites, QuietFrom,
        Matching, ModeFrame, CoreOk, Grows, LeaveStep, DeviceData.Committed, DeviceData.Origins, Collecting,
        SourcesOn, FifoOn, DataReadyOn, OverflowIrqOn, Threshold;
      AcceptedPart(dev);
      ghost var s, f := dev.Now(), FlagsNow();
      ret := BufferPostdisable(dev);
      phase := Off;
      session := Ended(s, session);
      LeaveStepSettings(Cleared(s).(fifoEnabled := s.fifoEnabled), dev.Now());
      MatchingKept(s.regs, dev.chip.regs, dev.samplingFrequency, dev.accelScaleIdx, dev.gyroScaleIdx);
      DisableKeeps(s, f, dev.Now(), FlagsNow(), Detached, current, old(session));
    }

    /**
     * The interrupt may fire at any time. It polls at most the trigger the buffer was enabled with,
     * and nothing while the buffer is off.
     */
    method Interrupt() returns (polled: Option<Trigger>)
      requires Inv()
      ensures polled.Some? ==> phase != Off && polled == current
    {
      polled := IrqHandler(dev);
    }

    /** The attached trigger fires. */
    method Trigger(timestamp: int) returns (ghost ret: int, ghost log: seq<Batch>, ghost end: DrainEnd)
      requires Inv() && phase != Off
      modifies dev, dev.chip, dev.iio, dev.burst
      ensures Inv()
      ensures Moved(old(dev.Now()), dev.Now()) && Grows(old(dev.Now()), dev.Now())
      ensures old(dev.fifoEnabled) ==>
        var job := Job(old(dev.Now()), timestamp, PeriodNs(dev.samplingFrequency), dev.fifoWatermark, false);
        Progress(job, dev.Now(), log) && Accounts(job, dev.Now(), log) && EndsWith(job, dev.Now(), log, ret, end)
          && IsPeriod(job.period, dev.samplingFrequency)
      ensures !old(dev.fifoEnabled) ==>
        dev.iio.scans == old(dev.iio.scans)
          + if dev.chip.faults == old(dev.chip.faults) && dev.iio.refusals == old(dev.iio.refusals)
            then [Scan(FillScan(dev.chip.sample), timestamp)] else []
      ensures Succeeds(old(dev.Now()), old(session), dev.Now(), session)
      ensures SettingsStay(old(dev.chip.regs), old(dev.Cached()))
    {
      hide IsPeriod, Succeeds, Icm20602.Ordered, IioBuffer.Valid, DeviceData.PendingOk, DeviceData.Valid,
        FifoLog.Contents, FifoLog.Ok, OrderedWrites, QuietFrom, Matching, ModeFrame, CoreOk, Grows, Moved, Progress,
        Accounts, EndsWith, DeviceData.Committed, DeviceData.Origins, Collecting, SourcesOn, FifoOn, DataReadyOn,
        OverflowIrqOn, Threshold, OnlyChanged, Icm20602.Valid;
      ghost var s, f := dev.Now(), FlagsNow();
      CurrentExists(s, f, phase, current, session);
      ret, log, end := TriggerHandler(dev, timestamp);
      MovedSettings(s, dev.Now());
      MatchingKept(s.regs, dev.chip.regs, dev.samplingFrequency, dev.accelScaleIdx, dev.gyroScaleIdx);
      MovedSucceeds(s, dev.Now(), session);
      DataPathKeeps(s, f, dev.Now(), FlagsNow(), phase, current, session);
    }

    /** A write to fifo_flush. */
    method Flush(request: Option<bool>, len: nat) returns (ret: int, ghost counts: seq<int>)
      requires Inv()
      modifies dev, dev.chip, dev.iio, dev.burst
      ensures Inv()
      ensures Moved(old(dev.Now()), dev.Now()) && Grows(old(dev.Now()), dev.Now()) && Passes(counts)
      ensures
        if request == None || (request.value && !(phase != Off && old(dev.fifoEnabled))) then
          ret == -EINVAL && dev.Now() == old(dev.Now())
        else if !request.value then
          ret == len && dev.Now() == old(dev.Now())
        else
          FlushDone(old(dev.Now()), dev.Now()) && Outcome(old(dev.Now()), dev.Now(), ret, len)
      ensures Succeeds(old(dev.Now()), old(session), dev.Now(), session)
      ensures SettingsStay(old(dev.chip.regs), old(dev.Cached()))
    {
      hide Succeeds, Icm20602.Ordered, IioBuffer.Valid, DeviceData.PendingOk, DeviceData.Valid, FifoLog.Contents,
        FifoLog.Ok, OrderedWrites, QuietFrom, Matching, ModeFrame, CoreOk, Grows, Moved, Still, FlushDone, Outcome,
        Passes, DeviceData.Committed, DeviceData.Origins, Collecting, SourcesOn, FifoOn, DataReadyOn, OverflowIrqOn,
        Threshold, Icm20602.Valid, Faithful, FifoLog.Count;
      ghost var s, f := dev.Now(), FlagsNow();
      CurrentExists(s, f, phase, current, session);
      BufferPhase(s, f, phase, current, session);
      ret, counts := FifoFlushStore(dev, request, len);
      MovedSettings(s, dev.Now());
      MatchingKept(s.regs, dev.chip.regs, dev.samplingFrequency, dev.accelScaleIdx, dev.gyroScaleIdx);
      MovedSucceeds(s, dev.Now(), session);
      DataPathKeeps(s, f, dev.Now(), FlagsNow(), phase, current, session);
    }

    /** A write to fifo_watermark. */
    method StoreWatermark(parsed: ParsedInt, len: nat) returns (ret: int)
      requires Inv()
      modifies dev`fifoWatermark
      ensures Inv() && dev.Now() == old(dev.Now())
      ensures dev.fifoWatermark ==
        if parsed.Number? && phase == Off then WatermarkClamp(parsed.value) else old(dev.fifoWatermark)
      ensures parsed.Number? && phase == Off ==> (dev.fifoWatermark == parsed.value <==> 1 <= parsed.value <= 73)
      ensures parsed.Number? ==> ret == if phase == Off then len else -EBUSY
    {
      hide FifoLog.Contents, FifoLog.Ok, OrderedWrites, QuietFrom, Matching, CoreOk, WatermarkClamp,
        DeviceData.Committed, DeviceData.Origins, Collecting, SourcesOn, FifoOn, DataReadyOn, OverflowIrqOn,
        Threshold;
      ghost var s, f := dev.Now(), FlagsNow();
      BufferPhase(s, f, phase, current, session);
      ret := FifoWatermarkStore(dev, parsed, len);
      if phase == Off {
        WatermarkKeeps(s, f, FlagsNow(), current, session);
      }
    }

    /** A write to a rate or scale attribute. */
    method WriteSetting(claim: int, chan: ChannelType, val: int, val2: int, mask: InfoMask) returns (ret: int)
      requires Inv()
      modifies dev, dev.chip
      ensures Inv() && Grows(old(dev.Now()), dev.Now()) && dev.Now().accepted == old(dev.Now()).accepted
      ensures phase != Off ==> ret == -EBUSY
      ensures phase != Off || claim != 0 || ret == -EINVAL ==> dev.Now() == old(dev.Now())
      ensures phase != Off || claim != 0 || ret != 0 ==>
        dev.chip.regs == old(dev.chip.regs) && dev.Cached() == old(dev.Cached())
      ensures phase == Off && claim == 0 ==> (ret == -EINVAL <==> !Supported(chan, val, val2, mask))
      ensures phase == Off && claim == 0 && ret == 0 ==>
        Wrote(chan, val, val2, mask, old(dev.chip.regs), dev.chip.regs, old(dev.Cached()), dev.Cached())
      ensures Succeeds(old(dev.Now()), old(session), dev.Now(), session)
    {
      hide DeviceData.Valid, FifoLog.Contents, FifoLog.Ok, OrderedWrites, QuietFrom, Matching, ModeFrame, CoreOk,
        Grows, SettingStep, Wrote, DeviceData.Committed, DeviceData.Origins, Collecting, SourcesOn, FifoOn,
        DataReadyOn, OverflowIrqOn, Threshold;
      ghost var s, f := dev.Now(), FlagsNow();
      ret := WriteRaw(dev, phase != Off, claim, chan, val, val2, mask);
      SucceedsSame(s, dev.Now(), session);
      SettingKeeps(s, f, dev.Now(), phase, current, session);
    }

    /**
     * Any run: at every step the environment picks a callback that is legal in the current phase, a
     * sysfs access, a trigger firing or an interrupt. The invariant holds in every state it reaches,
     * accepted scans, history, register trace and counters only grow, and the session at the end is the
     * one at the start or began during the run.
     */
    method Run(steps: nat)
      requires Inv()
      modifies this, dev, dev.chip, dev.iio, dev.burst
      ensures Inv() && Grows(old(dev.Now()), dev.Now())
      ensures Succeeds(old(dev.Now()), old(session), dev.Now(), session)
    {
      hide CoreOk, Grows, Succeeds, FifoLog.Contents, FifoLog.Ok, OrderedWrites, QuietFrom, Matching,
        DeviceData.Committed, DeviceData.Origins;
      GrowsRefl(dev.Now());
      SucceedsSame(dev.Now(), dev.Now(), session);
      for i := 0 to steps
        invariant Inv() && Grows(old(dev.Now()), dev.Now())
        invariant Succeeds(old(dev.Now()), old(session), dev.Now(), session)
      {
        ghost var s, c := dev.Now(), session;
        Step();
        SucceedsTransitive(old(dev.Now()), old(session), s, c, dev.Now(), session);
        GrowsTransitive(old(dev.Now()), s, dev.Now());
      }
    }

    method Step()
      requires Inv()
      modifies this, dev, dev.chip, dev.iio, dev.burst
      ensures Inv() && Grows(old(dev.Now()), dev.Now())
      ensures Succeeds(old(dev.Now()), old(session), dev.Now(), session)
    {
      hide CoreOk, Grows, Succeeds, Moved, FifoLog.Contents, FifoLog.Ok, OrderedWrites, QuietFrom,
        DeviceData.Committed, DeviceData.Origins;
      GrowsRefl(dev.Now());
      SucceedsSame(dev.Now(), dev.Now(), session);
      var choice: int := *;
      if choice == 0 {
        CallBuffer();
      } else if choice == 1 {
        var timestamp: int := *;
        if phase != Off {
          ghost var ret, log, end := Trigger(timestamp);
        }
      } else if choice == 2 {
        var polled := Interrupt();
      } else {
        WriteAttribute(choice);
      }
    }

    /** The next setup callback in the order preenable, postenable, predisable, postdisable. */
    method CallBuffer()
      requires Inv()
      modifies this, dev, dev.chip
      ensures Inv() && Grows(old(dev.Now()), dev.Now())
      ensures Succeeds(old(dev.Now()), old(session), dev.Now(), session)
    {
      hide CoreOk, Grows, Succeeds, FifoLog.Contents, FifoLog.Ok, OrderedWrites, QuietFrom, DeviceData.Committed,
        DeviceData.Origins;
      GrowsRefl(dev.Now());
      SucceedsSame(dev.Now(), dev.Now(), session);
      var ret;
      match phase {
        case Off =>
          if current.Some? {
            ret := Preenable();
          }
        case Prepared => ret := Postenable();
        case Running => Predisable();
        case Detached => ret := Postdisable();
      }
    }

    /** Any sysfs write. */
    method WriteAttribute(choice: int)
      requires Inv()
      modifies this, dev, dev.chip, dev.iio, dev.burst
      ensures Inv() && Grows(old(dev.Now()), dev.Now())
      ensures Succeeds(old(dev.Now()), old(session), dev.Now(), session)
    {
      hide CoreOk, Grows, Succeeds, Moved, FlushDone, FifoLog.Contents, FifoLog.Ok, OrderedWrites, QuietFrom,
        Supported, DeviceData.Committed, DeviceData.Origins;
      GrowsRefl(dev.Now());
      SucceedsSame(dev.Now(), dev.Now(), session);
      var ret;
      if choice == 3 {
        var request: Option<bool> := *;
        ghost var counts;
        ret, counts := Flush(request, 1);
      } else if choice == 4 {
        var parsed: ParsedInt := *;
        ret := StoreWatermark(parsed, 1);
      } else if choice == 5 {
        var t: Option<Trigger> := *;
        if Registered(t) {
          ret := SelectTrigger(t);
        }
      } else {
        var claim: int, chan: ChannelType, val: int, val2: int, mask: InfoMask := *, *, *, *, *;
        ret := WriteSetting(claim, chan, val, val2, mask);
      }
    }
  }

  /** At every write of every run, bus failures included, no FIFO source is selected while the FIFO is off. */
  lemma RegisterOrder(core: Core)
    requires core.Inv()
    ensures OrderedWrites(core.dev.chip.writes) && (SourcesOn(core.dev.chip.regs) ==> FifoOn(core.dev.chip.regs))
  {}

  /** The two trigger flags exclude each other, and the threshold is right as long as the watermark flag is set. */
  lemma RoutingIsExclusive(core: Core)
    requires core.Inv()
    ensures !(core.dev.drdyTriggerEnabled && core.dev.fifoWmTriggerEnabled)
    ensures core.dev.drdyTriggerEnabled ==> DataReadyOn(core.dev.chip.regs)
    ensures core.dev.fifoWmTriggerEnabled ==> Threshold(core.dev.chip.regs) == 14 * core.dev.fifoWatermark
    ensures 1 <= core.dev.fifoWatermark <= 73
    ensures core.phase == Off ==>
      && !core.dev.drdyTriggerEnabled && !core.dev.fifoWmTriggerEnabled
      && !core.dev.fifoEnabled
  {}

  /**
   * As long as the bus did not fail since the session began: the FIFO is in use, in software and in both
   * enables, exactly while the buffer is enabled with a trigger other than data-ready; every FIFO reset
   * since was quiet; and no scan accepted since is torn unless an overflow hit between an overflow check
   * and its burst. If the bus never failed, the last two hold from the start.
   */
  lemma ModeAgreement(core: Core)
    requires core.Inv() && core.dev.chip.faults == core.session.faults
    ensures core.dev.fifoEnabled == (core.dev.bufferEnabled && core.current != Some(DataReady))
    ensures SourcesOn(core.dev.chip.regs) == FifoOn(core.dev.chip.regs) == core.dev.fifoEnabled
    ensures QuietFrom(core.dev.chip.writes, core.session.writes)
    ensures core.dev.hazards == core.session.hazards ==> WholeFrom(core.dev.iio.origins, core.session.start)
    ensures core.dev.chip.faults == 0 ==> QuietFrom(core.dev.chip.writes, 0)
    ensures core.dev.chip.faults == 0 && core.dev.hazards == 0 ==> WholeFrom(core.dev.iio.origins, 0)
  {
    hide Icm20602.Valid, OrderedWrites, QuietFrom, Conserved, Faithful, DeviceData.Committed, DeviceData.Origins;
    AcceptedPart(core.dev);
    WholePrefix(core.dev.iio.origins, core.dev.Origins(), core.session.start);
    WholePrefix(core.dev.iio.origins, core.dev.Origins(), 0);
  }

  /**
   * As long as the bus did not fail since the session began: the data-ready interrupt is enabled exactly while
   * the data-ready flag is set, the hardware threshold is 14 times the watermark while the buffer is enabled
   * with the watermark trigger and 0 otherwise, and the overflow interrupt is on with the watermark trigger and
   * off with the data-ready trigger and with the buffer off. If the bus never failed, it is off with an external
   * trigger, too.
   */
  lemma InterruptsAgree(core: Core)
    requires core.Inv() && core.dev.chip.faults == core.session.faults
    ensures core.dev.chip.regs[INT_ENABLE] & 0x01 != 0 <==> core.dev.drdyTriggerEnabled
    ensures Threshold(core.dev.chip.regs) ==
      if core.phase != Off && core.current == Some(FifoWatermark) then 14 * core.dev.fifoWatermark else 0
    ensures core.phase == Off || core.current == Some(DataReady) ==> core.dev.chip.regs[INT_ENABLE] & 0x10 == 0
    ensures core.phase != Off && core.current == Some(FifoWatermark) ==> core.dev.chip.regs[INT_ENABLE] & 0x10 != 0
    ensures core.dev.chip.faults == 0 && core.phase != Off && core.current != Some(FifoWatermark) ==>
      core.dev.chip.regs[INT_ENABLE] & 0x10 == 0
  {
    hide Icm20602.Valid, OrderedWrites, QuietFrom, Conserved, Faithful, Threshold, Routed, SessionOk, Agrees, RunsOk,
      DeviceData.Committed, DeviceData.Origins;
  }

  lemma WholePrefix(a: seq<Origin>, b: seq<Origin>, n: nat)
    requires |a| <= |b| && a == b[..|a|]
    ensures WholeFrom(b, n) ==> WholeFrom(a, n)
  {}

  /** The cached rate and ranges are those of the registers, whatever was written and wherever the bus failed. */
  lemma CachedSettings(core: Core)
    requires core.Inv()
    ensures core.dev.samplingFrequency == 1000 / (core.dev.chip.regs[SMPLRT_DIV] as int + 1)
    ensures 0 <= core.dev.accelScaleIdx < |ACCEL_SCALES| && 0 <= core.dev.gyroScaleIdx < |GYRO_SCALES|
    ensures ACCEL_SCALES[core.dev.accelScaleIdx].regval == core.dev.chip.regs[ACCEL_CONFIG] & SCALE_MASK
    ensures GYRO_SCALES[core.dev.gyroScaleIdx].regval == core.dev.chip.regs[GYRO_CONFIG] & SCALE_MASK
  {}

  lemma AcceptedLengths(core: Core)
    requires core.Inv()
    ensures |core.dev.iio.scans| == |core.dev.iio.origins|
  {}

  /** An accepted scan that came out of the FIFO holds a frame the sensor wrote. */
  lemma AcceptedShows(core: Core, i: int)
    requires core.Inv() && 0 <= i < |core.dev.iio.scans| == |core.dev.iio.origins| && core.dev.iio.origins[i].FromFifo?
    ensures core.dev.iio.origins[i].serial < |core.dev.chip.log.all|
    ensures core.dev.iio.scans[i].axes == FillScan(core.dev.chip.log.all[core.dev.iio.origins[i].serial])
  {
    hide Icm20602.Valid, OrderedWrites, QuietFrom, Routed, Agrees, Conserved, DeviceData.Committed,
      DeviceData.Origins;
    AcceptedPart(core.dev);
    var s := core.dev.Now();
    assert s.Delivers() && s.origins[i] == core.dev.iio.origins[i] && s.committed[i] == core.dev.iio.scans[i];
  }

  /**
   * Delivery over any run, bus failures, overflows and buffer restarts included: two accepted scans
   * that came out of the FIFO hold frames the sensor wrote, the later scan the later frame.
   */
  lemma AcceptedInOrder(core: Core, i: int, j: int)
    requires core.Inv() && 0 <= i < j < |core.dev.iio.scans|
    requires core.dev.iio.origins[i].FromFifo? && core.dev.iio.origins[j].FromFifo?
    ensures var (a, b) := (core.dev.iio.origins[i].serial, core.dev.iio.origins[j].serial);
      && a < b < |core.dev.chip.log.all|
      && core.dev.iio.scans[i].axes == FillScan(core.dev.chip.log.all[a])
      && core.dev.iio.scans[j].axes == FillScan(core.dev.chip.log.all[b])
  {
    AcceptedPart(core.dev);
    var s := core.dev.Now();
    assert s.Delivers();
    assert s.origins[i] == core.dev.iio.origins[i] && s.origins[j] == core.dev.iio.origins[j];
    assert s.committed[i] == core.dev.iio.scans[i] && s.committed[j] == core.dev.iio.scans[j];
  }

  /**
   * Conservation over any run, with bus failures, refusals, restarts and recovered overflows: unless the
   * FIFO overflowed since its last reset, frame n written since is still in the FIFO, or it was committed
   * once since, or lost once, and only one of these; and nothing else was committed since but direct
   * samples. Frames are lost only by a drain whose re-read failed (Drain.Run) or dropped while pending when
   * the buffer is enabled or disabled (BufferOps.DropPending).
   */
  lemma Conservation(core: Core, n: nat)
    requires core.Inv() && !core.dev.chip.log.over
    ensures var (log, ledger, origins) := (core.dev.chip.log, core.dev.ledger, core.dev.Origins());
      && ledger.mark <= |origins|
      && (log.epoch <= n < |log.all| ==>
            multiset(Since(origins, ledger))[FromFifo(n)] + multiset(ledger.gone)[FromFifo(n)]
            == if n < log.Next() then 1 else 0)
      && (FromFifo(n) in Since(origins, ledger) || FromFifo(n) in ledger.gone ==> log.epoch <= n < log.Next())
      && Torn !in Since(origins, ledger)
      && FifoScans(Since(origins, ledger)) + |ledger.gone| + log.Frames() == |log.all| - log.epoch
  {
    hide Icm20602.Valid, OrderedWrites, QuietFrom, Routed, Agrees, SessionOk, Balanced, FifoLog.Contents, FifoScans,
      FifoLog.Ok, FifoLog.Next, FifoLog.Frames, DeviceData.Committed, DeviceData.Origins;
    var s := core.dev.Now();
    assert s.Conserves();
    EpochBalance(s.origins, |s.accepted|, s.log, s.ledger, s.fifoEnabled);
    if s.log.epoch <= n < |s.log.all| {
      FrameFate(s.origins, |s.accepted|, s.log, s.ledger, s.fifoEnabled, n);
    }
    if FromFifo(n) in Since(s.origins, s.ledger) || FromFifo(n) in s.ledger.gone {
      NothingElse(s.origins, |s.accepted|, s.log, s.ledger, s.fifoEnabled, FromFifo(n));
    }
    if Torn in Since(s.origins, s.ledger) {
      NothingElse(s.origins, |s.accepted|, s.log, s.ledger, s.fifoEnabled, Torn);
    }
  }

  /**
   * While the FIFO is in use and since its last reset neither overflowed nor lost a frame, the scans
   * committed since are the frames written since, one by one, and the FIFO holds the rest.
   */
  lemma EpochCopies(core: Core)
    requires core.Inv() && core.dev.fifoEnabled && !core.dev.chip.log.over && core.dev.ledger.gone == []
    ensures var (log, from, scans) := (core.dev.chip.log, core.dev.ledger.mark, core.dev.Committed());
      && core.dev.iio.scans <= scans && from <= |core.dev.iio.scans|
      && |scans| - from + log.Frames() == |log.all| - log.epoch
      && forall k :: from <= k < |scans| ==> scans[k].axes == FillScan(log.all[log.epoch + (k - from)])
  {
    hide Icm20602.Valid, OrderedWrites, QuietFrom, Routed, Agrees, SessionOk, Balanced, FifoScans, FifoLog.Contents,
      DeviceData.Committed, DeviceData.Origins;
    AcceptedPart(core.dev);
    var s := core.dev.Now();
    assert s.Conserves() && s.Delivers();
    GaplessCopies(s.committed, s.origins, s.ledger.mark, s.log);
  }

  /**
   * A session that uses the FIFO and is still on, with no overflow, recovery or loss since preenable: what
   * is committed since is a copy of the frames written since, from the first one on, and the FIFO holds
   * the rest.
   */
  lemma CleanSessionCopies(core: Core)
    requires core.Inv() && core.phase != Off && core.session.fifo && Intact(core.dev.Now(), core.session)
    ensures Clean(core.dev.Now(), core.session)
    ensures var (log, c, scans) := (core.dev.chip.log, core.session, core.dev.Committed());
      && log.epoch == c.epoch && core.dev.iio.scans <= scans && c.start <= |core.dev.iio.scans|
      && |scans| - c.start + log.Frames() == |log.all| - c.epoch
      && forall k :: c.start <= k < |scans| ==> scans[k].axes == FillScan(log.all[c.epoch + (k - c.start)])
  {
    hide Icm20602.Valid, OrderedWrites, QuietFrom, Routed, Agrees, Conserved, Faithful, Intact, Copied,
      FifoLog.Contents, DeviceData.Committed, DeviceData.Origins;
    EpochCopies(core);
  }

  /**
   * Such a session, still on or over: the scans accepted in it are the frames written from its beginning
   * on, in order, none missing, none twice.
   */
  lemma SessionCopies(core: Core)
    requires core.Inv() && core.session.fifo && Intact(core.dev.Now(), core.session)
    ensures var (log, c, scans) := (core.dev.chip.log, core.session, core.dev.iio.scans);
      && c.start <= |scans| && c.epoch + (|scans| - c.start) <= |log.all|
      && forall k :: c.start <= k < |scans| ==> scans[k].axes == FillScan(log.all[c.epoch + (k - c.start)])
  {
    hide Icm20602.Valid, OrderedWrites, QuietFrom, Routed, Agrees, Conserved, Intact, Clean, FifoLog.Contents,
      DeviceData.Committed, DeviceData.Origins;
    AcceptedPart(core.dev);
    var (s, c) := (core.dev.Now(), core.session);
    forall k | c.start <= k < |s.accepted|
      ensures c.epoch + (k - c.start) < |s.log.all|
      ensures s.accepted[k].axes == FillScan(s.log.all[c.epoch + (k - c.start)])
    {
      assert s.origins[k] == FromFifo(c.epoch + (k - c.start)) && s.committed[k] == s.accepted[k];
    }
    var last := |s.accepted| - 1;
    if last >= c.start {
      assert s.accepted[last].axes == FillScan(s.log.all[c.epoch + (last - c.start)]);
    }
  }

  /** A calm session is intact, no overflow bit is set, and it is clean if it uses the FIFO and is on. */
  lemma CalmSession(core: Core)
    requires core.Inv() && Calm(core.dev.Now(), core.session)
    ensures Intact(core.dev.Now(), core.session) && !core.dev.chip.oflow
    ensures core.phase != Off && core.session.fifo ==> Clean(core.dev.Now(), core.session)
  {
    hide Icm20602.Valid, OrderedWrites, QuietFrom, Routed, Agrees, Conserved, Faithful, Clean, Copied, Began, Intact,
      Calm, DeviceData.Committed, DeviceData.Origins;
    CalmIsIntact(core.dev.Now(), core.phase, core.current, core.session);
  }

  /**
   * For every run (Run) that starts in a calm session, with the bus not failing and the FIFO not
   * overflowing: the session at its end is calm, so nothing was recovered or lost in it, and if it is a FIFO
   * session and still on, it is clean.
   */
  lemma CalmRun(core: Core, s: Snapshot, c: Session)
    requires core.Inv() && Grows(s, core.dev.Now()) && Succeeds(s, c, core.dev.Now(), core.session)
    requires Calm(s, c) && !s.oflow
    requires core.dev.chip.faults == s.faults && core.dev.chip.log.overruns == s.log.overruns
    ensures Calm(core.dev.Now(), core.session) && Intact(core.dev.Now(), core.session) && !core.dev.chip.oflow
    ensures core.phase != Off && core.session.fifo ==> Clean(core.dev.Now(), core.session)
  {
    hide Icm20602.Valid, OrderedWrites, QuietFrom, Routed, Agrees, Conserved, Faithful, Clean, Copied, Began, Intact,
      Calm, Succeeds, Grows, DeviceData.Committed, DeviceData.Origins;
    StaysCalm(s, c, core.dev.Now(), core.session);
    CalmSession(core);
  }

  /**
   * The scans accepted in a session are contiguous runs: the breaks between neighbours are at most the
   * overflows, recoveries and lost frames since it began.
   */
  lemma SessionRuns(core: Core)
    requires core.Inv()
    ensures core.session.start <= |core.dev.iio.origins|
    ensures Breaks(core.dev.iio.origins, core.session.start) <= MishapsSince(core.dev.Now(), core.session)
  {
    hide Icm20602.Valid, OrderedWrites, QuietFrom, Routed, Agrees, Conserved, Faithful, Intact, Clean, Copied, Breaks,
      Cuts, MishapsSince, DeviceData.Committed, DeviceData.Origins;
    AcceptedPart(core.dev);
    BreaksPrefix(core.dev.Origins(), core.session.start, |core.dev.iio.scans|);
  }

  /**
   * For every run (Run): if the session at its start was intact and none of the three counters moved, the
   * session at its end is intact; if that is a FIFO session and still on, it is clean.
   */
  lemma StaysClean(core: Core, s: Snapshot, c: Session)
    requires core.Inv() && Grows(s, core.dev.Now()) && Succeeds(s, c, core.dev.Now(), core.session)
    requires Intact(s, c) && NoOverflow(s, core.dev.Now()) && core.dev.ledger.lost == s.ledger.lost
    ensures Intact(core.dev.Now(), core.session)
    ensures core.phase != Off && core.current != Some(DataReady) ==> Clean(core.dev.Now(), core.session)
  {
    hide Icm20602.Valid, OrderedWrites, QuietFrom, Routed, Agrees, Conserved, Faithful, Intact, Clean, Copied, Began,
      Succeeds, Grows, NoOverflow, DeviceData.Committed, DeviceData.Origins;
    StaysIntact(s, c, core.dev.Now(), core.session);
  }
}
