/** What holds between any two callbacks of the IIO core, as predicates on the device and the core. */
module CoreSpec {
  import opened Chip
  import opened Delivery
  import opened Device
  import opened DrainLaws
  import opened DrainSpec
  import opened FifoLogs
  import opened Frames
  import opened Iio
  import opened Ledgers
  import opened ModeSpec
  import opened Registers
  import opened Runs
  import opened Settings

  /** Where the core is: buffer off, preenable done, trigger attached, trigger detached again. */
  datatype Phase = Off | Prepared | Running | Detached

  /** The driver's flags outside the snapshot; `idle` says that nothing is pending. */
  datatype Flags = Flags(buffer: bool, drdy: bool, wm: bool, watermark: int, idle: bool)

  /**
   * Interrupt routing. At most one of the two trigger flags is set, it belongs to the trigger the
   * buffer was enabled with, and the hardware is programmed for it.
   */
  ghost predicate Routed(s: Snapshot, f: Flags, phase: Phase, current: Option<Trigger>)
    requires s.Ok()
  {
    && f.buffer == (phase != Off)
    && (phase != Off ==> current.Some?)
    && (f.drdy ==> phase != Off && current == Some(DataReady) && DataReadyOn(s.regs))
    && (f.wm ==> phase != Off && current == Some(FifoWatermark))
    && (phase != Off && current == Some(FifoWatermark) ==> Threshold(s.regs) == FRAME_SIZE * f.watermark)
    && (s.fifoEnabled ==> phase != Off && current != Some(DataReady))
    && (!s.fifoEnabled ==> f.idle)
  }

  /**
   * The last session of the buffer: whether it used the FIFO, how many scans were accepted when it began,
   * and epoch and counters at the end of the preenable that succeeded. `overruns` leaves out an overflow
   * between the reset of the FIFO and that end, so that such an overflow counts as one of the session;
   * `stale` is set if an older one has left the overflow bit behind. A session has `ended` when the buffer
   * is off again.
   */
  datatype Session = Session(fifo: bool, start: nat, epoch: nat, overruns: int, overflowCount: nat, lost: nat,
                             faults: nat, hazards: nat, writes: nat, stale: bool, ended: bool)

  const NO_SESSION: Session := Session(false, 0, 0, 0, 0, 0, 0, 0, 0, false, true)

  ghost function Begin(s: Snapshot, fifo: bool): Session {
    Session(fifo, |s.accepted|, s.log.epoch, s.log.overruns - (if s.log.over then 1 else 0), s.overflowCount,
            s.ledger.lost, s.faults, s.hazards, |s.writes|, s.oflow && !s.log.over, false)
  }

  /** The FIFO did not overflow, was not recovered and lost no frame since the session began. */
  ghost predicate Intact(s: Snapshot, c: Session) {
    s.log.overruns == c.overruns && s.overflowCount == c.overflowCount && s.ledger.lost == c.lost
  }

  /** The bus did not fail and the FIFO did not overflow since the session began, and no old bit was left. */
  ghost predicate Calm(s: Snapshot, c: Session) {
    s.faults == c.faults && s.log.overruns == c.overruns && !c.stale
  }

  /** Overflows, recoveries and lost frames since the session began. */
  ghost function MishapsSince(s: Snapshot, c: Session): int {
    (s.log.overruns - c.overruns) + (s.overflowCount - c.overflowCount) + (s.ledger.lost - c.lost)
  }

  /** The FIFO is in use as preenable left it, and whatever left it is committed. */
  ghost predicate Clean(s: Snapshot, c: Session) {
    s.fifoEnabled && !s.log.over && s.log.epoch == c.epoch && s.ledger.mark == c.start && s.ledger.gone == []
  }

  /** The scans accepted in the session are its frames one by one, from its first one on. */
  ghost predicate Copied(s: Snapshot, c: Session) {
    && |s.accepted| <= |s.origins|
    && forall k :: c.start <= k < |s.accepted| ==> s.origins[k] == FromFifo(c.epoch + (k - c.start))
  }

  /** No counter recorded is ahead of the device. */
  ghost predicate Began(s: Snapshot, c: Session) {
    && c.start <= |s.accepted| && c.epoch <= |s.log.all|
    && c.overruns <= s.log.overruns && c.overflowCount <= s.overflowCount && c.lost <= s.ledger.lost
    && c.faults <= s.faults && c.hazards <= s.hazards && c.writes <= |s.writes|
  }

  /**
   * A FIFO session stays clean until the FIFO overflows, is recovered or loses a frame; and when it is over
   * what was accepted in it stays a copy. Without an overflow or an old bit nothing is recovered, and without
   * a bus failure nothing is lost.
   */
  ghost predicate SessionOk(s: Snapshot, phase: Phase, current: Option<Trigger>, c: Session) {
    && Began(s, c) && c.ended == (phase == Off)
    && (phase != Off ==> c.fifo == (current != Some(DataReady)))
    && (c.fifo && Intact(s, c) ==> Copied(s, c) && (phase != Off ==> Clean(s, c)))
    && (s.log.overruns == c.overruns && !c.stale ==> s.overflowCount == c.overflowCount && !s.oflow)
    && (s.faults == c.faults ==> s.ledger.lost == c.lost)
  }

  /** The scans of a session are contiguous but for one break for each overflow, recovery and lost frame. */
  ghost predicate RunsOk(s: Snapshot, phase: Phase, c: Session) {
    && Breaks(s.origins, c.start) <= MishapsSince(s, c)
    && (phase != Off ==> Cuts(s.origins, s.log, s.fifoEnabled, c.start) <= MishapsSince(s, c))
  }

  /** A calm session is intact. */
  lemma CalmIsIntact(s: Snapshot, phase: Phase, current: Option<Trigger>, c: Session)
    requires SessionOk(s, phase, current, c) && Calm(s, c)
    ensures Intact(s, c) && !s.oflow
  {}

  /**
   * Without a bus failure since the session began, software mode, hardware mode and trigger agree, resets
   * since then were quiet, and only hazards have torn scans since then; without any bus failure, ever.
   */
  ghost predicate Agrees(s: Snapshot, phase: Phase, current: Option<Trigger>, c: Session)
    requires s.Ok()
  {
    && (s.faults == c.faults ==>
          && s.fifoEnabled == (phase != Off && current != Some(DataReady))
          && InMode(s)
          && s.Visible()
          && QuietFrom(s.writes, c.writes)
          && (s.hazards == c.hazards ==> WholeFrom(s.origins, c.start)))
    && (s.faults == 0 ==> QuietFrom(s.writes, 0) && (s.hazards == 0 ==> WholeFrom(s.origins, 0)))
  }

  /**
   * The interrupt enables. Without a bus failure since the session began: the data-ready interrupt is on
   * exactly while its trigger is, the threshold is that of the watermark while the watermark trigger is
   * selected and 0 otherwise, and the device's own triggers have set or cleared the overflow interrupt.
   * Without any bus failure, ever, it is on exactly while the buffer is enabled with the watermark trigger.
   */
  ghost predicate IrqsAgree(s: Snapshot, f: Flags, phase: Phase, current: Option<Trigger>, c: Session)
    requires s.Ok()
  {
    var watermark := phase != Off && current == Some(FifoWatermark);
    && (s.faults == c.faults ==>
          && DataReadyOn(s.regs) == f.drdy
          && Threshold(s.regs) == (if watermark then FRAME_SIZE * f.watermark else 0)
          && (phase == Off || watermark || current == Some(DataReady) ==> OverflowIrqOn(s.regs) == watermark))
    && (s.faults == 0 ==> OverflowIrqOn(s.regs) == watermark)
  }

  ghost predicate CoreOk(s: Snapshot, f: Flags, phase: Phase, current: Option<Trigger>, c: Session) {
    && s.Ok() && s.Delivers() && s.Conserves()
    && Routed(s, f, phase, current)
    && SessionOk(s, phase, current, c) && RunsOk(s, phase, c)
    && Agrees(s, phase, current, c) && IrqsAgree(s, f, phase, current, c)
  }

  /** Nothing accepted, recorded or counted is ever taken back, and a recovery has a cause. */
  ghost predicate Grows(s: Snapshot, s': Snapshot) {
    && Caused(s, s')
    && s.accepted <= s'.accepted && s.log.all <= s'.log.all && s.writes <= s'.writes
    && s.log.overruns <= s'.log.overruns && s.faults <= s'.faults && s.refusals <= s'.refusals
    && s.overflowCount <= s'.overflowCount && s.hazards <= s'.hazards && s.ledger.lost <= s'.ledger.lost
  }

  lemma GrowsTransitive(a: Snapshot, b: Snapshot, c: Snapshot)
    requires Grows(a, b) && Grows(b, c)
    ensures Grows(a, c)
  {}

  /**
   * Session c' at s' is session c at s, perhaps ended since, or it began in between. Within a session
   * frames are lost only if the bus fails, but for pending scans dropped at its end; and an old overflow bit
   * that a session begins with is older than s or the mark of an overflow.
   */
  ghost predicate Succeeds(s: Snapshot, c: Session, s': Snapshot, c': Session) {
    || (c' == c && (s'.faults == s.faults ==> s'.ledger.lost == s.ledger.lost))
    || (&& c' == c.(lost := c'.lost, ended := true) && c.lost <= c'.lost
        && (s'.faults == s.faults ==> s'.ledger.lost - c'.lost == s.ledger.lost - c.lost))
    || (&& |s.accepted| <= c'.start && s.log.overruns <= c'.overruns && s.overflowCount <= c'.overflowCount
        && s.ledger.lost <= c'.lost && s.faults <= c'.faults && s.hazards <= c'.hazards && |s.writes| <= c'.writes
        && (c'.stale ==> s.oflow || s.log.overruns < c'.overruns))
  }

  lemma SucceedsSame(s: Snapshot, s': Snapshot, c: Session)
    requires s'.faults == s.faults ==> s'.ledger.lost == s.ledger.lost
    ensures Succeeds(s, c, s', c)
  {}

  lemma MovedSucceeds(s: Snapshot, s': Snapshot, c: Session)
    requires Moved(s, s')
    ensures Succeeds(s, c, s', c)
  {}

  lemma SucceedsTransitive(s: Snapshot, a: Session, s': Snapshot, b: Session, s'': Snapshot, c: Session)
    requires Grows(s, s') && Grows(s', s'') && Succeeds(s, a, s', b) && Succeeds(s', b, s'', c)
    ensures Succeeds(s, a, s'', c)
  {}

  /** If none of the three counters moves, the session that is current then is intact, too. */
  lemma StaysIntact(s: Snapshot, c: Session, s': Snapshot, c': Session)
    requires Intact(s, c) && Grows(s, s') && Succeeds(s, c, s', c') && Began(s', c')
    requires NoOverflow(s, s') && s'.ledger.lost == s.ledger.lost
    ensures Intact(s', c')
  {}

  /** If the bus does not fail and the FIFO does not overflow, the session that is current then is calm, too. */
  lemma StaysCalm(s: Snapshot, c: Session, s': Snapshot, c': Session)
    requires Calm(s, c) && !s.oflow && Grows(s, s') && Succeeds(s, c, s', c') && Began(s', c')
    requires s'.faults == s.faults && s'.log.overruns == s.log.overruns
    ensures Calm(s', c')
  {}

  lemma GrowsRefl(s: Snapshot)
    ensures Grows(s, s)
  {}

  lemma DataPathKeeps(s: Snapshot, f: Flags, s': Snapshot, f': Flags, phase: Phase,
                      current: Option<Trigger>, c: Session)
    requires CoreOk(s, f, phase, current, c) && Moved(s, s') && (phase != Off || s' == s)
    requires f' == f.(idle := f'.idle) && (!s'.fifoEnabled ==> f'.idle)
    ensures CoreOk(s', f', phase, current, c) && Grows(s, s')
  {
    hide Conserved, Faithful, GaplessStep, Clean, Copied, QuietFrom, InMode, KeepsRuns, Breaks, RunsOk;
    UntouchedInterrupts(s.regs, s'.regs, {FIFO_EN, USER_CTRL});
    if phase != Off {
      MovedRuns(s, s', phase, c);
    }
    if phase != Off && c.fifo {
      MovedSession(s, s', c);
    }
  }

  /** A data step breaks the run of scans only where an overflow, a recovery or a loss did. */
  lemma MovedRuns(s: Snapshot, s': Snapshot, phase: Phase, c: Session)
    requires Moved(s, s') && RunsOk(s, phase, c) && phase != Off && s.Conserves() && Began(s, c)
    ensures RunsOk(s', phase, c)
  {
    hide Breaks, Joined, GaplessStep, QuietFrom;
  }

  /** Data steps keep a session clean unless the FIFO overflows or is recovered, or a burst is lost. */
  lemma CleanKept(s: Snapshot, s': Snapshot, c: Session)
    requires Moved(s, s') && Clean(s, c) && NoOverflow(s, s') && s'.ledger.lost == s.ledger.lost
    ensures Clean(s', c)
  {}

  lemma MovedSession(s: Snapshot, s': Snapshot, c: Session)
    requires Moved(s, s') && s.Conserves() && Began(s, c) && (Intact(s, c) ==> Clean(s, c))
    ensures Intact(s', c) ==> Clean(s', c) && Copied(s', c)
  {
    if Intact(s', c) {
      CleanKept(s, s', c);
      CleanCopied(s', c);
    }
  }

  lemma CleanCopied(s: Snapshot, c: Session)
    requires s.Conserves() && Clean(s, c)
    ensures Copied(s, c)
  {
    hide Balanced;
  }

  lemma BeganGrows(s: Snapshot, s': Snapshot, c: Session)
    requires Began(s, c) && Grows(s, s')
    ensures Began(s', c) && (Intact(s', c) ==> Intact(s, c) && NoOverflow(s, s') && s'.ledger.lost == s.ledger.lost)
  {}

  lemma SettingKeeps(s: Snapshot, f: Flags, s': Snapshot, phase: Phase, current: Option<Trigger>, c: Session)
    requires CoreOk(s, f, phase, current, c) && SettingStep(s, s')
    ensures CoreOk(s', f, phase, current, c) && Grows(s, s')
  {
    hide Conserved, Faithful, QuietFrom, Breaks, OnlyChanged, SourcesOn, FifoOn, Collecting, DataReadyOn,
      OverflowIrqOn, Threshold;
    UntouchedFifo(s.regs, s'.regs, SETTING_REGISTERS);
    UntouchedInterrupts(s.regs, s'.regs, SETTING_REGISTERS);
    BeganGrows(s, s', c);
    FaithfulLater(s.committed, s.origins, s.log, s'.log);
  }

  /** Flags, enables and threshold as a successful preenable leaves them, from the snapshot `s` on. */
  ghost predicate Entered(s: Snapshot, f: Flags, s': Snapshot, f': Flags, current: Option<Trigger>)
    requires s.Ok() && s'.Ok()
  {
    if current == Some(DataReady) then
      && f'.drdy && !f'.wm && !s'.fifoEnabled && FifoOff(s'.regs)
      && DataReadyOn(s'.regs) && !OverflowIrqOn(s'.regs) && Threshold(s'.regs) == 0
    else
      && !f'.drdy && !DataReadyOn(s'.regs) && (f'.wm <==> current == Some(FifoWatermark))
      && Threshold(s'.regs) == (if f'.wm then FRAME_SIZE * f.watermark else 0)
      && OverflowIrqOn(s'.regs) == (f'.wm || OverflowIrqOn(s.regs))
      && s'.fifoEnabled && FifoOn(s'.regs) && SourcesOn(s'.regs)
      && s'.ledger == s'.ledger.Marked(|s'.origins|)
  }

  /** Entering a mode with the buffer off and nothing pending: success begins a session. */
  lemma EnableStarts(s: Snapshot, f: Flags, s': Snapshot, f': Flags, current: Option<Trigger>, c: Session)
    requires CoreOk(s, f, Off, current, c) && ModeStep(s, s') && Renewed(s, s') && s'.faults == s.faults
    requires f'.watermark == f.watermark && f'.idle && s.accepted == s.committed && f'.buffer && current.Some?
    requires Entered(s, f, s', f', current)
    ensures var c' := Begin(s', current != Some(DataReady));
      && CoreOk(s', f', Prepared, current, c') && Succeeds(s, c, s', c')
      && (!s.oflow && s'.log.overruns == s.log.overruns ==> Calm(s', c'))
    ensures Grows(s, s')
  {
    hide Conserved, Faithful, QuietFrom;
    FaithfulLater(s.committed, s.origins, s.log, s'.log);
    NothingYet(s', current != Some(DataReady));
  }

  /** Nothing is accepted or written in a session that just began. */
  lemma NothingYet(s: Snapshot, fifo: bool)
    requires s.Ok() && |s.accepted| <= |s.origins|
    ensures var c := Begin(s, fifo);
      && Began(s, c) && Copied(s, c) && QuietFrom(s.writes, c.writes)
      && (|s.origins| == |s.accepted| ==> WholeFrom(s.origins, c.start))
      && (Intact(s, c) ==> !s.log.over)
  {}

  lemma BeginsClean(s: Snapshot, f: Flags, current: Option<Trigger>)
    requires !s.log.over && CoreOk(s, f, Prepared, current, Begin(s, current != Some(DataReady)))
    ensures Intact(s, Begin(s, current != Some(DataReady)))
    ensures current != Some(DataReady) ==> Clean(s, Begin(s, current != Some(DataReady)))
  {}

  /** A preenable that fails leaves everything off; the session before stays the last one. */
  lemma EnableFails(s: Snapshot, f: Flags, s': Snapshot, f': Flags, current: Option<Trigger>, c: Session)
    requires CoreOk(s, f, Off, current, c) && ModeStep(s, s') && s'.faults > s.faults && s.accepted == s.committed
    requires f'.watermark == f.watermark && f'.idle && !f'.buffer && !f'.drdy && !f'.wm && !s'.fifoEnabled
    ensures CoreOk(s', f', Off, current, c) && Grows(s, s')
  {
    hide Conserved, Faithful, QuietFrom, Breaks;
    BeganGrows(s, s', c);
    FaithfulLater(s.committed, s.origins, s.log, s'.log);
  }

  lemma EnableSucceeds(s: Snapshot, s': Snapshot, c: Session)
    requires ModeStep(s, s')
    ensures Succeeds(s, c, s', c)
  {}

  /** Attaching or detaching the data-ready trigger. */
  lemma DataReadyStateKeeps(s: Snapshot, f: Flags, s': Snapshot, f': Flags, phase: Phase, phase': Phase,
                            current: Option<Trigger>, c: Session)
    requires CoreOk(s, f, phase, current, c) && ModeStep(s, s') && s.log.Grew(s'.log)
    requires phase != Off && phase' != Off && current == Some(DataReady)
    requires SameFifo(s.regs, s'.regs) && s'.fifoEnabled == s.fifoEnabled && KeepsQuiet(s.writes, s'.writes)
    requires f' == f.(drdy := f'.drdy) && (f'.drdy ==> DataReadyOn(s'.regs))
    requires s'.faults == s.faults ==> DataReadyOn(s'.regs) == f'.drdy
    requires OverflowIrqOn(s'.regs) == OverflowIrqOn(s.regs) && Threshold(s'.regs) == Threshold(s.regs)
    requires s.Idle()
    ensures CoreOk(s', f', phase', current, c) && Grows(s, s')
  {
    hide Conserved, Faithful, QuietFrom, Breaks;
    BeganGrows(s, s', c);
    FaithfulLater(s.committed, s.origins, s.log, s'.log);
  }

  lemma PhaseKeeps(s: Snapshot, f: Flags, f': Flags, phase: Phase, phase': Phase, current: Option<Trigger>, c: Session)
    requires CoreOk(s, f, phase, current, c) && phase != Off && phase' != Off
    requires f' == f.(wm := f'.wm) && (f'.wm && !f.wm ==> current == Some(FifoWatermark))
    ensures CoreOk(s, f', phase', current, c)
  {}

  /** The session as teardown leaves it: dropping pending scans takes nothing from those accepted. */
  ghost function Ended(s: Snapshot, c: Session): Session {
    c.(lost := c.lost + (if |s.accepted| <= |s.origins| then |s.origins| - |s.accepted| else 0), ended := true)
  }

  /** Leaving any mode: flags and FIFO go off whatever the bus does. */
  lemma DisableKeeps(s: Snapshot, f: Flags, s': Snapshot, f': Flags, phase: Phase, current: Option<Trigger>, c: Session)
    requires CoreOk(s, f, phase, current, c) && phase != Off && s.accepted <= s.committed
    requires LeaveStep(Cleared(s).(fifoEnabled := s.fifoEnabled), s')
    requires !f'.buffer && !f'.drdy && !f'.wm && f'.idle && !s'.fifoEnabled
    requires s'.faults == s.faults ==> if s.fifoEnabled then FifoOff(s'.regs) else SameFifo(s.regs, s'.regs)
    requires s'.faults == s.faults ==>
      !DataReadyOn(s'.regs) && !OverflowIrqOn(s'.regs) && Threshold(s'.regs) == 0
    ensures CoreOk(s', f', Off, current, Ended(s, c)) && Grows(s, s') && Succeeds(s, c, s', Ended(s, c))
    ensures Intact(s, c) && s'.log.overruns == s.log.overruns ==> Intact(s', Ended(s, c))
  {
    hide Conserved, Faithful, QuietFrom, Breaks;
    ClearedDelivers(s);
    ClearedConserves(s);
    var k := Cleared(s);
    BreaksPrefix(s.origins, c.start, |s.accepted|);
    FaithfulLater(k.committed, k.origins, k.log, s'.log);
  }

  /** With the buffer off nothing is pending, so dropping the pending scans changes nothing. */
  lemma OffIsCleared(dev: DeviceData, f: Flags, current: Option<Trigger>, c: Session)
    requires dev.Valid() && f.idle == (dev.pendingFrames == 0)
    requires CoreOk(dev.Now(), f, Off, current, c)
    ensures Cleared(dev.Now()) == dev.Now() && dev.Now().accepted == dev.Now().committed
  {
    hide Conserved, Faithful;
    NothingPendingNow(dev);
    var s := dev.Now();
    assert s.origins[..|s.accepted|] == s.origins && s.ledger.gone + s.origins[|s.accepted|..] == s.ledger.gone;
  }

  lemma CoreStarts(dev: DeviceData, f: Flags)
    requires Initialised(dev) && f == Flags(false, false, false, WATERMARK_DEFAULT, true)
    requires dev.iio.scans == [] && dev.iio.origins == [] && dev.ledger == Ledger(0, 0, [])
    requires dev.chip.log == FifoLog([], 0, 0, false, 0) && !dev.chip.oflow
    requires QuietFrom(dev.chip.writes, 0)
    ensures CoreOk(dev.Now(), f, Off, None, NO_SESSION)
  {
    hide OrderedWrites, QuietFrom, CoreOk, FifoLog.Ok, FifoLog.Contents, Matching, DeviceData.Committed,
      DeviceData.Origins;
    NothingPending(dev);
    StartOk(dev.Now(), f);
  }

  lemma StartOk(s: Snapshot, f: Flags)
    requires s.Ok() && s.accepted == [] && s.committed == [] && s.origins == [] && s.ledger == Ledger(0, 0, [])
    requires s.log == FifoLog([], 0, 0, false, 0) && !s.oflow && QuietFrom(s.writes, 0)
    requires !s.fifoEnabled && FifoOff(s.regs) && s.overflowCount == 0
    requires !DataReadyOn(s.regs) && !OverflowIrqOn(s.regs) && Threshold(s.regs) == 0
    requires f == Flags(false, false, false, WATERMARK_DEFAULT, true)
    ensures CoreOk(s, f, Off, None, NO_SESSION)
  {
    hide FifoLog.Ok, FifoLog.Contents, Conserved, SourcesOn, FifoOn, DataReadyOn, OverflowIrqOn, Threshold;
    ConservedFresh(s.origins, s.log, s.ledger, false);
  }

  lemma CurrentExists(s: Snapshot, f: Flags, phase: Phase, current: Option<Trigger>, c: Session)
    requires CoreOk(s, f, phase, current, c)
    ensures phase != Off ==> current.Some?
    ensures !s.fifoEnabled ==> f.idle
    ensures s.fifoEnabled ==> phase != Off && current != Some(DataReady)
  {}

  lemma BufferPhase(s: Snapshot, f: Flags, phase: Phase, current: Option<Trigger>, c: Session)
    requires CoreOk(s, f, phase, current, c)
    ensures f.buffer <==> phase != Off
  {}

  /** The watermark may change while the buffer is off. */
  lemma WatermarkKeeps(s: Snapshot, f: Flags, f': Flags, current: Option<Trigger>, c: Session)
    requires CoreOk(s, f, Off, current, c) && f' == f.(watermark := f'.watermark)
    ensures CoreOk(s, f', Off, current, c)
  {}

  lemma RoutedDataReady(s: Snapshot, f: Flags, phase: Phase, current: Option<Trigger>, c: Session)
    requires CoreOk(s, f, phase, current, c)
    ensures f.drdy ==> DataReadyOn(s.regs)
  {}

  lemma MovedSettings(s: Snapshot, s': Snapshot)
    requires Moved(s, s')
    ensures ModeFrame(s.regs, s'.regs)
  {}
}
