/** Changes of mode as a relation between snapshots of the device. */
module ModeSpec {
  import opened Chip
  import opened Delivery
  import opened Device
  import opened FifoLogs
  import opened Ledgers
  import opened Registers

  /** The registers that steer FIFO and interrupts. */
  const MODE_REGISTERS: set<nat> := {INT_ENABLE, CONFIG, FIFO_WM_TH1, FIFO_WM_TH2, FIFO_EN, USER_CTRL}

  /** A mode change moves the driver's bits of those registers and nothing else. */
  ghost predicate ModeFrame(before: seq<bv8>, after: seq<bv8>)
    requires IsRegisterFile(before) && IsRegisterFile(after)
  {
    OnlyChanged(before, after, MODE_REGISTERS)
  }

  predicate FifoOff(regs: seq<bv8>)
    requires IsRegisterFile(regs)
  {
    !SourcesOn(regs) && !FifoOn(regs)
  }

  /**
   * Whatever a mode change does, whether it goes through or not: no scan is touched, no frame is lost,
   * history goes on, the books balance if nothing was pending, and an overflow stays visible. The overflow bit
   * appears only with an overflow.
   */
  ghost predicate ModeMove(s: Snapshot, s': Snapshot) {
    && s.Ok() && s'.Ok()
    && s'.accepted == s.accepted && s'.committed == s.committed && s'.origins == s.origins
    && s'.refusals == s.refusals && s'.overflowCount == s.overflowCount && s'.hazards == s.hazards
    && s.faults <= s'.faults
    && s.log.Later(s'.log) && s.writes <= s'.writes
    && (s'.ledger == s.ledger || s'.ledger == s.ledger.Marked(|s.origins|))
    && (s.Conserves() && s.Idle() ==> s'.Conserves())
    && (s.Visible() ==> s'.Visible()) && Caused(s, s')
    && ModeFrame(s.regs, s'.regs)
  }

  /** Entering a mode: resets are quiet if the FIFO was off. */
  ghost predicate ModeStep(s: Snapshot, s': Snapshot) {
    && ModeMove(s, s')
    && (FifoOff(s.regs) ==> KeepsQuiet(s.writes, s'.writes))
  }

  /** Leaving a mode: resets are quiet unless the bus fails. */
  ghost predicate LeaveStep(s: Snapshot, s': Snapshot) {
    && ModeMove(s, s')
    && (s'.faults == s.faults ==> KeepsQuiet(s.writes, s'.writes))
  }

  /** A register access with arrivals and nothing else. */
  lemma ModeStepGrows(s: Snapshot, s': Snapshot)
    requires s.Ok() && s'.Ok() && s.log.Grew(s'.log)
    requires s' == s.(log := s'.log, oflow := s'.oflow, regs := s'.regs, writes := s'.writes,
                      faults := s'.faults)
    requires s.writes <= s'.writes
    requires s'.oflow == (s.oflow || s'.log.overruns > s.log.overruns) && s.faults <= s'.faults
    requires ModeFrame(s.regs, s'.regs) && (FifoOff(s.regs) ==> KeepsQuiet(s.writes, s'.writes))
    ensures ModeStep(s, s')
  {
    hide Conserved, KeepsQuiet;
    EvolvedIsLater(s.log, s'.log, false, false);
    if s.Conserves() {
      ConservedGrows(s.origins, |s.accepted|, s.log, s'.log, s.ledger, s.fifoEnabled);
    }
  }

  /** A FIFO reset: the books start anew. */
  lemma ModeStepReset(s: Snapshot, s': Snapshot)
    requires s.Ok() && s'.Ok() && s.log.Evolved(s'.log, false, true)
    requires s' == s.(log := s'.log, oflow := s'.oflow, writes := s'.writes,
                      ledger := s.ledger.Marked(|s.origins|))
    requires s.writes <= s'.writes
    requires s'.oflow == (s.oflow || s'.log.overruns > s.log.overruns)
    requires FifoOff(s.regs) ==> KeepsQuiet(s.writes, s'.writes)
    ensures ModeStep(s, s')
  {
    hide Conserved, KeepsQuiet;
    EvolvedIsLater(s.log, s'.log, false, true);
    if s.Idle() {
      ConservedFresh(s.origins, s'.log, s'.ledger, s'.fifoEnabled);
    }
  }

  lemma ModeStepTransitive(a: Snapshot, b: Snapshot, c: Snapshot)
    requires ModeStep(a, b) && ModeStep(b, c)
    requires KeepsQuiet(b.writes, c.writes)
    ensures ModeStep(a, c)
  {
    hide Conserved, ModeFrame, QuietFrom, FifoLog.Later;
    LaterTransitive(a.log, b.log, c.log);
    ModeFrameTransitive(a.regs, b.regs, c.regs);
  }

  lemma ModeFrameTransitive(a: seq<bv8>, b: seq<bv8>, c: seq<bv8>)
    requires IsRegisterFile(a) && IsRegisterFile(b) && IsRegisterFile(c) && ModeFrame(a, b) && ModeFrame(b, c)
    ensures ModeFrame(a, c)
  {
    OnlyChangedChain(a, b, c, MODE_REGISTERS, MODE_REGISTERS);
  }

  /** If the FIFO has overflowed by `s'`, that shows, and it happened after `s`. */
  ghost predicate Renewed(s: Snapshot, s': Snapshot) {
    s'.Visible() && (s'.log.over ==> s'.log.overruns > s.log.overruns)
  }

  lemma RenewedStep(s: Snapshot, s': Snapshot, s'': Snapshot)
    requires ModeStep(s, s') && ModeStep(s', s'') && Renewed(s, s') && s'.log.Grew(s''.log)
    ensures Renewed(s, s'')
  {}

  lemma ModeStepRefl(s: Snapshot)
    requires s.Ok()
    ensures ModeStep(s, s)
  {}

  /** The flag of the software side may be cleared, or set while the FIFO is as a reset left it. */
  lemma ModeStepFlag(s: Snapshot, s': Snapshot, s'': Snapshot)
    requires ModeStep(s, s') && s'' == s'.(fifoEnabled := s''.fifoEnabled)
    requires s''.fifoEnabled ==> s'.log.Fresh() && s'.ledger == s'.ledger.Marked(|s'.origins|)
    ensures ModeStep(s, s'')
  {
    ModeMoveFlag(s, s', s'');
  }

  lemma ModeMoveFlag(s: Snapshot, s': Snapshot, s'': Snapshot)
    requires ModeMove(s, s') && s'' == s'.(fifoEnabled := s''.fifoEnabled)
    requires s''.fifoEnabled ==> s'.log.Fresh() && s'.ledger == s'.ledger.Marked(|s'.origins|)
    ensures ModeMove(s, s'')
  {
    hide Conserved;
    if s.Conserves() && s.Idle() {
      if s''.fifoEnabled {
        ConservedFresh(s'.origins, s'.log, s'.ledger, true);
      } else {
        ConservedAccepts(s'.origins, |s'.accepted|, |s'.accepted|, s'.log, s'.ledger, s'.fifoEnabled, false);
      }
    }
  }

  /** A step that resets the FIFO keeps resets quiet only if the FIFO is off when it starts. */
  lemma ModeStepChain(a: Snapshot, b: Snapshot, c: Snapshot)
    requires ModeStep(a, b) && ModeStep(b, c)
    requires FifoOff(a.regs) ==> FifoOff(b.regs)
    ensures ModeStep(a, c)
  {
    hide Conserved, QuietFrom;
  }

  /** The snapshot with the pending scans dropped. */
  ghost function Cleared(s: Snapshot): (c: Snapshot)
    ensures s.Ok() ==> c.Ok()
  {
    s.(fifoEnabled := false,
       committed := s.accepted,
       origins := if |s.accepted| <= |s.origins| then s.origins[..|s.accepted|] else s.origins,
       ledger := if |s.accepted| <= |s.origins| then s.ledger.Plus(s.origins[|s.accepted|..]) else s.ledger)
  }

  lemma ClearedDelivers(s: Snapshot)
    requires s.accepted <= s.committed && s.Delivers()
    ensures Cleared(s).Delivers()
  {}

  /** The books still balance: what was pending is lost now. */
  lemma ClearedConserves(s: Snapshot)
    requires s.Conserves()
    ensures Cleared(s).Conserves() && Cleared(s).(fifoEnabled := s.fifoEnabled).Conserves() && Cleared(s).Idle()
  {
    hide Balanced, Gapless;
    ConservedDrop(s.origins, |s.accepted|, s.log, s.ledger, s.fifoEnabled);
    var c := Cleared(s);
    ConservedAccepts(c.origins, |c.accepted|, |c.accepted|, c.log, c.ledger, s.fifoEnabled, false);
  }

  lemma LeaveStepFrom(a: Snapshot, b: Snapshot, c: Snapshot)
    requires LeaveStep(a, b) && ModeStep(b, c) && KeepsQuiet(b.writes, c.writes)
    ensures LeaveStep(a, c)
  {}

  lemma LeaveStepLoud(a: Snapshot, b: Snapshot, c: Snapshot)
    requires LeaveStep(a, b) && ModeStep(b, c) && b.faults > a.faults
    ensures LeaveStep(a, c)
  {}

  lemma LeaveStepFlag(s: Snapshot, s': Snapshot, s'': Snapshot)
    requires LeaveStep(s, s') && s'' == s'.(fifoEnabled := false)
    ensures LeaveStep(s, s'')
  {
    ModeMoveFlag(s, s', s'');
  }

  lemma LeaveStepRefl(s: Snapshot, s': Snapshot)
    requires ModeStep(s, s') && KeepsQuiet(s.writes, s'.writes)
    ensures LeaveStep(s, s')
  {}

  lemma LeaveStepTransitive(a: Snapshot, b: Snapshot, c: Snapshot)
    requires LeaveStep(a, b) && LeaveStep(b, c)
    ensures LeaveStep(a, c)
  {}

  lemma ModeStepSettings(s: Snapshot, s': Snapshot)
    requires ModeStep(s, s')
    ensures ModeFrame(s.regs, s'.regs) && s.faults <= s'.faults
  {}

  lemma FrameOf(s: Snapshot, s': Snapshot)
    requires ModeStep(s, s') || LeaveStep(s, s')
    ensures OnlyChanged(s.regs, s'.regs, MODE_REGISTERS)
  {}

  lemma LeaveStepSettings(s: Snapshot, s': Snapshot)
    requires LeaveStep(s, s')
    ensures ModeFrame(s.regs, s'.regs) && s.faults <= s'.faults
  {}

  lemma MatchingKept(before: seq<bv8>, after: seq<bv8>, rate: int, accelIdx: int, gyroIdx: int)
    requires IsRegisterFile(before) && IsRegisterFile(after) && ModeFrame(before, after)
    requires Matching(before, rate, accelIdx, gyroIdx)
    ensures Matching(after, rate, accelIdx, gyroIdx)
  {}
}
