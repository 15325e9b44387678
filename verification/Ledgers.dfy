/** Conservation: where every frame the sensor wrote since the last FIFO reset has gone. */
module Ledgers {
  import opened Delivery
  import opened FifoLogs
  import opened Iio

  /**
   * A frame that left the FIFO and was neither accepted by the IIO buffer nor is pending for it is lost:
   * `lost` counts them for ever, `gone` lists those since the last FIFO reset. At that reset `mark` scans
   * were committed.
   */
  datatype Ledger = Ledger(lost: nat, mark: nat, gone: seq<Origin>) {

    /** The books at a FIFO reset that finds `committed` scans. */
    function Marked(committed: nat): Ledger {
      Ledger(lost, committed, [])
    }

    function Plus(from: seq<Origin>): Ledger {
      Ledger(lost + |from|, mark, gone + from)
    }

    /** No reset and nothing but losses between `this` and `l`. */
    ghost predicate Grew(l: Ledger) {
      mark == l.mark && gone <= l.gone && l.lost - lost == |l.gone| - |gone|
    }

    /** The frames lost between `this` and `l`. */
    ghost function More(l: Ledger): seq<Origin>
      requires Grew(l)
    {
      l.gone[|gone|..]
    }
  }

  lemma NoneMore(a: Ledger)
    ensures a.Grew(a) && a.More(a) == []
  {}

  lemma PlusMore(a: Ledger, from: seq<Origin>)
    ensures a.Grew(a.Plus(from)) && a.More(a.Plus(from)) == from
  {}

  /** The origins of scans that came out of the FIFO. */
  ghost function Fifo(origins: seq<Origin>): multiset<Origin> {
    multiset(origins)[FromRegisters := 0]
  }

  ghost function FifoScans(origins: seq<Origin>): nat {
    |Fifo(origins)|
  }

  /** The frames numbered from `from` up to `end`. */
  ghost function Serials(from: nat, end: nat): (os: seq<Origin>)
    requires from <= end
    ensures |os| == end - from
  {
    seq(end - from, k requires 0 <= k < end - from => FromFifo(from + k))
  }

  lemma FifoJoin(a: seq<Origin>, b: seq<Origin>)
    ensures Fifo(a + b) == Fifo(a) + Fifo(b)
  {}

  lemma FifoAll(b: seq<Origin>)
    requires FromRegisters !in b
    ensures Fifo(b) == multiset(b)
  {}

  lemma SerialsJoin(a: nat, b: nat, c: nat)
    requires a <= b <= c
    ensures Serials(a, c) == Serials(a, b) + Serials(b, c)
  {}

  /** Each of them once, and nothing else. */
  lemma {:induction false} SerialsOnce(from: nat, end: nat, o: Origin)
    requires from <= end
    ensures multiset(Serials(from, end))[o] == if o.FromFifo? && from <= o.serial < end then 1 else 0
    decreases end
  {
    if from < end {
      SerialsOnce(from, end - 1, o);
      SerialsJoin(from, end - 1, end);
      assert Serials(end - 1, end) == [FromFifo(end - 1)];
    }
  }

  /** Committed since the last FIFO reset. */
  ghost function Since(origins: seq<Origin>, ledger: Ledger): seq<Origin>
    requires ledger.mark <= |origins|
  {
    origins[ledger.mark..]
  }

  /** Committed and lost together are the frames of the epoch that left the FIFO, each of them once. */
  ghost predicate Balanced(origins: seq<Origin>, log: FifoLog, ledger: Ledger)
    requires ledger.mark <= |origins|
  {
    Fifo(Since(origins, ledger)) + multiset(ledger.gone) == multiset(Serials(log.epoch, log.Next()))
  }

  /**
   * The conservation law. Unless the FIFO overflowed since its last reset, the books balance; and if no
   * frame is lost and the FIFO is in use (`fifo`), the scans committed since are the frames of the epoch
   * one by one. `accepted` of the committed scans are already delivered.
   */
  ghost predicate Conserved(origins: seq<Origin>, accepted: nat, log: FifoLog, ledger: Ledger, fifo: bool) {
    && ledger.mark <= accepted <= |origins| && |ledger.gone| <= ledger.lost
    && FromRegisters !in origins[accepted..]
    && (!log.over ==> Balanced(origins, log, ledger))
    && (fifo && !log.over && ledger.gone == [] ==> Gapless(origins, ledger.mark, log))
  }

  lemma ConservedGrows(origins: seq<Origin>, accepted: nat, log: FifoLog, log': FifoLog, ledger: Ledger, fifo: bool)
    requires Conserved(origins, accepted, log, ledger, fifo) && log.Grew(log')
    ensures Conserved(origins, accepted, log', ledger, fifo)
  {
    hide Fifo;
  }

  /** Accepting pending scans, or taking the FIFO out of use, changes no account. */
  lemma ConservedAccepts(origins: seq<Origin>, accepted: nat, accepted': nat, log: FifoLog, ledger: Ledger,
                         fifo: bool, fifo': bool)
    requires Conserved(origins, accepted, log, ledger, fifo) && accepted <= accepted' <= |origins| && (fifo' ==> fifo)
    ensures Conserved(origins, accepted', log, ledger, fifo')
  {
    hide Balanced;
    forall k | accepted' <= k < |origins|
      ensures origins[k] != FromRegisters
    {
      assert origins[accepted..][k - accepted] == origins[k];
    }
  }

  /** A FIFO reset opens new books. */
  lemma ConservedFresh(origins: seq<Origin>, log: FifoLog, ledger: Ledger, fifo: bool)
    requires log.Fresh() && ledger.mark == |origins| && ledger.gone == []
    ensures Conserved(origins, |origins|, log, ledger, fifo)
  {
    assert Since(origins, ledger) == [] && Serials(log.epoch, log.Next()) == [];
  }

  /** The next |from| frames leave the FIFO. */
  ghost predicate Leave(from: seq<Origin>, log: FifoLog, log': FifoLog) {
    && FromRegisters !in from
    && (!log'.over ==>
          && !log.over && log'.epoch == log.epoch && log'.Next() == log.Next() + |from|
          && from == Serials(log.Next(), log.Next() + |from|))
  }

  /** They are committed. */
  lemma ConservedBurst(origins: seq<Origin>, accepted: nat, log: FifoLog, log': FifoLog, ledger: Ledger, fifo: bool,
                       from: seq<Origin>)
    requires Conserved(origins, accepted, log, ledger, fifo) && Leave(from, log, log')
    ensures Conserved(origins + from, accepted, log', ledger, fifo)
  {
    hide Fifo, Serials, FifoLog.Next;
    var all := origins + from;
    assert Since(all, ledger) == Since(origins, ledger) + from;
    assert all[accepted..] == origins[accepted..] + from;
    FifoJoin(Since(origins, ledger), from);
    FifoAll(from);
    if !log'.over {
      SerialsJoin(log.epoch, log.Next(), log'.Next());
      if fifo && ledger.gone == [] {
        BurstGapless(origins, ledger.mark, log, log', from);
      }
    }
  }

  lemma BurstGapless(origins: seq<Origin>, mark: nat, log: FifoLog, log': FifoLog, from: seq<Origin>)
    requires Gapless(origins, mark, log) && Leave(from, log, log') && !log'.over
    ensures Gapless(origins + from, mark, log')
  {
    hide Gapless;
    forall k | 0 <= k < |from|
      ensures from[k] == FromFifo(log.Next() + k)
    {
      assert from[k] == Serials(log.Next(), log.Next() + |from|)[k];
    }
    GaplessBurst(origins, mark, log, log', from);
  }

  /** They are lost. */
  lemma ConservedLoss(origins: seq<Origin>, accepted: nat, log: FifoLog, log': FifoLog, ledger: Ledger, fifo: bool,
                      from: seq<Origin>)
    requires Conserved(origins, accepted, log, ledger, fifo) && Leave(from, log, log') && from != []
    ensures Conserved(origins, accepted, log', ledger.Plus(from), fifo)
  {
    hide Fifo, Serials, FifoLog.Next, Gapless;
    if !log'.over {
      SerialsJoin(log.epoch, log.Next(), log'.Next());
    }
  }

  /** Dropping the pending scans moves them from committed to lost. */
  lemma ConservedDrop(origins: seq<Origin>, accepted: nat, log: FifoLog, ledger: Ledger, fifo: bool)
    requires Conserved(origins, accepted, log, ledger, fifo)
    ensures Conserved(origins[..accepted], accepted, log, ledger.Plus(origins[accepted..]), fifo)
  {
    hide Fifo, Serials;
    var kept, dropped := origins[..accepted], origins[accepted..];
    assert Since(origins, ledger) == Since(kept, ledger) + dropped;
    FifoJoin(Since(kept, ledger), dropped);
    FifoAll(dropped);
    if dropped == [] {
      assert kept == origins;
    }
  }

  /** A direct sample, pushed while the FIFO is out of use. */
  lemma ConservedDirect(origins: seq<Origin>, log: FifoLog, ledger: Ledger)
    requires Conserved(origins, |origins|, log, ledger, false)
    ensures Conserved(origins + [FromRegisters], |origins| + 1, log, ledger, false)
  {
    hide Serials;
    var all := origins + [FromRegisters];
    assert Since(all, ledger) == Since(origins, ledger) + [FromRegisters];
    FifoJoin(Since(origins, ledger), [FromRegisters]);
    assert Fifo([FromRegisters]) == multiset{};
  }

  /**
   * The fate of frame n of an epoch without overflow: it is still in the FIFO, was committed once, or was
   * lost once, and only one of these.
   */
  lemma FrameFate(origins: seq<Origin>, accepted: nat, log: FifoLog, ledger: Ledger, fifo: bool, n: nat)
    requires Conserved(origins, accepted, log, ledger, fifo) && log.Ok() && !log.over && log.epoch <= n < |log.all|
    ensures multiset(Since(origins, ledger))[FromFifo(n)] + multiset(ledger.gone)[FromFifo(n)]
         == if n < log.Next() then 1 else 0
  {
    SerialsOnce(log.epoch, log.Next(), FromFifo(n));
    assert Fifo(Since(origins, ledger))[FromFifo(n)] == multiset(Since(origins, ledger))[FromFifo(n)];
  }

  /** Whatever was committed or lost since the reset is a frame of the epoch, unless it is a direct sample. */
  lemma NothingElse(origins: seq<Origin>, accepted: nat, log: FifoLog, ledger: Ledger, fifo: bool, o: Origin)
    requires Conserved(origins, accepted, log, ledger, fifo) && !log.over
    requires o in Since(origins, ledger) || o in ledger.gone
    ensures o == FromRegisters || (o.FromFifo? && log.epoch <= o.serial < log.Next())
  {
    SerialsOnce(log.epoch, log.Next(), o);
    var committed, gone := multiset(Since(origins, ledger)), multiset(ledger.gone);
    assert committed[o] + gone[o] > 0;
    assert o != FromRegisters ==> Fifo(Since(origins, ledger))[o] == committed[o];
  }

  /**
   * The balance of an epoch without overflow: committed since the reset, lost since the reset and still
   * in the FIFO add up to everything written since the reset.
   */
  lemma EpochBalance(origins: seq<Origin>, accepted: nat, log: FifoLog, ledger: Ledger, fifo: bool)
    requires Conserved(origins, accepted, log, ledger, fifo) && log.Ok() && !log.over
    ensures FifoScans(Since(origins, ledger)) + |ledger.gone| + log.Frames() == |log.all| - log.epoch
  {
    hide Fifo, Serials;
    assert |Fifo(Since(origins, ledger)) + multiset(ledger.gone)| == |Serials(log.epoch, log.Next())|;
  }
}
