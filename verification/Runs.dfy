/**
 * Contiguous runs of committed scans: where one scan is not followed by the next frame, and what every
 * such break is owed to.
 */
module Runs {
  import opened Device
  import opened FifoLogs
  import opened Iio

  /** b continues a: the next frame, or another torn one, or another direct sample. */
  ghost predicate Follows(a: Origin, b: Origin) {
    match a
    case FromFifo(n) => b == FromFifo(n + 1)
    case FromRegisters => b == FromRegisters
    case Torn => b == Torn
  }

  /** The breaks between neighbours from number n on. */
  ghost function Breaks(origins: seq<Origin>, n: nat): nat {
    if |origins| <= n + 1 then 0
    else
      Breaks(origins[..|origins| - 1], n)
      + if Follows(origins[|origins| - 2], origins[|origins| - 1]) then 0 else 1
  }

  /** Scan i does not continue the one before it. */
  ghost predicate BreakAt(origins: seq<Origin>, i: int) {
    0 < i < |origins| && !Follows(origins[i - 1], origins[i])
  }

  lemma {:induction false} BreaksCount(origins: seq<Origin>, n: nat)
    ensures Breaks(origins, n) == |set i | n < i < |origins| && BreakAt(origins, i)|
  {
    hide Follows;
    var all := set i | n < i < |origins| && BreakAt(origins, i);
    if |origins| <= n + 1 {
      assert all == {};
    } else {
      var m := |origins| - 1;
      BreaksCount(origins[..m], n);
      var before := set i | n < i < m && BreakAt(origins[..m], i);
      assert all == before + if BreakAt(origins, m) then {m} else {};
    }
  }

  lemma {:induction false} BreaksPrefix(origins: seq<Origin>, n: nat, m: nat)
    requires m <= |origins|
    ensures Breaks(origins[..m], n) <= Breaks(origins, n)
  {
    if m < |origins| {
      var init := origins[..|origins| - 1];
      assert init[..m] == origins[..m];
      BreaksPrefix(init, n, m);
    } else {
      assert origins[..m] == origins;
    }
  }

  /** The breaks from number n on are those of what starts there. */
  lemma {:induction false} BreaksFrom(origins: seq<Origin>, n: nat)
    requires n <= |origins|
    ensures Breaks(origins[n..], 0) == Breaks(origins, n)
  {
    if |origins| > n + 1 {
      var init := origins[..|origins| - 1];
      assert origins[n..][..|origins| - n - 1] == init[n..];
      BreaksFrom(init, n);
    }
  }

  /** A part without breaks inside. */
  ghost predicate Unbroken(from: seq<Origin>) {
    forall i :: 0 < i < |from| ==> Follows(from[i - 1], from[i])
  }

  /** Appending such a part breaks at most between the two. */
  lemma {:induction false} BreaksJoin(origins: seq<Origin>, from: seq<Origin>, n: nat)
    requires Unbroken(from) && from != []
    ensures Breaks(origins + from, n)
         == Breaks(origins, n) + if |origins| > n && !Follows(origins[|origins| - 1], from[0]) then 1 else 0
  {
    var all, init := origins + from, from[..|from| - 1];
    if init == [] {
      assert all[..|all| - 1] == origins;
    } else {
      assert all[..|all| - 1] == origins + init;
      assert Follows(from[|from| - 2], from[|from| - 1]);
      BreaksJoin(origins, init, n);
    }
  }

  /** Whatever the next burst or direct sample commits continues o. */
  ghost predicate Joined(o: Origin, log: FifoLog, fifo: bool) {
    match o
    case FromFifo(n) => fifo && !log.over && log.Next() == n + 1
    case FromRegisters => !fifo
    case Torn => fifo && log.over
  }

  /** The breaks from number n on, and one more if the next scan is bound to be another. */
  ghost function Cuts(origins: seq<Origin>, log: FifoLog, fifo: bool, n: nat): nat {
    Breaks(origins, n) + if |origins| <= n || Joined(origins[|origins| - 1], log, fifo) then 0 else 1
  }

  /** Overflows, recoveries and lost frames between the snapshots. */
  ghost function Mishaps(s: Snapshot, s': Snapshot): int {
    (s'.log.overruns - s.log.overruns) + (s'.overflowCount - s.overflowCount) + (s'.ledger.lost - s.ledger.lost)
  }

  /** None of these counters falls, and no scans go. */
  ghost predicate Onward(s: Snapshot, s': Snapshot) {
    && |s.origins| <= |s'.origins| && s.log.overruns <= s'.log.overruns
    && s.overflowCount <= s'.overflowCount && s.ledger.lost <= s'.ledger.lost
  }

  /** Each further break is owed to an overflow, a recovery or a lost frame of its own. */
  ghost predicate KeepsRuns(s: Snapshot, s': Snapshot) {
    && Onward(s, s')
    && forall n: nat :: n <= |s.origins| ==>
         Cuts(s'.origins, s'.log, s'.fifoEnabled, n) <= Cuts(s.origins, s.log, s.fifoEnabled, n) + Mishaps(s, s')
  }

  lemma KeepsRunsTransitive(a: Snapshot, b: Snapshot, c: Snapshot)
    requires KeepsRuns(a, b) && KeepsRuns(b, c)
    ensures KeepsRuns(a, c)
  {
    hide Cuts;
  }

  /** No scan is committed: a break is open only if something happened. */
  lemma NothingCommitted(s: Snapshot, s': Snapshot)
    requires s'.origins == s.origins && Onward(s, s')
    requires Mishaps(s, s') > 0
      || (s'.fifoEnabled == s.fifoEnabled && s'.log.over == s.log.over && s'.log.Next() == s.log.Next())
    ensures KeepsRuns(s, s')
  {
    hide Breaks, FifoLog.Next;
  }

  /** The same, of arrivals alone. */
  lemma ArrivalsKeepRuns(s: Snapshot, s': Snapshot)
    requires s'.origins == s.origins && Onward(s, s') && s.log.Grew(s'.log) && s'.fifoEnabled == s.fifoEnabled
    ensures KeepsRuns(s, s')
  {
    NothingCommitted(s, s');
  }

  /** A burst taken at `at` continues, unless an overflow came before; an overflow after it opens a break. */
  lemma BurstKeepsRuns(s: Snapshot, at: FifoLog, s': Snapshot, from: seq<Origin>)
    requires s.fifoEnabled && s'.fifoEnabled && s'.origins == s.origins + from && Onward(s, s')
    requires Unbroken(from) && from != []
    requires if at.over then from[0] == Torn && from[|from| - 1] == Torn
             else from[0] == FromFifo(at.Next()) && from[|from| - 1] == FromFifo(at.Next() + |from| - 1)
    requires s.log.overruns <= at.overruns <= s'.log.overruns
    requires at.overruns == s.log.overruns ==> at.over == s.log.over && at.Next() == s.log.Next()
    requires s'.log.overruns == at.overruns ==> s'.log.over == at.over && s'.log.Next() == at.Next() + |from|
    requires at.over ==> s'.log.over
    requires s.log.over ==> at.over
    ensures KeepsRuns(s, s')
  {
    hide Breaks, Unbroken, FifoLog.Next;
    forall n: nat | n <= |s.origins|
      ensures Cuts(s'.origins, s'.log, s'.fifoEnabled, n)
           <= Cuts(s.origins, s.log, s.fifoEnabled, n) + Mishaps(s, s')
    {
      BreaksJoin(s.origins, from, n);
    }
  }

  /** A direct sample, or none, while the FIFO is out of use. */
  lemma DirectKeepsRuns(s: Snapshot, s': Snapshot)
    requires !s.fifoEnabled && !s'.fifoEnabled && Onward(s, s')
    requires s'.origins == s.origins || s'.origins == s.origins + [FromRegisters]
    ensures KeepsRuns(s, s')
  {
    hide Breaks, FifoLog.Next;
    forall n: nat | n <= |s.origins|
      ensures Cuts(s'.origins, s'.log, s'.fifoEnabled, n)
           <= Cuts(s.origins, s.log, s.fifoEnabled, n) + Mishaps(s, s')
    {
      BreaksJoin(s.origins, [FromRegisters], n);
    }
  }
}
