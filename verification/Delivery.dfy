/** What delivery to the IIO buffer must satisfy, stated on the scans, their origins and the FIFO history. */
module Delivery {
  import opened FifoLogs
  import opened Frames
  import opened Iio

  /** The scans of one burst: frame i carries base + i * period. */
  ghost function BurstScans(frames: seq<SensorData>, base: int, period: int): seq<Scan> {
    seq(|frames|, i requires 0 <= i < |frames| => Scan(FillScan(frames[i]), base + i * period))
  }

  /**
   * Each scan that came out of the FIFO carries the axes of a frame that was written, already left
   * the FIFO, and was written after the frame of every earlier scan.
   */
  ghost predicate Faithful(scans: seq<Scan>, origins: seq<Origin>, log: FifoLog) {
    && |scans| == |origins|
    && (forall i :: 0 <= i < |origins| && origins[i].FromFifo? ==>
          && origins[i].serial < log.Next()
          && origins[i].serial < |log.all|
          && scans[i].axes == FillScan(log.all[origins[i].serial]))
    && (forall i, j :: 0 <= i < j < |origins| && origins[i].FromFifo? && origins[j].FromFifo? ==>
          origins[i].serial < origins[j].serial)
  }

  lemma FaithfulLater(scans: seq<Scan>, origins: seq<Origin>, log: FifoLog, log': FifoLog)
    requires Faithful(scans, origins, log) && log.Later(log')
    ensures Faithful(scans, origins, log')
  {}

  /** A burst of frames numbered from `start`, none of which was out of the FIFO before. */
  lemma FaithfulBurst(scans: seq<Scan>, origins: seq<Origin>, log: FifoLog, log': FifoLog,
                      more: seq<Scan>, from: seq<Origin>, start: nat)
    requires Faithful(scans, origins, log) && log.Later(log') && |more| == |from|
    requires forall k :: 0 <= k < |from| && from[k].FromFifo? ==>
      && log.Next() <= start <= from[k].serial == start + k < log'.Next()
      && start + k < |log'.all|
      && more[k].axes == FillScan(log'.all[start + k])
    ensures Faithful(scans + more, origins + from, log')
  {}

  /**
   * From position `from` on, every scan is the next frame of the current epoch: nothing missing,
   * nothing twice, nothing out of order, and the next one to come is the oldest in the FIFO.
   */
  ghost predicate Gapless(origins: seq<Origin>, from: nat, log: FifoLog) {
    && from <= |origins|
    && from + log.Next() == log.epoch + |origins|
    && forall k :: from <= k < |origins| ==> origins[k] == FromFifo(log.epoch + (k - from))
  }

  lemma GaplessBurst(origins: seq<Origin>, from: nat, log: FifoLog, log': FifoLog, more: seq<Origin>)
    requires Gapless(origins, from, log) && log'.epoch == log.epoch && log'.Next() == log.Next() + |more|
    requires forall k :: 0 <= k < |more| ==> more[k] == FromFifo(log.Next() + k)
    ensures Gapless(origins + more, from, log')
  {
    var os := origins + more;
    forall k | from <= k < |os|
      ensures os[k] == FromFifo(log'.epoch + (k - from))
    {
      if k >= |origins| {
        assert os[k] == more[k - |origins|];
      }
    }
  }

  /** A gapless faithful delivery is a verbatim copy of the frames written in this epoch. */
  lemma GaplessCopies(scans: seq<Scan>, origins: seq<Origin>, from: nat, log: FifoLog)
    requires Faithful(scans, origins, log) && Gapless(origins, from, log) && log.Ok()
    ensures |scans| - from <= |log.all| - log.epoch
    ensures forall k :: from <= k < |scans| ==> scans[k].axes == FillScan(log.all[log.epoch + (k - from)])
  {}
}
