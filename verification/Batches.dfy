/** Bursts of one drain and the laws their reconstructed timestamps obey. */
module Batches {
  import opened Delivery
  import opened Frames
  import opened Iio

  const BURST_MAX: int := 64

  /**
   * One burst: the frames read and where they came from, the trigger time and period it is stamped
   * with, and the whole-frame counts before the burst and after it. `seenBefore` and `seenAfter`
   * are the number of frames the sensor had ever written when the counts were read.
   */
  datatype Batch = Batch(frames: seq<SensorData>, from: seq<Origin>, trigger: int, period: int,
                         before: int, seenBefore: nat, after: int, seenAfter: nat) {

    /** fifo_pending_base_ts as the drain computes it. */
    function Base(): int {
      if period != 0 then trigger - after * period - (|frames| - 1) * period else trigger
    }

    function Stamp(i: int): int {
      Base() + i * period
    }

    ghost function Scans(): (scans: seq<Scan>)
      ensures |scans| == |frames|
    {
      BurstScans(frames, Base(), period)
    }

    /** Arrivals and the burst account for the change in the count: no overflow in between. */
    ghost predicate Balanced() {
      && seenBefore <= seenAfter
      && 1 <= before <= 73
      && |from| == |frames|
      && |frames| == (if before < BURST_MAX then before else BURST_MAX)
      && after == before - |frames| + (seenAfter - seenBefore)
    }

    /** The frames are consecutive, and `after` more follow them up to the last one written. */
    ghost predicate Aligned() {
      && |from| == |frames| && |frames| + after <= seenAfter
      && forall j :: 0 <= j < |from| ==> from[j] == FromFifo(seenAfter - after - |frames| + j)
    }
  }

  /** No overflow between the re-read after `a` and the count before `b`. */
  ghost predicate Linked(a: Batch, b: Batch) {
    && a.seenAfter <= b.seenBefore
    && b.before == a.after + (b.seenBefore - a.seenAfter)
  }

  /** The bursts of one drain without overflow. */
  ghost predicate Chained(log: seq<Batch>) {
    && (forall i :: 0 <= i < |log| ==>
          log[i].Balanced() && log[i].trigger == log[0].trigger && log[i].period == log[0].period)
    && (forall i :: 0 < i < |log| ==> Linked(log[i - 1], log[i]))
  }

  lemma ChainSnoc(log: seq<Batch>, b: Batch)
    requires Chained(log) && b.Balanced()
    requires log != [] ==> Linked(log[|log| - 1], b) && b.trigger == log[0].trigger && b.period == log[0].period
    ensures Chained(log + [b])
  {}

  ghost function AllScans(log: seq<Batch>): seq<Scan> {
    if log == [] then [] else AllScans(log[..|log| - 1]) + log[|log| - 1].Scans()
  }

  ghost function AllOrigins(log: seq<Batch>): seq<Origin> {
    if log == [] then [] else AllOrigins(log[..|log| - 1]) + log[|log| - 1].from
  }

  lemma AllSnoc(log: seq<Batch>, b: Batch)
    ensures AllScans(log + [b]) == AllScans(log) + b.Scans()
    ensures AllOrigins(log + [b]) == AllOrigins(log) + b.from
  {}

  /** The newest frame of a burst is dated `after` periods before the trigger, and steps are exact. */
  lemma StampFromTrigger(b: Batch, i: int)
    ensures b.Stamp(i) == b.trigger - (b.after + |b.frames| - 1 - i) * b.period
  {}

  lemma MulDistributes(x: int, y: int, p: int)
    ensures (x + y) * p == x * p + y * p
  {}

  lemma ScanStamps(b: Batch)
    ensures forall i :: 0 <= i < |b.frames| ==> b.Scans()[i].timestamp == b.Stamp(i)
  {}

  lemma ScanStamp(b: Batch, i: nat)
    requires i < |b.frames|
    ensures b.Scans()[i].timestamp == b.trigger - (b.after + |b.frames| - 1 - i) * b.period
  {
    StampFromTrigger(b, i);
  }

  /** Inside a burst timestamps step by exactly one period. */
  lemma StepInside(b: Batch, i: int)
    ensures b.Stamp(i + 1) - b.Stamp(i) == b.period
  {}

  /** Between consecutive bursts the step shrinks by one period per frame that arrived meanwhile. */
  lemma SeamStep(a: Batch, b: Batch)
    requires Linked(a, b) && b.Balanced() && a.trigger == b.trigger && a.period == b.period
    ensures b.Stamp(0) - a.Stamp(|a.frames| - 1) == (1 - (b.seenAfter - a.seenAfter)) * a.period
  {}

  /** So the seam goes forward iff nothing arrived, and repeats or goes back otherwise. */
  lemma SeamMonotoneIff(a: Batch, b: Batch)
    requires Linked(a, b) && b.Balanced() && a.trigger == b.trigger && a.period == b.period && a.period > 0
    ensures b.Stamp(0) > a.Stamp(|a.frames| - 1) <==> a.seenAfter == b.seenAfter
  {
    SeamStep(a, b);
    var arrivals := b.seenAfter - a.seenAfter;
    if arrivals >= 1 {
      MulDistributes(arrivals - 1, 1 - arrivals, a.period);
      assert (arrivals - 1) * a.period >= 0;
    }
  }

  /** One arrival during the second burst is enough to date two frames the same. */
  lemma SeamCanRepeat(f: SensorData, g: SensorData, trigger: int, period: int)
    requires period > 0
    ensures var a := Batch([f], [FromFifo(0)], trigger, period, 1, 1, 1, 2);
      var b := Batch([g], [FromFifo(1)], trigger, period, 1, 2, 1, 3);
      Linked(a, b) && a.Balanced() && b.Balanced() && b.Stamp(0) == a.Stamp(0)
  {}

  /** A drain during which nothing arrives is one arithmetic progression ending at T - remaining * p. */
  lemma {:induction false} DrainProgression(log: seq<Batch>, k: int)
    requires Chained(log) && log != []
    requires log[0].seenAfter == log[|log| - 1].seenAfter
    requires 0 <= k < |AllScans(log)|
    ensures AllScans(log)[k].timestamp
         == log[0].trigger - (log[|log| - 1].after + |AllScans(log)| - 1 - k) * log[0].period
  {
    hide Chained, Linked, Batch.Balanced, Batch.Scans, Batch.Stamp, BurstScans, AllScans;
    var init, b := log[..|log| - 1], log[|log| - 1];
    var n := |AllScans(init)|;
    LastScans(log);
    ChainedOne(log);
    if k >= n {
      ScanStamp(b, k - n);
    } else {
      ChainedInit(log);
      IdleSeam(log);
      DrainProgression(init, k);
      assert init[|init| - 1].after + n - 1 - k == b.after + |AllScans(log)| - 1 - k;
    }
  }

  lemma LastScans(log: seq<Batch>)
    requires log != []
    ensures AllScans(log) == AllScans(log[..|log| - 1]) + log[|log| - 1].Scans()
    ensures |log| == 1 ==> AllScans(log[..|log| - 1]) == []
  {}

  lemma ChainedOne(log: seq<Batch>)
    requires Chained(log) && log != []
    ensures log[|log| - 1].trigger == log[0].trigger && log[|log| - 1].period == log[0].period
  {}

  /** The frames of the last burst were all there before it. */
  lemma IdleSeam(log: seq<Batch>)
    requires Chained(log) && |log| > 1 && log[0].seenAfter == log[|log| - 1].seenAfter
    ensures log[0].seenAfter == log[|log| - 2].seenAfter
    ensures log[|log| - 2].after == log[|log| - 1].after + |log[|log| - 1].frames|
  {
    SeenMonotone(log, 0, |log| - 2);
    assert Linked(log[|log| - 2], log[|log| - 1]) && log[|log| - 1].Balanced();
  }

  lemma ChainedInit(log: seq<Batch>)
    requires Chained(log) && log != []
    ensures Chained(log[..|log| - 1])
    ensures |log| > 1 ==> log[..|log| - 1][0] == log[0] && Linked(log[..|log| - 1][|log| - 2], log[|log| - 1])
  {}

  lemma {:induction false} SeenMonotone(log: seq<Batch>, i: nat, j: nat)
    requires Chained(log) && i <= j < |log|
    ensures log[i].seenAfter <= log[j].seenAfter
    decreases j
  {
    if i < j {
      SeenMonotone(log, i, j - 1);
      assert Linked(log[j - 1], log[j]) && log[j].Balanced();
    }
  }

  /**
   * A sensor with exact period p takes sample k at t0 + k * p. If the re-read happens d after the
   * trigger time, every frame of the burst is dated with the same error, which lies in [-d, p - d).
   */
  lemma StampAccuracy(b: Batch, t0: int, d: int, j: int, serial: nat)
    requires b.Aligned() && 0 <= j < |b.frames| && b.from[j] == FromFifo(serial)
    requires t0 + (b.seenAfter - 1) * b.period <= b.trigger + d < t0 + b.seenAfter * b.period
    ensures b.Stamp(j) - (t0 + serial * b.period) == b.trigger - (t0 + (b.seenAfter - 1) * b.period)
    ensures -d <= b.Stamp(j) - (t0 + serial * b.period) < b.period - d
  {}

  /** At most 55 arrivals between the first two counts, fewer than `watermark` during the second burst. */
  predicate FewArrivals(log: seq<Batch>, watermark: int) {
    |log| >= 2 ==>
      && log[1].seenBefore - log[0].seenBefore <= 55
      && log[1].seenAfter - log[1].seenBefore < watermark
  }

  /**
   * A full FIFO holds 73 frames, so with at most 55 arrivals up to the second
   * count and fewer than `watermark` during the second burst, the second burst ends below the
   * watermark: a drain that keeps going only at or above it stops there.
   */
  lemma TwoBurstsSuffice(log: seq<Batch>, watermark: int)
    requires Chained(log)
    requires forall i :: 0 <= i < |log| - 1 ==> log[i].after >= watermark
    requires FewArrivals(log, watermark)
    ensures |log| <= 2
    ensures |log| == 2 ==> log[1].after < watermark
  {}

  /** Without arrivals each burst empties the FIFO or takes 64 frames. */
  lemma IdleDrainEmpties(log: seq<Batch>)
    requires Chained(log) && log != []
    requires log[0].seenBefore == log[|log| - 1].seenAfter
    requires forall i :: 0 <= i < |log| - 1 ==> log[i].after > 0
    ensures |log| <= 2 && (log[|log| - 1].after == 0 || |log| == 1)
  {
    assert log[0].Balanced();
    if |log| >= 2 {
      SeenMonotone(log, 0, 1);
      SeenMonotone(log, 1, |log| - 1);
      assert log[1].Balanced() && Linked(log[0], log[1]);
    }
  }
}
