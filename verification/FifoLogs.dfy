/** The history of the hardware FIFO: what was written into it and how much of it is gone. */
module FifoLogs {
  import opened Frames

  const FIFO_SIZE_BYTES: nat := 1024

  /** What reading n bytes out of a FIFO that holds `fifo` returns: an empty FIFO reads 0xFF. */
  function ReadOut(fifo: seq<byte>, n: nat): (bytes: seq<byte>)
    ensures |bytes| == n
  {
    if n <= |fifo| then fifo[..n] else fifo + seq(n - |fifo|, _ => 0xFF)
  }

  /**
   * `all` is every frame the sensor ever wrote into the FIFO, `epoch` the length of `all` at the
   * last FIFO reset and `head` the bytes popped or overwritten since. `over` says that the FIFO
   * overflowed and was neither reset nor read empty since; `overruns` counts overflows for ever.
   */
  datatype FifoLog = FifoLog(all: seq<SensorData>, epoch: nat, head: nat, over: bool, overruns: nat) {

    /** 1024 is 2 mod 14, so the first overflow cuts into a frame and every later one keeps the cut. */
    ghost predicate Ok() {
      && epoch <= |all|
      && head <= FRAME_SIZE * (|all| - epoch) <= head + FIFO_SIZE_BYTES
      && head % FRAME_SIZE == if over then 12 else 0
    }

    function Count(): int {
      FRAME_SIZE * (|all| - epoch) - head
    }

    function Contents(): (bytes: seq<byte>)
      requires Ok()
      ensures |bytes| == Count()
    {
      Wire(all[epoch..])[head..]
    }

    /** Whole frames in the FIFO, as the driver counts them. */
    function Frames(): int
      requires Ok()
    {
      Count() / FRAME_SIZE
    }

    /** Index into `all` of the oldest frame the FIFO still holds, if the FIFO is aligned. */
    function Next(): nat {
      epoch + head / FRAME_SIZE
    }

    function Written(f: SensorData): FifoLog {
      var excess := Count() + FRAME_SIZE - FIFO_SIZE_BYTES;
      if excess > 0
      then FifoLog(all + [f], epoch, head + excess, true, overruns + 1)
      else this.(all := all + [f])
    }

    function Popped(n: nat): FifoLog {
      this.(head := head + n)
    }

    /** Reading on beyond the last byte leaves the FIFO empty. */
    function Drained(): FifoLog
      requires Ok()
    {
      this.(head := FRAME_SIZE * (|all| - epoch), over := false)
    }

    function AfterRead(n: nat): FifoLog
      requires Ok()
    {
      if n <= Count() then Popped(n) else Drained()
    }

    function Reset(): FifoLog {
      this.(epoch := |all|, head := 0, over := false)
    }

    /** Only arrivals happened between `this` and `l`. */
    ghost predicate Grew(l: FifoLog) {
      && all <= l.all
      && epoch == l.epoch
      && head <= l.head
      && Count() <= l.Count()
      && overruns <= l.overruns
      && (overruns == l.overruns ==> head == l.head && over == l.over)
      && (overruns < l.overruns ==> l.over)
      && (|all| == |l.all| ==> this == l)
    }

    /** `l` is a later moment of the same history; anything may have happened in between. */
    ghost predicate Later(l: FifoLog) {
      && all <= l.all
      && Next() <= l.Next()
      && overruns <= l.overruns
    }

    /** What one register access does: arrivals (none if `idle`), then possibly a FIFO reset. */
    ghost predicate Evolved(l: FifoLog, idle: bool, reset: bool) {
      if reset
      then all <= l.all && l.Fresh() && overruns <= l.overruns && (idle ==> this.Reset() == l)
      else Grew(l) && (idle ==> this == l)
    }

    /** Nothing was written since a reset. */
    predicate Fresh() {
      epoch == |all| && head == 0 && !over
    }
  }

  lemma GrewTransitive(a: FifoLog, b: FifoLog, c: FifoLog)
    requires a.Grew(b) && b.Grew(c)
    ensures a.Grew(c)
  {}

  lemma EvolvedTransitive(a: FifoLog, b: FifoLog, c: FifoLog, idle: bool, reset: bool)
    requires a.Evolved(b, idle, false) && b.Evolved(c, idle, reset)
    ensures a.Evolved(c, idle, reset)
  {}

  lemma EvolvedIsLater(a: FifoLog, b: FifoLog, idle: bool, reset: bool)
    requires a.Ok() && b.Ok() && a.Evolved(b, idle, reset)
    ensures a.Later(b)
  {}

  lemma LaterTransitive(a: FifoLog, b: FifoLog, c: FifoLog)
    requires a.Later(b) && b.Later(c)
    ensures a.Later(c)
  {}

  lemma WrittenGrows(l: FifoLog, f: SensorData)
    requires l.Ok()
    ensures l.Written(f).Ok() && l.Grew(l.Written(f))
  {}

  /** A frame goes in at the end and pushes the oldest bytes out of a full FIFO. */
  lemma WrittenContents(l: FifoLog, f: SensorData)
    requires l.Ok() && l.Written(f).Ok()
    ensures l.Written(f).Contents() == (l.Contents() + Encode(f))[l.Written(f).head - l.head..]
  {
    hide Wire, Encode;
    var frames, l' := l.all[l.epoch..], l.Written(f);
    SuffixSnoc(l.all, [f], l.epoch);
    WireSnoc(frames, f);
    SuffixSnoc(Wire(frames), Encode(f), l.head);
    SuffixOfSuffix(Wire(l'.all[l'.epoch..]), l.head, l'.head);
  }

  lemma PoppedDrops(l: FifoLog, n: nat)
    requires l.Ok() && n <= l.Count() && n % FRAME_SIZE == 0
    ensures l.Popped(n).Ok() && l.Later(l.Popped(n))
    ensures l.Popped(n).Contents() == l.Contents()[n..]
    ensures l.Popped(n).Frames() == l.Frames() - n / FRAME_SIZE
    ensures l.Popped(n).Next() == l.Next() + n / FRAME_SIZE
  {
    hide Wire;
    WholeFrames(l.head, n);
    WholeFrames(l.Count() - n, n);
    SuffixOfSuffix(Wire(l.all[l.epoch..]), l.head, l.head + n);
  }

  lemma DrainedEmpty(l: FifoLog)
    requires l.Ok()
    ensures l.Drained().Ok() && l.Later(l.Drained()) && l.Drained().Contents() == []
  {}

  lemma WholeFrames(x: int, n: int)
    requires n % FRAME_SIZE == 0
    ensures (x + n) / FRAME_SIZE == x / FRAME_SIZE + n / FRAME_SIZE && (x + n) % FRAME_SIZE == x % FRAME_SIZE
  {}

  lemma FramesFit(l: FifoLog, n: nat)
    requires l.Ok() && n <= l.Frames()
    ensures FRAME_SIZE * n <= l.Count()
  {}

  /** Without an overflow, arrivals add to the frame count and nothing else. */
  lemma ArrivalsCount(l: FifoLog, l': FifoLog)
    requires l.Ok() && l'.Ok() && l.Grew(l') && l.overruns == l'.overruns
    ensures l'.Frames() == l.Frames() + (|l'.all| - |l.all|)
    ensures l'.Next() == l.Next()
  {}

  /** A burst of whole frames from an aligned FIFO is the next run of frames written. */
  lemma BurstDecodes(l: FifoLog, bytes: seq<byte>, k: nat)
    requires l.Ok() && !l.over
    requires |bytes| <= |l.Contents()| && bytes == l.Contents()[..|bytes|]
    requires FRAME_SIZE * k + FRAME_SIZE <= |bytes|
    ensures l.Next() + k < |l.all|
    ensures Decode(bytes[FRAME_SIZE * k..FRAME_SIZE * k + FRAME_SIZE]) == l.all[l.Next() + k]
  {
    var first := l.head / FRAME_SIZE;
    assert bytes == Wire(l.all[l.epoch..])[FRAME_SIZE * first..FRAME_SIZE * first + |bytes|];
    SlotsDecode(l.all[l.epoch..], first, bytes, k);
  }

  /** `frames` occupy the memory `bytes` were read into. */
  ghost predicate Overlays(frames: seq<SensorData>, bytes: seq<byte>) {
    && |bytes| == FRAME_SIZE * |frames|
    && forall i :: 0 <= i < |frames| ==> frames[i] == Decode(bytes[FRAME_SIZE * i..FRAME_SIZE * i + FRAME_SIZE])
  }

  lemma NextWithin(l: FifoLog)
    requires l.Ok()
    ensures l.Next() <= |l.all|
  {}

  lemma BurstIsNext(l: FifoLog, bytes: seq<byte>, burst: seq<SensorData>)
    requires l.Ok() && !l.over && Overlays(burst, bytes)
    requires |bytes| <= |l.Contents()| && bytes == l.Contents()[..|bytes|]
    ensures l.Next() + |burst| <= |l.all| && burst == l.all[l.Next()..l.Next() + |burst|]
  {
    hide Decode, FifoLog.Contents, FifoLog.Next, FifoLog.Ok;
    NextWithin(l);
    if |burst| > 0 {
      BurstDecodes(l, bytes, |burst| - 1);
    }
    var next := l.all[l.Next()..l.Next() + |burst|];
    forall i | 0 <= i < |burst|
      ensures burst[i] == next[i]
    {
      BurstDecodes(l, bytes, i);
    }
  }

  /** A burst of n frames between two counts, without overflow. */
  lemma BurstAccounts(l: FifoLog, at: FifoLog, l': FifoLog, n: nat)
    requires l.Ok() && at.Ok() && l'.Ok() && FRAME_SIZE * n <= at.Count()
    requires l.Grew(at) && at.Popped(FRAME_SIZE * n).Grew(l')
    ensures l.Later(l') && at.Next() + n <= l'.Next() && l.Next() <= at.Next() && at.all <= l'.all
    ensures l.overruns == l'.overruns ==>
      && l'.Frames() == l.Frames() - n + (|l'.all| - |l.all|)
      && l'.epoch == l.epoch && l'.over == l.over && at.over == l.over
      && at.Next() == l.Next() && l'.Next() == l.Next() + n
      && l'.Count() == l.Count() - FRAME_SIZE * n + FRAME_SIZE * (|l'.all| - |l.all|)
  {}
}
