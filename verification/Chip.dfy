/**
 * The sensor behind the register bus. Before every register access any number of samples may
 * arrive, and any access may fail; a failed access changes nothing.
 */
module Chip {
  import opened Errno
  import opened FifoLogs
  import opened Frames
  import opened Registers

  /** FIFO enables around one register write, and whether the write reset the FIFO. */
  datatype RegWrite = RegWrite(sourcesBefore: bool, fifoBefore: bool, sourcesAfter: bool, fifoAfter: bool, reset: bool)

  /** No write leaves a FIFO source selected while the FIFO itself is off. */
  ghost predicate OrderedWrites(writes: seq<RegWrite>) {
    forall i :: 0 <= i < |writes| && writes[i].sourcesAfter ==> writes[i].fifoAfter
  }

  /** From write n on the reset bit is written only with the FIFO and its sources off. */
  ghost predicate QuietFrom(writes: seq<RegWrite>, n: nat) {
    forall i :: n <= i < |writes| && writes[i].reset ==> !writes[i].sourcesBefore && !writes[i].fifoBefore
  }

  /** Resets that were quiet from some write on still are. */
  ghost predicate KeepsQuiet(writes: seq<RegWrite>, writes': seq<RegWrite>) {
    forall n: nat :: QuietFrom(writes, n) ==> QuietFrom(writes', n)
  }

  /** Writing the reset bit of USER_CTRL. */
  predicate Resets(addr: nat, value: bv8) {
    addr == USER_CTRL && value & USER_CTRL_FIFO_RST != 0
  }

  /** What reads back after a write: the reset bit clears itself. */
  function Stored(addr: nat, value: bv8): bv8 {
    if Resets(addr, value) then value & !USER_CTRL_FIFO_RST else value
  }

  lemma ResetBitClears(addr: nat, value: bv8)
    ensures addr == USER_CTRL ==> Stored(addr, value) & USER_CTRL_FIFO_RST == 0
  {}

  /** The trace entry of a write that takes the registers from `before` to `after`. */
  ghost function Entry(before: seq<bv8>, after: seq<bv8>, reset: bool): RegWrite
    requires IsRegisterFile(before) && IsRegisterFile(after)
  {
    RegWrite(SourcesOn(before), FifoOn(before), SourcesOn(after), FifoOn(after), reset)
  }

  lemma OrderedSnoc(writes: seq<RegWrite>, w: RegWrite)
    requires OrderedWrites(writes) && (w.sourcesAfter ==> w.fifoAfter)
    ensures OrderedWrites(writes + [w])
  {}

  lemma QuietSnoc(writes: seq<RegWrite>, w: RegWrite)
    requires w.reset ==> !w.sourcesBefore && !w.fifoBefore
    ensures KeepsQuiet(writes, writes + [w])
  {}

  class Icm20602 {
    var regs: seq<bv8>
    var fifo: seq<byte>
    var oflow: bool          // INT_STATUS.FIFO_OFLOW_INT, cleared by reading the register
    var sample: SensorData   // the output registers
    ghost var log: FifoLog
    ghost var faults: nat    // accesses that failed so far
    ghost var writes: seq<RegWrite>

    ghost predicate Valid()
      reads this
    {
      && IsRegisterFile(regs)
      && regs[USER_CTRL] & USER_CTRL_FIFO_RST == 0
      && log.Ok()
      && fifo == log.Contents()
    }

    ghost predicate Ordered()
      reads this
      requires IsRegisterFile(regs)
    {
      (SourcesOn(regs) ==> FifoOn(regs)) && OrderedWrites(writes)
    }

    /** The chip after soft reset. */
    constructor ()
      ensures Valid() && Ordered() && QuietFrom(writes, 0)
      ensures regs == seq(REGISTER_COUNT, _ => 0)
      ensures fresh(this) && log == FifoLog([], 0, 0, false, 0) && !oflow && faults == 0 && writes == []
    {
      regs := seq(REGISTER_COUNT, _ => 0);
      fifo := [];
      oflow := false;
      sample := *;
      log := FifoLog([], 0, 0, false, 0);
      faults := 0;
      writes := [];
    }

    /** The sensor takes one sample; a full FIFO loses its oldest bytes. */
    method Sample(f: SensorData)
      requires Valid()
      modifies this`sample, this`fifo, this`oflow, this`log
      ensures Valid()
      ensures sample == f
      ensures log == if Collecting(regs) then old(log).Written(f) else old(log)
      ensures oflow == (old(oflow) || log.overruns > old(log.overruns))
    {
      sample := f;
      if Collecting(regs) {
        WrittenGrows(log, f);
        WrittenContents(log, f);
        fifo := fifo + Encode(f);
        if |fifo| > FIFO_SIZE_BYTES {
          fifo := fifo[|fifo| - FIFO_SIZE_BYTES..];
          oflow := true;
        }
        log := log.Written(f);
      }
    }

    /** Time passes: any samples may arrive. */
    method Elapse()
      requires Valid()
      modifies this`sample, this`fifo, this`oflow, this`log
      ensures Valid()
      ensures old(log).Grew(log)
      ensures !Collecting(regs) ==> log == old(log)
      ensures oflow == (old(oflow) || log.overruns > old(log.overruns))
    {
      var arrivals: int := *;
      while 0 < arrivals
        invariant Valid()
        invariant old(log).Grew(log)
        invariant !Collecting(regs) ==> log == old(log)
        invariant oflow == (old(oflow) || log.overruns > old(log.overruns))
      {
        var f: SensorData := *;
        WrittenGrows(log, f);
        GrewTransitive(old(log), log, log.Written(f));
        Sample(f);
        arrivals := arrivals - 1;
      }
    }

    /** One bus transfer: time passes, then the transfer succeeds or fails. */
    method Transfer() returns (ret: int)
      requires Valid()
      modifies this`sample, this`fifo, this`oflow, this`log, this`faults
      ensures Valid()
      ensures old(log).Grew(log)
      ensures !Collecting(regs) ==> log == old(log)
      ensures oflow == (old(oflow) || log.overruns > old(log.overruns))
      ensures if ret == 0 then faults == old(faults) else ret == -EIO && faults == old(faults) + 1
    {
      Elapse();
      if * {
        ret := -EIO;
        faults := faults + 1;
      } else {
        ret := 0;
      }
    }

    /** A register write takes effect. The FIFO_RST bit of USER_CTRL empties the FIFO. */
    method Store(addr: nat, value: bv8)
      requires Valid() && addr < REGISTER_COUNT
      modifies this`regs, this`fifo, this`log, this`writes
      ensures Valid()
      ensures regs == old(regs)[addr := Stored(addr, value)]
      ensures log == if Resets(addr, value) then old(log).Reset() else old(log)
      ensures writes == old(writes) + [Entry(old(regs), regs, Resets(addr, value))]
      ensures old(writes) <= writes
      ensures OrderedWrites(old(writes)) && (SourcesOn(regs) ==> FifoOn(regs)) ==> OrderedWrites(writes)
      ensures (Resets(addr, value) ==> !SourcesOn(old(regs)) && !FifoOn(old(regs))) ==> KeepsQuiet(old(writes), writes)
    {
      hide OrderedWrites, QuietFrom, SourcesOn, FifoOn, Resets;
      ResetBitClears(addr, value);
      regs := regs[addr := Stored(addr, value)];
      ghost var entry := Entry(old(regs), regs, Resets(addr, value));
      if OrderedWrites(writes) && (SourcesOn(regs) ==> FifoOn(regs)) {
        OrderedSnoc(writes, entry);
      }
      if Resets(addr, value) ==> !SourcesOn(old(regs)) && !FifoOn(old(regs)) {
        QuietSnoc(writes, entry);
      }
      writes := writes + [entry];
      if Resets(addr, value) {
        fifo := [];
        log := log.Reset();
      }
    }

    /** regmap_write. */
    method Write(addr: nat, value: bv8) returns (ret: int)
      requires Valid() && addr < REGISTER_COUNT
      modifies this
      ensures Valid()
      ensures ret == 0 || (ret == -EIO && regs == old(regs))
      ensures if ret == 0 then faults == old(faults) else faults == old(faults) + 1
      ensures oflow == (old(oflow) || log.overruns > old(log.overruns))
      ensures ret == 0 ==> regs == old(regs)[addr := Stored(addr, value)]
      ensures writes == old(writes) + if ret == 0 then [Entry(old(regs), regs, Resets(addr, value))] else []
      ensures old(writes) <= writes
      ensures OrderedWrites(old(writes)) && (SourcesOn(regs) ==> FifoOn(regs)) ==> OrderedWrites(writes)
      ensures (Resets(addr, value) ==> !SourcesOn(old(regs)) && !FifoOn(old(regs))) ==> KeepsQuiet(old(writes), writes)
      ensures old(log).Evolved(log, !Collecting(old(regs)), ret == 0 && Resets(addr, value))
      ensures old(log).Later(log)
    {
      hide FifoLog.Later, FifoLog.Next, FifoLog.Contents, OrderedWrites, QuietFrom, SourcesOn, FifoOn, Collecting,
        Resets, Stored, Entry;
      ret := Transfer();
      EvolvedIsLater(old(log), log, false, false);
      ghost var mid := log;
      if ret == 0 {
        Store(addr, value);
        EvolvedIsLater(mid, log, false, Resets(addr, value));
        LaterTransitive(old(log), mid, log);
      }
    }

    /** regmap_update_bits: read, merge, and write back only a changed value. */
    method UpdateBits(addr: nat, mask: bv8, value: bv8) returns (ret: int)
      requires Valid() && addr < REGISTER_COUNT
      modifies this
      ensures Valid()
      ensures ret == 0 || (ret == -EIO && regs == old(regs))
      ensures if ret == 0 then faults == old(faults) else faults == old(faults) + 1
      ensures oflow == (old(oflow) || log.overruns > old(log.overruns))
      ensures ret == 0 ==> regs == old(regs)[addr := Stored(addr, Merge(old(regs)[addr], mask, value))]
      ensures writes == old(writes)
           || writes == old(writes) + [Entry(old(regs), regs, Resets(addr, Merge(old(regs)[addr], mask, value)))]
      ensures old(writes) <= writes
      ensures OrderedWrites(old(writes)) && (SourcesOn(regs) ==> FifoOn(regs)) ==> OrderedWrites(writes)
      ensures (Resets(addr, Merge(old(regs)[addr], mask, value)) ==> !SourcesOn(old(regs)) && !FifoOn(old(regs)))
        ==> KeepsQuiet(old(writes), writes)
      ensures old(log).Evolved(log, !Collecting(old(regs)),
                               ret == 0 && Resets(addr, Merge(old(regs)[addr], mask, value)))
      ensures old(log).Later(log)
    {
      hide FifoLog.Later, FifoLog.Next, FifoLog.Contents, Collecting, OrderedWrites, QuietFrom, SourcesOn, FifoOn;
      ret := Transfer();
      EvolvedIsLater(old(log), log, false, false);
      if ret != 0 {
        return;
      }
      ghost var mid := log;
      var orig := regs[addr];
      var merged := Merge(orig, mask, value);
      if merged != orig {
        ret := Write(addr, merged);
        EvolvedTransitive(old(log), mid, log, !Collecting(old(regs)), ret == 0 && Resets(addr, merged));
        LaterTransitive(old(log), mid, log);
      }
    }

    /** Reading INT_STATUS returns and clears the overflow bit. */
    method ReadOverflow() returns (ret: int, overflow: bool)
      requires Valid()
      modifies this`sample, this`fifo, this`oflow, this`log, this`faults
      ensures Valid()
      ensures old(log).Grew(log)
      ensures !Collecting(regs) ==> log == old(log)
      ensures if ret == 0 then faults == old(faults) else ret == -EIO && faults == old(faults) + 1
      ensures ret == 0 ==> !oflow && overflow == (old(oflow) || log.overruns > old(log.overruns))
      ensures ret != 0 ==> oflow == (old(oflow) || log.overruns > old(log.overruns))
    {
      overflow := false;
      ret := Transfer();
      if ret == 0 {
        overflow, oflow := oflow, false;
      }
    }

    /** FIFO_COUNTH:FIFO_COUNTL. */
    method ReadCount() returns (ret: int, hi: byte, lo: byte)
      requires Valid()
      modifies this`sample, this`fifo, this`oflow, this`log, this`faults
      ensures Valid()
      ensures old(log).Grew(log)
      ensures !Collecting(regs) ==> log == old(log)
      ensures oflow == (old(oflow) || log.overruns > old(log.overruns))
      ensures if ret == 0 then faults == old(faults) else ret == -EIO && faults == old(faults) + 1
      ensures ret == 0 ==> 256 * (hi as int) + lo as int == |fifo|
    {
      ret := Transfer();
      hi, lo := |fifo| / 256, |fifo| % 256;
    }

    /** FIFO_R_W: pops the oldest bytes, in whole frames; `at` is the history at the instant of the transfer. */
    method ReadFifo(n: nat) returns (ret: int, bytes: seq<byte>, ghost at: FifoLog)
      requires Valid() && n % FRAME_SIZE == 0
      modifies this`sample, this`fifo, this`oflow, this`log, this`faults
      ensures Valid()
      ensures old(log).Grew(at) && at.Ok()
      ensures oflow == (old(oflow) || log.overruns > old(log.overruns))
      ensures if ret == 0 then faults == old(faults) else ret == -EIO && faults == old(faults) + 1
      ensures ret == 0 ==> bytes == ReadOut(at.Contents(), n) && log == at.AfterRead(n)
      ensures ret != 0 ==> log == at
    {
      bytes := [];
      ret := Transfer();
      at := log;
      if ret == 0 {
        bytes := ReadOut(fifo, n);
        if n <= |fifo| {
          PoppedDrops(log, n);
          fifo := fifo[n..];
        } else {
          DrainedEmpty(log);
          fifo := [];
        }
        log := log.AfterRead(n);
      }
    }

    /** One burst read of the output registers. */
    method ReadSample() returns (ret: int, f: SensorData)
      requires Valid()
      modifies this`sample, this`fifo, this`oflow, this`log, this`faults
      ensures Valid()
      ensures old(log).Grew(log)
      ensures !Collecting(regs) ==> log == old(log)
      ensures oflow == (old(oflow) || log.overruns > old(log.overruns))
      ensures if ret == 0 then faults == old(faults) else ret == -EIO && faults == old(faults) + 1
      ensures f == sample
    {
      ret := Transfer();
      f := sample;
    }
  }
}
