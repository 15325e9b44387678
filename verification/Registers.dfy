/** The registers the driver touches and the regmap read-modify-write arithmetic on them. */
module Registers {
  import opened RegisterBytes

  const SMPLRT_DIV: nat := 0x19
  const CONFIG: nat := 0x1A
  const GYRO_CONFIG: nat := 0x1B
  const ACCEL_CONFIG: nat := 0x1C
  const ACCEL_CONFIG_2: nat := 0x1D
  const FIFO_EN: nat := 0x23
  const INT_PIN_CFG: nat := 0x37
  const INT_ENABLE: nat := 0x38
  const FIFO_WM_TH1: nat := 0x60
  const FIFO_WM_TH2: nat := 0x61
  const USER_CTRL: nat := 0x6A
  const PWR_MGMT_1: nat := 0x6B
  const PWR_MGMT_2: nat := 0x6C
  const REGISTER_COUNT: nat := 128

  const DATA_RDY_INT_EN: bv8 := 0x01
  const FIFO_OFLOW_EN: bv8 := 0x10
  const INT_RD_CLEAR: bv8 := 0x10
  const USER_CTRL_FIFO_EN: bv8 := 0x40
  const USER_CTRL_FIFO_RST: bv8 := 0x04
  const FIFO_EN_ACCEL_GYRO: bv8 := 0x18
  const FIFO_WM_MODE: bv8 := 0x80
  const FIFO_WM_TH1_MASK: bv8 := 0x03
  const SCALE_MASK: bv8 := 0x18

  /** The value regmap_update_bits writes back. */
  function Merge(orig: bv8, mask: bv8, val: bv8): bv8 {
    (orig & !mask) | (val & mask)
  }

  lemma MergeMasked(o: bv8, mask: bv8, val: bv8)
    ensures Merge(o, mask, val) & mask == val & mask
  {}

  lemma MergeOutside(o: bv8, mask: bv8, val: bv8, other: bv8)
    requires mask & other == 0
    ensures Merge(o, mask, val) & other == o & other
  {}

  /** The masked bits of `v` hold `val`, and the others are those of `o`. */
  predicate Updated(o: bv8, v: bv8, mask: bv8, val: bv8) {
    v & mask == val & mask && v & !mask == o & !mask
  }

  lemma MergeUpdates(o: bv8, mask: bv8, val: bv8)
    ensures Updated(o, Merge(o, mask, val), mask, val)
  {}

  ghost predicate IsRegisterFile(regs: seq<bv8>) {
    |regs| == REGISTER_COUNT
  }

  /** A FIFO source (accelerometer or gyroscope) is selected. */
  predicate SourcesOn(regs: seq<bv8>)
    requires IsRegisterFile(regs)
  {
    regs[FIFO_EN] & FIFO_EN_ACCEL_GYRO != 0
  }

  predicate FifoOn(regs: seq<bv8>)
    requires IsRegisterFile(regs)
  {
    regs[USER_CTRL] & USER_CTRL_FIFO_EN != 0
  }

  /** The sensor writes every new sample into the FIFO. */
  predicate Collecting(regs: seq<bv8>)
    requires IsRegisterFile(regs)
  {
    FifoOn(regs) && regs[FIFO_EN] & FIFO_EN_ACCEL_GYRO == FIFO_EN_ACCEL_GYRO
  }

  predicate DataReadyOn(regs: seq<bv8>)
    requires IsRegisterFile(regs)
  {
    regs[INT_ENABLE] & DATA_RDY_INT_EN != 0
  }

  predicate OverflowIrqOn(regs: seq<bv8>)
    requires IsRegisterFile(regs)
  {
    regs[INT_ENABLE] & FIFO_OFLOW_EN != 0
  }

  /** The byte threshold TH1:TH2 stands for. */
  function Threshold(regs: seq<bv8>): nat
    requires IsRegisterFile(regs)
  {
    256 * ((regs[FIFO_WM_TH1] & FIFO_WM_TH1_MASK) as int) + regs[FIFO_WM_TH2] as int
  }

  /** Writing the high bits under the TH1 mask and then the low byte stores the byte count. */
  lemma ThresholdRoundTrip(regs: seq<bv8>, bytes: int)
    requires IsRegisterFile(regs) && 0 <= bytes < 1024
    ensures Threshold(regs[FIFO_WM_TH1 := Merge(regs[FIFO_WM_TH1], FIFO_WM_TH1_MASK, (bytes / 256) as bv8)]
                          [FIFO_WM_TH2 := (bytes % 256) as bv8]) == bytes
  {
    var hi := bytes / 256;
    assert hi == 0 || hi == 1 || hi == 2 || hi == 3;
    MergeMasked(regs[FIFO_WM_TH1], FIFO_WM_TH1_MASK, hi as bv8);
    ByteRoundTrip(bytes % 256);
  }

  /** The bits of a register that the driver moves once the device is set up. */
  function DriverBits(addr: nat): bv8 {
    if addr == SMPLRT_DIV || addr == FIFO_WM_TH2 then 0xFF
    else if addr == GYRO_CONFIG || addr == ACCEL_CONFIG || addr == FIFO_EN then 0x18
    else if addr == CONFIG then 0x80
    else if addr == INT_ENABLE then 0x11
    else if addr == FIFO_WM_TH1 then 0x03
    else if addr == USER_CTRL then 0x44
    else 0x00
  }

  /** Every register outside `touched` kept its value, and every register the bits that are not the driver's. */
  ghost predicate OnlyChanged(before: seq<bv8>, after: seq<bv8>, touched: set<nat>)
    requires IsRegisterFile(before) && IsRegisterFile(after)
  {
    forall a: nat | a < REGISTER_COUNT ::
      && (a !in touched ==> after[a] == before[a])
      && after[a] & !DriverBits(a) == before[a] & !DriverBits(a)
  }

  lemma NothingChanged(regs: seq<bv8>, touched: set<nat>)
    requires IsRegisterFile(regs)
    ensures OnlyChanged(regs, regs, touched)
  {}

  /** A masked update of the driver's own bits. */
  lemma MergeChanges(regs: seq<bv8>, addr: nat, mask: bv8, val: bv8)
    requires IsRegisterFile(regs) && addr < REGISTER_COUNT && mask & !DriverBits(addr) == 0
    ensures OnlyChanged(regs, regs[addr := Merge(regs[addr], mask, val)], {addr})
  {
    hide DriverBits, Merge;
    MergeFrame(regs[addr], mask, val, DriverBits(addr));
  }

  lemma MergeFrame(o: bv8, mask: bv8, val: bv8, bits: bv8)
    requires mask & !bits == 0
    ensures Merge(o, mask, val) & !bits == o & !bits
  {}

  lemma WriteChanges(regs: seq<bv8>, addr: nat, val: bv8)
    requires IsRegisterFile(regs) && addr < REGISTER_COUNT && DriverBits(addr) == 0xFF
    ensures OnlyChanged(regs, regs[addr := val], {addr})
  {
    assert val & 0 == 0 && regs[addr] & 0 == 0;
  }

  /** Neither interrupt enable the driver uses moved. */
  predicate SameEnables(before: seq<bv8>, after: seq<bv8>)
    requires IsRegisterFile(before) && IsRegisterFile(after)
  {
    DataReadyOn(after) == DataReadyOn(before) && OverflowIrqOn(after) == OverflowIrqOn(before)
  }

  /** Neither did the watermark threshold. */
  predicate SameInterrupts(before: seq<bv8>, after: seq<bv8>)
    requires IsRegisterFile(before) && IsRegisterFile(after)
  {
    SameEnables(before, after) && Threshold(after) == Threshold(before)
  }

  /** Neither FIFO enable moved. */
  predicate SameFifo(before: seq<bv8>, after: seq<bv8>)
    requires IsRegisterFile(before) && IsRegisterFile(after)
  {
    SourcesOn(after) == SourcesOn(before) && FifoOn(after) == FifoOn(before) && Collecting(after) == Collecting(before)
  }

  lemma UntouchedInterrupts(before: seq<bv8>, after: seq<bv8>, touched: set<nat>)
    requires IsRegisterFile(before) && IsRegisterFile(after) && OnlyChanged(before, after, touched)
    requires INT_ENABLE !in touched && FIFO_WM_TH1 !in touched && FIFO_WM_TH2 !in touched
    ensures SameInterrupts(before, after)
  {}

  lemma UntouchedFifo(before: seq<bv8>, after: seq<bv8>, touched: set<nat>)
    requires IsRegisterFile(before) && IsRegisterFile(after) && OnlyChanged(before, after, touched)
    requires FIFO_EN !in touched && USER_CTRL !in touched
    ensures SameFifo(before, after)
    ensures INT_ENABLE !in touched ==> SameEnables(before, after)
  {}

  lemma Outside(before: seq<bv8>, after: seq<bv8>, touched: set<nat>, addr: nat)
    requires IsRegisterFile(before) && IsRegisterFile(after) && OnlyChanged(before, after, touched)
    requires addr < REGISTER_COUNT && addr !in touched
    ensures after[addr] == before[addr]
  {}

  lemma OnlyChangedChain(a: seq<bv8>, b: seq<bv8>, c: seq<bv8>, s: set<nat>, t: set<nat>)
    requires IsRegisterFile(a) && IsRegisterFile(b) && IsRegisterFile(c)
    requires OnlyChanged(a, b, s) && OnlyChanged(b, c, t) && t <= s
    ensures OnlyChanged(a, c, s)
  {}

  lemma OnlyChangedWiden(a: seq<bv8>, b: seq<bv8>, s: set<nat>, t: set<nat>)
    requires IsRegisterFile(a) && IsRegisterFile(b) && OnlyChanged(a, b, s) && s <= t
    ensures OnlyChanged(a, b, t)
  {}
}
