/** The 24-byte scan layout and the two decoders of the user-space tools. */
module Scans {
  import opened Frames

  const SCAN_SIZE: nat := 24
  const TWO_TO_16: int := 0x1_0000
  const TWO_TO_64: int := 0x1_0000_0000_0000_0000

  /** One decoded scan. */
  datatype Sample = Sample(ax: int, ay: int, az: int, gx: int, gy: int, gz: int, timestamp: int)

  function Pow256(n: nat): (p: int)
    ensures p >= 1
  {
    if n == 0 then 1 else 256 * Pow256(n - 1)
  }

  /** The unsigned value of little-endian bytes. */
  function LeValue(b: seq<byte>): (v: int)
    ensures v >= 0
  {
    if b == [] then 0 else b[0] as int + 256 * LeValue(b[1..])
  }

  function LeBytes(v: int, n: nat): (b: seq<byte>)
    ensures |b| == n
    decreases n
  {
    if n == 0 then [] else [v % 256] + LeBytes(v / 256, n - 1)
  }

  lemma {:induction false} LeRoundTrip(v: int, n: nat)
    requires 0 <= v < Pow256(n)
    ensures LeValue(LeBytes(v, n)) == v
  {
    if n > 0 {
      LeRoundTrip(v / 256, n - 1);
      assert LeBytes(v, n)[1..] == LeBytes(v / 256, n - 1);
    }
  }

  lemma {:induction false} LeBounded(b: seq<byte>)
    ensures LeValue(b) < Pow256(|b|)
  {
    if b != [] {
      LeBounded(b[1..]);
    }
  }

  /** One more byte at the top adds its value above the bytes below. */
  lemma {:induction false} LeSnoc(b: seq<byte>, x: byte)
    ensures LeValue(b + [x]) == LeValue(b) + x as int * Pow256(|b|)
  {
    if b == [] {
      assert [x][1..] == [];
    } else {
      assert (b + [x])[1..] == b[1..] + [x];
      LeSnoc(b[1..], x);
      Associates(x, 256, Pow256(|b| - 1));
    }
  }

  lemma Associates(x: int, y: int, z: int)
    ensures x * (y * z) == y * (x * z)
  {}

  function Signed(v: int, modulus: int): int {
    if v >= modulus / 2 then v - modulus else v
  }

  /** The signed value of a big-endian axis word; the three decoders below compute it. */
  function AxisValue(w: Be16): int {
    Signed(256 * (w.hi as int) + w.lo as int, TWO_TO_16)
  }

  function ToBe16(v: int): Be16 {
    var u := v % TWO_TO_16;
    Be16(u / 256, u % 256)
  }

  /** Wrapping a signed value and reading it as signed again, for an even modulus. */
  lemma SignedOfWrapped(v: int, m: int)
    requires m > 0 && m % 2 == 0 && -m / 2 <= v < m / 2
    ensures 0 <= v % m < m && Signed(v % m, m) == v
  {
    if v < 0 {
      ModUnique(v, m, -1, v + m);
    } else {
      ModUnique(v, m, 0, v);
    }
  }

  /** Reading a wrapped value as signed and wrapping it again. */
  lemma WrappedOfSigned(u: int, m: int)
    requires m > 0 && m % 2 == 0 && 0 <= u < m
    ensures -m / 2 <= Signed(u, m) < m / 2 && Signed(u, m) % m == u
  {
    ModUnique(Signed(u, m), m, if u >= m / 2 then -1 else 0, u);
  }

  lemma ModUnique(x: int, m: int, q: int, r: int)
    requires m > 0 && x == q * m + r && 0 <= r < m
    ensures x % m == r && x / m == q
  {
    var d, e := x / m, x % m;
    assert x == d * m + e;
    assert (d - q) * m == r - e;
    if d > q {
      AtLeastOnce(d - q, m);
    } else if d < q {
      assert (q - d) * m == e - r;
      AtLeastOnce(q - d, m);
    }
  }

  lemma AtLeastOnce(k: int, m: int)
    requires k >= 1 && m > 0
    ensures k * m >= m
  {}

  /** Every signed 16-bit value survives the layout. */
  lemma AxisRoundTrip(v: int)
    requires -0x8000 <= v < 0x8000
    ensures AxisValue(ToBe16(v)) == v
  {
    hide Signed;
    SignedOfWrapped(v, TWO_TO_16);
  }

  /** No two words show the same value. */
  lemma AxisUnique(w: Be16)
    ensures -0x8000 <= AxisValue(w) < 0x8000 && ToBe16(AxisValue(w)) == w
  {
    hide Signed;
    var u := 256 * (w.hi as int) + w.lo as int;
    WrappedOfSigned(u, TWO_TO_16);
    ModUnique(u, 256, w.hi, w.lo);
  }

  lemma Pow256Of8()
    ensures Pow256(8) == TWO_TO_64
  {}

  function ToLe64(t: int): (b: seq<byte>)
    ensures |b| == 8
  {
    LeBytes(t % TWO_TO_64, 8)
  }

  function FromLe64(b: seq<byte>): int
    requires |b| == 8
  {
    Signed(LeValue(b), TWO_TO_64)
  }

  lemma TimestampRoundTrip(t: int)
    requires -TWO_TO_64 / 2 <= t < TWO_TO_64 / 2
    ensures FromLe64(ToLe64(t)) == t
  {
    hide Signed, LeBytes, LeValue, Pow256;
    Pow256Of8();
    SignedOfWrapped(t, TWO_TO_64);
    LeRoundTrip(t % TWO_TO_64, 8);
  }

  /** x | y, bit by bit. */
  function BitOr(x: nat, y: nat): nat
    decreases x + y
  {
    if x == 0 && y == 0 then 0
    else 2 * BitOr(x / 2, y / 2) + if x % 2 == 1 || y % 2 == 1 then 1 else 0
  }

  lemma {:induction false} OrCommutes(x: nat, y: nat)
    ensures BitOr(x, y) == BitOr(y, x)
    decreases x + y
  {
    if x != 0 || y != 0 {
      OrCommutes(x / 2, y / 2);
    }
  }

  lemma {:induction false} OrZero(y: nat)
    ensures BitOr(0, y) == y
  {
    if y != 0 {
      OrZero(y / 2);
    }
  }

  function Pow2(k: nat): (p: nat)
    ensures p >= 1
  {
    if k == 0 then 1 else 2 * Pow2(k - 1)
  }

  /** Values that share no bit are added by |. */
  lemma {:induction false} OrDisjoint(x: nat, z: nat, k: nat)
    requires x < Pow2(k)
    ensures z * Pow2(k) >= 0 && BitOr(x, z * Pow2(k)) == x + z * Pow2(k)
  {
    if k == 0 {
      OrZero(z);
    } else {
      var w := z * Pow2(k - 1);
      assert z * Pow2(k) == 2 * w;
      OrDisjoint(x / 2, z, k - 1);
      if x != 0 || w != 0 {
        assert BitOr(x, 2 * w) == 2 * BitOr(x / 2, w) + if x % 2 == 1 then 1 else 0;
      }
    }
  }

  lemma {:induction false} PowersAgree(n: nat)
    ensures Pow256(n) == Pow2(8 * n)
  {
    if n > 0 {
      PowersAgree(n - 1);
      EightDoublings(8 * n - 8);
    }
  }

  lemma EightDoublings(k: nat)
    ensures Pow2(k + 8) == 256 * Pow2(k)
  {
    assert Pow2(k + 4) == 16 * Pow2(k) by {
      assert Pow2(k + 2) == 4 * Pow2(k);
    }
    assert Pow2(k + 6) == 4 * Pow2(k + 4);
  }

  /** load_be_s16 and read_be_s16: shift, or, truncate to 16 bits, reinterpret as signed. */
  function LoadBeS16(p: seq<byte>): int
    requires |p| == 2
  {
    Signed(BitOr(256 * (p[0] as int), p[1]) % TWO_TO_16, TWO_TO_16)
  }

  /** The 16-bit word the CPU loads from where an axis word lies. */
  function NativeWord(w: Be16, littleEndian: bool): nat {
    if littleEndian then LeValue([w.hi, w.lo]) else LeValue([w.lo, w.hi])
  }

  /** Swaps the two bytes of a 16-bit word. */
  function Swab16(x: nat): nat {
    BitOr(256 * (x % 256), x / 256 % 256)
  }

  /** (s16)be16_to_cpu on a CPU of either byte order. */
  function Be16ToCpu(w: Be16, littleEndian: bool): int {
    var x := NativeWord(w, littleEndian);
    Signed(if littleEndian then Swab16(x) else x, TWO_TO_16)
  }

  lemma OrBytes(hi: byte, lo: byte)
    ensures BitOr(256 * (hi as int), lo) == 256 * (hi as int) + lo < TWO_TO_16
  {
    hide BitOr;
    assert Pow2(4) == 16 && Pow2(8) == 256 by {
      EightDoublings(0);
    }
    OrCommutes(256 * (hi as int), lo);
    OrDisjoint(lo, hi, 8);
  }

  /** The decoder of the tools reads the value of the word. */
  lemma LoadReadsAxis(p: seq<byte>)
    requires |p| == 2
    ensures LoadBeS16(p) == AxisValue(Be16(p[0], p[1]))
  {
    hide BitOr, Signed;
    OrBytes(p[0], p[1]);
    ModSmall(256 * (p[0] as int) + p[1], TWO_TO_16);
  }

  /** The driver's conversion does, too, whatever the byte order of the CPU. */
  lemma CpuReadsAxis(w: Be16, littleEndian: bool)
    ensures Be16ToCpu(w, littleEndian) == AxisValue(w)
  {
    hide BitOr, Signed, LeValue;
    TwoBytes(w.hi, w.lo);
    TwoBytes(w.lo, w.hi);
    OrBytes(w.hi, w.lo);
    if littleEndian {
      ModUnique(w.hi as int + 256 * (w.lo as int), 256, w.lo, w.hi);
      ModSmall(w.lo, 256);
    }
  }

  lemma TwoBytes(a: byte, b: byte)
    ensures LeValue([a, b]) == a as int + 256 * (b as int)
  {
    assert [a, b][1..] == [b] && [b][1..] == [];
    assert LeValue([b]) == b;
  }

  /** v << 8 * n on a 64-bit word. */
  function ShiftBytes(v: nat, n: nat): (w: nat)
    ensures w < TWO_TO_64
  {
    (v * Pow256(n)) % TWO_TO_64
  }

  /** The next byte of a word of at most eight goes above all bits gathered so far. */
  lemma OrAbove(p: seq<byte>, i: nat)
    requires i < |p| <= 8
    ensures BitOr(LeValue(p[..i]), ShiftBytes(p[i], i)) == LeValue(p[..i + 1])
  {
    hide BitOr, LeValue, Pow256, Pow2;
    var low, x := p[..i], p[i];
    LeBounded(low);
    LeSnoc(low, x);
    assert p[..i + 1] == low + [x];
    LeBounded(p[..i + 1]);
    PowMono(i + 1, 8);
    Pow256Of8();
    ModSmall(x * Pow256(i), TWO_TO_64);
    PowersAgree(i);
    OrDisjoint(LeValue(low), x, 8 * i);
  }

  /** The bytes above, shifted up by one, leave room for the byte at i. */
  lemma OrBelow(p: seq<byte>, i: nat)
    requires i < |p| <= 8
    ensures BitOr(ShiftBytes(LeValue(p[i + 1..]), 1), p[i]) == LeValue(p[i..])
  {
    hide BitOr, LeValue, Pow256, Pow2;
    var b := p[i..];
    assert b[1..] == p[i + 1..];
    LeHead(b);
    LeBounded(b);
    PowMono(|b|, 8);
    Pow256Of8();
    ModSmall(LeValue(b[1..]) * 256, TWO_TO_64);
    Pow256Of1();
    OrCommutes(LeValue(b[1..]) * 256, p[i]);
    OrDisjoint(p[i], LeValue(b[1..]), 8);
  }

  lemma LeHead(b: seq<byte>)
    requires b != []
    ensures LeValue(b) == b[0] as int + 256 * LeValue(b[1..])
  {}

  lemma Pow256Of1()
    ensures Pow256(1) == 256 && Pow2(8) == 256
  {
    PowersAgree(1);
  }

  /** load_le_s64 of the C tool: bytes ORed in from the lowest up. */
  method LoadLeS64(p: seq<byte>) returns (v: int)
    requires |p| == 8
    ensures v == FromLe64(p)
  {
    hide BitOr, ShiftBytes;
    var u: nat := 0;
    for i := 0 to 8
      invariant u == LeValue(p[..i])
    {
      OrAbove(p, i);
      u := BitOr(u, ShiftBytes(p[i], i));
    }
    assert p[..8] == p;
    v := Signed(u, TWO_TO_64);
  }

  /** read_le_s64 of the C++ tool: shifted in from the highest down. */
  method ReadLeS64(p: seq<byte>) returns (v: int)
    requires |p| == 8
    ensures v == FromLe64(p)
  {
    hide BitOr, ShiftBytes, LeValue, Signed;
    EmptyTail(p);
    var u: nat, i := 0, 7;
    while i >= 0
      invariant -1 <= i <= 7
      invariant u == LeValue(p[i + 1..])
    {
      OrBelow(p, i);
      u := BitOr(ShiftBytes(u, 1), p[i]);
      i := i - 1;
    }
    WholeTail(p);
    v := Signed(u, TWO_TO_64);
  }

  lemma EmptyTail(p: seq<byte>)
    ensures LeValue(p[|p|..]) == 0
  {}

  lemma WholeTail(p: seq<byte>)
    ensures LeValue(p[0..]) == LeValue(p)
  {
    assert p[0..] == p;
  }

  lemma ModSmall(x: int, m: int)
    requires 0 <= x < m
    ensures x % m == x
  {}

  lemma {:induction false} PowMono(m: nat, n: nat)
    requires m <= n
    ensures Pow256(m) <= Pow256(n)
  {
    if m < n {
      PowMono(m, n - 1);
    }
  }

  /** struct icm20602_scan in the IIO buffer: six axes, four bytes of padding, the timestamp at 16. */
  function ScanBytes(s: Scan): (b: seq<byte>)
    ensures |b| == SCAN_SIZE
  {
    [s.axes.ax.hi, s.axes.ax.lo, s.axes.ay.hi, s.axes.ay.lo, s.axes.az.hi, s.axes.az.lo,
     s.axes.gx.hi, s.axes.gx.lo, s.axes.gy.hi, s.axes.gy.lo, s.axes.gz.hi, s.axes.gz.lo, 0, 0, 0, 0]
    + ToLe64(s.timestamp)
  }

  /** What both decoders read out of 24 bytes. */
  function DecodeScan(b: seq<byte>): Sample
    requires |b| == SCAN_SIZE
  {
    Sample(AxisValue(Be16(b[0], b[1])), AxisValue(Be16(b[2], b[3])), AxisValue(Be16(b[4], b[5])),
           AxisValue(Be16(b[6], b[7])), AxisValue(Be16(b[8], b[9])), AxisValue(Be16(b[10], b[11])),
           FromLe64(b[16..24]))
  }

  function SampleOf(axes: Axes, timestamp: int): Sample {
    Sample(AxisValue(axes.ax), AxisValue(axes.ay), AxisValue(axes.az),
           AxisValue(axes.gx), AxisValue(axes.gy), AxisValue(axes.gz), timestamp)
  }

  predicate IsS64(t: int) {
    -TWO_TO_64 / 2 <= t < TWO_TO_64 / 2
  }

  /** Laying out a scan and decoding it gives back the signed axes and the timestamp. */
  lemma ScanRoundTrip(s: Scan)
    requires IsS64(s.timestamp)
    ensures DecodeScan(ScanBytes(s)) == SampleOf(s.axes, s.timestamp)
  {
    hide AxisValue, ToLe64, FromLe64;
    TimestampRoundTrip(s.timestamp);
    assert ScanBytes(s)[16..24] == ToLe64(s.timestamp);
  }

  datatype AxisChannel = AccelX | AccelY | AccelZ | GyroX | GyroY | GyroZ

  /** The word of a frame that belongs to a channel. */
  function WordOf(chan: AxisChannel, f: SensorData): Be16 {
    match chan
    case AccelX => f.accelX
    case AccelY => f.accelY
    case AccelZ => f.accelZ
    case GyroX => f.gyroX
    case GyroY => f.gyroY
    case GyroZ => f.gyroZ
  }

  /** icm20602_get_axis_from_frame on the driver's channels. */
  function GetAxis(chan: AxisChannel, f: SensorData, littleEndian: bool): int {
    Be16ToCpu(WordOf(chan, f), littleEndian)
  }

  /** Where the tools read the axis in a scan. */
  function Offset(chan: AxisChannel): nat {
    match chan
    case AccelX => 0
    case AccelY => 2
    case AccelZ => 4
    case GyroX => 6
    case GyroY => 8
    case GyroZ => 10
  }

  function AxisOf(chan: AxisChannel, s: Sample): int {
    match chan
    case AccelX => s.ax
    case AccelY => s.ay
    case AccelZ => s.az
    case GyroX => s.gx
    case GyroY => s.gy
    case GyroZ => s.gz
  }

  /** A decoded scan shows the axes the driver's direct read shows for the same frame, on any CPU. */
  lemma DecodedMatchesDirect(f: SensorData, timestamp: int, chan: AxisChannel, littleEndian: bool)
    ensures var (b, at) := (ScanBytes(Scan(FillScan(f), timestamp)), Offset(chan));
      && LoadBeS16(b[at..at + 2]) == GetAxis(chan, f, littleEndian)
      && AxisOf(chan, DecodeScan(b)) == GetAxis(chan, f, littleEndian)
  {
    hide LoadBeS16, Be16ToCpu, AxisValue, ScanBytes, DecodeScan, WordOf, Offset;
    var b, at := ScanBytes(Scan(FillScan(f), timestamp)), Offset(chan);
    WordInScan(f, timestamp, chan);
    LoadReadsAxis(b[at..at + 2]);
    AxisAt(chan, b);
    CpuReadsAxis(WordOf(chan, f), littleEndian);
  }

  lemma WordInScan(f: SensorData, timestamp: int, chan: AxisChannel)
    ensures Offset(chan) + 2 <= SCAN_SIZE
    ensures var (b, at) := (ScanBytes(Scan(FillScan(f), timestamp)), Offset(chan));
      Be16(b[at], b[at + 1]) == WordOf(chan, f)
  {
    hide ToLe64;
  }

  lemma AxisAt(chan: AxisChannel, b: seq<byte>)
    requires |b| == SCAN_SIZE
    ensures Offset(chan) + 2 <= SCAN_SIZE
    ensures AxisOf(chan, DecodeScan(b)) == AxisValue(Be16(b[Offset(chan)], b[Offset(chan) + 1]))
  {
    hide AxisValue, FromLe64;
  }

  /** What the tools' axis decoders make of 24 bytes, and the timestamp read by their own loops. */
  function Loaded(b: seq<byte>, timestamp: int): Sample
    requires |b| == SCAN_SIZE
  {
    Sample(LoadBeS16(b[0..2]), LoadBeS16(b[2..4]), LoadBeS16(b[4..6]),
           LoadBeS16(b[6..8]), LoadBeS16(b[8..10]), LoadBeS16(b[10..12]), timestamp)
  }

  lemma LoadedIsDecoded(b: seq<byte>)
    requires |b| == SCAN_SIZE
    ensures Loaded(b, FromLe64(b[16..24])) == DecodeScan(b)
  {
    hide LoadBeS16, AxisValue, FromLe64;
    LoadReadsAxis(b[0..2]);
    LoadReadsAxis(b[2..4]);
    LoadReadsAxis(b[4..6]);
    LoadReadsAxis(b[6..8]);
    LoadReadsAxis(b[8..10]);
    LoadReadsAxis(b[10..12]);
  }

  /** The byte stream the IIO buffer hands out. */
  function StreamOf(scans: seq<Scan>): (b: seq<byte>)
    ensures |b| == SCAN_SIZE * |scans|
  {
    if scans == [] then [] else StreamOf(scans[..|scans| - 1]) + ScanBytes(scans[|scans| - 1])
  }

  /** Slice k of the stream is the layout of scan k. */
  lemma {:induction false} StreamSlot(scans: seq<Scan>, k: nat)
    requires k < |scans|
    ensures StreamOf(scans)[SCAN_SIZE * k..SCAN_SIZE * k + SCAN_SIZE] == ScanBytes(scans[k])
  {
    hide ScanBytes;
    var rest, last := scans[..|scans| - 1], scans[|scans| - 1];
    var at := SCAN_SIZE * k;
    assert StreamOf(scans) == StreamOf(rest) + ScanBytes(last);
    if k < |rest| {
      StreamSlot(rest, k);
      assert rest[k] == scans[k];
      SliceLeft(StreamOf(rest), ScanBytes(last), at, at + SCAN_SIZE);
    } else {
      assert at == |StreamOf(rest)| && at + SCAN_SIZE == |StreamOf(scans)|;
      SliceRight(StreamOf(rest), ScanBytes(last));
      assert StreamOf(scans)[at..at + SCAN_SIZE] == StreamOf(scans)[at..];
    }
  }
}
