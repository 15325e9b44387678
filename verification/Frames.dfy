/** FIFO frames, IIO scans and their byte layouts. */
module Frames {

  type byte = b: int | 0 <= b < 256

  /** A big-endian 16-bit word exactly as it lies in memory. */
  datatype Be16 = Be16(hi: byte, lo: byte)

  datatype Axes = Axes(ax: Be16, ay: Be16, az: Be16, gx: Be16, gy: Be16, gz: Be16)

  /** struct icm20602_sensor_data: 14 packed bytes. */
  datatype SensorData = SensorData(accelX: Be16, accelY: Be16, accelZ: Be16, temp: Be16,
                                   gyroX: Be16, gyroY: Be16, gyroZ: Be16)

  /** struct icm20602_scan with the timestamp the IIO core stores in it. */
  datatype Scan = Scan(axes: Axes, timestamp: int)

  const FRAME_SIZE: nat := 14

  /** icm20602_fill_scan_from_frame: the temperature is not part of a scan. */
  function FillScan(frame: SensorData): Axes {
    Axes(frame.accelX, frame.accelY, frame.accelZ, frame.gyroX, frame.gyroY, frame.gyroZ)
  }

  function Encode(f: SensorData): (bytes: seq<byte>)
    ensures |bytes| == FRAME_SIZE
  {
    [f.accelX.hi, f.accelX.lo, f.accelY.hi, f.accelY.lo, f.accelZ.hi, f.accelZ.lo, f.temp.hi, f.temp.lo,
     f.gyroX.hi, f.gyroX.lo, f.gyroY.hi, f.gyroY.lo, f.gyroZ.hi, f.gyroZ.lo]
  }

  /** The frame a 14-byte slot of the burst buffer overlays. */
  function Decode(b: seq<byte>): SensorData
    requires |b| == FRAME_SIZE
  {
    SensorData(Be16(b[0], b[1]), Be16(b[2], b[3]), Be16(b[4], b[5]), Be16(b[6], b[7]),
               Be16(b[8], b[9]), Be16(b[10], b[11]), Be16(b[12], b[13]))
  }

  lemma DecodeEncode(f: SensorData)
    ensures Decode(Encode(f)) == f
  {}

  /** The bytes of consecutive frames on the wire. */
  function Wire(frames: seq<SensorData>): (bytes: seq<byte>)
    ensures |bytes| == FRAME_SIZE * |frames|
  {
    if frames == [] then [] else Wire(frames[..|frames| - 1]) + Encode(frames[|frames| - 1])
  }

  lemma WireSnoc(frames: seq<SensorData>, f: SensorData)
    ensures Wire(frames + [f]) == Wire(frames) + Encode(f)
  {}

  lemma SliceOfSlice<T>(s: seq<T>, a: nat, b: nat, i: nat, j: nat)
    requires i <= j && a + j <= b <= |s|
    ensures s[a..b][i..j] == s[a + i..a + j]
  {
    var x, y := s[a..b][i..j], s[a + i..a + j];
    assert |x| == |y|;
    forall k | 0 <= k < |x|
      ensures x[k] == y[k]
    {
      assert x[k] == s[a..b][i + k] == s[a + (i + k)];
    }
  }

  lemma SliceLeft<T>(s: seq<T>, t: seq<T>, i: nat, j: nat)
    requires i <= j <= |s|
    ensures (s + t)[i..j] == s[i..j]
  {}

  /** Appending to the source of a suffix appends to the suffix. */
  lemma SuffixSnoc<T>(s: seq<T>, t: seq<T>, i: nat)
    requires i <= |s|
    ensures (s + t)[i..] == s[i..] + t
  {}

  lemma SuffixOfSuffix<T>(s: seq<T>, i: nat, j: nat)
    requires i <= j <= |s|
    ensures s[i..][j - i..] == s[j..]
  {}

  lemma SliceRight<T>(s: seq<T>, t: seq<T>)
    ensures (s + t)[|s|..] == t
  {}

  /** Slot k of the wire bytes is the encoding of frame k. */
  lemma {:induction false} WireSlot(frames: seq<SensorData>, k: nat)
    requires k < |frames|
    ensures Wire(frames)[FRAME_SIZE * k..FRAME_SIZE * k + FRAME_SIZE] == Encode(frames[k])
  {
    hide Encode;
    var rest, last := frames[..|frames| - 1], frames[|frames| - 1];
    var at := FRAME_SIZE * k;
    assert Wire(frames) == Wire(rest) + Encode(last);
    if k < |rest| {
      WireSlot(rest, k);
      assert rest[k] == frames[k];
      SliceLeft(Wire(rest), Encode(last), at, at + FRAME_SIZE);
    } else {
      assert at == |Wire(rest)| && at + FRAME_SIZE == |Wire(frames)|;
      SliceRight(Wire(rest), Encode(last));
      assert Wire(frames)[at..at + FRAME_SIZE] == Wire(frames)[at..];
    }
  }

  /** Cutting a run of wire bytes at a frame boundary recovers the frames written. */
  lemma SlotsDecode(frames: seq<SensorData>, first: nat, bytes: seq<byte>, k: nat)
    requires FRAME_SIZE * first + |bytes| <= |Wire(frames)|
    requires bytes == Wire(frames)[FRAME_SIZE * first..FRAME_SIZE * first + |bytes|]
    requires FRAME_SIZE * k + FRAME_SIZE <= |bytes|
    ensures first + k < |frames|
    ensures Decode(bytes[FRAME_SIZE * k..FRAME_SIZE * k + FRAME_SIZE]) == frames[first + k]
  {
    hide Wire, Encode, Decode;
    var lo, i := FRAME_SIZE * first, FRAME_SIZE * k;
    WireSlot(frames, first + k);
    SliceOfSlice(Wire(frames), lo, lo + |bytes|, i, i + FRAME_SIZE);
    assert lo + i == FRAME_SIZE * (first + k);
    DecodeEncode(frames[first + k]);
  }
}
