/** Output data rate and full-scale arithmetic. */
module Rates {
  const NSEC_PER_SEC: int := 1_000_000_000

  datatype Odr = Rejected | Accepted(div: int, realHz: int)

  /** icm20602_odr_to_div; set_sampling_frequency repeats the same tests. */
  function OdrToDiv(hz: int): Odr {
    if hz <= 0 || hz > 1000 then Rejected
    else
      var div := 1000 / hz - 1;
      if div < 0 || div > 255 then Rejected else Accepted(div, 1000 / (div + 1))
  }

  /** The rate a divider register stands for. */
  function RealRate(div: int): int
    requires 0 <= div <= 255
  {
    1000 / (div + 1)
  }

  /** The nominal sample period in nanoseconds; 0 if the rate is unknown. */
  function PeriodNs(samplingFrequency: int): int {
    if samplingFrequency > 0 then NSEC_PER_SEC / samplingFrequency else 0
  }

  /** The divider is the largest one whose rate is not below the request. */
  predicate LargestDivider(hz: int, div: int) {
    0 <= div <= 255 && (div + 1) * hz <= 1000 < (div + 2) * hz
  }

  /** The whole rate, rounded down, of a 1000 Hz clock divided by div + 1. */
  predicate IsRate(hz: int, div: int) {
    hz * (div + 1) <= 1000 < hz * (div + 1) + (div + 1)
  }

  /** The whole nanoseconds, rounded down, between two of f samples a second; 0 if f is no rate. */
  predicate IsPeriod(p: int, f: int) {
    if f > 0 then p * f <= 1_000_000_000 < p * f + f else p == 0
  }

  /** The rates read_avail advertises. */
  const ODR_TABLE: seq<int> := [4, 8, 10, 20, 25, 50, 100, 125, 200, 250, 500, 1000]

  lemma FloorBounds(n: int, x: int)
    requires x > 0
    ensures (n / x) * x <= n < (n / x) * x + x
  {}

  lemma NonNegative(a: int, x: int)
    requires a >= 0 && x >= 0
    ensures a * x >= 0
  {}

  lemma MulStep(a: int, b: int, x: int)
    requires x >= 0
    ensures a < b ==> a * x + x <= b * x
    ensures a <= b ==> a * x <= b * x
  {
    assert b * x - a * x == (b - a) * x;
    if a < b {
      NonNegative(b - a - 1, x);
      assert (b - a) * x == (b - a - 1) * x + x;
    }
  }

  lemma FloorIs(n: int, x: int, q: int)
    requires x > 0 && q * x <= n < q * x + x
    ensures n / x == q
  {
    FloorBounds(n, x);
    MulStep(n / x, q, x);
    MulStep(q, n / x, x);
  }

  lemma FloorPositive(n: int, x: int)
    requires 1 <= x <= n
    ensures n / x >= 1
  {}

  /** Rounding a rate down to a divider and back, and again, changes nothing the second time. */
  lemma FloorThrice(n: int, x: int)
    requires 1 <= x <= n
    ensures n / x >= 1 && n / (n / x) >= x && n / (n / (n / x)) == n / x
  {
    FloorPositive(n, x);
    var q := n / x;
    FloorBounds(n, x);
    var r := n / q;
    FloorBounds(n, q);
    assert x * q == q * x;
    MulStep(r, x, q);
    // q * r <= n < (q + 1) * x <= (q + 1) * r
    MulStep(x, r, q + 1);
    assert r * (q + 1) == q * r + r && x * (q + 1) == q * x + x;
    FloorIs(n, r, q);
  }

  /** Exactly the rates from 4 to 1000 Hz are accepted. */
  lemma AcceptedIff(hz: int)
    ensures OdrToDiv(hz).Accepted? <==> 4 <= hz <= 1000
  {}

  /** The divider fits its register exactly from 4 Hz on. */
  lemma DividerFits(hz: int)
    requires 0 < hz <= 1000
    ensures 0 <= 1000 / hz - 1 && (1000 / hz - 1 <= 255 <==> hz >= 4)
  {}

  /** The divider the driver computes for a rate in range. */
  lemma DividerOf(hz: int)
    requires 4 <= hz <= 1000
    ensures LargestDivider(hz, 1000 / hz - 1) && IsRate(1000 / (1000 / hz), 1000 / hz - 1)
  {
    FloorPositive(1000, hz);
    FloorBounds(1000, hz);
    FloorBounds(1000, 1000 / hz);
    assert (1000 / hz + 1) * hz == (1000 / hz) * hz + hz;
  }

  lemma RateOf(div: int)
    requires 0 <= div <= 255
    ensures IsRate(RealRate(div), div)
  {
    FloorBounds(1000, div + 1);
  }

  lemma PeriodOf(f: int)
    ensures IsPeriod(PeriodNs(f), f)
  {
    if f > 0 {
      FloorBounds(NSEC_PER_SEC, f);
    }
  }

  /**
   * The programmed divider is the largest whose rate is not below the request, the real rate is the one it
   * gives, and requesting that rate again gives the same divider.
   */
  lemma RateRoundTrip(hz: int)
    requires OdrToDiv(hz).Accepted?
    ensures LargestDivider(hz, OdrToDiv(hz).div) && IsRate(OdrToDiv(hz).realHz, OdrToDiv(hz).div)
    ensures OdrToDiv(hz).realHz >= hz
    ensures OdrToDiv(hz).realHz == RealRate(OdrToDiv(hz).div)
    ensures OdrToDiv(OdrToDiv(hz).realHz) == OdrToDiv(hz)
  {
    FloorThrice(1000, hz);
    DividerOf(hz);
    var q := 1000 / hz;
    FloorBounds(1000, q);
    MulStep(1, q, 1000 / q);
  }

  /**
   * The stamp period is a second divided by the cached rate, rounded down; it is never shorter than the sample
   * period, and exact iff the divider divides 1000.
   */
  lemma PeriodExactIff(div: int)
    requires 0 <= div <= 255
    ensures IsRate(RealRate(div), div) && IsPeriod(PeriodNs(RealRate(div)), RealRate(div))
    ensures PeriodNs(RealRate(div)) >= (div + 1) * 1_000_000
    ensures PeriodNs(RealRate(div)) == (div + 1) * 1_000_000 <==> 1000 % (div + 1) == 0
  {
    var d, f := div + 1, 1000 / (div + 1);
    FloorPositive(1000, d);
    FloorBounds(1000, d);
    Remainder(1000, d);
    ScaledFloor(f, d);
    RateOf(div);
    PeriodOf(f);
  }

  lemma Remainder(n: int, x: int)
    requires x > 0
    ensures n % x == n - (n / x) * x
  {}

  /** If f * d is at most 1000, a second divided by f is at least d milliseconds, and just that iff f * d is 1000. */
  lemma ScaledFloor(f: int, d: int)
    requires 1 <= f <= 1000 && d >= 1 && f * d <= 1000
    ensures NSEC_PER_SEC / f >= d * 1_000_000
    ensures NSEC_PER_SEC / f == d * 1_000_000 <==> f * d == 1000
  {
    var p := d * 1_000_000;
    assert p * f == (f * d) * 1_000_000;
    FloorBounds(NSEC_PER_SEC, f);
    MulStep(NSEC_PER_SEC / f, p, f);
    if f * d == 1000 {
      FloorIs(NSEC_PER_SEC, f, p);
    }
  }

  /** Every advertised rate is programmed exactly and stamped with its exact period. */
  lemma AdvertisedRatesExact(i: int)
    requires 0 <= i < |ODR_TABLE|
    ensures OdrToDiv(ODR_TABLE[i]) == Accepted(1000 / ODR_TABLE[i] - 1, ODR_TABLE[i])
    ensures PeriodNs(ODR_TABLE[i]) == (1000 / ODR_TABLE[i]) * 1_000_000
  {}

  datatype ScaleEntry = ScaleEntry(uscale: int, regval: bv8)

  const ACCEL_SCALES: seq<ScaleEntry> :=
    [ScaleEntry(598, 0x00), ScaleEntry(1197, 0x08), ScaleEntry(2394, 0x10), ScaleEntry(4788, 0x18)]
  const GYRO_SCALES: seq<ScaleEntry> :=
    [ScaleEntry(133, 0x00), ScaleEntry(266, 0x08), ScaleEntry(532, 0x10), ScaleEntry(1064, 0x18)]

  /** Full-scale ranges double from one entry to the next. */
  const DOUBLINGS: seq<int> := [1, 2, 4, 8]

  /**
   * Entry i stands for bits 4:3 holding i, which select an accelerometer range of 2 g, doubled i times, and a
   * gyroscope range of 250 degrees a second, doubled i times. Over 32768 steps of the output words the
   * accelerometer scale is the true one in millionths of a metre per square second, rounded down, with a
   * standard gravity of 9.80665; and so is the gyroscope scale in millionths of a radian per second for any
   * value of pi between 3.141592 and 3.141593, except for the largest range, where it is one less.
   */
  lemma ScalesFitRanges(i: int)
    requires 0 <= i < 4
    ensures ACCEL_SCALES[i].regval as int == 8 * i == GYRO_SCALES[i].regval as int
    ensures ACCEL_SCALES[i].uscale * 32768 <= 2 * DOUBLINGS[i] * 9_806_650 < (ACCEL_SCALES[i].uscale + 1) * 32768
    ensures var (scale, unit) := (GYRO_SCALES[i].uscale + (if i == 3 then 1 else 0), 180 * 32768);
      scale * unit <= 250 * DOUBLINGS[i] * 3_141_592 && 250 * DOUBLINGS[i] * 3_141_593 < (scale + 1) * unit
  {}

  /** The table index bits 4:3 of a configuration register select. */
  function ScaleIndex(reg: bv8): (i: int)
    ensures 0 <= i < 4
  {
    if reg & 0x18 == 0x00 then 0 else if reg & 0x18 == 0x08 then 1 else if reg & 0x18 == 0x10 then 2 else 3
  }

  lemma ScaleBits(reg: bv8)
    ensures reg & 0x18 == 0x00 || reg & 0x18 == 0x08 || reg & 0x18 == 0x10 || reg & 0x18 == 0x18
  {}
}
