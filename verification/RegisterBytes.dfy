/** Eight-bit register values and the integers they hold. */
module RegisterBytes {

  /** Some register value holds x. */
  lemma {:induction false} Holds(x: int) returns (b: bv8)
    requires 0 <= x <= 255
    ensures b as int == x
    decreases x
  {
    if x == 0 {
      b := 0;
    } else {
      var c := Holds(x - 1);
      b := c + 1;
    }
  }

  lemma ValueRoundTrip(b: bv8)
    ensures (b as int) as bv8 == b
  {}

  lemma ByteRoundTrip(x: int)
    requires 0 <= x <= 255
    ensures (x as bv8) as int == x
  {
    var b := Holds(x);
    ValueRoundTrip(b);
  }
}
