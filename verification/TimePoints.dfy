/** Time points: nanoseconds since 1970 in C++, microseconds since 2000 on the wire. */
module TimePoints {
  import opened Words

  const EPOCH_SHIFT: int := 946_684_800_000_000

  predicate IsInt64(x: int) {
    -TWO_63 <= x < TWO_63
  }

  /** Integer division as C++ does it: the quotient is rounded toward zero. */
  function TruncDiv(x: int, d: int): int
    requires d > 0
  {
    if x >= 0 then x / d else -((-x) / d)
  }

  /** `duration_cast<microseconds>(t) - microseconds{946684800000000}`. */
  function ToWire(ns: int): int {
    TruncDiv(ns, 1000) - EPOCH_SHIFT
  }

  /** `time_point{} + microseconds{wire + 946684800000000}`. */
  function FromWire(wire: int): int {
    (wire + EPOCH_SHIFT) * 1000
  }

  /** Both `int64_t` operations of the decoder stay in range. */
  predicate Representable(wire: int) {
    IsInt64(wire + EPOCH_SHIFT) && IsInt64(FromWire(wire))
  }

  /** What encoding followed by decoding does to a time point. */
  function Micros(ns: int): int {
    FromWire(ToWire(ns))
  }

  /** Neither the shift nor the way back overflows. The round trip drops less than a
      microsecond, toward 1970, it changes nothing the second time, and it is the
      identity exactly on whole microseconds. */
  lemma MicrosTruncates(ns: int)
    requires IsInt64(ns)
    ensures IsInt64(TruncDiv(ns, 1000)) && IsInt64(ToWire(ns))
    ensures Representable(ToWire(ns))
    ensures -1000 < Micros(ns) - ns < 1000
    ensures ns >= 0 ==> 0 <= Micros(ns) <= ns
    ensures ns <= 0 ==> ns <= Micros(ns) <= 0
    ensures Micros(ns) % 1000 == 0
    ensures Micros(Micros(ns)) == Micros(ns)
    ensures Micros(ns) == ns <==> ns % 1000 == 0
  {
    var q := TruncDiv(ns, 1000);
    assert Micros(ns) == q * 1000;
    assert TruncDiv(q * 1000, 1000) == q;
  }

  /** Every wire value the decoder can represent is met: encoding its time point returns it. */
  lemma WireRoundTrip(wire: int)
    requires Representable(wire)
    ensures ToWire(FromWire(wire)) == wire
  {
    var m := wire + EPOCH_SHIFT;
    assert TruncDiv(m * 1000, 1000) == m;
  }

  /** Which wire values the decoder can represent; the server's infinities are not among them. */
  lemma RepresentableIff(wire: int)
    ensures Representable(wire) <==> -10_170_056_836_854_775 <= wire <= 8_276_687_236_854_775
    ensures !Representable(TWO_63 - 1) && !Representable(-TWO_63)
  {
  }
}
