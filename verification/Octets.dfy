/** A byte as a number and as eight bits. */
module Octets {
  import opened BigEndian

  /** Four bits and four bits, the high ones first. */
  function Halves(high: bv4, low: bv4): bv8 {
    (high as bv8 << 4) | low as bv8
  }

  /** The eight bits of a byte. */
  function OctetOf(b: byte): bv8 {
    Halves((b / 16) as bv4, (b % 16) as bv4)
  }

  lemma HalfRound(n: int)
    requires 0 <= n < 16
    ensures (n as bv4) as int == n
  {}

  lemma HalvesNumber(high: bv4, low: bv4)
    ensures Halves(high, low) as int == high as int * 16 + low as int
  {}

  lemma ByteRound(b: byte)
    ensures OctetOf(b) as int == b
  {
    hide Halves;
    HalvesNumber((b / 16) as bv4, (b % 16) as bv4);
    HalfRound(b / 16);
    HalfRound(b % 16);
  }

  lemma HalfBack(h: bv4)
    ensures (h as int) as bv4 == h && h as int < 16
  {}

  lemma AreHalves(o: bv8)
    ensures Halves((o >> 4) as bv4, (o & 15) as bv4) == o
  {}

  lemma OctetRound(o: bv8)
    ensures OctetOf(o as int) == o
  {
    hide Halves;
    var high, low := (o >> 4) as bv4, (o & 15) as bv4;
    AreHalves(o);
    HalvesNumber(high, low);
    HalfBack(high);
    HalfBack(low);
    assert (o as int) / 16 == high as int && (o as int) % 16 == low as int;
  }
}
