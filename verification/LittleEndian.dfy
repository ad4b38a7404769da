/** Fixed-width little-endian numbers. */
module LittleEndian {
  import opened BigEndian

  /** The `n` low bytes of a number, lowest first. */
  function LeBytes(x: nat, n: nat): (r: seq<byte>)
    ensures |r| == n
  {
    if n == 0 then [] else [x % 256] + LeBytes(x / 256, n - 1)
  }

  function FromLe(bs: seq<byte>): nat {
    if bs == [] then 0 else bs[0] + 256 * FromLe(bs[1..])
  }

  lemma {:induction false} FromLeBytes(x: nat, n: nat)
    requires x < Pow256(n)
    ensures FromLe(LeBytes(x, n)) == x
  {
    if n > 0 {
      assert LeBytes(x, n)[1..] == LeBytes(x / 256, n - 1);
      FromLeBytes(x / 256, n - 1);
    }
  }

  lemma LowDigit(d: byte, rest: nat)
    ensures (d + 256 * rest) % 256 == d && (d + 256 * rest) / 256 == rest
  {}

  lemma {:induction false} BytesFromLe(bs: seq<byte>)
    ensures LeBytes(FromLe(bs), |bs|) == bs && FromLe(bs) < Pow256(|bs|)
  {
    if bs != [] {
      BytesFromLe(bs[1..]);
      LowDigit(bs[0], FromLe(bs[1..]));
      assert bs == [bs[0]] + bs[1..];
    }
  }

  lemma {:induction false} FromLeSplit(lo: seq<byte>, hi: seq<byte>)
    ensures FromLe(lo + hi) == FromLe(lo) + Pow256(|lo|) * FromLe(hi)
  {
    if lo == [] {
      assert lo + hi == hi;
    } else {
      assert (lo + hi)[1..] == lo[1..] + hi;
      FromLeSplit(lo[1..], hi);
      Regroup(lo[0], FromLe(lo[1..]), Pow256(|lo| - 1), FromLe(hi));
    }
  }

  lemma Regroup(d: int, l: int, p: int, h: int)
    ensures d + 256 * (l + p * h) == (d + 256 * l) + (256 * p) * h
  {}

  lemma FourBytes(bs: seq<byte>)
    requires |bs| == 4
    ensures FromLe(bs) == bs[0] as nat + bs[1] as nat * 0x100 + bs[2] as nat * 0x1_0000 + bs[3] as nat * 0x100_0000
  {
    var tail := bs[1..];
    assert FromLe(tail[1..][1..]) == bs[3];
    assert FromLe(tail[1..]) == bs[2] as nat + 256 * bs[3] as nat;
    assert FromLe(tail) == bs[1] as nat + 256 * FromLe(tail[1..]);
  }

  lemma WordPowers()
    ensures Pow256(4) == 0x1_0000_0000 && Pow256(8) == 0x1_0000_0000_0000_0000
  {
    assert Pow256(4) == 256 * Pow256(3) && Pow256(3) == 256 * Pow256(2) && Pow256(2) == 256 * Pow256(1);
    assert Pow256(8) == 256 * Pow256(7) && Pow256(7) == 256 * Pow256(6) && Pow256(6) == 256 * Pow256(5);
  }
}
