/** Bytes and minimal big-endian numbers. */
module BigEndian {

  type byte = x: int | 0 <= x < 256

  function Zeros(n: nat): (r: seq<byte>)
    ensures |r| == n && forall i :: 0 <= i < n ==> r[i] == 0
  {
    seq(n, _ => 0)
  }

  /** The minimal big-endian bytes of a number; none for zero. */
  function Be(n: nat): seq<byte> {
    if n == 0 then [] else Be(n / 256) + [n % 256]
  }

  /** The number that big-endian bytes denote. */
  function FromBe(bs: seq<byte>): nat {
    if bs == [] then 0 else FromBe(bs[..|bs| - 1]) * 256 + bs[|bs| - 1]
  }

  predicate Minimal(bs: seq<byte>) {
    bs != [] ==> bs[0] != 0
  }

  /** `be`: bytes are put in front, lowest first. */
  method BeLoop(n: nat) returns (out: seq<byte>)
    ensures out == Be(n)
  {
    out := [];
    var m := n;
    while m != 0
      invariant Be(m) + out == Be(n)
    {
      assert Be(m / 256) + ([m % 256] + out) == Be(m) + out;
      out := [m % 256] + out;
      m := m / 256;
    }
  }

  lemma {:induction false} BeIsMinimal(n: nat)
    ensures Minimal(Be(n)) && FromBe(Be(n)) == n
  {
    if n > 0 {
      BeIsMinimal(n / 256);
      assert Be(n)[..|Be(n)| - 1] == Be(n / 256);
    }
  }

  lemma BeAppends(m: nat, d: byte)
    requires m > 0 || d > 0
    ensures Be(m * 256 + d) == Be(m) + [d]
  {
    assert (m * 256 + d) / 256 == m && (m * 256 + d) % 256 == d;
  }

  lemma {:induction false} MinimalIsBe(bs: seq<byte>)
    requires Minimal(bs)
    ensures Be(FromBe(bs)) == bs
    ensures bs != [] ==> FromBe(bs) > 0
  {
    hide Be;
    if bs == [] {
      BeZero();
    } else {
      var init, last := bs[..|bs| - 1], bs[|bs| - 1];
      MinimalIsBe(init);
      BeAppends(FromBe(init), last);
      assert bs == init + [last];
    }
  }

  lemma BeZero()
    ensures Be(0) == []
  {}

  /** Minimal forms are unique. */
  lemma BeInjective(m: nat, n: nat)
    requires Be(m) == Be(n)
    ensures m == n
  {
    BeIsMinimal(m);
    BeIsMinimal(n);
  }

  function Pow256(k: nat): nat {
    if k == 0 then 1 else 256 * Pow256(k - 1)
  }

  /** A number takes at most `k` bytes exactly when it is below 256 to the `k`. */
  lemma {:induction false} BeLength(n: nat, k: nat)
    ensures |Be(n)| <= k <==> n < Pow256(k)
  {
    if n > 0 && k > 0 {
      BeLength(n / 256, k - 1);
    } else if k > 0 {
      Pow256Positive(k);
    }
  }

  lemma {:induction false} Pow256Positive(k: nat)
    ensures Pow256(k) >= 1
  {
    if k > 0 {
      Pow256Positive(k - 1);
    }
  }

  /** A number below 2^64 takes at most eight bytes, and conversely. */
  lemma BeFitsEight(n: nat)
    ensures |Be(n)| <= 8 <==> n < 0x1_0000_0000_0000_0000
    ensures |Be(n)| <= 7 <==> n < 0x100_0000_0000_0000
  {
    BeLength(n, 8);
    BeLength(n, 7);
    assert Pow256(7) == 0x100_0000_0000_0000 by {
      assert Pow256(1) == 256 && Pow256(2) == 65536 && Pow256(4) == 0x1_0000_0000;
    }
  }
}
