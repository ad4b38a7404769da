/** The Keccak-256 sponge over the permutation. */
module Sponge {
  import opened BigEndian
  import opened Keccak
  import opened Octets

  const RATE: nat := 136

  function PadLength(n: nat): (r: nat)
    ensures 1 <= r <= RATE && (n + r) % RATE == 0
  {
    RATE - n % RATE
  }

  function Padding(n: nat): (r: seq<byte>)
    ensures |r| == PadLength(n)
  {
    if PadLength(n) == 1 then [0x81] else [0x01] + Zeros(PadLength(n) - 2) + [0x80]
  }

  function Pad(data: seq<byte>): (r: seq<byte>)
    ensures |r| == |data| + PadLength(|data|)
  {
    data + Padding(|data|)
  }

  lemma PaddedBytes(data: seq<byte>, i: nat)
    requires |data| <= i < |Pad(data)|
    ensures i == |data| ==> Pad(data)[i] == 0x01 || Pad(data)[i] == 0x81
    ensures i > |data| ==> Pad(data)[i] == 0 || Pad(data)[i] == 0x80
  {
    assert Pad(data)[i] == Padding(|data|)[i - |data|];
  }

  /** Padding can be taken off again. */
  lemma PadInjective(x: seq<byte>, y: seq<byte>)
    requires Pad(x) == Pad(y)
    ensures x == y
  {
    if |x| < |y| {
      PaddedBytes(x, |y|);
      PaddedBytes(y, |y|);
    } else if |y| < |x| {
      PaddedBytes(x, |x|);
      PaddedBytes(y, |x|);
    } else {
      assert x == Pad(x)[..|x|] && y == Pad(y)[..|y|];
    }
  }

  /** A lane from its bytes, lowest first. */
  function Join(b0: bv8, b1: bv8, b2: bv8, b3: bv8, b4: bv8, b5: bv8, b6: bv8, b7: bv8): Lane {
    (b0 as Lane) | (b1 as Lane << 8) | (b2 as Lane << 16) | (b3 as Lane << 24) |
    (b4 as Lane << 32) | (b5 as Lane << 40) | (b6 as Lane << 48) | (b7 as Lane << 56)
  }

  /** The eight bits of a lane from bit `s` on. */
  function Octet(v: Lane, s: bv6): bv8 {
    ((v >> s) & 0xFF) as bv8
  }

  function LaneOf(bytes: seq<byte>): Lane
    requires |bytes| == 8
  {
    Join(OctetOf(bytes[0]), OctetOf(bytes[1]), OctetOf(bytes[2]), OctetOf(bytes[3]),
         OctetOf(bytes[4]), OctetOf(bytes[5]), OctetOf(bytes[6]), OctetOf(bytes[7]))
  }

  function ByteAt(lane: Lane, s: bv6): byte {
    Octet(lane, s) as int
  }

  function LaneBytes(lane: Lane): (r: seq<byte>)
    ensures |r| == 8
  {
    [ByteAt(lane, 0), ByteAt(lane, 8), ByteAt(lane, 16), ByteAt(lane, 24),
     ByteAt(lane, 32), ByteAt(lane, 40), ByteAt(lane, 48), ByteAt(lane, 56)]
  }

  function XorBlock(st: seq<Lane>, block: seq<byte>): (r: seq<Lane>)
    requires |st| == 25 && |block| == RATE
    ensures |r| == 25
  {
    seq(25, i requires 0 <= i < 25 => if i < 17 then Xor(st[i], LaneOf(block[8 * i..8 * i + 8])) else st[i])
  }

  function Absorb(msg: seq<byte>, n: nat): (r: seq<Lane>)
    requires RATE * n <= |msg|
    ensures |r| == 25
  {
    if n == 0 then seq(25, _ => 0)
    else KeccakF(XorBlock(Absorb(msg, n - 1), msg[RATE * (n - 1)..RATE * n]))
  }

  /** The state after the last block. */
  function FinalState(data: seq<byte>): (st: seq<Lane>)
    ensures |st| == 25
  {
    var msg := Pad(data);
    Absorb(msg, |msg| / RATE)
  }

  function Digest(data: seq<byte>): (r: seq<byte>)
    ensures |r| == 32
  {
    var st := FinalState(data);
    LaneBytes(st[0]) + LaneBytes(st[1]) + LaneBytes(st[2]) + LaneBytes(st[3])
  }

  /** The inner loop: a block is absorbed lane by lane. */
  method XorInto(before: seq<Lane>, block: seq<byte>) returns (st: seq<Lane>)
    requires |before| == 25 && |block| == RATE
    ensures st == XorBlock(before, block)
  {
    hide LaneOf, Xor;
    st := before;
    for i := 0 to 17
      invariant |st| == 25
      invariant forall k :: 0 <= k < 25 ==> st[k] == if k < i then XorBlock(before, block)[k] else before[k]
    {
      st := st[i := Xor(st[i], LaneOf(block[8 * i..8 * i + 8]))];
    }
  }

  lemma DigestOf(data: seq<byte>, n: nat)
    requires RATE * n == |Pad(data)|
    ensures var st := Absorb(Pad(data), n);
            Digest(data) == LaneBytes(st[0]) + LaneBytes(st[1]) + LaneBytes(st[2]) + LaneBytes(st[3])
  {
    hide Absorb, LaneBytes, Pad;
  }

  lemma AbsorbNext(msg: seq<byte>, n: nat, st: seq<Lane>)
    requires RATE * (n + 1) <= |msg| && st == Absorb(msg, n)
    ensures KeccakF(XorBlock(st, msg[RATE * n..RATE * n + RATE])) == Absorb(msg, n + 1)
  {
    hide KeccakF, XorBlock;
  }

  /** `keccak256`. */
  method Keccak256(data: seq<byte>) returns (digest: seq<byte>)
    ensures digest == Digest(data)
  {
    hide KeccakF, LaneBytes, XorBlock;
    var padLength := RATE - |data| % RATE;
    var msg;
    if padLength == 1 {
      msg := data + [0x81];
    } else {
      msg := data + [0x01] + Zeros(padLength - 2) + [0x80];
    }
    assert msg == Pad(data);
    var st: seq<Lane> := seq(25, _ => 0);
    assert st == Absorb(msg, 0);
    hide Pad, Digest, Absorb;
    ghost var n := 0;
    var off := 0;
    while off < |msg|
      invariant off == RATE * n <= |msg| && |st| == 25
      invariant st == Absorb(msg, n)
      decreases |msg| - off
    {
      var block := msg[off..off + RATE];
      AbsorbNext(msg, n, st);
      st := XorInto(st, block);
      st := KeccakF1600(st);
      off, n := off + RATE, n + 1;
    }
    DigestOf(data, n);
    digest := LaneBytes(st[0]) + LaneBytes(st[1]) + LaneBytes(st[2]) + LaneBytes(st[3]);
  }
}
