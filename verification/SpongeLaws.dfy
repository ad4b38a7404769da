/** What the sponge does with its blocks: the padding is the standard's, a block goes into the rate
    and nowhere else, and two messages that differ in one block never meet again. */
module SpongeLaws {
  import opened BigEndian
  import opened LittleEndian
  import opened Keccak
  import opened KeccakLaws
  import opened Octets
  import opened Sponge

  lemma {:induction false} ZerosFromLe(n: nat)
    ensures FromLe(Zeros(n)) == 0
  {
    if n > 0 {
      assert Zeros(n)[1..] == Zeros(n - 1);
      ZerosFromLe(n - 1);
    }
  }

  lemma OneByte(b: byte)
    ensures FromLe([b]) == b
  {
    assert [b][1..] == [];
  }

  /** The padding is pad10*1 of section 5.1 of FIPS 202: read as bits it is a one, zeros, and a
      one at the end of the block. */
  lemma PaddingIs(n: nat)
    ensures FromLe(Padding(n)) == 1 + 0x80 * Pow256(PadLength(n) - 1)
    ensures 8 * RATE == 1600 - 2 * 256
  {
    hide PadLength;
    var p := Padding(n);
    if PadLength(n) == 1 {
      OneByte(0x81);
    } else {
      var z := Zeros(PadLength(n) - 2);
      ZerosFromLe(|z|);
      OneByte(0x80);
      FromLeSplit(z, [0x80]);
      assert p == [0x01] + (z + [0x80]) && p[1..] == z + [0x80];
    }
  }

  function BlockLane(block: seq<byte>, i: nat): (r: seq<byte>)
    requires |block| == RATE && i < 17
    ensures |r| == 8
  {
    block[8 * i..8 * i + 8]
  }

  lemma JoinOctets(b0: bv8, b1: bv8, b2: bv8, b3: bv8, b4: bv8, b5: bv8, b6: bv8, b7: bv8)
    ensures var v := Join(b0, b1, b2, b3, b4, b5, b6, b7);
            && Octet(v, 0) == b0 && Octet(v, 8) == b1 && Octet(v, 16) == b2 && Octet(v, 24) == b3
            && Octet(v, 32) == b4 && Octet(v, 40) == b5 && Octet(v, 48) == b6 && Octet(v, 56) == b7
  {}

  lemma OctetsJoin(v: Lane)
    ensures Join(Octet(v, 0), Octet(v, 8), Octet(v, 16), Octet(v, 24),
                 Octet(v, 32), Octet(v, 40), Octet(v, 48), Octet(v, 56)) == v
  {}

  /** Byte j of eight is the lane's bits from 8 j on. */
  lemma LaneHolds(bytes: seq<byte>)
    requires |bytes| == 8
    ensures Octet(LaneOf(bytes), 0) as int == bytes[0] && Octet(LaneOf(bytes), 8) as int == bytes[1]
    ensures Octet(LaneOf(bytes), 16) as int == bytes[2] && Octet(LaneOf(bytes), 24) as int == bytes[3]
    ensures Octet(LaneOf(bytes), 32) as int == bytes[4] && Octet(LaneOf(bytes), 40) as int == bytes[5]
    ensures Octet(LaneOf(bytes), 48) as int == bytes[6] && Octet(LaneOf(bytes), 56) as int == bytes[7]
    ensures LaneBytes(LaneOf(bytes)) == bytes
  {
    hide Octet, Join, OctetOf;
    JoinOctets(OctetOf(bytes[0]), OctetOf(bytes[1]), OctetOf(bytes[2]), OctetOf(bytes[3]),
               OctetOf(bytes[4]), OctetOf(bytes[5]), OctetOf(bytes[6]), OctetOf(bytes[7]));
    ByteRound(bytes[0]);
    ByteRound(bytes[1]);
    ByteRound(bytes[2]);
    ByteRound(bytes[3]);
    ByteRound(bytes[4]);
    ByteRound(bytes[5]);
    ByteRound(bytes[6]);
    ByteRound(bytes[7]);
  }

  lemma BytesHold(lane: Lane)
    ensures LaneOf(LaneBytes(lane)) == lane
  {
    hide Octet, Join, OctetOf;
    OctetsJoin(lane);
    OctetRound(Octet(lane, 0));
    OctetRound(Octet(lane, 8));
    OctetRound(Octet(lane, 16));
    OctetRound(Octet(lane, 24));
    OctetRound(Octet(lane, 32));
    OctetRound(Octet(lane, 40));
    OctetRound(Octet(lane, 48));
    OctetRound(Octet(lane, 56));
  }

  /** A block changes the 17 lanes of the rate, and can be read off the change. */
  lemma BlockIsAbsorbed(st: seq<Lane>, block: seq<byte>, i: nat)
    requires |st| == 25 && |block| == RATE && i < 25
    ensures i < 17 ==> LaneBytes(Xor(st[i], XorBlock(st, block)[i])) == BlockLane(block, i)
    ensures i >= 17 ==> XorBlock(st, block)[i] == st[i]
  {
    hide LaneOf, LaneBytes, Xor;
    if i < 17 {
      LaneHolds(BlockLane(block, i));
      XorTwice(st[i], LaneOf(BlockLane(block, i)));
    }
  }

  lemma XorTwice(v: Lane, w: Lane)
    ensures Xor(v, Xor(v, w)) == w
  {}

  lemma BlocksDiffer(st: seq<Lane>, b: seq<byte>, c: seq<byte>)
    requires |st| == 25 && |b| == |c| == RATE && XorBlock(st, b) == XorBlock(st, c)
    ensures b == c
  {
    hide XorBlock, LaneBytes, Xor;
    forall j | 0 <= j < RATE ensures b[j] == c[j] {
      BlockIsAbsorbed(st, b, j / 8);
      BlockIsAbsorbed(st, c, j / 8);
      assert BlockLane(b, j / 8)[j % 8] == BlockLane(c, j / 8)[j % 8];
    }
  }

  lemma StatesDiffer(st: seq<Lane>, tt: seq<Lane>, b: seq<byte>)
    requires |st| == |tt| == 25 && |b| == RATE && XorBlock(st, b) == XorBlock(tt, b)
    ensures st == tt
  {
    hide LaneOf, Xor;
    forall i | 0 <= i < 25 ensures st[i] == tt[i] {
      assert XorBlock(st, b)[i] == XorBlock(tt, b)[i];
      if i < 17 {
        XorInjective(st[i], tt[i], LaneOf(b[8 * i..8 * i + 8]));
      }
    }
  }

  function BlockOf(msg: seq<byte>, n: nat): (r: seq<byte>)
    requires RATE * (n + 1) <= |msg|
    ensures |r| == RATE
  {
    msg[RATE * n..RATE * (n + 1)]
  }

  lemma AbsorbOne(msg: seq<byte>, n: nat)
    requires RATE * (n + 1) <= |msg|
    ensures Absorb(msg, n + 1) == KeccakF(XorBlock(Absorb(msg, n), BlockOf(msg, n)))
  {
    hide KeccakF, XorBlock, Absorb;
    AbsorbNext(msg, n, Absorb(msg, n));
  }

  /** Where two messages have absorbed to different states, equal blocks keep them apart; from
      one state, different blocks drive them apart. */
  lemma {:induction false} OneBlockDiffers(x: seq<byte>, y: seq<byte>, k: nat, n: nat)
    requires RATE * n <= |x| && RATE * n <= |y| && k < n
    requires BlockOf(x, k) != BlockOf(y, k)
    requires forall i :: 0 <= i < n && i != k ==> BlockOf(x, i) == BlockOf(y, i)
    ensures Absorb(x, n) != Absorb(y, n)
  {
    hide KeccakF, XorBlock, Absorb, BlockOf;
    AbsorbOne(x, n - 1);
    AbsorbOne(y, n - 1);
    if Absorb(x, n) == Absorb(y, n) {
      var st, tt := Absorb(x, n - 1), Absorb(y, n - 1);
      KeccakFInjective(XorBlock(st, BlockOf(x, n - 1)), XorBlock(tt, BlockOf(y, n - 1)));
      if n - 1 == k {
        SamePrefix(x, y, k);
        BlocksDiffer(st, BlockOf(x, k), BlockOf(y, k));
      } else {
        StatesDiffer(st, tt, BlockOf(x, n - 1));
        OneBlockDiffers(x, y, k, n - 1);
      }
    }
  }

  lemma {:induction false} SamePrefix(x: seq<byte>, y: seq<byte>, n: nat)
    requires RATE * n <= |x| && RATE * n <= |y|
    requires forall i :: 0 <= i < n ==> BlockOf(x, i) == BlockOf(y, i)
    ensures Absorb(x, n) == Absorb(y, n)
  {
    hide KeccakF, XorBlock, BlockOf;
    if n > 0 {
      SamePrefix(x, y, n - 1);
      AbsorbOne(x, n - 1);
      AbsorbOne(y, n - 1);
    }
  }

  /** Different messages that fit one block leave different states. */
  lemma ShortMessagesDiffer(x: seq<byte>, y: seq<byte>)
    requires |x| < RATE && |y| < RATE && x != y
    ensures FinalState(x) != FinalState(y)
  {
    hide Absorb, FinalState;
    FinalStateIs(x, 1);
    FinalStateIs(y, 1);
    if Pad(x) == Pad(y) {
      PadInjective(x, y);
    }
    assert BlockOf(Pad(x), 0) == Pad(x) && BlockOf(Pad(y), 0) == Pad(y);
    OneBlockDiffers(Pad(x), Pad(y), 0, 1);
  }

  lemma FourLanes(st: seq<Lane>, k: nat)
    requires |st| == 25 && k < 4
    ensures (LaneBytes(st[0]) + LaneBytes(st[1]) + LaneBytes(st[2]) + LaneBytes(st[3]))[8 * k..8 * k + 8] ==
            LaneBytes(st[k])
  {
    hide *;
    if k == 0 {} else if k == 1 {} else if k == 2 {} else {}
  }

  function DigestLane(data: seq<byte>, k: nat): (r: seq<byte>)
    requires k < 4
    ensures |r| == 8
  {
    hide *;
    Digest(data)[8 * k..8 * k + 8]
  }

  /** The digest is the first four lanes of the final state, lowest byte first. */
  lemma DigestIs(data: seq<byte>, k: nat)
    requires k < 4
    ensures LaneOf(DigestLane(data, k)) == FinalState(data)[k]
  {
    hide LaneBytes, LaneOf, FinalState;
    var st := FinalState(data);
    FourLanes(st, k);
    BytesHold(st[k]);
  }

  /** The final state has taken in every block of the padded message. */
  lemma FinalStateIs(data: seq<byte>, n: nat)
    requires |Pad(data)| == RATE * n
    ensures FinalState(data) == Absorb(Pad(data), n)
  {
    hide Absorb, Pad;
  }
}
