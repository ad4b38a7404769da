/** What each step mapping of the permutation does to the bits of the state, as section 3.2 of
    FIPS 202 says it, and what the permutation as a whole cannot do: lose information. */
module KeccakLaws {
  import opened Keccak

  // ----- bits of lanes -----

  predicate Bit(v: Lane, z: bv6) {
    (v >> z) & 1 != 0
  }

  lemma OrBit(v: Lane, w: Lane, z: bv6)
    ensures Bit(v | w, z) <==> Bit(v, z) || Bit(w, z)
  {}

  // The solver is quick where no named function stands between the operators; the names come
  // in afterwards.

  lemma XorRaw(v: Lane, w: Lane, z: bv6)
    ensures Bit(v ^ w, z) <==> Bit(v, z) != Bit(w, z)
  {}

  lemma XorBit(v: Lane, w: Lane, z: bv6)
    ensures Bit(Xor(v, w), z) <==> Bit(v, z) != Bit(w, z)
  {
    hide Bit;
    XorRaw(v, w, z);
  }

  function Up(v: Lane, r: bv6): Lane {
    v << r
  }

  function Down(v: Lane, r: bv6): Lane {
    v >> (64 - r as bv8)
  }

  lemma UpRaw(v: Lane, r: bv6, z: bv6)
    requires z >= r
    ensures Bit(v << r, z) <==> Bit(v, z - r)
  {}

  lemma UpRawLow(v: Lane, r: bv6, z: bv6)
    requires z < r
    ensures !Bit(v << r, z)
  {}

  lemma UpBit(v: Lane, r: bv6, z: bv6)
    ensures Bit(Up(v, r), z) <==> z >= r && Bit(v, z - r)
  {
    hide Bit;
    if z < r {
      UpRawLow(v, r, z);
    } else {
      UpRaw(v, r, z);
    }
  }

  lemma DownRaw(v: Lane, r: bv6, z: bv6)
    requires z < r
    ensures Bit(v >> (64 - r as bv8), z) <==> Bit(v, z - r)
  {}

  lemma DownRawHigh(v: Lane, r: bv6, z: bv6)
    requires z >= r > 0
    ensures !Bit(v >> (64 - r as bv8), z)
  {}

  lemma DownBit(v: Lane, r: bv6, z: bv6)
    requires r > 0
    ensures Bit(Down(v, r), z) <==> z < r && Bit(v, z - r)
  {
    hide Bit;
    if z < r {
      DownRaw(v, r, z);
    } else {
      DownRawHigh(v, r, z);
    }
  }

  lemma RotlIsOr(v: Lane, r: bv6)
    ensures Rotl(v, r) == if r == 0 then v else Up(v, r) | Down(v, r)
  {}

  /** A rotation moves bit z - r to z, indices wrapping. */
  lemma RotlBit(v: Lane, r: bv6, z: bv6)
    ensures Bit(Rotl(v, r), z) <==> Bit(v, z - r)
  {
    hide Bit, Rotl, Up, Down;
    RotlIsOr(v, r);
    if r != 0 {
      OrBit(Up(v, r), Down(v, r), z);
      UpBit(v, r, z);
      DownBit(v, r, z);
    }
  }

  /** A bit of a lane that is not zero, by halving. */
  function SomeBit(v: Lane): (z: bv6)
    requires v != 0
    ensures Bit(v, z)
  {
    var z5: bv6 := if v & 0xFFFF_FFFF == 0 then 32 else 0;
    var w5 := v >> z5;
    var z4: bv6 := if w5 & 0xFFFF == 0 then 16 else 0;
    var w4 := w5 >> z4;
    var z3: bv6 := if w4 & 0xFF == 0 then 8 else 0;
    var w3 := w4 >> z3;
    var z2: bv6 := if w3 & 0xF == 0 then 4 else 0;
    var w2 := w3 >> z2;
    var z1: bv6 := if w2 & 0x3 == 0 then 2 else 0;
    var w1 := w2 >> z1;
    var z0: bv6 := if w1 & 0x1 == 0 then 1 else 0;
    z5 + z4 + z3 + z2 + z1 + z0
  }

  lemma SameBits(v: Lane, w: Lane)
    requires forall z: bv6 :: Bit(v, z) == Bit(w, z)
    ensures v == w
  {
    hide Bit;
    if v != w {
      DifferentLanes(v, w);
      var z := SomeBit(Xor(v, w));
      XorBit(v, w, z);
    }
  }

  lemma DifferentLanes(v: Lane, w: Lane)
    requires v != w
    ensures Xor(v, w) != 0
  {}

  // ----- the step mappings, bit by bit -----

  /** A[x, y, z] of the standard. */
  predicate BitAt(a: seq<Lane>, x: nat, y: nat, z: bv6)
    requires |a| == 25 && x < 5 && y < 5
  {
    Bit(a[x + 5 * y], z)
  }

  predicate IsOdd(p: bool, q: bool, r: bool, s: bool, t: bool) {
    (((p != q) != r) != s) != t
  }

  predicate ColumnParity(a: seq<Lane>, x: nat, z: bv6)
    requires |a| == 25 && x < 5
  {
    IsOdd(BitAt(a, x, 0, z), BitAt(a, x, 1, z), BitAt(a, x, 2, z), BitAt(a, x, 3, z), BitAt(a, x, 4, z))
  }

  lemma ParityBit(p: Lane, q: Lane, r: Lane, s: Lane, t: Lane, z: bv6)
    ensures Bit(Parity(p, q, r, s, t), z) <==> IsOdd(Bit(p, z), Bit(q, z), Bit(r, z), Bit(s, z), Bit(t, z))
  {
    hide Bit, Xor;
    XorBit(p, q, z);
    XorBit(Xor(p, q), r, z);
    XorBit(Xor(Xor(p, q), r), s, z);
    XorBit(Xor(Xor(Xor(p, q), r), s), t, z);
  }

  lemma ColumnBit(a: seq<Lane>, x: nat, z: bv6)
    requires |a| == 25 && x < 5
    ensures Bit(Column(a, x), z) <==> ColumnParity(a, x, z)
  {
    hide Bit, Parity;
    ParityBit(a[x], a[x + 5], a[x + 10], a[x + 15], a[x + 20], z);
  }

  lemma ThetaEffectBit(a: seq<Lane>, x: nat, z: bv6)
    requires |a| == 25 && x < 5
    ensures Bit(ThetaEffect(a, x), z) <==> ColumnParity(a, (x + 4) % 5, z) != ColumnParity(a, (x + 1) % 5, z - 1)
  {
    hide Bit, Xor, Column, Rotl, ColumnParity;
    var before, after := Column(a, (x + 4) % 5), Column(a, (x + 1) % 5);
    ColumnBit(a, (x + 4) % 5, z);
    ColumnBit(a, (x + 1) % 5, z - 1);
    RotlBit(after, 1, z);
    XorBit(before, Rotl(after, 1), z);
  }

  /** Theta flips a bit exactly when one of two columns is odd: the one before it, and the one
      after it a bit down. */
  lemma ThetaBits(a: seq<Lane>, x: nat, y: nat, z: bv6)
    requires |a| == 25 && x < 5 && y < 5
    ensures BitAt(Theta(a), x, y, z) != BitAt(a, x, y, z)
       <==> ColumnParity(a, (x + 4) % 5, z) != ColumnParity(a, (x + 1) % 5, z - 1)
  {
    hide Bit, Xor, ThetaEffect, ColumnParity;
    CoordinatesOf(x, y);
    ThetaEffectBit(a, x, z);
    XorBit(a[x + 5 * y], ThetaEffect(a, x), z);
  }

  lemma SourceOf(x: nat, y: nat)
    requires x < 5 && y < 5
    ensures PiSource(x + 5 * y) == (x + 3 * y) % 5 + 5 * x
  {
    CoordinatesOf(x, y);
  }

  /** Rho and pi move bits: into lane (x, y) comes lane (x + 3 y, x), rotated by its offset. */
  lemma RhoPiBits(a: seq<Lane>, x: nat, y: nat, z: bv6)
    requires |a| == 25 && x < 5 && y < 5
    ensures BitAt(RhoPi(a), x, y, z) <==> BitAt(a, (x + 3 * y) % 5, x, z - ROT[(x + 3 * y) % 5 + 5 * x])
  {
    hide Bit, Rotl, PiSource;
    CoordinatesOf(x, y);
    SourceOf(x, y);
    RotlBit(a[(x + 3 * y) % 5 + 5 * x], ROT[(x + 3 * y) % 5 + 5 * x], z);
  }

  lemma ChiRaw(v: Lane, w: Lane, x: Lane, z: bv6)
    ensures Bit(v ^ (!w & x), z) != Bit(v, z) <==> !Bit(w, z) && Bit(x, z)
  {}

  lemma ChiLaneBit(v: Lane, w: Lane, x: Lane, z: bv6)
    ensures Bit(ChiLane(v, w, x), z) != Bit(v, z) <==> !Bit(w, z) && Bit(x, z)
  {
    hide Bit;
    ChiRaw(v, w, x, z);
  }

  /** Chi flips a bit exactly when the next bit of its row is 0 and the one after is 1. */
  lemma ChiBits(b: seq<Lane>, x: nat, y: nat, z: bv6)
    requires |b| == 25 && x < 5 && y < 5
    ensures BitAt(Chi(b), x, y, z) != BitAt(b, x, y, z)
       <==> !BitAt(b, (x + 1) % 5, y, z) && BitAt(b, (x + 2) % 5, y, z)
  {
    hide Bit, ChiLane;
    ChiAtRow(b, 5 * y, x);
    ChiLaneBit(b[x + 5 * y], b[(x + 1) % 5 + 5 * y], b[(x + 2) % 5 + 5 * y], z);
  }

  /** Iota touches the first lane alone, and flips the bits of the round constant there. */
  lemma IotaBits(a: seq<Lane>, rc: Lane, x: nat, y: nat, z: bv6)
    requires |a| == 25 && x < 5 && y < 5
    ensures BitAt(Round(a, rc), x, y, z) != BitAt(Chi(RhoPi(Theta(a))), x, y, z)
       <==> x == 0 && y == 0 && Bit(rc, z)
  {
    hide Bit, Xor, Chi, RhoPi, Theta;
    XorBit(Chi(RhoPi(Theta(a)))[0], rc, z);
  }

  // ----- the round constants -----

  /** A step of the shift register of section 3.2.5 of FIPS 202, bit i of the word being R[i]:
      the bit shifted out is added to R[0], R[4], R[5] and R[6]. */
  function Shift(r: bv8): bv8 {
    (r << 1) ^ (if r & 0x80 != 0 then 0x71 else 0)
  }

  function Register(t: nat): bv8 {
    if t == 0 then 1 else Shift(Register(t - 1))
  }

  /** rc(t), for t below the period. */
  predicate Rc(t: nat) {
    Register(t) & 1 == 1
  }

  /** The register before each round. */
  const REGISTERS: seq<bv8> :=
    [ 0x01, 0x80, 0xD8, 0x1A, 0xDF, 0x09, 0x35, 0x4F, 0xCA, 0x70, 0x41, 0xEC,
      0xD5, 0xCD, 0x63, 0xAB, 0xAA, 0x2A, 0xF2, 0xE8, 0x37, 0x3E, 0x0B, 0x44 ]

  function SevenShifts(r: bv8): bv8 {
    Shift(Shift(Shift(Shift(Shift(Shift(Shift(r)))))))
  }

  function OutputAt(r: bv8, z: Lane): Lane {
    if r & 1 == 1 then z else 0
  }

  /** A register's next seven outputs, at bits 0, 1, 3, 7, 15, 31 and 63. */
  function Outputs(r: bv8): Lane {
    var r1 := Shift(r);
    var r2 := Shift(r1);
    var r3 := Shift(r2);
    var r4 := Shift(r3);
    var r5 := Shift(r4);
    OutputAt(r, 0x1) | OutputAt(r1, 0x2) | OutputAt(r2, 0x8) | OutputAt(r3, 0x80) | OutputAt(r4, 0x8000) |
    OutputAt(r5, 0x8000_0000) | OutputAt(Shift(r5), 0x8000_0000_0000_0000)
  }

  predicate Constant(i: nat)
    requires i < 24
  {
    && RC[i] == Outputs(REGISTERS[i])
    && (i < 23 ==> SevenShifts(REGISTERS[i]) == REGISTERS[i + 1])
  }

  lemma ConstantIs(i: nat)
    requires i < 24
    ensures Constant(i)
  {
    hide Constant;
    if i < 3 {
      FirstConstants(i);
    } else if i < 6 {
      SecondConstants(i);
    } else if i < 9 {
      ThirdConstants(i);
    } else if i < 12 {
      FourthConstants(i);
    } else if i < 15 {
      FifthConstants(i);
    } else if i < 18 {
      SixthConstants(i);
    } else if i < 21 {
      SeventhConstants(i);
    } else {
      EighthConstants(i);
    }
  }

  lemma FirstConstants(i: nat)
    requires i < 3
    ensures Constant(i)
  {
    if i == 0 {} else if i == 1 {} else {}
  }

  lemma SecondConstants(i: nat)
    requires 3 <= i < 6
    ensures Constant(i)
  {
    if i == 3 {} else if i == 4 {} else {}
  }

  lemma ThirdConstants(i: nat)
    requires 6 <= i < 9
    ensures Constant(i)
  {
    if i == 6 {} else if i == 7 {} else {}
  }

  lemma FourthConstants(i: nat)
    requires 9 <= i < 12
    ensures Constant(i)
  {
    if i == 9 {} else if i == 10 {} else {}
  }

  lemma FifthConstants(i: nat)
    requires 12 <= i < 15
    ensures Constant(i)
  {
    if i == 12 {} else if i == 13 {} else {}
  }

  lemma SixthConstants(i: nat)
    requires 15 <= i < 18
    ensures Constant(i)
  {
    if i == 15 {} else if i == 16 {} else {}
  }

  lemma SeventhConstants(i: nat)
    requires 18 <= i < 21
    ensures Constant(i)
  {
    if i == 18 {} else if i == 19 {} else {}
  }

  lemma EighthConstants(i: nat)
    requires 21 <= i < 24
    ensures Constant(i)
  {
    if i == 21 {} else if i == 22 {} else {}
  }

  lemma RegisterIs(i: nat)
    requires i < 24
    ensures Register(7 * i) == REGISTERS[i]
  {
    hide Shift;
    if i > 0 {
      RegisterIs(i - 1);
      ConstantIs(i - 1);
      SevenLater(7 * (i - 1));
    }
  }

  lemma SevenLater(t: nat)
    ensures Register(t + 7) == SevenShifts(Register(t))
  {
    hide Shift, Register;
    OneLater(t);
    OneLater(t + 1);
    OneLater(t + 2);
    OneLater(t + 3);
    OneLater(t + 4);
    OneLater(t + 5);
    OneLater(t + 6);
  }

  lemma OneLater(t: nat)
    ensures Register(t + 1) == Shift(Register(t))
  {}

  /** Bit 2^j - 1 of the constant of round i is rc(j + 7 i). */
  predicate Scheduled(i: nat, j: nat, z: bv6)
    requires i < 24
  {
    Bit(RC[i], z) <==> Rc(j + 7 * i)
  }

  lemma OutputBits(r: bv8)
    ensures Bit(Outputs(r), 0) <==> r & 1 == 1
    ensures Bit(Outputs(r), 1) <==> Shift(r) & 1 == 1
    ensures Bit(Outputs(r), 3) <==> Shift(Shift(r)) & 1 == 1
    ensures Bit(Outputs(r), 7) <==> Shift(Shift(Shift(r))) & 1 == 1
    ensures Bit(Outputs(r), 15) <==> Shift(Shift(Shift(Shift(r)))) & 1 == 1
    ensures Bit(Outputs(r), 31) <==> Shift(Shift(Shift(Shift(Shift(r))))) & 1 == 1
    ensures Bit(Outputs(r), 63) <==> Shift(Shift(Shift(Shift(Shift(Shift(r)))))) & 1 == 1
    ensures Outputs(r) & !0x8000_0000_8000_808B == 0
  {
    hide Shift;
  }

  lemma RoundConstants(i: nat)
    requires i < 24
    ensures Scheduled(i, 0, 0) && Scheduled(i, 1, 1) && Scheduled(i, 2, 3) && Scheduled(i, 3, 7)
    ensures Scheduled(i, 4, 15) && Scheduled(i, 5, 31) && Scheduled(i, 6, 63)
    ensures |RC| == 24 && RC[i] & !0x8000_0000_8000_808B == 0
  {
    hide Shift, Outputs, Bit;
    RegisterIs(i);
    ConstantIs(i);
    OutputBits(REGISTERS[i]);
  }

  // ----- injectivity: no step mapping loses information -----

  lemma RotlXorBit(v: Lane, w: Lane, r: bv6, z: bv6)
    ensures Bit(Rotl(Xor(v, w), r), z) == Bit(Xor(Rotl(v, r), Rotl(w, r)), z)
  {
    hide Bit, Rotl, Xor, Back;
    RotlBack(Xor(v, w), r, z);
    XorBit(v, w, Back(z, r));
    RotlBack(v, r, z);
    RotlBack(w, r, z);
    XorBit(Rotl(v, r), Rotl(w, r), z);
  }

  lemma RotlXor(v: Lane, w: Lane, r: bv6)
    ensures Rotl(Xor(v, w), r) == Xor(Rotl(v, r), Rotl(w, r))
  {
    hide Bit, Rotl, Xor;
    forall z: bv6 ensures Bit(Rotl(Xor(v, w), r), z) == Bit(Xor(Rotl(v, r), Rotl(w, r)), z) {
      RotlXorBit(v, w, r, z);
    }
    SameBits(Rotl(Xor(v, w), r), Xor(Rotl(v, r), Rotl(w, r)));
  }

  function Back(z: bv6, r: bv6): bv6 {
    z - r
  }

  function Onward(r: bv6, s: bv6): bv6 {
    r + s
  }

  lemma Offsets(z: bv6, r: bv6, s: bv6)
    ensures Back(Back(z, s), r) == Back(z, Onward(r, s)) && Back(Onward(z, r), r) == z
  {}

  lemma RotlBack(v: Lane, r: bv6, z: bv6)
    ensures Bit(Rotl(v, r), z) <==> Bit(v, Back(z, r))
  {
    hide Bit, Rotl;
    RotlBit(v, r, z);
  }

  lemma RotlTwiceBit(v: Lane, r: bv6, s: bv6, z: bv6)
    ensures Bit(Rotl(Rotl(v, r), s), z) == Bit(Rotl(v, Onward(r, s)), z)
  {
    hide Bit, Rotl, Back, Onward;
    RotlBack(Rotl(v, r), s, z);
    RotlBack(v, r, Back(z, s));
    RotlBack(v, Onward(r, s), z);
    Offsets(z, r, s);
  }

  lemma RotlTwice(v: Lane, r: bv6, s: bv6)
    ensures Rotl(Rotl(v, r), s) == Rotl(v, r + s)
  {
    hide Bit, Rotl;
    var once, twice := Rotl(v, Onward(r, s)), Rotl(Rotl(v, r), s);
    forall z: bv6 ensures Bit(twice, z) == Bit(once, z) {
      RotlTwiceBit(v, r, s, z);
    }
    SameBits(twice, once);
  }

  lemma RotlInjective(v: Lane, w: Lane, r: bv6)
    requires Rotl(v, r) == Rotl(w, r)
    ensures v == w
  {
    hide Bit, Rotl, Back, Onward;
    forall z: bv6 ensures Bit(v, z) == Bit(w, z) {
      RotlBack(v, r, Onward(z, r));
      RotlBack(w, r, Onward(z, r));
      Offsets(z, r, 0);
    }
    SameBits(v, w);
  }

  lemma RhoPiInjective(a: seq<Lane>, b: seq<Lane>)
    requires |a| == |b| == 25 && RhoPi(a) == RhoPi(b)
    ensures a == b
  {
    hide Rotl, PiSource, PiTarget, RhoPi, RotAt;
    forall i | 0 <= i < 25 ensures a[i] == b[i] {
      PiInverts(i);
      RhoPiAt(a, PiTarget(i));
      RhoPiAt(b, PiTarget(i));
      RotlInjective(a[i], b[i], RotAt(i));
    }
  }

  /** A lane of a row, from the row chi makes of it. */
  lemma ChiInverts(u: Lane, v: Lane, w: Lane, x: Lane, y: Lane)
    ensures var p := ChiLane(u, v, w);
            var q := ChiLane(v, w, x);
            var r := ChiLane(w, x, y);
            var s := ChiLane(x, y, u);
            var t := ChiLane(y, u, v);
            ChiLane(p, q, ChiLane(r, s, t)) == u
  {}

  /** Lane x of a row, x wrapping. */
  function InRow(a: seq<Lane>, y: nat, x: nat): Lane
    requires |a| == 25 && y < 5
  {
    a[5 * y + x % 5]
  }

  lemma InRowWraps(a: seq<Lane>, y: nat, x: nat)
    requires |a| == 25 && y < 5
    ensures InRow(a, y, x + 5) == InRow(a, y, x)
  {}

  lemma ChiInRow(a: seq<Lane>, y: nat, x: nat)
    requires |a| == 25 && y < 5
    ensures InRow(Chi(a), y, x) == ChiLane(InRow(a, y, x), InRow(a, y, x + 1), InRow(a, y, x + 2))
  {
    hide ChiLane, ChiAt;
    ChiAtRow(a, 5 * y, x % 5);
  }

  lemma ChiRowInverts(a: seq<Lane>, y: nat, x: nat)
    requires |a| == 25 && y < 5
    ensures ChiLane(InRow(Chi(a), y, x), InRow(Chi(a), y, x + 1),
                    ChiLane(InRow(Chi(a), y, x + 2), InRow(Chi(a), y, x + 3), InRow(Chi(a), y, x + 4))) ==
            InRow(a, y, x)
  {
    hide ChiLane, Chi, InRow;
    ChiInRow(a, y, x);
    ChiInRow(a, y, x + 1);
    ChiInRow(a, y, x + 2);
    ChiInRow(a, y, x + 3);
    ChiInRow(a, y, x + 4);
    InRowWraps(a, y, x);
    InRowWraps(a, y, x + 1);
    ChiInverts(InRow(a, y, x), InRow(a, y, x + 1), InRow(a, y, x + 2), InRow(a, y, x + 3), InRow(a, y, x + 4));
  }

  lemma ChiInjective(a: seq<Lane>, b: seq<Lane>)
    requires |a| == |b| == 25 && Chi(a) == Chi(b)
    ensures a == b
  {
    hide ChiLane, Chi;
    forall i | 0 <= i < 25 ensures a[i] == b[i] {
      ChiRowInverts(a, i / 5, i % 5);
      ChiRowInverts(b, i / 5, i % 5);
    }
  }

  // Theta: two states with one image have columns that differ by a row of parities p with
  // p[x] = p[x - 1] ^ rotl(p[x + 1], 1). Doubling the step six times brings the rotation back to
  // nothing, and the row to zero.

  /** Entry x of a row of five, x wrapping. */
  function At(p: seq<Lane>, x: nat): Lane
    requires |p| == 5
  {
    p[x % 5]
  }

  lemma AtWraps(p: seq<Lane>, x: nat, n: nat)
    requires |p| == 5
    ensures At(p, x + 5 * n) == At(p, x)
  {
    assert (x + 5 * n) % 5 == x % 5;
  }

  predicate StrideAt(p: seq<Lane>, x: nat, s: nat, r: bv6)
    requires |p| == 5
  {
    At(p, x) == Xor(At(p, x + s), Rotl(At(p, x + 4 * s), r))
  }

  ghost predicate Strides(p: seq<Lane>, s: nat, r: bv6)
    requires |p| == 5
  {
    forall x: nat :: StrideAt(p, x, s, r)
  }

  lemma XorCancels(p: Lane, q: Lane, r: Lane)
    ensures Xor(Xor(p, q), Xor(q, r)) == Xor(p, r)
  {}

  lemma StridesDouble(p: seq<Lane>, s: nat, r: bv6)
    requires |p| == 5 && Strides(p, s, r)
    ensures Strides(p, 2 * s, r + r)
  {
    hide Xor, Rotl, At;
    var r2 := r + r;
    forall x: nat ensures StrideAt(p, x, 2 * s, r2) {
      assert StrideAt(p, x, s, r) && StrideAt(p, x + s, s, r) && StrideAt(p, x + 4 * s, s, r);
      AtWraps(p, x, s);
      RotlXor(At(p, x), Rotl(At(p, x + 8 * s), r), r);
      RotlTwice(At(p, x + 8 * s), r, r);
      XorCancels(At(p, x + 2 * s), Rotl(At(p, x), r), Rotl(At(p, x + 8 * s), r2));
    }
  }

  lemma StridesVanish(p: seq<Lane>, x: nat)
    requires |p| == 5 && Strides(p, 4, 1)
    ensures At(p, x) == 0
  {
    hide Strides, At, Xor;
    StridesDouble(p, 4, 1);
    StridesDouble(p, 8, 2);
    StridesDouble(p, 16, 4);
    StridesDouble(p, 32, 8);
    StridesDouble(p, 64, 16);
    StridesDouble(p, 128, 32);
    StillAt(p, x);
    StillAt(p, x + 1);
    StillAt(p, x + 2);
    StillAt(p, x + 3);
    StillAt(p, x + 4);
    AtWraps(p, x, 1);
    AtWraps(p, x + 1, 1);
    AtWraps(p, x + 2, 1);
    AtWraps(p, x + 3, 1);
    AllZero(At(p, x), At(p, x + 1), At(p, x + 2), At(p, x + 3), At(p, x + 4));
  }

  lemma StillAt(p: seq<Lane>, x: nat)
    requires |p| == 5 && Strides(p, 256, 0)
    ensures At(p, x) == Xor(At(p, x + 1), At(p, x + 4))
  {
    hide Xor, At;
    assert StrideAt(p, x, 256, 0);
    AtWraps(p, x + 1, 51);
    AtWraps(p, x + 4, 204);
  }

  lemma AllZero(p: Lane, p1: Lane, p2: Lane, p3: Lane, p4: Lane)
    requires p == Xor(p1, p4) && p1 == Xor(p2, p) && p2 == Xor(p3, p1) && p3 == Xor(p4, p2) && p4 == Xor(p, p3)
    ensures p == 0
  {}

  lemma ColumnAfterTheta(a: seq<Lane>, x: nat)
    requires |a| == 25 && x < 5
    ensures Column(Theta(a), x) == Xor(Column(a, x), ThetaEffect(a, x))
  {
    hide Xor, ThetaEffect, Parity;
    ParityShifts(a[x], a[x + 5], a[x + 10], a[x + 15], a[x + 20], ThetaEffect(a, x));
  }

  lemma ParityShifts(p: Lane, q: Lane, r: Lane, s: Lane, t: Lane, e: Lane)
    ensures Parity(Xor(p, e), Xor(q, e), Xor(r, e), Xor(s, e), Xor(t, e)) == Xor(Parity(p, q, r, s, t), e)
  {
    hide Xor;
    XorPair(p, q, e);
    XorPair(Xor(Xor(p, q), r), s, e);
    XorSwap(Xor(p, q), r, e);
    XorSwap(Xor(Xor(Xor(p, q), r), s), t, e);
  }

  lemma XorPair(v: Lane, w: Lane, e: Lane)
    ensures Xor(Xor(v, e), Xor(w, e)) == Xor(v, w)
  {
    hide Xor, Bit;
    forall z: bv6 ensures Bit(Xor(Xor(v, e), Xor(w, e)), z) == Bit(Xor(v, w), z) {
      XorBit(v, w, z);
      XorBit(v, e, z);
      XorBit(w, e, z);
      XorBit(Xor(v, e), Xor(w, e), z);
    }
    SameBits(Xor(Xor(v, e), Xor(w, e)), Xor(v, w));
  }

  lemma XorSwap(v: Lane, w: Lane, e: Lane)
    ensures Xor(v, Xor(w, e)) == Xor(Xor(v, w), e)
  {}

  /** The difference of two states, column by column. */
  function ColumnDifference(a: seq<Lane>, b: seq<Lane>): (p: seq<Lane>)
    requires |a| == |b| == 25
    ensures |p| == 5
  {
    seq(5, x requires 0 <= x < 5 => Xor(Column(a, x), Column(b, x)))
  }

  lemma DifferenceStrides(a: seq<Lane>, b: seq<Lane>)
    requires |a| == |b| == 25 && Theta(a) == Theta(b)
    ensures Strides(ColumnDifference(a, b), 4, 1)
  {
    hide Xor, Column, Rotl, Theta, StrideAt, ColumnDifference;
    var p := ColumnDifference(a, b);
    forall x: nat ensures StrideAt(p, x, 4, 1) {
      DifferenceStridesAt(a, b, x);
    }
  }

  lemma DifferenceStridesAt(a: seq<Lane>, b: seq<Lane>, x: nat)
    requires |a| == |b| == 25 && Theta(a) == Theta(b)
    ensures StrideAt(ColumnDifference(a, b), x, 4, 1)
  {
    hide Xor, ColumnDifference, Rotl, Theta;
    var x0 := x % 5;
    assert (x0 + 1) % 5 == (x + 1) % 5 && (x0 + 4) % 5 == (x + 4) % 5;
    ColumnsDiffer(a, b, x0);
    AtWraps(ColumnDifference(a, b), x + 1, 3);
  }

  lemma ColumnsDiffer(a: seq<Lane>, b: seq<Lane>, x: nat)
    requires |a| == |b| == 25 && x < 5 && Theta(a) == Theta(b)
    ensures var p := ColumnDifference(a, b); p[x] == Xor(p[(x + 4) % 5], Rotl(p[(x + 1) % 5], 1))
  {
    hide Xor, Column, Rotl, Theta;
    var x1, x4 := (x + 1) % 5, (x + 4) % 5;
    ColumnAfterTheta(a, x);
    ColumnAfterTheta(b, x);
    RotlXor(Column(a, x1), Column(b, x1), 1);
    Rearranged(Column(a, x), Column(a, x4), Rotl(Column(a, x1), 1),
               Column(b, x), Column(b, x4), Rotl(Column(b, x1), 1));
  }

  lemma Rearranged(v: Lane, v4: Lane, v1: Lane, w: Lane, w4: Lane, w1: Lane)
    requires Xor(v, Xor(v4, v1)) == Xor(w, Xor(w4, w1))
    ensures Xor(v, w) == Xor(Xor(v4, w4), Xor(v1, w1))
  {
    hide Xor, Bit;
    forall z: bv6 ensures Bit(Xor(v, w), z) == Bit(Xor(Xor(v4, w4), Xor(v1, w1)), z) {
      XorBit(v4, v1, z);
      XorBit(w4, w1, z);
      XorBit(v, Xor(v4, v1), z);
      XorBit(w, Xor(w4, w1), z);
      XorBit(v, w, z);
      XorBit(v4, w4, z);
      XorBit(v1, w1, z);
      XorBit(Xor(v4, w4), Xor(v1, w1), z);
    }
    SameBits(Xor(v, w), Xor(Xor(v4, w4), Xor(v1, w1)));
  }

  lemma XorZero(v: Lane, w: Lane)
    requires Xor(v, w) == 0
    ensures v == w
  {}

  lemma XorInjective(v: Lane, w: Lane, e: Lane)
    requires Xor(v, e) == Xor(w, e)
    ensures v == w
  {}

  lemma ThetaInjective(a: seq<Lane>, b: seq<Lane>)
    requires |a| == |b| == 25 && Theta(a) == Theta(b)
    ensures a == b
  {
    hide Xor, Column, Rotl, Strides;
    DifferenceStrides(a, b);
    forall x | 0 <= x < 5 ensures Column(a, x) == Column(b, x) {
      StridesVanish(ColumnDifference(a, b), x);
      XorZero(Column(a, x), Column(b, x));
    }
    forall i | 0 <= i < 25 ensures a[i] == b[i] {
      assert Theta(a)[i] == ThetaAt(a, i) && Theta(b)[i] == ThetaAt(b, i);
      XorInjective(a[i], b[i], ThetaEffect(a, i % 5));
    }
  }

  lemma RoundInjective(a: seq<Lane>, b: seq<Lane>, rc: Lane)
    requires |a| == |b| == 25 && Round(a, rc) == Round(b, rc)
    ensures a == b
  {
    hide Xor, Theta, RhoPi, Chi;
    var c, d := Chi(RhoPi(Theta(a))), Chi(RhoPi(Theta(b)));
    assert c[0 := Xor(c[0], rc)] == d[0 := Xor(d[0], rc)];
    forall i | 0 <= i < 25 ensures c[i] == d[i] {
      if i == 0 {
        assert c[0 := Xor(c[0], rc)][0] == Xor(c[0], rc);
        XorInjective(c[0], d[0], rc);
      } else {
        assert c[0 := Xor(c[0], rc)][i] == c[i];
      }
    }
    ChiInjective(RhoPi(Theta(a)), RhoPi(Theta(b)));
    RhoPiInjective(Theta(a), Theta(b));
    ThetaInjective(a, b);
  }

  lemma {:induction false} RoundsInjective(a: seq<Lane>, b: seq<Lane>, n: nat)
    requires |a| == |b| == 25 && n <= |RC| && Rounds(a, n) == Rounds(b, n)
    ensures a == b
  {
    hide Round;
    if n > 0 {
      RoundInjective(Rounds(a, n - 1), Rounds(b, n - 1), RC[n - 1]);
      RoundsInjective(a, b, n - 1);
    }
  }

  /** The permutation is one: different states have different images. */
  lemma KeccakFInjective(a: seq<Lane>, b: seq<Lane>)
    requires |a| == |b| == 25 && KeccakF(a) == KeccakF(b)
    ensures a == b
  {
    hide Rounds;
    RoundsInjective(a, b, |RC|);
  }
}
