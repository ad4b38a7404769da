/** Keccak-f[1600] as FIPS 202 defines it, the reference permutation on lists, and the
    accelerator's permutation of an array in place. */
module Keccak {

  type Lane = bv64

  const RC: seq<Lane> := [
    0x0000000000000001, 0x0000000000008082, 0x800000000000808A, 0x8000000080008000,
    0x000000000000808B, 0x0000000080000001, 0x8000000080008081, 0x8000000000008009,
    0x000000000000008A, 0x0000000000000088, 0x0000000080008009, 0x000000008000000A,
    0x000000008000808B, 0x800000000000008B, 0x8000000000008089, 0x8000000000008003,
    0x8000000000008002, 0x8000000000000080, 0x000000000000800A, 0x800000008000000A,
    0x8000000080008081, 0x8000000000008080, 0x0000000080000001, 0x8000000080008008 ]

  /** Rotation offsets by lane, x + 5 y. */
  const ROT: seq<bv6> := [0, 1, 62, 28, 27, 36, 44, 6, 55, 20, 3, 10, 43, 25, 39, 41, 45, 15, 21, 8, 18, 2, 61, 56, 14]

  /** The accelerator's walk through the lanes: where each step writes, and how far it rotates. */
  const PI_WALK: seq<nat> := [10, 7, 11, 17, 18, 3, 5, 16, 8, 21, 24, 4, 15, 23, 19, 13, 12, 2, 20, 14, 22, 9, 6, 1]
  const ROT_WALK: seq<bv6> :=
    [1, 3, 6, 10, 15, 21, 28, 36, 45, 55, 2, 14, 27, 41, 56, 8, 25, 43, 62, 18, 39, 61, 20, 44]

  function Rotl(v: Lane, r: bv6): Lane {
    if r == 0 then v else (v << r) | (v >> (64 - r as bv8))
  }

  // ----- the permutation, section 3.2 of FIPS 202 -----

  function Xor(x: Lane, y: Lane): Lane {
    x ^ y
  }

  function Parity(u: Lane, v: Lane, w: Lane, x: Lane, y: Lane): Lane {
    Xor(Xor(Xor(Xor(u, v), w), x), y)
  }

  function Column(a: seq<Lane>, x: nat): Lane
    requires |a| == 25 && x < 5
  {
    Parity(a[x], a[x + 5], a[x + 10], a[x + 15], a[x + 20])
  }

  function ThetaEffect(a: seq<Lane>, x: nat): Lane
    requires |a| == 25 && x < 5
  {
    Xor(Column(a, (x + 4) % 5), Rotl(Column(a, (x + 1) % 5), 1))
  }

  function ThetaAt(a: seq<Lane>, i: nat): Lane
    requires |a| == 25 && i < 25
  {
    Xor(a[i], ThetaEffect(a, i % 5))
  }

  function Theta(a: seq<Lane>): (r: seq<Lane>)
    requires |a| == 25
    ensures |r| == 25
  {
    seq(25, i requires 0 <= i < 25 => ThetaAt(a, i))
  }

  /** The lane that pi brings to lane `i`: (x + 3 y, x) for lane (x, y). */
  function PiSource(i: nat): (j: nat)
    requires i < 25
    ensures j < 25
  {
    (i % 5 + 3 * (i / 5)) % 5 + 5 * (i % 5)
  }

  function RotAt(i: nat): bv6
    requires i < 25
  {
    ROT[i]
  }

  function RhoPi(a: seq<Lane>): (r: seq<Lane>)
    requires |a| == 25
    ensures |r| == 25
  {
    seq(25, i requires 0 <= i < 25 => Rotl(a[PiSource(i)], RotAt(PiSource(i))))
  }

  function ChiLane(x: Lane, y: Lane, z: Lane): Lane {
    x ^ (!y & z)
  }

  function ChiAt(b: seq<Lane>, i: nat): Lane
    requires |b| == 25 && i < 25
  {
    ChiLane(b[i], b[(i + 1) % 5 + 5 * (i / 5)], b[(i + 2) % 5 + 5 * (i / 5)])
  }

  function Chi(b: seq<Lane>): (r: seq<Lane>)
    requires |b| == 25
    ensures |r| == 25
  {
    seq(25, i requires 0 <= i < 25 => ChiAt(b, i))
  }

  function Round(a: seq<Lane>, rc: Lane): (r: seq<Lane>)
    requires |a| == 25
    ensures |r| == 25
  {
    var b := Chi(RhoPi(Theta(a)));
    b[0 := Xor(b[0], rc)]
  }

  function Rounds(a: seq<Lane>, n: nat): (r: seq<Lane>)
    requires |a| == 25 && n <= |RC|
    ensures |r| == 25
  {
    if n == 0 then a else Round(Rounds(a, n - 1), RC[n - 1])
  }

  function KeccakF(a: seq<Lane>): (r: seq<Lane>)
    requires |a| == 25
    ensures |r| == 25
  {
    Rounds(a, |RC|)
  }

  // ----- what the tables are -----

  /** Lane (x, y) goes to lane (y, 2 x + 3 y). */
  function PiTarget(i: nat): nat
    requires i < 25
  {
    i / 5 + 5 * ((2 * (i % 5) + 3 * (i / 5)) % 5)
  }

  lemma PiRows(x: nat, y: nat)
    requires x < 5 && y < 5
    ensures (y + 3 * ((2 * x + 3 * y) % 5)) % 5 == x
    ensures (2 * ((x + 3 * y) % 5) + 3 * x) % 5 == y
  {
    if x == 0 {} else if x == 1 {} else if x == 2 {} else if x == 3 {} else {}
  }

  lemma PiBack(i: nat)
    requires i < 25
    ensures PiTarget(i) < 25 && PiSource(PiTarget(i)) == i
  {
    var x, y := i % 5, i / 5;
    PiRows(x, y);
    CoordinatesOf(y, (2 * x + 3 * y) % 5);
  }

  lemma PiForth(i: nat)
    requires i < 25
    ensures PiTarget(PiSource(i)) == i
  {
    var x, y := i % 5, i / 5;
    PiRows(x, y);
    CoordinatesOf((x + 3 * y) % 5, x);
  }

  /** Pi is a permutation of the lanes. */
  lemma PiInverts(i: nat)
    requires i < 25
    ensures PiTarget(i) < 25 && PiSource(PiTarget(i)) == i && PiTarget(PiSource(i)) == i
  {
    PiBack(i);
    PiForth(i);
  }

  lemma CoordinatesOf(x: nat, y: nat)
    requires x < 5
    ensures (x + 5 * y) % 5 == x && (x + 5 * y) / 5 == y
  {}

  /** Where step `t` of the walk reads. */
  function WalkSource(t: nat): (j: nat)
    requires t <= 24
    ensures j < 25
  {
    if t == 0 then 1 else WalkAt(t - 1)
  }

  function WalkAt(t: nat): (j: nat)
    requires t < 24
    ensures j < 25
  {
    PI_WALK[t]
  }

  /** The inverse of the walk: which step writes a lane. */
  const STEP_OF: seq<nat> := [24, 23, 17, 5, 11, 6, 22, 1, 8, 21, 0, 2, 16, 15, 19, 12, 7, 3, 4, 14, 18, 9, 20, 13, 10]

  /** One step of the walk is one step of the standard's: it follows pi, and its rotation is
      both the lane's offset and the triangular number of section 3.2.2 of FIPS 202. */
  predicate WalkStep(t: nat)
    requires t < 24
  {
    && PiSource(WalkAt(t)) == WalkSource(t)
    && RotAt(WalkSource(t)) == ROT_WALK[t] && ROT_WALK[t] as nat == (t + 1) * (t + 2) / 2 % 64
    && STEP_OF[WalkAt(t)] == t
    && WalkAt(t) != 0
  }

  lemma WalkIsPi(t: nat)
    requires t < 24
    ensures WalkStep(t) && ROT_WALK[t] != 0
  {
    hide WalkStep;
    if t < 4 {
      FirstSteps(t);
    } else if t < 8 {
      SecondSteps(t);
    } else if t < 12 {
      ThirdSteps(t);
    } else if t < 16 {
      FourthSteps(t);
    } else if t < 20 {
      FifthSteps(t);
    } else {
      SixthSteps(t);
    }
  }

  lemma FirstSteps(t: nat)
    requires t < 4
    ensures WalkStep(t) && ROT_WALK[t] != 0
  {
    if t == 0 {} else if t == 1 {} else if t == 2 {} else {}
  }

  lemma SecondSteps(t: nat)
    requires 4 <= t < 8
    ensures WalkStep(t) && ROT_WALK[t] != 0
  {
    if t == 4 {} else if t == 5 {} else if t == 6 {} else {}
  }

  lemma ThirdSteps(t: nat)
    requires 8 <= t < 12
    ensures WalkStep(t) && ROT_WALK[t] != 0
  {
    if t == 8 {} else if t == 9 {} else if t == 10 {} else {}
  }

  lemma FourthSteps(t: nat)
    requires 12 <= t < 16
    ensures WalkStep(t) && ROT_WALK[t] != 0
  {
    if t == 12 {} else if t == 13 {} else if t == 14 {} else {}
  }

  lemma FifthSteps(t: nat)
    requires 16 <= t < 20
    ensures WalkStep(t) && ROT_WALK[t] != 0
  {
    if t == 16 {} else if t == 17 {} else if t == 18 {} else {}
  }

  lemma SixthSteps(t: nat)
    requires 20 <= t < 24
    ensures WalkStep(t) && ROT_WALK[t] != 0
  {
    if t == 20 {} else if t == 21 {} else if t == 22 {} else {}
  }

  /** Every lane but the first is written by a step. */
  lemma WalkCovers(i: nat)
    requires 0 < i < 25
    ensures STEP_OF[i] < 24 && WalkAt(STEP_OF[i]) == i
  {
    if i < 13 {
      if i == 1 {} else if i == 2 {} else if i == 3 {} else if i == 4 {} else if i == 5 {} else if i == 6 {}
      else if i == 7 {} else if i == 8 {} else if i == 9 {} else if i == 10 {} else if i == 11 {} else {}
    } else {
      if i == 13 {} else if i == 14 {} else if i == 15 {} else if i == 16 {} else if i == 17 {} else if i == 18 {}
      else if i == 19 {} else if i == 20 {} else if i == 21 {} else if i == 22 {} else if i == 23 {} else {}
    }
  }

  // ----- the accelerator: in place -----

  /** The first loop of a round: the column parities. */
  method Columns(st: array<Lane>, bc: array<Lane>)
    requires st.Length == 25 && bc.Length == 5 && st != bc
    modifies bc
    ensures forall k :: 0 <= k < 5 ==> bc[k] == Column(st[..], k)
  {
    hide Parity;
    for i := 0 to 5
      invariant forall k :: 0 <= k < i ==> bc[k] == Column(st[..], k)
    {
      bc[i] := Parity(st[i], st[i + 5], st[i + 10], st[i + 15], st[i + 20]);
    }
  }

  function XorIn(a: seq<Lane>, i: nat, t: Lane): (r: seq<Lane>)
    requires |a| == 25 && i < 5
    ensures |r| == 25
  {
    seq(25, k requires 0 <= k < 25 => if k % 5 == i then Xor(a[k], t) else a[k])
  }

  /** The inner loop of the second: one column takes its effect. */
  method XorColumn(st: array<Lane>, i: nat, t: Lane)
    requires st.Length == 25 && i < 5
    modifies st
    ensures st[..] == XorIn(old(st[..]), i, t)
  {
    hide Xor;
    var j := 0;
    while j < 25
      invariant 0 <= j <= 25 && j % 5 == 0
      invariant forall k :: 0 <= k < 25 ==> st[k] == if k % 5 == i && k < j then Xor(old(st[k]), t) else old(st[k])
    {
      st[j + i] := Xor(st[j + i], t);
      j := j + 5;
    }
  }

  /** Theta with only the first columns done. */
  function ThetaUpTo(a: seq<Lane>, n: nat): (r: seq<Lane>)
    requires |a| == 25 && n <= 5
    ensures |r| == 25
  {
    seq(25, k requires 0 <= k < 25 => if k % 5 < n then ThetaAt(a, k) else a[k])
  }

  lemma ThetaEnds(a: seq<Lane>)
    requires |a| == 25
    ensures ThetaUpTo(a, 0) == a && ThetaUpTo(a, 5) == Theta(a)
  {
    hide ThetaAt;
  }

  lemma ThetaStep(a: seq<Lane>, i: nat)
    requires |a| == 25 && i < 5
    ensures XorIn(ThetaUpTo(a, i), i, ThetaEffect(a, i)) == ThetaUpTo(a, i + 1)
  {
    hide ThetaEffect, Xor;
  }

  /** The first two loops of a round. */
  method ThetaInPlace(st: array<Lane>)
    requires st.Length == 25
    modifies st
    ensures st[..] == Theta(old(st[..]))
  {
    hide Rotl, Column, ThetaEffect, XorIn, ThetaUpTo, Theta, Xor;
    ghost var a := st[..];
    var bc := new Lane[5];
    Columns(st, bc);
    ThetaEnds(a);
    for i := 0 to 5
      invariant forall k :: 0 <= k < 5 ==> bc[k] == Column(a, k)
      invariant st[..] == ThetaUpTo(a, i)
    {
      var t := Xor(bc[(i + 4) % 5], Rotl(bc[(i + 1) % 5], 1));
      ThetaEffectIs(a, i);
      XorColumn(st, i, t);
      ThetaStep(a, i);
    }
  }

  lemma ThetaEffectIs(a: seq<Lane>, x: nat)
    requires |a| == 25 && x < 5
    ensures ThetaEffect(a, x) == Xor(Column(a, (x + 4) % 5), Rotl(Column(a, (x + 1) % 5), 1))
  {}

  function Rotl64(v: Lane, r: bv6): Lane {
    (v << r) | (v >> (64 - r as bv8))
  }

  /** The walk: each step displaces a lane, which the next step puts in its place. */
  method RhoPiInPlace(st: array<Lane>)
    requires st.Length == 25
    modifies st
    ensures st[..] == RhoPi(old(st[..]))
  {
    hide RotAt, PiSource, WalkAt, Rotl, Rotl64, WalkStep, RhoPi;
    ghost var a := st[..];
    var t := st[1];
    assert WalkSource(0) == 1;
    for i := 0 to 24
      invariant t == a[WalkSource(i)]
      invariant forall k :: 0 <= k < 25 ==> st[k] == if STEP_OF[k] < i then RhoPi(a)[k] else a[k]
    {
      WalkIsPi(i);
      StepWrites(a, i);
      RotationIs(t, ROT_WALK[i]);
      var j := WalkAt(i);
      var tmp := st[j];
      st[j] := Rotl64(t, ROT_WALK[i]);
      t := tmp;
      forall k | 0 <= k < 25 && STEP_OF[k] == i ensures k == j {
        if k > 0 {
          WalkCovers(k);
        }
      }
    }
    FirstLaneStays(a);
    forall k | 0 < k < 25 ensures st[k] == RhoPi(a)[k] {
      WalkCovers(k);
    }
    assert st[..] == RhoPi(a);
  }

  /** What a step of the walk writes is what rho and pi put there. */
  lemma StepWrites(a: seq<Lane>, t: nat)
    requires |a| == 25 && t < 24 && WalkStep(t)
    ensures RhoPi(a)[WalkAt(t)] == Rotl(a[WalkSource(t)], ROT_WALK[t]) && WalkAt(t) != 0 && STEP_OF[WalkAt(t)] == t
  {
    hide PiSource, RotAt, Rotl, WalkAt, WalkSource;
  }

  lemma RotationIs(v: Lane, r: bv6)
    requires r != 0
    ensures Rotl64(v, r) == Rotl(v, r)
  {}

  lemma FirstLaneStays(a: seq<Lane>)
    requires |a| == 25
    ensures RhoPi(a)[0] == a[0]
  {}

  /** One row: it is saved, then combined. */
  method ChiRow(st: array<Lane>, j: nat)
    requires st.Length == 25 && j < 25 && j % 5 == 0
    modifies st
    ensures forall k :: 0 <= k < 25 ==>
      st[k] == if j <= k < j + 5 then ChiAt(old(st[..]), k) else old(st[k])
  {
    hide ChiAt, ChiLane;
    ghost var a := st[..];
    var b := new Lane[5];
    for i := 0 to 5
      invariant st[..] == a
      invariant forall k :: 0 <= k < i ==> b[k] == a[j + k]
    {
      b[i] := st[j + i];
    }
    for i := 0 to 5
      invariant forall k :: 0 <= k < 5 ==> b[k] == a[j + k]
      invariant forall k :: 0 <= k < 25 ==> st[k] == if j <= k < j + i then ChiAt(a, k) else a[k]
    {
      ChiAtRow(a, j, i);
      st[j + i] := ChiLane(st[j + i], b[(i + 1) % 5], b[(i + 2) % 5]);
    }
  }

  lemma ChiReadsItsRow(a: seq<Lane>, b: seq<Lane>, j: nat, k: nat)
    requires |a| == |b| == 25 && j % 5 == 0 && j <= k < j + 5 <= 25
    requires forall i :: j <= i < j + 5 ==> a[i] == b[i]
    ensures ChiAt(a, k) == ChiAt(b, k)
  {
    hide ChiAt, ChiLane;
    ChiAtRow(a, j, k - j);
    ChiAtRow(b, j, k - j);
  }

  /** The row loop. */
  method ChiInPlace(st: array<Lane>)
    requires st.Length == 25
    modifies st
    ensures st[..] == Chi(old(st[..]))
  {
    hide ChiAt;
    ghost var a := st[..];
    var j := 0;
    while j < 25
      invariant 0 <= j <= 25 && j % 5 == 0
      invariant forall k :: 0 <= k < 25 ==> st[k] == if k < j then ChiAt(a, k) else a[k]
    {
      ghost var before := st[..];
      ChiRow(st, j);
      forall k | j <= k < j + 5 ensures st[k] == ChiAt(a, k) {
        ChiReadsItsRow(before, a, j, k);
      }
      j := j + 5;
    }
    assert st[..] == Chi(a);
  }

  lemma ChiAtRow(a: seq<Lane>, j: nat, i: nat)
    requires |a| == 25 && j % 5 == 0 && j < 25 && i < 5
    ensures ChiAt(a, j + i) == ChiLane(a[j + i], a[j + (i + 1) % 5], a[j + (i + 2) % 5])
  {
    hide ChiLane;
    var y := j / 5;
    assert j == 5 * y;
    assert (j + i) / 5 == y && (j + i + 1) % 5 == (i + 1) % 5 && (j + i + 2) % 5 == (i + 2) % 5;
  }

  /** `keccakf` of the accelerator is the standard's permutation. */
  method KeccakfInPlace(st: array<Lane>)
    requires st.Length == 25
    modifies st
    ensures st[..] == KeccakF(old(st[..]))
  {
    hide Theta, RhoPi, Chi, Xor;
    ghost var a := st[..];
    for round := 0 to 24
      invariant st[..] == Rounds(a, round)
    {
      ThetaInPlace(st);
      RhoPiInPlace(st);
      ChiInPlace(st);
      st[0] := Xor(st[0], RC[round]);
    }
  }

  // ----- the reference: on lists -----

  lemma RhoPiAt(a: seq<Lane>, k: nat)
    requires |a| == 25 && k < 25
    ensures RhoPi(a)[k] == Rotl(a[PiSource(k)], RotAt(PiSource(k)))
  {}

  /** The two nested loops of a round: each lane goes where pi sends it. */
  method RhoPiOnLists(a: seq<Lane>) returns (b: seq<Lane>)
    requires |a| == 25
    ensures b == RhoPi(a)
  {
    hide RotAt, PiSource, PiTarget, Rotl, RhoPi;
    b := seq(25, i => 0);
    for x := 0 to 5
      invariant |b| == 25
      invariant forall k :: 0 <= k < 25 && PiSource(k) % 5 < x ==> b[k] == RhoPi(a)[k]
    {
      for y := 0 to 5
        invariant |b| == 25
        invariant forall k :: 0 <= k < 25 && PiSource(k) % 5 < x ==> b[k] == RhoPi(a)[k]
        invariant forall k :: 0 <= k < 25 && PiSource(k) % 5 == x && PiSource(k) / 5 < y ==> b[k] == RhoPi(a)[k]
      {
        var lane, target := x + 5 * y, y + 5 * ((2 * x + 3 * y) % 5);
        TargetOf(x, y);
        PiInverts(lane);
        RhoPiAt(a, target);
        b := b[target := Rotl(a[lane], RotAt(lane))];
        forall k | 0 <= k < 25 && PiSource(k) % 5 == x && PiSource(k) / 5 == y ensures k == target {
          PiInverts(k);
        }
      }
    }
    assert b == RhoPi(a);
  }

  lemma TargetOf(x: nat, y: nat)
    requires x < 5 && y < 5
    ensures PiTarget(x + 5 * y) == y + 5 * ((2 * x + 3 * y) % 5) < 25
  {
    CoordinatesOf(x, y);
  }

  function ColumnsOf(a: seq<Lane>): (c: seq<Lane>)
    requires |a| == 25
    ensures |c| == 5
  {
    seq(5, x requires 0 <= x < 5 => Column(a, x))
  }

  function EffectsOf(c: seq<Lane>): (d: seq<Lane>)
    requires |c| == 5
    ensures |d| == 5
  {
    seq(5, x requires 0 <= x < 5 => Xor(c[(x + 4) % 5], Rotl(c[(x + 1) % 5], 1)))
  }

  function WithEffects(a: seq<Lane>, d: seq<Lane>): (r: seq<Lane>)
    requires |a| == 25 && |d| == 5
    ensures |r| == 25
  {
    seq(25, i requires 0 <= i < 25 => Xor(a[i], d[i % 5]))
  }

  lemma EffectOnLists(a: seq<Lane>, x: nat)
    requires |a| == 25 && x < 5
    ensures EffectsOf(ColumnsOf(a))[x] == ThetaEffect(a, x)
  {
    hide Column, Rotl, Xor;
  }

  lemma ThetaOnLists(a: seq<Lane>)
    requires |a| == 25
    ensures WithEffects(a, EffectsOf(ColumnsOf(a))) == Theta(a)
  {
    hide ThetaEffect, EffectsOf, ColumnsOf, Xor;
    forall x | 0 <= x < 5 ensures EffectsOf(ColumnsOf(a))[x] == ThetaEffect(a, x) {
      EffectOnLists(a, x);
    }
  }

  /** `keccak_f1600` is the standard's permutation too. */
  method KeccakF1600(lanes: seq<Lane>) returns (a: seq<Lane>)
    requires |lanes| == 25
    ensures a == KeccakF(lanes)
  {
    hide Theta, RhoPi, Chi, ColumnsOf, EffectsOf, WithEffects, Xor;
    a := lanes;
    for round := 0 to |RC|
      invariant |a| == 25 && a == Rounds(lanes, round)
    {
      ThetaOnLists(a);
      var c := ColumnsOf(a);
      var d := EffectsOf(c);
      a := WithEffects(a, d);
      var b := RhoPiOnLists(a);
      a := Chi(b);
      a := a[0 := Xor(a[0], RC[round])];
    }
  }
}
