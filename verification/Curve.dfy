/** Scalar multiplication on a short Weierstrass curve of prime order. */
module Curve {
  import opened Modular
  import opened Primes
  import opened Algebra
  import opened Points

  /** How many bits of a scalar the 256-round multiplication reads. */
  const SCALAR_BITS: nat := 256

  /** Repeated addition. */
  function Times(c: Params, k: nat, s: Point): Point
    requires c.p > 2
  {
    if k == 0 then Infinity else PointAdd(c, Times(c, k - 1, s), s)
  }

  // ----- associativity and the order, taken as given -----

  ghost predicate GroupsAt(c: Params, s: Point, t: Point, u: Point)
    requires c.p > 2
  {
    OnCurve(c, s) && OnCurve(c, t) && OnCurve(c, u) ==>
      PointAdd(c, PointAdd(c, s, t), u) == PointAdd(c, s, PointAdd(c, t, u))
  }

  ghost predicate OrderAt(c: Params, s: Point)
    requires c.p > 2
  {
    OnCurve(c, s) ==> Times(c, c.n, s) == Infinity
  }

  /** A curve over the prime field of `p` elements whose points add associatively and have
      the prime order `n`, where `p` is below `2 n`. */
  ghost predicate IsCurve(c: Params) {
    && IsOddPrime(c.p) && IsOddPrime(c.n) && c.p < 2 * c.n
    && c.g.Affine? && OnCurve(c, c.g)
    && (forall s: Point, t: Point, u: Point :: GroupsAt(c, s, t, u))
    && (forall s: Point :: OrderAt(c, s))
  }

  lemma AddOnCurve(c: Params, s: Point, t: Point)
    requires IsCurve(c) && OnCurve(c, s) && OnCurve(c, t)
    ensures OnCurve(c, PointAdd(c, s, t)) && PointAdd(c, s, t) == PointAdd(c, t, s)
  {
    SumOnCurve(c, s, t);
    SumCommutes(c, s, t);
  }

  lemma AddGroups(c: Params, s: Point, t: Point, u: Point)
    requires IsCurve(c) && OnCurve(c, s) && OnCurve(c, t) && OnCurve(c, u)
    ensures PointAdd(c, PointAdd(c, s, t), u) == PointAdd(c, s, PointAdd(c, t, u))
  {
    assert GroupsAt(c, s, t, u);
  }

  // ----- multiples -----

  lemma {:induction false} TimesOnCurve(c: Params, k: nat, s: Point)
    requires IsCurve(c) && OnCurve(c, s)
    ensures OnCurve(c, Times(c, k, s))
  {
    hide PointAdd;
    if k > 0 {
      TimesOnCurve(c, k - 1, s);
      AddOnCurve(c, Times(c, k - 1, s), s);
    }
  }

  lemma {:induction false} TimesSum(c: Params, a: nat, b: nat, s: Point)
    requires IsCurve(c) && OnCurve(c, s)
    ensures Times(c, a + b, s) == PointAdd(c, Times(c, a, s), Times(c, b, s))
    decreases b
  {
    TimesOnCurve(c, a, s);
    if b > 0 {
      hide PointAdd, OnCurve;
      TimesSum(c, a, b - 1, s);
      TimesOnCurve(c, b - 1, s);
      AddGroups(c, Times(c, a, s), Times(c, b - 1, s), s);
    } else {
      hide OnCurve;
    }
  }

  lemma {:induction false} TimesProduct(c: Params, a: nat, b: nat, s: Point)
    requires IsCurve(c) && OnCurve(c, s)
    ensures Times(c, a * b, s) == Times(c, b, Times(c, a, s))
    decreases b
  {
    hide PointAdd, OnCurve;
    if b > 0 {
      ProductNonnegative(a, b - 1);
      TimesProduct(c, a, b - 1, s);
      TimesSum(c, a * (b - 1), a, s);
      assert a * (b - 1) + a == a * b;
    } else {
      assert a * b == 0;
    }
  }

  lemma {:induction false} TimesInfinity(c: Params, k: nat)
    requires c.p > 2
    ensures Times(c, k, Infinity) == Infinity
  {
    if k > 0 {
      TimesInfinity(c, k - 1);
    }
  }

  lemma Division(k: nat, n: nat)
    requires n > 0
    ensures k == n * (k / n) + k % n && k / n >= 0
  {}

  lemma TimesWholeOrders(c: Params, q: nat, r: nat, k: nat, s: Point)
    requires IsCurve(c) && OnCurve(c, s) && k == c.n * q + r
    ensures Times(c, k, s) == Times(c, r, s)
  {
    assert OrderAt(c, s);
    hide *;
    ProductNonnegative(c.n, q);
    TimesProduct(c, c.n, q, s);
    TimesInfinity(c, q);
    TimesSum(c, c.n * q, r, s);
    InfinityAdds(c, Times(c, r, s));
  }

  /** Multiples depend on the scalar modulo the order. */
  lemma TimesMod(c: Params, k: nat, s: Point)
    requires IsCurve(c) && OnCurve(c, s)
    ensures Times(c, k, s) == Times(c, k % c.n, s)
  {
    var n := c.n;
    assert n > 2;
    hide *;
    Division(k, n);
    TimesWholeOrders(c, k / n, k % n, k, s);
  }

  lemma InfinityAdds(c: Params, s: Point)
    requires c.p > 2
    ensures PointAdd(c, Infinity, s) == s == PointAdd(c, s, Infinity)
  {}

  lemma TimesCong(c: Params, j: nat, k: nat, s: Point)
    requires IsCurve(c) && OnCurve(c, s) && Cong(j, k, c.n)
    ensures Times(c, j, s) == Times(c, k, s)
  {
    TimesMod(c, j, s);
    TimesMod(c, k, s);
  }

  // ----- opposites -----

  lemma OppositeCancels(c: Params, s: Point)
    requires IsCurve(c) && OnCurve(c, s)
    ensures OnCurve(c, Opposite(c, s)) && PointAdd(c, s, Opposite(c, s)) == Infinity
  {
    if s.Affine? {
      NegatedResidue(s.y, c.p);
    }
  }

  /** Whatever cancels a point is its opposite. */
  lemma OppositeIsUnique(c: Params, s: Point, t: Point)
    requires IsCurve(c) && OnCurve(c, s) && OnCurve(c, t) && PointAdd(c, s, t) == Infinity
    ensures t == Opposite(c, s)
  {
    hide PointAdd, OnCurve, Opposite;
    var o := Opposite(c, s);
    OppositeCancels(c, s);
    AddOnCurve(c, s, o);
    AddGroups(c, o, s, t);
    InfinityAdds(c, t);
    InfinityAdds(c, o);
  }

  lemma OppositeOfSum(c: Params, s: Point, t: Point)
    requires IsCurve(c) && OnCurve(c, s) && OnCurve(c, t)
    ensures OnCurve(c, Opposite(c, s)) && OnCurve(c, Opposite(c, t))
    ensures PointAdd(c, Opposite(c, s), Opposite(c, t)) == Opposite(c, PointAdd(c, s, t))
  {
    hide PointAdd, OnCurve, Opposite;
    var s', t' := Opposite(c, s), Opposite(c, t);
    OppositeCancels(c, s);
    OppositeCancels(c, t);
    AddOnCurve(c, s, t);
    AddOnCurve(c, s', t');
    AddOnCurve(c, t, t');
    // (s + t) + (s' + t') = s + (t + (t' + s')) = s + s'
    AddGroups(c, s, t, PointAdd(c, s', t'));
    AddGroups(c, t, t', s');
    InfinityAdds(c, s');
    OppositeIsUnique(c, PointAdd(c, s, t), PointAdd(c, s', t'));
  }

  /** The multiple by the opposite scalar. */
  lemma TimesOpposite(c: Params, j: nat, k: nat, s: Point)
    requires IsCurve(c) && OnCurve(c, s) && Cong(j + k, 0, c.n)
    ensures Times(c, k, s) == Opposite(c, Times(c, j, s))
  {
    hide PointAdd, OnCurve, Opposite;
    TimesOnCurve(c, j, s);
    TimesOnCurve(c, k, s);
    TimesSum(c, j, k, s);
    TimesCong(c, j + k, 0, s);
    OppositeIsUnique(c, Times(c, j, s), Times(c, k, s));
  }

  // ----- distinct multiples -----

  lemma OnlyInfinityAbsorbs(c: Params, s: Point, t: Point)
    requires IsCurve(c) && OnCurve(c, s) && OnCurve(c, t) && PointAdd(c, s, t) == t
    ensures s == Infinity
  {
    hide PointAdd, OnCurve, Opposite;
    var o := Opposite(c, t);
    OppositeCancels(c, t);
    AddGroups(c, s, t, o);
    InfinityAdds(c, s);
  }

  /** The generator's order is no smaller than `n`. */
  lemma FiniteMultiple(c: Params, k: nat)
    requires IsCurve(c) && Times(c, k, c.g) == Infinity
    ensures k % c.n == 0
  {
    if k % c.n != 0 {
      var n := c.n;
      var i := PowMod(k, n - 2, n);
      InverseMod(k, n);
      hide PointAdd, OnCurve, PowMod, IsOddPrime;
      ProductNonnegative(k, i);
      TimesProduct(c, k, i, c.g);
      TimesInfinity(c, i);
      TimesCong(c, k * i, 1, c.g);
      TimesOnce(c, c.g);
    }
  }

  lemma TimesOnce(c: Params, s: Point)
    requires c.p > 2
    ensures Times(c, 1, s) == s
  {
    InfinityAdds(c, s);
    assert Times(c, 1, s) == PointAdd(c, Times(c, 0, s), s);
  }

  /** Equal multiples of the generator have congruent scalars. */
  lemma TimesInjective(c: Params, j: nat, k: nat)
    requires IsCurve(c) && Times(c, j, c.g) == Times(c, k, c.g)
    ensures Cong(j, k, c.n)
  {
    assert c.p > 2 && c.n > 2;
    hide PointAdd, OnCurve, IsOddPrime;
    var low, high := if j <= k then j else k, if j <= k then k else j;
    TimesSum(c, high - low, low, c.g);
    TimesOnCurve(c, high - low, c.g);
    TimesOnCurve(c, low, c.g);
    OnlyInfinityAbsorbs(c, Times(c, high - low, c.g), Times(c, low, c.g));
    FiniteMultiple(c, high - low);
    DifferenceVanishes(low, high, c.n);
  }

  lemma DifferenceVanishes(low: int, high: int, n: nat)
    requires n > 0 && (high - low) % n == 0
    ensures Cong(low, high, n)
  {
    SmallMod(0, n);
    CongAdd(high - low, 0, low, low, n);
  }

  // ----- double and add -----

  /** At most `rounds` rounds, least significant bit first: whatever the points. */
  function Ladder(c: Params, rounds: nat, acc: Point, pt: Point, k: int): Point
    requires c.p > 2
  {
    if rounds == 0 || k == 0 then acc
    else Ladder(c, rounds - 1, if k % 2 == 1 then PointAdd(c, acc, pt) else acc, PointAdd(c, pt, pt), k / 2)
  }

  /** As many rounds as the scalar's value are enough for it. */
  lemma {:induction false} EnoughRounds(c: Params, i: nat, j: nat, acc: Point, pt: Point, k: nat)
    requires c.p > 2 && k <= i && k <= j
    ensures Ladder(c, i, acc, pt, k) == Ladder(c, j, acc, pt, k)
    decreases k
  {
    hide PointAdd;
    if k > 0 {
      EnoughRounds(c, i - 1, j - 1, if k % 2 == 1 then PointAdd(c, acc, pt) else acc, PointAdd(c, pt, pt), k / 2);
    }
  }

  function Positive(k: int): nat {
    if k > 0 then k else 0
  }

  /** `scalar_mul` of P-256: until the scalar is used up. */
  method ScalarMul(c: Params, scalar: int, s: Point) returns (acc: Point)
    requires c.p > 2
    ensures acc == Ladder(c, Positive(scalar), Infinity, s, Positive(scalar))
    ensures IsCurve(c) && OnCurve(c, s) ==> acc == Times(c, Positive(scalar), s)
  {
    hide PointAdd, OnCurve, IsCurve, Times;
    acc := Infinity;
    var pt, k := s, scalar;
    ghost var n := Positive(scalar);
    while k > 0
      invariant scalar > 0 ==> k >= 0
      invariant Ladder(c, n, Infinity, s, n) == Ladder(c, Positive(k), acc, pt, Positive(k))
    {
      ghost var acc', pt' := if k % 2 == 1 then PointAdd(c, acc, pt) else acc, PointAdd(c, pt, pt);
      EnoughRounds(c, k - 1, k / 2, acc', pt', k / 2);
      if k % 2 == 1 {
        acc := PointAdd(c, acc, pt);
      }
      pt := PointAdd(c, pt, pt);
      k := k / 2;
    }
    if IsCurve(c) && OnCurve(c, s) {
      Exp2Exceeds(n);
      SmallMod(n, Exp2(n));
      LadderIsTimes(c, n, s, n);
    }
  }

  /** `scalar_mul` of secp256k1: at most 256 rounds, so only the low 256 bits count; those of
      a negative scalar are its two's complement. */
  method ScalarMul256(c: Params, scalar: int, s: Point) returns (acc: Point)
    requires c.p > 2
    ensures acc == Ladder(c, SCALAR_BITS, Infinity, s, scalar)
    ensures IsCurve(c) && OnCurve(c, s) ==> acc == Times(c, scalar % Exp2(256), s)
  {
    hide PointAdd, OnCurve, IsCurve, Times;
    acc := Infinity;
    var pt, k := s, scalar;
    if IsCurve(c) && OnCurve(c, s) {
      LadderIsTimes(c, SCALAR_BITS, s, scalar);
    }
    for i := 0 to SCALAR_BITS
      invariant Ladder(c, SCALAR_BITS, Infinity, s, scalar) == Ladder(c, SCALAR_BITS - i, acc, pt, k)
    {
      if k == 0 {
        break;
      }
      if k % 2 == 1 {
        acc := PointAdd(c, acc, pt);
      }
      pt := PointAdd(c, pt, pt);
      k := k / 2;
    }
  }

  lemma LadderIsTimes(c: Params, rounds: nat, s: Point, k: int)
    requires IsCurve(c) && OnCurve(c, s)
    ensures Ladder(c, rounds, Infinity, s, k) == Times(c, k % Exp2(rounds), s)
  {
    TimesOnce(c, s);
    hide *;
    NoneIsInfinity(c, s);
    LadderFrom(c, rounds, s, k, 0, 1);
  }

  lemma NoneIsInfinity(c: Params, s: Point)
    requires c.p > 2
    ensures Times(c, 0, s) == Infinity
  {}

  lemma {:induction false} LadderFrom(c: Params, rounds: nat, s: Point, k: int, low: nat, unit: nat)
    requires IsCurve(c) && OnCurve(c, s)
    ensures var kept := k % Exp2(rounds);
      unit * kept >= 0 && Ladder(c, rounds, Times(c, low, s), Times(c, unit, s), k) == Times(c, low + unit * kept, s)
    decreases rounds
  {
    hide PointAdd, OnCurve, IsCurve, Times;
    ProductNonnegative(unit, k % Exp2(rounds));
    if rounds == 0 || k == 0 {
      SmallMod(0, Exp2(rounds));
      assert unit * 0 == 0;
      assert k % 1 == 0;
    } else {
      var low' := if k % 2 == 1 then low + unit else low;
      TimesSum(c, low, unit, s);
      TimesSum(c, unit, unit, s);
      LadderFrom(c, rounds - 1, s, k / 2, low', unit + unit);
      LowBits(k, Exp2(rounds - 1));
      HalfAndBit(low, unit, k % Exp2(rounds));
    }
  }

  /** The low bits of a number: its lowest, and those of its half. */
  lemma LowBits(k: int, e: nat)
    requires e > 0
    ensures var w := k % (2 * e); w >= 0 && w % 2 == k % 2 && w / 2 == (k / 2) % e
  {
    var h, q, w := k / 2, (k / 2) / e, (k / 2) % e;
    assert h == q * e + w;
    assert q * (2 * e) == 2 * (q * e);
    QuotientIsUnique(k, q, 2 * w + k % 2, 2 * e);
  }

  lemma HalfAndBit(low: nat, unit: nat, k: nat)
    ensures low + unit * k == (if k % 2 == 1 then low + unit else low) + (unit + unit) * (k / 2)
  {
    var h := k / 2;
    assert unit * (2 * h) == (unit + unit) * h;
    assert unit * (2 * h + 1) == unit * (2 * h) + unit;
  }

  lemma {:induction false} Exp2Exceeds(n: nat)
    ensures n < Exp2(n)
  {
    if n > 0 {
      Exp2Exceeds(n - 1);
    }
  }
}
