/** Square roots in a finite field of odd characteristic, by Tonelli and Shanks. */
module TonelliShanks {
  import opened Words
  import opened Algebra

  function Power<T>(f: Field<T>, x: T, n: nat): T {
    f.Times().Pow(x, n)
  }

  lemma PowerLaws<T(!new)>(f: Field<T>, order: nat, x: T, a: nat, b: nat)
    requires IsField(f, order)
    ensures Power(f, x, a + b) == f.mul(Power(f, x, a), Power(f, x, b))
    ensures Power(f, x, a * b) == Power(f, Power(f, x, a), b)
    ensures Power(f, x, 1) == x
  {
    PowSum(f.Times(), x, a, b);
    PowProduct(f.Times(), x, a, b);
    PowTwo(f.Times(), x);
  }

  lemma PowerOfZero<T(!new)>(f: Field<T>, order: nat, n: nat)
    requires IsField(f, order) && n > 0
    ensures Power(f, f.zero, n) == f.zero
  {
    var rest := Power(f, f.zero, n - 1);
    Nonzero(f, order, f.zero, rest);
    assert Power(f, f.zero, n) == f.mul(f.zero, rest);
  }

  /** Half the order takes every nonzero element to 1 or to -1. */
  lemma HalfPower<T(!new)>(f: Field<T>, order: nat, x: T)
    requires IsField(f, order) && order % 2 == 0 && x != f.zero
    ensures Power(f, x, order / 2) == f.one || Power(f, x, order / 2) == f.neg(f.one)
  {
    assert ExponentAt(f, order, x);
    PowerLaws(f, order, x, order / 2, order / 2);
    RootsOfOne(f, order, Power(f, x, order / 2));
  }

  /** Euler's criterion, the half that needs no primitive root. */
  lemma SquaresPassTheTest<T(!new)>(f: Field<T>, order: nat, x: T)
    requires IsField(f, order) && order % 2 == 0 && f.mul(x, x) != f.zero
    ensures Power(f, f.mul(x, x), order / 2) == f.one
  {
    Nonzero(f, order, x, x);
    PowTwo(f.Times(), x);
    assert ExponentAt(f, order, x);
    assert 2 * (order / 2) == order;
    PowerLaws(f, order, x, 2, order / 2);
  }

  lemma SquaredPower<T(!new)>(f: Field<T>, order: nat, x: T, i: nat)
    requires IsField(f, order)
    ensures f.mul(Power(f, x, Exp2(i)), Power(f, x, Exp2(i))) == Power(f, x, Exp2(i + 1))
  {
    PowerLaws(f, order, x, Exp2(i), Exp2(i));
    assert Exp2(i + 1) == Exp2(i) + Exp2(i);
  }

  /** What the outer loop keeps. */
  ghost predicate Balanced<T>(f: Field<T>, a: T, m: nat, c: T, t: T, r: T) {
    && m >= 1
    && f.mul(r, r) == f.mul(a, t)
    && Power(f, t, Exp2(m - 1)) == f.one
    && Power(f, c, Exp2(m - 1)) == f.neg(f.one)
  }

  /** The odd part of the order, and half of the rest. */
  lemma OddPart(order: nat, q: nat, s: nat)
    requires s >= 1 && q * Exp2(s) == order
    ensures q * Exp2(s - 1) == order / 2
  {
    assert Exp2(s) == 2 * Exp2(s - 1);
    assert q * (2 * Exp2(s - 1)) == 2 * (q * Exp2(s - 1));
  }

  lemma RootOfOddPart<T(!new)>(f: Field<T>, order: nat, a: T, q: nat)
    requires IsField(f, order) && q % 2 == 1
    ensures var r := Power(f, a, (q + 1) / 2); f.mul(r, r) == f.mul(a, Power(f, a, q))
  {
    hide IsField, Power;
    PowerLaws(f, order, a, (q + 1) / 2, (q + 1) / 2);
    PowerLaws(f, order, a, 1, q);
    assert (q + 1) / 2 + (q + 1) / 2 == 1 + q;
  }

  lemma InitiallyBalanced<T(!new)>(f: Field<T>, order: nat, a: T, z: T, q: nat, s: nat)
    requires IsField(f, order) && order % 2 == 0
    requires s >= 1 && q % 2 == 1 && q * Exp2(s) == order
    requires Power(f, a, order / 2) == f.one && z != f.zero && Power(f, z, order / 2) != f.one
    ensures Balanced(f, a, s, Power(f, z, q), Power(f, a, q), Power(f, a, (q + 1) / 2))
  {
    hide IsField, Power, Exp2;
    OddPart(order, q, s);
    PowerLaws(f, order, a, q, Exp2(s - 1));
    PowerLaws(f, order, z, q, Exp2(s - 1));
    HalfPower(f, order, z);
    RootOfOddPart(f, order, a, q);
  }

  /** One round: `i` squarings take `t` to 1 and no fewer do. */
  lemma RoundKeepsBalance<T(!new)>(f: Field<T>, order: nat, a: T, m: nat, c: T, t: T, r: T, i: nat)
    requires IsField(f, order) && Balanced(f, a, m, c, t, r) && 1 <= i < m
    requires Power(f, t, Exp2(i)) == f.one && Power(f, t, Exp2(i - 1)) != f.one
    ensures var b := Power(f, c, Exp2(m - i - 1));
      Balanced(f, a, i, f.mul(b, b), f.mul(f.mul(t, b), b), f.mul(r, b))
  {
    var times, minus := f.Times(), f.neg(f.one);
    var b := Power(f, c, Exp2(m - i - 1));
    var bb := f.mul(b, b);
    // b² is c to the 2^(m - i), so 2^(i - 1) takes it where 2^(m - 1) takes c
    SquaredPower(f, order, c, m - i - 1);
    PowerLaws(f, order, c, Exp2(m - i), Exp2(i - 1));
    Exp2Sum(m - i, i - 1);
    assert Power(f, bb, Exp2(i - 1)) == minus;
    // t to the 2^(i - 1) squares to 1 without being 1
    SquaredPower(f, order, t, i - 1);
    RootsOfOne(f, order, Power(f, t, Exp2(i - 1)));
    Associates(times, t, b, b);
    PowOfProduct(times, t, bb, Exp2(i - 1));
    MinusOneSquared(f, order);
    // (r b)² = (a t) b²
    Interchange(times, r, b, r, b);
    Associates(times, a, t, bb);
  }

  lemma NotTheLast<T>(f: Field<T>, a: T, m: nat, c: T, t: T, r: T, i: nat)
    requires Balanced(f, a, m, c, t, r) && i < m && Power(f, t, Exp2(i)) != f.one
    ensures i + 1 < m
  {
    hide Power, Exp2;
  }

  /** `fq2_sqrt`: the test, the odd part of the order, the search for a non-residue, and the
      rounds. `candidate` lists the elements the search goes through; `bound` is the index
      of a non-residue among them. */
  method Sqrt<T(==, !new)>(f: Field<T>, order: nat, candidate: nat -> T, a: T, ghost bound: nat)
    returns (root: Option<T>)
    requires IsField(f, order) && order > 0 && order % 2 == 0
    requires forall j: nat :: candidate(j) != f.zero
    requires Power(f, candidate(bound), order / 2) != f.one
    ensures root.None? <==> Power(f, a, order / 2) != f.one
    ensures root.None? <==> a == f.zero || forall x :: f.mul(x, x) != a
    ensures root.Some? ==> f.mul(root.value, root.value) == a
  {
    if Power(f, a, order / 2) != f.one {
      forall x | a != f.zero && f.mul(x, x) == a ensures false {
        SquaresPassTheTest(f, order, x);
      }
      return None;
    }
    if a == f.zero {
      PowerOfZero(f, order, order / 2);
    }
    var q, s := order, 0;
    while q % 2 == 0
      invariant q > 0 && q * Exp2(s) == order && (s == 0 ==> q == order)
      decreases q
    {
      assert q * Exp2(s) == (q / 2) * Exp2(s + 1);
      q, s := q / 2, s + 1;
    }
    var j: nat := 0;
    while Power(f, candidate(j), order / 2) == f.one
      invariant j <= bound
      decreases bound - j
    {
      j := j + 1;
    }
    var m, c, t, r := s, Power(f, candidate(j), q), Power(f, a, q), Power(f, a, (q + 1) / 2);
    InitiallyBalanced(f, order, a, candidate(j), q, s);
    while t != f.one
      invariant Balanced(f, a, m, c, t, r)
      decreases m
    {
      var i, tt := 0, t;
      PowerLaws(f, order, t, 0, 0);
      while tt != f.one
        invariant i < m && tt == Power(f, t, Exp2(i))
        invariant i == 0 ==> tt == t
        invariant i > 0 ==> Power(f, t, Exp2(i - 1)) != f.one
        decreases m - i
      {
        SquaredPower(f, order, t, i);
        NotTheLast(f, a, m, c, t, r, i);
        tt := f.mul(tt, tt);
        i := i + 1;
      }
      var b := Power(f, c, Exp2(m - i - 1));
      RoundKeepsBalance(f, order, a, m, c, t, r, i);
      m, c, t, r := i, f.mul(b, b), f.mul(f.mul(t, b), b), f.mul(r, b);
    }
    Unit(f.Times(), a);
    root := Some(r);
  }

  /** Zero is a square, and is refused all the same. */
  lemma ZeroIsRefused<T(!new)>(f: Field<T>, order: nat)
    requires IsField(f, order) && order > 1
    ensures f.mul(f.zero, f.zero) == f.zero && Power(f, f.zero, order / 2) != f.one
  {
    ZeroAnnihilates(f, order, f.zero);
    PowerOfZero(f, order, order / 2);
  }
}
