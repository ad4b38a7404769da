/** Commutative monoids and fields given by their operations, and powers in them. */
module Algebra {

  datatype Monoid<!T> = Monoid(one: T, mul: (T, T) -> T) {
    function Pow(x: T, n: nat): T {
      if n == 0 then one else mul(x, Pow(x, n - 1))
    }
  }

  // The laws are named, so that a proof appeals to the instances it needs.

  ghost predicate CommutesAt<T>(m: Monoid<T>, x: T, y: T) {
    m.mul(x, y) == m.mul(y, x)
  }

  ghost predicate AssociatesAt<T>(m: Monoid<T>, x: T, y: T, z: T) {
    m.mul(m.mul(x, y), z) == m.mul(x, m.mul(y, z))
  }

  ghost predicate UnitAt<T>(m: Monoid<T>, x: T) {
    m.mul(m.one, x) == x
  }

  ghost predicate IsCommutativeMonoid<T(!new)>(m: Monoid<T>) {
    && (forall x: T, y: T :: CommutesAt(m, x, y))
    && (forall x: T, y: T, z: T :: AssociatesAt(m, x, y, z))
    && (forall x: T :: UnitAt(m, x))
  }

  lemma Commutes<T(!new)>(m: Monoid<T>, x: T, y: T)
    requires IsCommutativeMonoid(m)
    ensures m.mul(x, y) == m.mul(y, x)
  {
    assert CommutesAt(m, x, y);
  }

  lemma Associates<T(!new)>(m: Monoid<T>, x: T, y: T, z: T)
    requires IsCommutativeMonoid(m)
    ensures m.mul(m.mul(x, y), z) == m.mul(x, m.mul(y, z))
  {
    assert AssociatesAt(m, x, y, z);
  }

  lemma Unit<T(!new)>(m: Monoid<T>, x: T)
    requires IsCommutativeMonoid(m)
    ensures m.mul(m.one, x) == x && m.mul(x, m.one) == x
  {
    assert UnitAt(m, x) && CommutesAt(m, x, m.one);
  }

  lemma {:induction false} PowOne<T(!new)>(m: Monoid<T>, n: nat)
    requires IsCommutativeMonoid(m)
    ensures m.Pow(m.one, n) == m.one
  {
    if n > 0 {
      PowOne(m, n - 1);
      Unit(m, m.one);
    }
  }

  lemma {:induction false} PowSum<T(!new)>(m: Monoid<T>, x: T, a: nat, b: nat)
    requires IsCommutativeMonoid(m)
    ensures m.Pow(x, a + b) == m.mul(m.Pow(x, a), m.Pow(x, b))
  {
    if a > 0 {
      PowSum(m, x, a - 1, b);
      Associates(m, x, m.Pow(x, a - 1), m.Pow(x, b));
    } else {
      Unit(m, m.Pow(x, b));
    }
  }

  lemma {:induction false} PowProduct<T(!new)>(m: Monoid<T>, x: T, a: nat, b: nat)
    requires IsCommutativeMonoid(m)
    ensures m.Pow(x, a * b) == m.Pow(m.Pow(x, a), b)
  {
    if b > 0 {
      PowProduct(m, x, a, b - 1);
      PowSum(m, x, a, a * (b - 1));
      assert a * b == a + a * (b - 1);
    } else {
      assert a * b == 0;
    }
  }

  /** Four factors regroup. */
  lemma Interchange<T(!new)>(m: Monoid<T>, a: T, b: T, c: T, d: T)
    requires IsCommutativeMonoid(m)
    ensures m.mul(m.mul(a, b), m.mul(c, d)) == m.mul(m.mul(a, c), m.mul(b, d))
  {
    Associates(m, a, b, m.mul(c, d));
    Associates(m, b, c, d);
    Commutes(m, b, c);
    Associates(m, c, b, d);
    Associates(m, a, c, m.mul(b, d));
  }

  lemma {:induction false} PowOfProduct<T(!new)>(m: Monoid<T>, x: T, y: T, n: nat)
    requires IsCommutativeMonoid(m)
    ensures m.Pow(m.mul(x, y), n) == m.mul(m.Pow(x, n), m.Pow(y, n))
  {
    if n > 0 {
      PowOfProduct(m, x, y, n - 1);
      Interchange(m, x, y, m.Pow(x, n - 1), m.Pow(y, n - 1));
    } else {
      Unit(m, m.one);
    }
  }

  lemma PowTwo<T(!new)>(m: Monoid<T>, x: T)
    requires IsCommutativeMonoid(m)
    ensures m.Pow(x, 1) == x && m.Pow(x, 2) == m.mul(x, x)
  {
    Unit(m, x);
    assert m.Pow(x, 1) == m.mul(x, m.Pow(x, 0));
    assert m.Pow(x, 2) == m.mul(x, m.Pow(x, 1));
  }

  function Exp2(n: nat): (r: nat)
    ensures r > 0
  {
    if n == 0 then 1 else 2 * Exp2(n - 1)
  }

  lemma {:induction false} Exp2Sum(a: nat, b: nat)
    ensures Exp2(a + b) == Exp2(a) * Exp2(b)
  {
    if a > 0 {
      Exp2Sum(a - 1, b);
      assert Exp2(a + b) == 2 * Exp2(a + b - 1);
    }
  }

  // ----- fields -----

  datatype Field<!T> = Field(zero: T, one: T, add: (T, T) -> T, neg: T -> T, mul: (T, T) -> T) {
    function Times(): Monoid<T> {
      Monoid(one, mul)
    }

    function Plus(): Monoid<T> {
      Monoid(zero, add)
    }
  }

  ghost predicate NegatesAt<T>(f: Field<T>, x: T) {
    f.add(x, f.neg(x)) == f.zero
  }

  ghost predicate DistributesAt<T>(f: Field<T>, x: T, y: T, z: T) {
    f.mul(x, f.add(y, z)) == f.add(f.mul(x, y), f.mul(x, z))
  }

  ghost predicate NoZeroDivisorsAt<T>(f: Field<T>, x: T, y: T) {
    f.mul(x, y) == f.zero ==> x == f.zero || y == f.zero
  }

  ghost predicate ExponentAt<T>(f: Field<T>, order: nat, x: T) {
    x != f.zero ==> f.Times().Pow(x, order) == f.one
  }

  /** The ring laws, no zero divisors, 1 different from -1, and `order` as an exponent of
      every nonzero element. */
  ghost predicate IsField<T(!new)>(f: Field<T>, order: nat) {
    && IsCommutativeMonoid(f.Times())
    && IsCommutativeMonoid(f.Plus())
    && (forall x: T :: NegatesAt(f, x))
    && (forall x: T, y: T, z: T :: DistributesAt(f, x, y, z))
    && (forall x: T, y: T :: NoZeroDivisorsAt(f, x, y))
    && f.one != f.zero && f.neg(f.one) != f.one
    && (forall x: T :: ExponentAt(f, order, x))
  }

  lemma Distributes<T(!new)>(f: Field<T>, order: nat, x: T, y: T, z: T)
    requires IsField(f, order)
    ensures f.mul(x, f.add(y, z)) == f.add(f.mul(x, y), f.mul(x, z))
    ensures f.mul(f.add(y, z), x) == f.add(f.mul(y, x), f.mul(z, x))
  {
    assert DistributesAt(f, x, y, z);
    Commutes(f.Times(), x, f.add(y, z));
    Commutes(f.Times(), x, y);
    Commutes(f.Times(), x, z);
  }

  /** What is added can be taken away. */
  lemma Cancels<T(!new)>(f: Field<T>, order: nat, x: T, y: T)
    requires IsField(f, order)
    ensures f.add(f.add(x, y), f.neg(y)) == x && f.add(f.add(x, f.neg(y)), y) == x
  {
    assert NegatesAt(f, y);
    Associates(f.Plus(), x, y, f.neg(y));
    Associates(f.Plus(), x, f.neg(y), y);
    Commutes(f.Plus(), y, f.neg(y));
    Unit(f.Plus(), x);
  }

  lemma Nonzero<T(!new)>(f: Field<T>, order: nat, x: T, y: T)
    requires IsField(f, order)
    ensures f.mul(x, y) == f.zero <==> x == f.zero || y == f.zero
  {
    assert NoZeroDivisorsAt(f, x, y);
    ZeroAnnihilates(f, order, x);
    ZeroAnnihilates(f, order, y);
    Commutes(f.Times(), x, y);
  }

  lemma ZeroAnnihilates<T(!new)>(f: Field<T>, order: nat, x: T)
    requires IsField(f, order)
    ensures f.mul(x, f.zero) == f.zero
  {
    var xz := f.mul(x, f.zero);
    Unit(f.Plus(), f.zero);
    Distributes(f, order, x, f.zero, f.zero);
    Cancels(f, order, xz, xz);
    Cancels(f, order, f.zero, xz);
    Unit(f.Plus(), xz);
  }

  /** The square roots of 1 are 1 and -1. */
  lemma RootsOfOne<T(!new)>(f: Field<T>, order: nat, y: T)
    requires IsField(f, order) && f.mul(y, y) == f.one
    ensures y == f.one || y == f.neg(f.one)
  {
    var minus := f.neg(f.one);
    var left := f.add(y, minus);
    var ym := f.mul(y, minus);
    // (y - 1) y + (y - 1) = (1 - y) + (y - 1) = 0
    Distributes(f, order, left, y, f.one);
    Distributes(f, order, y, y, minus);
    Commutes(f.Times(), minus, y);
    Unit(f.Times(), left);
    Unit(f.Times(), y);
    Interchange(f.Plus(), f.one, ym, minus, y);
    Commutes(f.Plus(), minus, y);
    // 1 + (-1) = 0 and y·(-1) + y = y·((-1) + 1) = 0
    Cancels(f, order, f.zero, f.one);
    Unit(f.Plus(), f.one);
    Unit(f.Plus(), minus);
    Commutes(f.Plus(), minus, f.one);
    Distributes(f, order, y, minus, f.one);
    ZeroAnnihilates(f, order, y);
    Unit(f.Plus(), f.zero);
    Nonzero(f, order, left, f.add(y, f.one));
    Cancels(f, order, y, minus);
    Cancels(f, order, y, f.one);
    if left == f.zero {
      Cancels(f, order, y, f.one);
      assert f.add(f.zero, f.one) == y;
    } else {
      assert f.add(f.zero, minus) == y;
    }
  }

  lemma MinusOneSquared<T(!new)>(f: Field<T>, order: nat)
    requires IsField(f, order)
    ensures f.mul(f.neg(f.one), f.neg(f.one)) == f.one
  {
    var minus := f.neg(f.one);
    // (-1)(-1) + (-1)·1 = (-1)·((-1) + 1) = 0, and adding 1 leaves (-1)(-1) = 1
    Cancels(f, order, f.zero, f.one);
    Unit(f.Plus(), f.one);
    Unit(f.Plus(), minus);
    Commutes(f.Plus(), minus, f.one);
    Unit(f.Times(), minus);
    Distributes(f, order, minus, minus, f.one);
    ZeroAnnihilates(f, order, minus);
    Cancels(f, order, f.mul(minus, minus), f.one);
  }
}
