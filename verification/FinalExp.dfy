/** The BLS12-381 final exponentiation, above the field arithmetic. */
module FinalExp {
  import opened Algebra
  import opened Modular

  const BLS_P: nat := 0x1a0111ea397fe69a4b1ba7b6434bacd764774b84f38512bf6730d2a0f6b0f6241eabfffeb153ffffb9feffffffffaaab
  const R_ORDER: nat := 0x73eda753299d7d483339d80809a1d80553bda402fffe5bfeffffffff00000001
  const BLS_X: nat := 0xd201000000010000

  /** The operations of the target field that the exponentiation uses. */
  datatype Target<!T> = Target(times: Monoid<T>, frob: T -> T, conj: T -> T, inv: T -> T)

  ghost predicate PowersAt<T>(t: Target<T>, p: nat, q: nat, y: T) {
    t.frob(y) == t.times.Pow(y, p) && t.conj(y) == t.times.Pow(y, q)
  }

  /** Multiplication is that of a commutative monoid, Frobenius the `p`-th power and `conj`
      the `q`-th. */
  ghost predicate IsTarget<T(!new)>(t: Target<T>, p: nat, q: nat) {
    IsCommutativeMonoid(t.times) && forall y: T :: PowersAt(t, p, q, y)
  }

  // ----- powers, most significant bit first -----

  /** The binary digits of a number, as `bin` writes them. */
  function Bits(e: nat): seq<bool> {
    if e < 2 then [e == 1] else Bits(e / 2) + [e % 2 == 1]
  }

  function BitsValue(bits: seq<bool>): nat {
    if bits == [] then 0
    else 2 * BitsValue(bits[..|bits| - 1]) + if bits[|bits| - 1] then 1 else 0
  }

  lemma {:induction false} BitsDenote(e: nat)
    ensures BitsValue(Bits(e)) == e
  {
    if e >= 2 {
      BitsDenote(e / 2);
      assert Bits(e)[..|Bits(e)| - 1] == Bits(e / 2);
    }
  }

  lemma SquareAndMultiply<T(!new)>(m: Monoid<T>, a: T, n: nat, r: T)
    requires IsCommutativeMonoid(m) && r == m.Pow(a, n)
    ensures m.Pow(a, 2 * n) == m.mul(r, r) && m.Pow(a, 2 * n + 1) == m.mul(m.mul(r, r), a)
  {
    hide IsCommutativeMonoid;
    PowSum(m, a, n, n);
    PowSum(m, a, n + n, 1);
    PowTwo(m, a);
  }

  /** `f12_pow`. */
  method F12Pow<T(!new)>(t: Target<T>, a: T, e: nat) returns (r: T)
    requires IsCommutativeMonoid(t.times)
    ensures r == t.times.Pow(a, e)
  {
    hide IsCommutativeMonoid, Bits, BitsValue;
    r := t.times.one;
    var bits := Bits(e);
    assert BitsValue(bits[..0]) == 0 by {
      NoBits();
    }
    for i := 0 to |bits|
      invariant r == t.times.Pow(a, BitsValue(bits[..i]))
    {
      NextBit(bits, i);
      SquareAndMultiply(t.times, a, BitsValue(bits[..i]), r);
      r := t.times.mul(r, r);
      if bits[i] {
        r := t.times.mul(r, a);
      }
    }
    assert bits[..|bits|] == bits;
    BitsDenote(e);
  }

  lemma NoBits()
    ensures BitsValue([]) == 0
  {}

  lemma NextBit(bits: seq<bool>, i: nat)
    requires i < |bits|
    ensures BitsValue(bits[..i + 1]) == 2 * BitsValue(bits[..i]) + if bits[i] then 1 else 0
  {
    assert bits[..i + 1][..i] == bits[..i];
  }

  // ----- exponents modulo p^6 + 1 -----

  /** `y` lies in the subgroup where `conj` inverts. */
  ghost predicate Unitary<T>(t: Target<T>, q: nat, y: T) {
    t.times.Pow(y, q + 1) == t.times.one
  }

  lemma PowersOfUnitary<T(!new)>(t: Target<T>, q: nat, y: T, k: nat)
    requires IsCommutativeMonoid(t.times) && Unitary(t, q, y)
    ensures Unitary(t, q, t.times.Pow(y, k))
  {
    PowProduct(t.times, y, k, q + 1);
    PowProduct(t.times, y, q + 1, k);
    PowOne(t.times, k);
    assert k * (q + 1) == (q + 1) * k;
  }

  /** Exponents of a unitary element count modulo `q + 1`. */
  lemma ReduceExponent<T(!new)>(t: Target<T>, q: nat, y: T, a: nat, k: nat, b: nat)
    requires IsCommutativeMonoid(t.times) && Unitary(t, q, y) && b == a + (q + 1) * k
    ensures t.times.Pow(y, b) == t.times.Pow(y, a)
  {
    PowSum(t.times, y, a, (q + 1) * k);
    PowProduct(t.times, y, q + 1, k);
    PowOne(t.times, k);
    Unit(t.times, t.times.Pow(y, a));
  }

  /** `f12_exp_x`: the power `-x`, by conjugation. */
  method F12ExpX<T(!new)>(t: Target<T>, ghost p: nat, ghost q: nat, x: nat, a: T) returns (r: T)
    requires IsTarget(t, p, q)
    ensures r == t.times.Pow(a, x * q)
  {
    var power := F12Pow(t, a, x);
    assert PowersAt(t, p, q, power);
    PowProduct(t.times, a, x, q);
    r := t.conj(power);
  }

  // ----- the exponent -----

  function EasyExponent(p: nat, q: nat): nat
    requires q > 0
  {
    (q - 1) * (p * p + 1)
  }

  /** (x - 1)² (x + p) (x² + p² - 1) + 3 for the negative parameter `-x`. */
  function HardExponent(p: nat, x: nat): nat
    requires 0 < x <= p
  {
    Product(Product(Product(x + 1, x + 1), p - x), SquareSum(p, x)) + 3
  }

  function Product(a: nat, b: nat): (r: nat)
    ensures r == a * b
  {
    ProductNonnegative(a, b);
    a * b
  }

  /** x² + p² - 1. */
  function SquareSum(p: nat, x: nat): (r: nat)
    requires 0 < x
    ensures r == x * x + p * p - 1
  {
    ProductNonnegative(p, p);
    ProductNonnegative(x - 1, x);
    x * x + p * p - 1
  }

  lemma EasyPart<T(!new)>(t: Target<T>, p: nat, q: nat, f: T)
    requires IsTarget(t, p, q) && q > 0 && t.times.mul(f, t.inv(f)) == t.times.one
    ensures var y := t.times.mul(t.conj(f), t.inv(f));
      t.times.mul(t.frob(t.frob(y)), y) == t.times.Pow(f, EasyExponent(p, q))
  {
    var m := t.times;
    var y := m.mul(t.conj(f), t.inv(f));
    assert PowersAt(t, p, q, f) && PowersAt(t, p, q, y) && PowersAt(t, p, q, t.frob(y));
    // conj(f) / f = f^(q - 1)
    PowSum(m, f, q - 1, 1);
    PowTwo(m, f);
    Associates(m, m.Pow(f, q - 1), f, t.inv(f));
    Unit(m, m.Pow(f, q - 1));
    assert y == m.Pow(f, q - 1);
    PowProduct(m, y, p, p);
    PowSum(m, y, p * p, 1);
    PowTwo(m, y);
    PowProduct(m, f, q - 1, p * p + 1);
  }

  lemma EasyPartIsUnitary<T(!new)>(t: Target<T>, p: nat, q: nat, f: T)
    requires IsCommutativeMonoid(t.times) && q > 0 && t.times.Pow(f, q * q - 1) == t.times.one
    ensures Unitary(t, q, t.times.Pow(f, EasyExponent(p, q)))
  {
    var e := EasyExponent(p, q);
    PowProduct(t.times, f, e, q + 1);
    RegroupEasy(p * p + 1, q);
    PowProduct(t.times, f, q * q - 1, p * p + 1);
    PowOne(t.times, p * p + 1);
  }

  lemma RegroupEasy(n: nat, q: nat)
    requires q > 0
    ensures ((q - 1) * n) * (q + 1) == (q * q - 1) * n && q * q - 1 >= 0
  {
    assert ((q - 1) * n) * (q + 1) == ((q - 1) * (q + 1)) * n;
    assert (q - 1) * (q + 1) == q * q - 1;
    assert q * q >= 1 by {
      if q > 1 {
        assert q * q == q + (q - 1) * q;
      }
    }
  }

  // ----- the hard part, one line of the program at a time -----

  lemma SquareReduces(n: nat, q: nat)
    requires q > 0
    ensures (n * q) * (n * q) == n * n + (q + 1) * Product(n * n, q - 1)
  {
    var s := n * n;
    assert (n * q) * (n * q) == s * (q * q);
    assert (q + 1) * (s * (q - 1)) == s * ((q + 1) * (q - 1));
    assert (q + 1) * (q - 1) == q * q - 1;
    assert s * (q * q - 1) == s * (q * q) - s;
  }

  /** Twice the power `-n` is the power `n²`. */
  lemma TwiceNegated<T(!new)>(t: Target<T>, q: nat, y: T, n: nat)
    requires IsCommutativeMonoid(t.times) && q > 0 && Unitary(t, q, y)
    ensures t.times.Pow(t.times.Pow(y, n * q), n * q) == t.times.Pow(y, n * n)
  {
    PowProduct(t.times, y, n * q, n * q);
    SquareReduces(n, q);
    ReduceExponent(t, q, y, n * n, Product(n * n, q - 1), (n * q) * (n * q));
  }

  /** y^-x · y^-1 = y^-(x + 1). */
  lemma TimesConjugate<T(!new)>(t: Target<T>, p: nat, q: nat, y: T, x: nat)
    requires IsTarget(t, p, q)
    ensures t.times.mul(t.times.Pow(y, x * q), t.conj(y)) == t.times.Pow(y, (x + 1) * q)
  {
    assert PowersAt(t, p, q, y);
    PowSum(t.times, y, x * q, q);
    assert x * q + q == (x + 1) * q;
  }

  /** y^-x · y^p = y^(p - x). */
  lemma TimesFrobenius<T(!new)>(t: Target<T>, p: nat, q: nat, y: T, x: nat)
    requires IsTarget(t, p, q) && Unitary(t, q, y) && x <= p
    ensures t.times.mul(t.times.Pow(y, x * q), t.frob(y)) == t.times.Pow(y, p - x)
  {
    assert PowersAt(t, p, q, y);
    PowSum(t.times, y, x * q, p);
    assert x * q + p == (p - x) + (q + 1) * x;
    ReduceExponent(t, q, y, p - x, x, x * q + p);
  }

  /** y^(x²) · y^(p²) · y^-1 = y^(x² + p² - 1). */
  lemma LastFactor<T(!new)>(t: Target<T>, p: nat, q: nat, y: T, x: nat)
    requires IsTarget(t, p, q) && Unitary(t, q, y) && x > 0
    ensures t.times.mul(t.times.mul(t.times.Pow(y, x * x), t.frob(t.frob(y))), t.conj(y)) ==
      t.times.Pow(y, SquareSum(p, x))
  {
    assert PowersAt(t, p, q, y) && PowersAt(t, p, q, t.frob(y));
    PowProduct(t.times, y, p, p);
    PowSum(t.times, y, x * x, p * p);
    PowSum(t.times, y, x * x + p * p, q);
    assert x * x + p * p + q == SquareSum(p, x) + (q + 1) * 1;
    ReduceExponent(t, q, y, SquareSum(p, x), 1, x * x + p * p + q);
  }

  lemma HardPower<T(!new)>(t: Target<T>, p: nat, x: nat, y: T)
    requires IsCommutativeMonoid(t.times) && 0 < x <= p
    ensures var m := t.times; var a := m.Pow(y, (x + 1) * (x + 1));
      m.mul(m.Pow(m.Pow(a, p - x), SquareSum(p, x)), m.mul(m.mul(y, y), y)) == m.Pow(y, HardExponent(p, x))
  {
    var m, n := t.times, Product(x + 1, x + 1);
    PowProduct(m, y, n, p - x);
    PowProduct(m, y, n * (p - x), SquareSum(p, x));
    PowTwo(m, y);
    PowSum(m, y, 2, 1);
    PowSum(m, y, Product(Product(n, p - x), SquareSum(p, x)), 3);
  }

  /** The line the program uses twice: the power `x - 1` for the negative parameter. */
  method XMinusOne<T(!new)>(t: Target<T>, ghost p: nat, ghost q: nat, x: nat, y: T) returns (r: T)
    requires IsTarget(t, p, q)
    ensures r == t.times.Pow(y, (x + 1) * q)
  {
    var yx := F12ExpX(t, p, q, x, y);
    TimesConjugate(t, p, q, y, x);
    r := t.times.mul(yx, t.conj(y));
  }

  /** The hard part of `final_exp`, without an inversion: `conj` stands for it. */
  method HardPart<T(!new)>(t: Target<T>, ghost p: nat, ghost q: nat, x: nat, m: T) returns (r: T)
    requires IsTarget(t, p, q) && 0 < x <= p && q > 0 && Unitary(t, q, m)
    ensures r == t.times.Pow(m, HardExponent(p, x))
  {
    hide HardExponent, SquareSum, Unitary, IsCommutativeMonoid;
    var a := XMinusOne(t, p, q, x, m);
    a := XMinusOne(t, p, q, x, a);
    TwiceNegated(t, q, m, x + 1);
    PowersOfUnitary(t, q, m, (x + 1) * (x + 1));
    var bx := F12ExpX(t, p, q, x, a);
    TimesFrobenius(t, p, q, a, x);
    var b := t.times.mul(bx, t.frob(a));
    PowersOfUnitary(t, q, a, p - x);
    var cx := F12ExpX(t, p, q, x, b);
    var c := F12ExpX(t, p, q, x, cx);
    TwiceNegated(t, q, b, x);
    LastFactor(t, p, q, b, x);
    c := t.times.mul(t.times.mul(c, t.frob(t.frob(b))), t.conj(b));
    var m3 := t.times.mul(t.times.mul(m, m), m);
    HardPower(t, p, x, m);
    r := t.times.mul(c, m3);
  }

  /** `final_exp`: for every invertible `f` with f^(q² - 1) = 1, the result is the power of
      `f` that the two exponents make. */
  method FinalExp<T(!new)>(t: Target<T>, ghost p: nat, ghost q: nat, x: nat, f: T) returns (r: T)
    requires IsTarget(t, p, q) && 0 < x <= p && q > 0
    requires t.times.mul(f, t.inv(f)) == t.times.one && t.times.Pow(f, q * q - 1) == t.times.one
    ensures r == t.times.Pow(f, Product(EasyExponent(p, q), HardExponent(p, x)))
  {
    hide HardExponent, EasyExponent, Unitary, IsCommutativeMonoid;
    var y := t.times.mul(t.conj(f), t.inv(f));
    var m := t.times.mul(t.frob(t.frob(y)), y);
    EasyPart(t, p, q, f);
    EasyPartIsUnitary(t, p, q, f);
    r := HardPart(t, p, q, x, m);
    PowProduct(t.times, f, EasyExponent(p, q), HardExponent(p, x));
  }

  // ----- what the exponent is for -----

  /** `p` and `r` are the values at `-x` of the polynomials that define the curve family. */
  predicate IsFamily(p: nat, r: nat, x: nat) {
    && r == x * x * x * x - x * x + 1
    && 3 * p == (x + 1) * (x + 1) * r - 3 * x
  }

  lemma BlsIsFamily()
    ensures IsFamily(BLS_P, R_ORDER, BLS_X) && 0 < BLS_X <= BLS_P
  {}

  lemma DifferenceOfSquares(a: int, b: int)
    ensures (a + b) * (a - b) == a * a - b * b
  {}

  lemma Regroup(r: int, n: int, d: int, e: int)
    ensures r * ((n * d) * e) == (n * r) * (d * e)
  {}

  /** 3 (p + x) (p - x) (p² + x² - 1) as a polynomial in the squares. */
  lemma Expand(p: int, x: int, u: int, v: int)
    requires u == p * p && v == x * x
    ensures (3 * (p + x)) * ((p - x) * (v + u - 1)) == 3 * (u * u - u - v * v + v)
  {
    DifferenceOfSquares(p, x);
    var e := v + u - 1;
    assert (3 * (p + x)) * ((p - x) * e) == 3 * (((p + x) * (p - x)) * e);
    DifferenceOfSquares(u, v);
    assert (u - v) * (v + u - 1) == (u + v) * (u - v) - (u - v);
  }

  lemma FourthPower(p: int, u: int)
    requires u == p * p
    ensures p * p * p * p == u * u
  {
    assert p * p * p * p == (p * p) * (p * p);
  }

  /** The hard exponent times the group order is 3 (p^4 - p² + 1). */
  lemma HardExponentValue(p: nat, r: nat, x: nat)
    requires IsFamily(p, r, x) && 0 < x <= p
    ensures r * HardExponent(p, x) == 3 * (p * p * p * p - p * p + 1)
  {
    var u, v, n := p * p, x * x, (x + 1) * (x + 1);
    FourthPower(p, u);
    FourthPower(x, v);
    var e := v + u - 1;
    Regroup(r, n, p - x, e);
    FamilyProduct(p, r, x, n);
    Expand(p, x, u, v);
    DistributeThree(r, (n * (p - x)) * e);
  }

  lemma FamilyProduct(p: nat, r: nat, x: nat, n: nat)
    requires IsFamily(p, r, x) && n == (x + 1) * (x + 1)
    ensures n * r == 3 * (p + x)
  {}

  lemma DistributeThree(r: int, h: int)
    ensures r * (h + 3) == r * h + 3 * r
  {}

  lemma SumOfCubes(u: int)
    ensures (u + 1) * (u * u - u + 1) == u * u * u + 1
  {
    assert (u + 1) * (u * u - u + 1) == u * (u * u) - u * u + u + u * u - u + 1;
  }

  lemma Associate(a: int, b: int, c: int)
    ensures (a * b) * c == a * (b * c)
  {}

  lemma SwapInner(a: int, b: int, c: int)
    ensures a * (b * c) == b * (a * c)
  {}

  lemma ExponentProduct(e: int, h: int, r: int, u: int, w: int, q: int)
    requires e == (q - 1) * (u + 1) && r * h == 3 * w && (u + 1) * w == q + 1
    ensures (e * h) * r == (q * q - 1) * 3
  {
    Associate(e, h, r);
    assert h * r == r * h;
    SwapInner(e, 3, w);
    Associate(q - 1, u + 1, w);
    assert (q - 1) * (q + 1) == q * q - 1;
  }

  lemma WholeExponent(p: nat, q: nat, r: nat, x: nat)
    requires IsFamily(p, r, x) && 0 < x <= p && q > 0 && q == p * p * (p * p) * (p * p)
    ensures Product(EasyExponent(p, q), HardExponent(p, x)) * r == (q * q - 1) * 3
  {
    hide IsFamily, HardExponent;
    var u := p * p;
    HardExponentValue(p, r, x);
    FourthPower(p, u);
    SumOfCubes(u);
    ExponentProduct(EasyExponent(p, q), HardExponent(p, x), r, u, u * u - u + 1, q);
  }

  /** The result of the final exponentiation lies in the group of order `r`: the exponent is
      3 (p^12 - 1) / r. */
  lemma ResultHasGroupOrder<T(!new)>(t: Target<T>, p: nat, q: nat, r: nat, x: nat, f: T)
    requires IsCommutativeMonoid(t.times) && IsFamily(p, r, x) && 0 < x <= p
    requires q > 0 && q == p * p * (p * p) * (p * p) && t.times.Pow(f, q * q - 1) == t.times.one
    ensures t.times.Pow(t.times.Pow(f, Product(EasyExponent(p, q), HardExponent(p, x))), r) == t.times.one
  {
    var e := Product(EasyExponent(p, q), HardExponent(p, x));
    WholeExponent(p, q, r, x);
    RegroupEasy(1, q);
    PowProduct(t.times, f, e, r);
    PowProduct(t.times, f, q * q - 1, 3);
    PowOne(t.times, 3);
  }
}
