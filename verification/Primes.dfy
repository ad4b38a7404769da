/** Odd primes: Euclid's lemma, Fermat's little theorem, inverses and square roots. */
module Primes {
  import opened Modular

  ghost predicate UndividedAt(m: nat, d: int) {
    1 < d < m ==> m % d != 0
  }

  ghost predicate IsOddPrime(m: nat) {
    m > 2 && m % 2 == 1 && forall d: int :: UndividedAt(m, d)
  }

  // ----- Euclid's lemma -----

  /** Dividing the prime by one factor leaves a smaller factor, down to 1. */
  lemma {:induction false} EuclidForResidue(m: nat, x: int, y: int)
    requires IsOddPrime(m) && 0 < x < m && x * y % m == 0
    ensures y % m == 0
    decreases x
  {
    if x > 1 {
      assert UndividedAt(m, x);
      var q, r := m / x, m % x;
      RemainderTimes(m, x, y, q, r);
      EuclidForResidue(m, r, y);
    } else {
      assert x * y == y;
    }
  }

  lemma RemainderTimes(m: nat, x: int, y: int, q: int, r: int)
    requires m > 0 && m == q * x + r && x * y % m == 0
    ensures r * y % m == 0
  {
    var k := x * y / m;
    assert x * y == k * m;
    assert r * y == m * y - q * (x * y);
    assert q * (k * m) == (q * k) * m;
    Congruent(r * y, 0, y - q * k, m);
    SmallMod(0, m);
  }

  lemma NonzeroProduct(x: int, y: int, m: nat)
    requires IsOddPrime(m)
    ensures x * y % m == 0 <==> x % m == 0 || y % m == 0
  {
    var x', y' := x % m, y % m;
    ProductMod(x, y, m);
    LeftFactorMod(x, y, m);
    SmallMod(0, m);
    if x' == 0 || y' == 0 {
      assert x' * y' == 0;
    } else if x * y % m == 0 {
      EuclidForResidue(m, x', y);
    }
  }

  // ----- Fermat's little theorem, through the binomial coefficients -----

  function Choose(n: nat, k: nat): nat {
    if k == 0 then 1
    else if n == 0 then 0
    else Choose(n - 1, k - 1) + Choose(n - 1, k)
  }

  lemma {:induction false} ChooseBeyond(n: nat, k: nat)
    requires k > n
    ensures Choose(n, k) == 0
  {
    if n > 0 {
      ChooseBeyond(n - 1, k - 1);
      ChooseBeyond(n - 1, k);
    }
  }

  lemma {:induction false} ChooseAll(n: nat)
    ensures Choose(n, n) == 1
  {
    if n > 0 {
      ChooseAll(n - 1);
      ChooseBeyond(n - 1, n);
    }
  }

  lemma {:induction false} Absorption(n: nat, k: nat)
    requires n > 0 && k > 0
    ensures k * Choose(n, k) == n * Choose(n - 1, k - 1)
  {
    if n == 1 {
      if k > 1 {
        ChooseBeyond(1, k);
      }
    } else {
      Absorption(n - 1, k);
      if k > 1 {
        Absorption(n - 1, k - 1);
        AbsorptionStep(n, k, Choose(n - 1, k - 1), Choose(n - 1, k), Choose(n - 2, k - 2), Choose(n - 2, k - 1));
      }
    }
  }

  lemma AbsorptionStep(n: int, k: int, a: int, b: int, a': int, b': int)
    requires k * b == (n - 1) * b' && (k - 1) * a == (n - 1) * a' && a == a' + b'
    ensures k * (a + b) == n * a
  {
    assert k * (a + b) == (k - 1) * a + a + k * b;
    assert (n - 1) * a' + (n - 1) * b' == (n - 1) * (a' + b');
    assert n * a == (n - 1) * a + a;
  }

  /** A prime divides its binomial coefficients but the outer two. */
  lemma InnerChooseVanishes(m: nat, k: nat)
    requires IsOddPrime(m) && 0 < k < m
    ensures Choose(m, k) % m == 0
  {
    Absorption(m, k);
    Congruent(m * Choose(m - 1, k - 1), 0, Choose(m - 1, k - 1), m);
    SmallMod(0, m);
    EuclidForResidue(m, k, Choose(m, k));
  }

  function Power(x: int, n: nat): int {
    if n == 0 then 1 else x * Power(x, n - 1)
  }

  /** The first `m` terms of the expansion of (x + 1)^n. */
  function Expansion(n: nat, m: nat, x: int): int {
    if m == 0 then 0 else Expansion(n, m - 1, x) + Choose(n, m - 1) * Power(x, m - 1)
  }

  lemma {:induction false} ExpansionStep(n: nat, m: nat, x: int)
    ensures Expansion(n + 1, m + 1, x) == Expansion(n, m + 1, x) + x * Expansion(n, m, x)
  {
    if m > 0 {
      ExpansionStep(n, m - 1, x);
      PascalTerm(Choose(n, m - 1), Choose(n, m), x, Power(x, m - 1), Expansion(n, m - 1, x));
    }
  }

  lemma PascalTerm(a: int, b: int, x: int, w: int, e: int)
    ensures (a + b) * (x * w) + x * e == b * (x * w) + x * (e + a * w)
  {}

  lemma {:induction false} Binomial(n: nat, x: int)
    ensures Power(x + 1, n) == Expansion(n, n + 1, x)
  {
    if n > 0 {
      Binomial(n - 1, x);
      ExpansionStep(n - 1, n, x);
      ChooseBeyond(n - 1, n);
      var e := Expansion(n - 1, n, x);
      assert (x + 1) * e == e + x * e;
      assert Choose(n - 1, n) * Power(x, n) == 0;
    } else {
      assert Expansion(0, 1, x) == Expansion(0, 0, x) + Choose(0, 0) * Power(x, 0);
    }
  }

  lemma {:induction false} InnerTermsVanish(m: nat, k: nat, x: int)
    requires IsOddPrime(m) && 1 <= k <= m
    ensures Cong(Expansion(m, k, x), 1, m)
  {
    if k > 1 {
      InnerTermsVanish(m, k - 1, x);
      InnerChooseVanishes(m, k - 1);
      SmallMod(0, m);
      CongMul(Choose(m, k - 1), 0, Power(x, k - 1), Power(x, k - 1), m);
      CongAdd(Expansion(m, k - 1, x), 1, Choose(m, k - 1) * Power(x, k - 1), 0 * Power(x, k - 1), m);
      assert 0 * Power(x, k - 1) == 0;
    } else {
      assert Expansion(m, 1, x) == Expansion(m, 0, x) + Choose(m, 0) * Power(x, 0);
    }
  }

  lemma {:induction false} PowerOfPrime(m: nat, x: nat)
    requires IsOddPrime(m)
    ensures Cong(Power(x, m), x, m)
  {
    if x > 0 {
      PowerOfPrime(m, x - 1);
      Binomial(m, x - 1);
      InnerTermsVanish(m, m, x - 1);
      ChooseAll(m);
      assert Choose(m, m) * Power(x - 1, m) == Power(x - 1, m);
      CongAdd(Expansion(m, m, x - 1), 1, Power(x - 1, m), x - 1, m);
    } else {
      assert Power(0, m) == 0 * Power(0, m - 1);
    }
  }

  lemma {:induction false} PowModIsPower(x: int, e: nat, n: nat)
    requires n > 0
    ensures PowMod(x, e, n) == Power(x, e) % n
  {
    if e > 0 {
      PowModIsPower(x, e - 1, n);
      LeftFactorMod(Power(x, e - 1), x, n);
    }
  }

  lemma Fermat(m: nat, x: nat)
    requires IsOddPrime(m) && 0 < x < m
    ensures PowMod(x, m - 1, m) == 1
  {
    var w := Power(x, m - 1);
    PowerOfPrime(m, x);
    assert Power(x, m) == x * w;
    CongAdd(x * w, x, x, x, m);
    assert x * w - x == x * (w - 1);
    SmallMod(0, m);
    EuclidForResidue(m, x, w - 1);
    CongAdd(w - 1, 0, 1, 1, m);
    SmallMod(1, m);
    PowModIsPower(x, m - 1, m);
  }

  // ----- inverses -----

  /** The program's inverse, `pow(x, m - 2, m)`, is one. */
  lemma InverseMod(x: int, m: nat)
    requires IsOddPrime(m) && x % m != 0
    ensures Cong(x * PowMod(x, m - 2, m), 1, m)
  {
    var y := x % m;
    CongReduced(x, m);
    PowModCong(x, y, m - 2, m);
    Fermat(m, y);
    assert PowMod(y, m - 1, m) == y * PowMod(y, m - 2, m) % m;
    LeftFactorMod(x, PowMod(y, m - 2, m), m);
    SmallMod(1, m);
  }

  /** Residues with the same square are equal or opposite. */
  lemma SameSquares(x: int, y: int, m: nat)
    requires IsOddPrime(m) && 0 <= x < m && 0 <= y < m && Cong(x * x, y * y, m)
    ensures x == y || x + y == m
  {
    var d := (x - y) * (x + y);
    assert d == x * x - y * y;
    CongAdd(x * x, y * y, y * y, y * y, m);
    SmallMod(0, m);
    NonzeroProduct(x - y, x + y, m);
    if (x - y) % m == 0 {
      ZeroResidue(x - y, m);
    } else {
      ZeroResidue(x + y, m);
    }
  }

  lemma ZeroResidue(z: int, m: nat)
    requires m > 0 && z % m == 0 && -(m as int) < z < 2 * m
    ensures z == 0 || z == m
  {
    var q := z / m;
    assert z == q * m;
    if q >= 2 {
      ProductNonnegative(q - 2, m);
    } else if q <= -1 {
      ProductNonnegative(-1 - q, m);
    }
  }
}
