/** Congruence, and powers modulo a number. */
module Modular {

  /** Adding multiples of the modulus changes nothing. */
  lemma {:induction false} AddMultiple(x: int, k: int, n: int)
    requires n > 0
    ensures (x + k * n) % n == x % n
    decreases if k >= 0 then k else -k
  {
    if k > 0 {
      AddMultiple(x, k - 1, n);
      assert x + k * n == (x + (k - 1) * n) + n;
      AddOnce(x + (k - 1) * n, n);
    } else if k < 0 {
      AddMultiple(x, k + 1, n);
      assert x + (k + 1) * n == (x + k * n) + n;
      AddOnce(x + k * n, n);
    }
  }

  lemma AddOnce(x: int, n: int)
    requires n > 0
    ensures (x + n) % n == x % n
  {
    var q, r := x / n, x % n;
    assert x + n == (q + 1) * n + r;
    QuotientIsUnique(x + n, q + 1, r, n);
  }

  lemma QuotientIsUnique(x: int, q: int, r: int, n: int)
    requires n > 0 && x == q * n + r && 0 <= r < n
    ensures x / n == q && x % n == r
  {
    var d := x / n - q;
    assert d * n == r - x % n;
    if d != 0 {
      MultipleIsLarge(d, n);
    }
  }

  lemma MultipleIsLarge(d: int, n: int)
    requires n > 0 && d != 0
    ensures d * n >= n || d * n <= -n
  {
    if d > 0 {
      ProductNonnegative(d - 1, n);
      assert (d - 1) * n == d * n - n;
    } else {
      ProductNonnegative(-d - 1, n);
      assert (-d - 1) * n == -(d * n) - n;
    }
  }

  lemma {:induction false} ProductNonnegative(a: nat, b: nat)
    ensures a * b >= 0
  {
    if a > 0 {
      ProductNonnegative(a - 1, b);
      assert a * b == (a - 1) * b + b;
    }
  }

  lemma Congruent(x: int, y: int, k: int, n: int)
    requires n > 0 && x == y + k * n
    ensures x % n == y % n
  {
    AddMultiple(y, k, n);
  }

  lemma SumMod(x: int, y: int, n: int)
    requires n > 0
    ensures (x % n + y % n) % n == (x + y) % n
    ensures (x % n + y) % n == (x + y) % n
    ensures (x + y % n) % n == (x + y) % n
  {
    Congruent(x + y, x % n + y % n, x / n + y / n, n);
    Congruent(x + y, x % n + y, x / n, n);
    Congruent(x + y, x + y % n, y / n, n);
  }

  lemma DifferenceMod(x: int, y: int, n: int)
    requires n > 0
    ensures (x % n - y % n) % n == (x - y) % n
    ensures (x % n - y) % n == (x - y) % n
    ensures (x - y % n) % n == (x - y) % n
  {
    Congruent(x - y, x % n - y % n, x / n - y / n, n);
    Congruent(x - y, x % n - y, x / n, n);
    Congruent(x - y, x - y % n, -(y / n), n);
  }

  lemma LeftFactorMod(x: int, y: int, n: int)
    requires n > 0
    ensures (x % n * y) % n == (x * y) % n
    ensures (y * (x % n)) % n == (y * x) % n
  {
    assert x * y == (x % n) * y + (x / n * y) * n by {
      assert x == x / n * n + x % n;
      assert (x / n * n + x % n) * y == (x % n) * y + (x / n * n) * y;
      assert (x / n * n) * y == (x / n * y) * n;
    }
    Congruent(x * y, (x % n) * y, x / n * y, n);
    assert y * (x % n) == (x % n) * y && y * x == x * y;
  }

  lemma ProductMod(x: int, y: int, n: int)
    requires n > 0
    ensures ((x % n) * (y % n)) % n == (x * y) % n
  {
    LeftFactorMod(x, y % n, n);
    LeftFactorMod(y, x, n);
  }

  /** `pow(b, e, n)`. */
  function PowMod(b: int, e: nat, n: nat): (r: nat)
    requires n > 0
    ensures r < n
  {
    if e == 0 then 1 % n else b * PowMod(b, e - 1, n) % n
  }

  // ----- congruence -----

  predicate Cong(x: int, y: int, n: nat)
    requires n > 0
  {
    x % n == y % n
  }

  lemma CongMul(x: int, x': int, y: int, y': int, n: nat)
    requires n > 0 && Cong(x, x', n) && Cong(y, y', n)
    ensures Cong(x * y, x' * y', n)
  {
    ProductMod(x, y, n);
    ProductMod(x', y', n);
  }

  lemma CongAdd(x: int, x': int, y: int, y': int, n: nat)
    requires n > 0 && Cong(x, x', n) && Cong(y, y', n)
    ensures Cong(x + y, x' + y', n) && Cong(x - y, x' - y', n)
  {
    SumMod(x, y, n);
    SumMod(x', y', n);
    DifferenceMod(x, y, n);
    DifferenceMod(x', y', n);
  }

  lemma CongReduced(x: int, n: nat)
    requires n > 0
    ensures Cong(x % n, x, n)
  {
    Congruent(x, x % n, x / n, n);
  }

  lemma SmallMod(x: int, n: nat)
    requires 0 <= x < n
    ensures x % n == x
  {
    QuotientIsUnique(x, 0, x, n);
  }

  // ----- powers -----

  lemma {:induction false} PowModCong(x: int, y: int, e: nat, n: nat)
    requires n > 0 && Cong(x, y, n)
    ensures PowMod(x, e, n) == PowMod(y, e, n)
  {
    if e > 0 {
      PowModCong(x, y, e - 1, n);
      CongMul(x, y, PowMod(x, e - 1, n), PowMod(x, e - 1, n), n);
    }
  }

  lemma PowModSumStep(x: int, whole: int, pa: int, pb: int, n: nat)
    requires n > 0 && Cong(whole, pa * pb, n)
    ensures Cong(x * whole % n, (x * pa % n) * pb, n)
  {
    CongReduced(x * whole, n);
    CongMul(x, x, whole, pa * pb, n);
    assert x * (pa * pb) == (x * pa) * pb;
    LeftFactorMod(x * pa, pb, n);
  }

  lemma {:induction false} PowModSum(x: int, a: nat, b: nat, n: nat)
    requires n > 0
    ensures Cong(PowMod(x, a + b, n), PowMod(x, a, n) * PowMod(x, b, n), n)
  {
    var pb := PowMod(x, b, n);
    if a > 0 {
      PowModSum(x, a - 1, b, n);
      PowModSumStep(x, PowMod(x, a + b - 1, n), PowMod(x, a - 1, n), pb, n);
    } else {
      LeftFactorMod(1, pb, n);
    }
  }

  lemma PowModOne(x: int, n: nat)
    requires n > 0
    ensures Cong(PowMod(x, 1, n), x, n) && Cong(PowMod(x, 2, n), x * x, n)
  {
    assert PowMod(x, 1, n) == x * PowMod(x, 0, n) % n;
    LeftFactorMod(1, x, n);
    CongReduced(x, n);
    assert PowMod(x, 2, n) == x * PowMod(x, 1, n) % n;
    CongReduced(x * PowMod(x, 1, n), n);
    CongMul(x, x, PowMod(x, 1, n), x, n);
  }

  lemma {:induction false} PowModProduct(x: int, a: nat, b: nat, n: nat)
    requires n > 0
    ensures PowMod(PowMod(x, a, n), b, n) == PowMod(x, a * b, n)
    decreases b
  {
    if b > 0 {
      PowModProduct(x, a, b - 1, n);
      ProductNonnegative(a, b - 1);
      PowModSum(x, a, a * (b - 1), n);
      assert a + a * (b - 1) == a * b;
      SmallMod(PowMod(x, a * b, n), n);
    } else {
      assert a * b == 0;
    }
  }
}
