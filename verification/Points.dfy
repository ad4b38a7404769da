/** Affine points of a short Weierstrass curve, and their addition by chord and tangent: the
    sum of two points of the curve lies on it, opposite to where their line meets it again. */
module Points {
  import opened Modular
  import opened Primes

  datatype Point = Infinity | Affine(x: int, y: int)

  datatype Params = Params(p: nat, n: nat, a: int, b: int, g: Point)

  function ChordSlope(c: Params, x1: int, y1: int, x2: int, y2: int): nat
    requires c.p > 2
  {
    (y2 - y1) * PowMod(x2 - x1, c.p - 2, c.p) % c.p
  }

  function ChordAdd(c: Params, x1: int, y1: int, x2: int, y2: int): Point
    requires c.p > 2
  {
    var lam := ChordSlope(c, x1, y1, x2, y2);
    var x3 := (lam * lam - x1 - x2) % c.p;
    Affine(x3, (lam * (x1 - x3) - y1) % c.p)
  }

  function TangentSlope(c: Params, x1: int, y1: int): nat
    requires c.p > 2
  {
    (3 * x1 * x1 + c.a) * PowMod(2 * y1, c.p - 2, c.p) % c.p
  }

  function TangentDouble(c: Params, x1: int, y1: int): Point
    requires c.p > 2
  {
    var lam := TangentSlope(c, x1, y1);
    var x3 := (lam * lam - 2 * x1) % c.p;
    Affine(x3, (lam * (x1 - x3) - y1) % c.p)
  }

  function PointAdd(c: Params, s: Point, t: Point): Point
    requires c.p > 2
  {
    if s.Infinity? then t
    else if t.Infinity? then s
    else if s.x == t.x then
      if (s.y + t.y) % c.p == 0 then Infinity else TangentDouble(c, s.x, s.y)
    else ChordAdd(c, s.x, s.y, t.x, t.y)
  }

  function Cubic(c: Params, x: int): int {
    x * x * x + c.a * x + c.b
  }

  predicate OnCurve(c: Params, s: Point)
    requires c.p > 2
  {
    s.Affine? ==> 0 <= s.x < c.p && 0 <= s.y < c.p && Cong(s.y * s.y, Cubic(c, s.x), c.p)
  }

  function Opposite(c: Params, s: Point): Point
    requires c.p > 2
  {
    if s.Infinity? then Infinity else Affine(s.x, (c.p - s.y) % c.p)
  }

  lemma NegatedResidue(y: int, m: nat)
    requires m > 0
    ensures var z := (m - y) % m; Cong(z * z, y * y, m) && Cong(y + z, 0, m)
  {
    var z := (m - y) % m;
    CongReduced(m - y, m);
    AddMultiple(-y, 1, m);
    CongMul(z, -y, z, -y, m);
    assert (-y) * (-y) == y * y;
    CongAdd(y, y, z, -y, m);
  }

  // ----- the line through two points -----

  /** The curve's equation on the line of slope `m` through (x1, y1), `u` away from it: a cubic
      in `u` with these coefficients. */
  function LinearTerm(c: Params, m: int, x1: int, y1: int): int {
    3 * x1 * x1 + c.a - 2 * m * y1
  }

  function SquareTerm(m: int, x1: int): int {
    3 * x1 - m * m
  }

  lemma OnTheLine(c: Params, m: int, x1: int, y1: int, u: int)
    ensures var y := m * u + y1;
      Cubic(c, x1 + u) - y * y ==
        u * (u * u + SquareTerm(m, x1) * u + LinearTerm(c, m, x1, y1)) + (Cubic(c, x1) - y1 * y1)
  {
    CubeOfSum(x1, u);
    SquareOfSum(m * u, y1);
    assert (m * u) * (m * u) == m * m * u * u;
    assert c.a * (x1 + u) == c.a * x1 + c.a * u;
    var q, l := SquareTerm(m, x1), LinearTerm(c, m, x1, y1);
    assert u * (u * u + q * u + l) == u * u * u + q * u * u + l * u;
    assert q * u * u == 3 * x1 * u * u - m * m * u * u;
    assert l * u == 3 * x1 * x1 * u + c.a * u - 2 * m * y1 * u;
  }

  lemma CubeOfSum(x: int, u: int)
    ensures (x + u) * (x + u) * (x + u) == x * x * x + 3 * x * x * u + 3 * x * u * u + u * u * u
  {}

  lemma SquareOfSum(x: int, y: int)
    ensures (x + y) * (x + y) == x * x + 2 * x * y + y * y
  {}

  /** A line that meets the curve `v` away from one of its points meets it a third time where
      the three roots have the right sum. */
  lemma ThirdPoint(c: Params, m: int, x1: int, y1: int, v: int)
    requires c.p > 2 && Cong(y1 * y1, Cubic(c, x1), c.p)
    requires Cong(v * v + SquareTerm(m, x1) * v + LinearTerm(c, m, x1, y1), 0, c.p)
    ensures var u := -SquareTerm(m, x1) - v; var y := m * u + y1; Cong(Cubic(c, x1 + u), y * y, c.p)
  {
    var q, l := SquareTerm(m, x1), LinearTerm(c, m, x1, y1);
    var u := -q - v;
    var y := m * u + y1;
    OnTheLine(c, m, x1, y1, u);
    assert u * u + q * u + l == v * v + q * v + l;
    hide SquareTerm, LinearTerm, Cubic;
    CongMul(u, u, u * u + q * u + l, 0, c.p);
    CongAdd(Cubic(c, x1), y1 * y1, y1 * y1, y1 * y1, c.p);
    CongAdd(u * (u * u + q * u + l), u * 0, Cubic(c, x1) - y1 * y1, 0, c.p);
    CongAdd(Cubic(c, x1 + u) - y * y, 0, y * y, y * y, c.p);
  }

  /** The opposite of the third point, with reduced coordinates. */
  function AcrossLine(c: Params, m: int, x1: int, y1: int, x2: int): Point
    requires c.p > 2
  {
    var x3 := (m * m - x1 - x2) % c.p;
    Affine(x3, (m * (x1 - x3) - y1) % c.p)
  }

  lemma ThirdPointReduced(c: Params, m: int, x1: int, y1: int, x2: int)
    requires c.p > 2 && Cong(y1 * y1, Cubic(c, x1), c.p)
    requires var v := x2 - x1; Cong(v * v + SquareTerm(m, x1) * v + LinearTerm(c, m, x1, y1), 0, c.p)
    ensures OnCurve(c, AcrossLine(c, m, x1, y1, x2))
  {
    var u := -SquareTerm(m, x1) - (x2 - x1);
    var y := m * u + y1;
    ThirdPoint(c, m, x1, y1, x2 - x1);
    assert x1 + u == m * m - x1 - x2;
    var r := AcrossLine(c, m, x1, y1, x2);
    CongReduced(x1 + u, c.p);
    CubicCong(c, r.x, x1 + u);
    CongReduced(m * (x1 - r.x) - y1, c.p);
    CongAdd(x1, x1, r.x, x1 + u, c.p);
    CongMul(m, m, x1 - r.x, -u, c.p);
    CongAdd(m * (x1 - r.x), m * (-u), y1, y1, c.p);
    assert m * (-u) - y1 == -y;
    CongMul(r.y, -y, r.y, -y, c.p);
    assert (-y) * (-y) == y * y;
  }

  lemma CubicCong(c: Params, x: int, x': int)
    requires c.p > 2 && Cong(x, x', c.p)
    ensures Cong(Cubic(c, x), Cubic(c, x'), c.p)
  {
    CongMul(x, x', x, x', c.p);
    CongMul(x * x, x' * x', x, x', c.p);
    CongMul(c.a, c.a, x, x', c.p);
    CongAdd(x * x * x, x' * x' * x', c.a * x, c.a * x', c.p);
    CongAdd(x * x * x + c.a * x, x' * x' * x' + c.a * x', c.b, c.b, c.p);
  }

  // ----- slopes -----

  /** What the program divides by has an inverse. */
  lemma SlopeDivides(dy: int, dx: int, p: nat)
    requires IsOddPrime(p) && dx % p != 0
    ensures var m := dy * PowMod(dx, p - 2, p) % p; Cong(m * dx, dy, p)
  {
    var i := PowMod(dx, p - 2, p);
    InverseMod(dx, p);
    hide PowMod, IsOddPrime;
    LeftFactorMod(dy * i, dx, p);
    CongMul(dy, dy, dx * i, 1, p);
    assert dy * i * dx == dy * (dx * i);
  }

  /** The chord's second point is on its line, so the cubic vanishes there too. */
  lemma ChordVanishes(c: Params, m: int, x1: int, y1: int, x2: int, y2: int)
    requires IsOddPrime(c.p) && (x2 - x1) % c.p != 0 && Cong(m * (x2 - x1), y2 - y1, c.p)
    requires Cong(y1 * y1, Cubic(c, x1), c.p) && Cong(y2 * y2, Cubic(c, x2), c.p)
    ensures var v := x2 - x1; Cong(v * v + SquareTerm(m, x1) * v + LinearTerm(c, m, x1, y1), 0, c.p)
  {
    var v := x2 - x1;
    var f, y := v * v + SquareTerm(m, x1) * v + LinearTerm(c, m, x1, y1), m * v + y1;
    OnTheLine(c, m, x1, y1, v);
    hide SquareTerm, LinearTerm, Cubic;
    CongAdd(m * v, y2 - y1, y1, y1, c.p);
    CongMul(y, y2, y, y2, c.p);
    CongAdd(Cubic(c, x2), y2 * y2, y * y, y2 * y2, c.p);
    CongAdd(Cubic(c, x1), y1 * y1, y1 * y1, y1 * y1, c.p);
    CongAdd(Cubic(c, x2) - y * y, 0, Cubic(c, x1) - y1 * y1, 0, c.p);
    assert v * f == (Cubic(c, x2) - y * y) - (Cubic(c, x1) - y1 * y1);
    SmallMod(0, c.p);
    NonzeroProduct(v, f, c.p);
  }

  // ----- the sum of two points of the curve -----

  /** Twice a point's ordinate vanishes only where the point is its own opposite. */
  lemma SamePoint(c: Params, s: Point, t: Point)
    requires IsOddPrime(c.p) && OnCurve(c, s) && OnCurve(c, t) && s.Affine? && t.Affine?
    requires s.x == t.x && (s.y + t.y) % c.p != 0
    ensures s == t
  {
    SameSquares(s.y, t.y, c.p);
    AddMultiple(0, 1, c.p);
    SmallMod(0, c.p);
  }

  lemma DistinctAbscissas(x1: int, x2: int, p: nat)
    requires p > 0 && 0 <= x1 < p && 0 <= x2 < p && x1 != x2
    ensures (x2 - x1) % p != 0
  {
    if (x2 - x1) % p == 0 {
      ZeroResidue(x2 - x1, p);
    }
  }

  /** The sum of two points of the curve is a point of the curve. */
  lemma SumOnCurve(c: Params, s: Point, t: Point)
    requires IsOddPrime(c.p) && OnCurve(c, s) && OnCurve(c, t)
    ensures OnCurve(c, PointAdd(c, s, t))
  {
    if s.Affine? && t.Affine? {
      if s.x != t.x {
        DistinctAbscissas(s.x, t.x, c.p);
        SlopeDivides(t.y - s.y, t.x - s.x, c.p);
        var m := ChordSlope(c, s.x, s.y, t.x, t.y);
        ChordVanishes(c, m, s.x, s.y, t.x, t.y);
        ThirdPointReduced(c, m, s.x, s.y, t.x);
      } else if (s.y + t.y) % c.p != 0 {
        SamePoint(c, s, t);
        SlopeDivides(3 * s.x * s.x + c.a, 2 * s.y, c.p);
        var m := TangentSlope(c, s.x, s.y);
        TangentVanishes(c, m, s.x, s.y);
        ThirdPointReduced(c, m, s.x, s.y, s.x);
      }
    }
  }

  lemma TangentVanishes(c: Params, m: int, x1: int, y1: int)
    requires c.p > 2 && Cong(m * (2 * y1), 3 * x1 * x1 + c.a, c.p)
    ensures var v := x1 - x1; Cong(v * v + SquareTerm(m, x1) * v + LinearTerm(c, m, x1, y1), 0, c.p)
  {
    var slope := 3 * x1 * x1 + c.a;
    CongAdd(slope, slope, m * (2 * y1), slope, c.p);
    assert SquareTerm(m, x1) * 0 == 0;
    assert m * (2 * y1) == 2 * m * y1;
  }

  // ----- the law in terms of the line alone -----

  /** `r` is opposite to the third point of a line of slope dy / dx through (x1, y1) that meets
      the curve in the abscissas x1 and x2: its opposite lies on that line, and the three
      abscissas add up to the square of the slope. */
  predicate IsAcross(c: Params, x1: int, y1: int, x2: int, dx: int, dy: int, r: Point)
    requires c.p > 0
  {
    && r.Affine? && 0 <= r.x < c.p && 0 <= r.y < c.p
    && Cong((x1 + x2 + r.x) * (dx * dx), dy * dy, c.p)
    && Cong((-r.y - y1) * dx, dy * (r.x - x1), c.p)
  }

  lemma AbscissasSum(m: int, sum: int, x3: int, dx: int, dy: int, p: nat)
    requires p > 0 && Cong(m * dx, dy, p) && x3 == (m * m - sum) % p
    ensures Cong((sum + x3) * (dx * dx), dy * dy, p)
  {
    CongReduced(m * m - sum, p);
    CongAdd(sum, sum, x3, m * m - sum, p);
    CongMul(sum + x3, m * m, dx * dx, dx * dx, p);
    CongMul(m * dx, dy, m * dx, dy, p);
    assert m * m * (dx * dx) == (m * dx) * (m * dx);
  }

  lemma OppositeOnLine(m: int, x1: int, y1: int, x3: int, y3: int, dx: int, dy: int, p: nat)
    requires p > 0 && Cong(m * dx, dy, p) && y3 == (m * (x1 - x3) - y1) % p
    ensures Cong((-y3 - y1) * dx, dy * (x3 - x1), p)
  {
    var w := m * (x3 - x1);
    assert m * (x1 - x3) == -w;
    CongReduced(-w - y1, p);
    CongAdd(-y1, -y1, y3, -w - y1, p);
    CongMul(-y3 - y1, w, dx, dx, p);
    CongMul(m * dx, dy, x3 - x1, x3 - x1, p);
    assert w * dx == m * dx * (x3 - x1);
  }

  lemma AcrossLineIs(c: Params, m: int, x1: int, y1: int, x2: int, dx: int, dy: int)
    requires c.p > 2 && Cong(m * dx, dy, c.p)
    ensures IsAcross(c, x1, y1, x2, dx, dy, AcrossLine(c, m, x1, y1, x2))
  {
    var r := AcrossLine(c, m, x1, y1, x2);
    AbscissasSum(m, x1 + x2, r.x, dx, dy, c.p);
    OppositeOnLine(m, x1, y1, r.x, r.y, dx, dy, c.p);
  }

  /** Both coordinates are determined. */
  lemma AcrossIsUnique(c: Params, x1: int, y1: int, x2: int, dx: int, dy: int, r: Point, r': Point)
    requires IsOddPrime(c.p) && dx % c.p != 0
    requires IsAcross(c, x1, y1, x2, dx, dy, r) && IsAcross(c, x1, y1, x2, dx, dy, r')
    ensures r == r'
  {
    var p := c.p;
    NonzeroProduct(dx, dx, p);
    CancelFactor(dx * dx, x1 + x2 + r.x, x1 + x2 + r'.x, p);
    CongAdd(x1 + x2 + r.x, x1 + x2 + r'.x, x1 + x2, x1 + x2, p);
    SmallMod(r.x, p);
    SmallMod(r'.x, p);
    CancelFactor(dx, -r.y - y1, -r'.y - y1, p);
    CongAdd(-y1, -y1, -r.y - y1, -r'.y - y1, p);
    SmallMod(r.y, p);
    SmallMod(r'.y, p);
  }

  lemma CancelFactor(k: int, x: int, y: int, p: nat)
    requires IsOddPrime(p) && k % p != 0 && Cong(x * k, y * k, p)
    ensures Cong(x, y, p)
  {
    CongAdd(x * k, y * k, y * k, y * k, p);
    assert x * k - y * k == (x - y) * k;
    SmallMod(0, p);
    NonzeroProduct(x - y, k, p);
    CongAdd(x - y, 0, y, y, p);
  }

  /** The sum of two points with different abscissas is the point across their chord, and no
      other. */
  lemma ChordLaw(c: Params, s: Point, t: Point, r: Point)
    requires IsOddPrime(c.p) && s.Affine? && t.Affine? && (t.x - s.x) % c.p != 0
    ensures r == PointAdd(c, s, t) <==> IsAcross(c, s.x, s.y, t.x, t.x - s.x, t.y - s.y, r)
  {
    var dx, dy := t.x - s.x, t.y - s.y;
    if s.x == t.x {
      SmallMod(0, c.p);
    }
    SlopeDivides(dy, dx, c.p);
    AcrossLineIs(c, ChordSlope(c, s.x, s.y, t.x, t.y), s.x, s.y, t.x, dx, dy);
    if IsAcross(c, s.x, s.y, t.x, dx, dy, r) {
      AcrossIsUnique(c, s.x, s.y, t.x, dx, dy, r, PointAdd(c, s, t));
    }
  }

  /** Twice a point is the point across its tangent, and no other. */
  lemma TangentLaw(c: Params, s: Point, r: Point)
    requires IsOddPrime(c.p) && s.Affine? && (2 * s.y) % c.p != 0
    ensures r == PointAdd(c, s, s) <==> IsAcross(c, s.x, s.y, s.x, 2 * s.y, 3 * s.x * s.x + c.a, r)
  {
    var dx, dy := 2 * s.y, 3 * s.x * s.x + c.a;
    assert s.y + s.y == dx;
    SlopeDivides(dy, dx, c.p);
    AcrossLineIs(c, TangentSlope(c, s.x, s.y), s.x, s.y, s.x, dx, dy);
    if IsAcross(c, s.x, s.y, s.x, dx, dy, r) {
      AcrossIsUnique(c, s.x, s.y, s.x, dx, dy, r, PointAdd(c, s, s));
    }
  }

  /** The sum is at infinity exactly where the one point is the other's opposite. */
  lemma InfiniteSum(c: Params, s: Point, t: Point)
    requires IsOddPrime(c.p) && OnCurve(c, s) && OnCurve(c, t)
    ensures PointAdd(c, s, t) == Infinity <==> t == Opposite(c, s)
  {
    if s.Affine? && t.Affine? {
      SmallMod(0, c.p);
      AddMultiple(0, 1, c.p);
      if s.y == 0 {
        SmallMod(t.y, c.p);
      } else {
        SmallMod(c.p - s.y, c.p);
        if (s.y + t.y) % c.p == 0 {
          ZeroResidue(s.y + t.y, c.p);
        }
      }
      if s.y == 0 && s.x == t.x && (s.y + t.y) % c.p != 0 {
        SamePoint(c, s, t);
      }
    }
  }

  /** Addition of points of the curve commutes: a chord has no direction. */
  lemma SumCommutes(c: Params, s: Point, t: Point)
    requires IsOddPrime(c.p) && OnCurve(c, s) && OnCurve(c, t)
    ensures PointAdd(c, s, t) == PointAdd(c, t, s)
  {
    if s.Affine? && t.Affine? {
      if s.x != t.x {
        var r := PointAdd(c, s, t);
        DistinctAbscissas(s.x, t.x, c.p);
        DistinctAbscissas(t.x, s.x, c.p);
        ChordLaw(c, s, t, r);
        AcrossReversed(c, s.x, s.y, t.x, t.y, r);
        ChordLaw(c, t, s, r);
      } else if (s.y + t.y) % c.p != 0 {
        SamePoint(c, s, t);
      }
    }
  }

  lemma AcrossReversed(c: Params, x1: int, y1: int, x2: int, y2: int, r: Point)
    requires c.p > 2 && IsAcross(c, x1, y1, x2, x2 - x1, y2 - y1, r)
    ensures IsAcross(c, x2, y2, x1, x1 - x2, y1 - y2, r)
  {
    var dx, dy := x2 - x1, y2 - y1;
    assert (x1 - x2) * (x1 - x2) == dx * dx && (y1 - y2) * (y1 - y2) == dy * dy;
    // both sides move by dx dy and change their sign
    assert (-r.y - y2) * (x1 - x2) == dy * dx - (-r.y - y1) * dx;
    assert (y1 - y2) * (r.x - x2) == dy * dx - dy * (r.x - x1);
    CongAdd(dy * dx, dy * dx, (-r.y - y1) * dx, dy * (r.x - x1), c.p);
  }
}
