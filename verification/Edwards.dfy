/**
 * Twisted Edwards addition a x^2 + y^2 = 1 + d x^2 y^2 over the field of p
 * elements: complete, closed and commutative when a is a square and d is not.
 */
module Edwards {
  import opened Modular
  import opened Primes
  import opened Field

  datatype Point = Point(x: int, y: int)

  datatype Curve = Curve(p: Modulus, a: int, d: int)

  /** The hypotheses on the curve: p is an odd prime, a a square, d^((p-1)/2) = -1. */
  ghost predicate Valid(cv: Curve) {
    OddPrime(cv.p) && IsSquare(cv.p, cv.a) && 2 <= cv.d < cv.p && NonResidue(cv.p, cv.d)
  }

  const IDENTITY := Point(0, 1)

  predicate Reduced(cv: Curve, pt: Point) {
    0 <= pt.x < cv.p && 0 <= pt.y < cv.p
  }

  predicate IsOnCurve(cv: Curve, pt: Point) {
    (cv.a * pt.x * pt.x + pt.y * pt.y) % cv.p == (1 + cv.d * pt.x * pt.x * pt.y * pt.y) % cv.p
  }

  predicate IsPoint(cv: Curve, pt: Point) {
    Reduced(cv, pt) && IsOnCurve(cv, pt)
  }

  function AddPoints(cv: Curve, p: Point, q: Point): Point {
    var k := (cv.d * p.x * q.x * p.y * q.y) % cv.p;
    Point(((p.x * q.y + p.y * q.x) * Inv(cv.p, 1 + k)) % cv.p,
          ((p.y * q.y - cv.a * p.x * q.x) * Inv(cv.p, 1 - k)) % cv.p)
  }

  // ---- completeness ----

  /** No square is d times a nonzero square. */
  lemma NoSquareRatio(p: int, d: int, u: int, w: int)
    requires OddPrime(p) && NonResidue(p, d) && Cong(p, u * u, d * (w * w))
    ensures w % p == 0
  {
    if w % p != 0 {
      var e := Inv(p, w);
      InvCancels(p, w);
      CongMul(p, e * w, 1, e * w, 1);
      CongMul(p, u * u, d * (w * w), e * e, e * e);
      CongMul(p, d, d, (e * w) * (e * w), 1);
      Exchange(u, u, e, e);
      Exchange(e, w, e, w);
      Assoc(d, w * w, e * e);
      assert IsRoot(p, u * e, d);
      NonResidueIsNoSquare(p, d);
      assert false;
    }
  }

  lemma SquareOfSum(p: Modulus, a: int, alpha: int, x: int, y: int, e: int)
    requires Cong(p, alpha * alpha, a) && e * e == 1
    ensures Cong(p, (alpha * x + e * y) * (alpha * x + e * y), (a * x * x + y * y) + 2 * e * (alpha * (x * y)))
  {
    ExpandSquare(alpha, x, y, e);
    CongMul(p, alpha * alpha, a, x * x, x * x);
    var rest := y * y + 2 * e * (alpha * (x * y));
    CongAdd(p, (alpha * alpha) * (x * x), a * (x * x), rest, rest);
    Assoc(a, x, x);
  }

  lemma ExpandSquare(alpha: int, x: int, y: int, e: int)
    requires e * e == 1
    ensures (alpha * x + e * y) * (alpha * x + e * y)
         == (alpha * alpha) * (x * x) + y * y + 2 * e * (alpha * (x * y))
  {
    BinomialSquare(alpha * x, e * y);
    Exchange(alpha, x, alpha, x);
    Exchange(e, y, e, y);
    Exchange(alpha, x, e, y);
    Assoc(e, alpha, x * y);
    Assoc(2, e, alpha * (x * y));
  }

  lemma BinomialSquare(x: int, y: int)
    ensures (x + y) * (x + y) == x * x + y * y + 2 * (x * y)
  {}

  /**
   * For t = x1 y1, u = x2 y2 with d t u = e = +-1, the left side of the curve
   * equation at point 1 is d t^2 times the one at point 2.
   */
  lemma ScaledCurve(p: Modulus, d: int, t: int, u: int, e: int, side1: int, side2: int)
    requires Cong(p, side1, 1 + d * (t * t)) && Cong(p, side2, 1 + d * (u * u))
    requires e * e == 1 && Cong(p, d * (t * u), e)
    ensures Cong(p, (d * (t * t)) * side2, side1)
  {
    var kappa, m := d * (t * u), d * (t * t);
    CongMul(p, kappa, e, kappa, e);
    CongMul(p, m, m, side2, 1 + d * (u * u));
    KappaSquared(d, t, u);
    CongAdd(p, m, m, kappa * kappa, 1);
  }

  lemma KappaSquared(d: int, t: int, u: int)
    ensures (d * (t * t)) * (1 + d * (u * u)) == d * (t * t) + (d * (t * u)) * (d * (t * u))
  {
    assert (t * t) * (u * u) == (t * u) * (t * u);
    var m, n := t * t, u * u;
    assert (d * m) * (d * n) == (d * d) * (m * n);
    assert (d * (t * u)) * (d * (t * u)) == (d * d) * ((t * u) * (t * u));
  }

  /** Adding the cross terms 2 s alpha u and 2 s e alpha t keeps that ratio. */
  lemma ScaledCross(p: Modulus, d: int, t: int, u: int, e: int, s: int, alpha: int, side1: int, side2: int)
    requires Cong(p, d * (t * u), e) && Cong(p, (d * (t * t)) * side2, side1)
    ensures Cong(p, (d * (t * t)) * (side2 + 2 * s * (alpha * u)), side1 + 2 * (s * e) * (alpha * t))
  {
    var kappa, m, f := d * (t * u), d * (t * t), 2 * s * (alpha * t);
    CrossTerms(d, t, u, e, s, alpha);
    CongMul(p, f, f, kappa, e);
    CongAdd(p, m * side2, side1, f * kappa, f * e);
    assert m * (side2 + 2 * s * (alpha * u)) == m * side2 + m * (2 * s * (alpha * u));
  }

  lemma CrossTerms(d: int, t: int, u: int, e: int, s: int, alpha: int)
    ensures (d * (t * t)) * (2 * s * (alpha * u)) == (2 * s * (alpha * t)) * (d * (t * u))
    ensures 2 * (s * e) * (alpha * t) == (2 * s * (alpha * t)) * e
  {
    var g := 2 * s;
    Exchange(d, t * t, g, alpha * u);
    Exchange(t, t, alpha, u);
    Exchange(g, alpha * t, d, t * u);
    Assoc(2, s, e);
    Assoc(g, e, alpha * t);
    Assoc(g, alpha * t, e);
  }

  lemma CurveSides(cv: Curve, pt: Point)
    requires IsOnCurve(cv, pt)
    ensures Cong(cv.p, cv.a * pt.x * pt.x + pt.y * pt.y, 1 + cv.d * ((pt.x * pt.y) * (pt.x * pt.y)))
  {
    assert cv.d * pt.x * pt.x * pt.y * pt.y == cv.d * ((pt.x * pt.y) * (pt.x * pt.y));
  }

  lemma CrossSquare(cv: Curve, alpha: int, p: Point, q: Point, e: int, s: int)
    requires IsOnCurve(cv, p) && IsOnCurve(cv, q) && Cong(cv.p, alpha * alpha, cv.a)
    requires e * e == 1 && s * s == 1 && Cong(cv.p, cv.d * ((p.x * p.y) * (q.x * q.y)), e)
    ensures var u, w := alpha * p.x + (s * e) * p.y, (p.x * p.y) * (alpha * q.x + s * q.y);
            Cong(cv.p, u * u, cv.d * (w * w))
  {
    var side1, side2 := cv.a * p.x * p.x + p.y * p.y, cv.a * q.x * q.x + q.y * q.y;
    var t, u, v := p.x * p.y, q.x * q.y, alpha * q.x + s * q.y;
    CurveSides(cv, p);
    CurveSides(cv, q);
    ScaledCurve(cv.p, cv.d, t, u, e, side1, side2);
    ScaledCross(cv.p, cv.d, t, u, e, s, alpha, side1, side2);
    UnitProduct(s, e);
    SquareOfSum(cv.p, cv.a, alpha, p.x, p.y, s * e);
    SquareOfSum(cv.p, cv.a, alpha, q.x, q.y, s);
    CongMul(cv.p, cv.d * (t * t), cv.d * (t * t), v * v, side2 + 2 * s * (alpha * u));
    SquareFactors(cv.d, t, v);
  }

  lemma UnitProduct(s: int, e: int)
    requires s * s == 1 && e * e == 1
    ensures (s * e) * (s * e) == 1
  {
    assert (s * e) * (s * e) == (s * s) * (e * e);
  }

  lemma SquareFactors(d: int, t: int, v: int)
    ensures (d * (t * t)) * (v * v) == d * ((t * v) * (t * v))
  {
    assert (t * t) * (v * v) == (t * v) * (t * v);
  }

  lemma CrossZero(cv: Curve, alpha: int, p: Point, q: Point, e: int, s: int)
    requires Valid(cv) && IsOnCurve(cv, p) && IsOnCurve(cv, q) && Cong(cv.p, alpha * alpha, cv.a)
    requires e * e == 1 && s * s == 1 && Cong(cv.p, cv.d * ((p.x * p.y) * (q.x * q.y)), e)
    ensures ((p.x * p.y) * (alpha * q.x + s * q.y)) % cv.p == 0
  {
    CrossSquare(cv, alpha, p, q, e, s);
    NoSquareRatio(cv.p, cv.d, alpha * p.x + (s * e) * p.y, (p.x * p.y) * (alpha * q.x + s * q.y));
  }

  lemma NotPlusMinusOne(cv: Curve, p: Point, q: Point, e: int)
    requires Valid(cv) && IsOnCurve(cv, p) && IsOnCurve(cv, q) && e * e == 1
    ensures !Cong(cv.p, cv.d * ((p.x * p.y) * (q.x * q.y)), e)
  {
    if Cong(cv.p, cv.d * ((p.x * p.y) * (q.x * q.y)), e) {
      var alpha :| IsRoot(cv.p, alpha, cv.a);
      CrossZero(cv, alpha, p, q, e, 1);
      CrossZero(cv, alpha, p, q, e, -1);
      KappaNotUnit(cv.p, cv.d, p.x * p.y, alpha, q.x, q.y, e);
      assert false;
    }
  }

  lemma KappaNotUnit(p: int, d: int, t: int, alpha: int, x: int, y: int, e: int)
    requires OddPrime(p) && e * e == 1
    requires (t * (alpha * x + 1 * y)) % p == 0 && (t * (alpha * x + -1 * y)) % p == 0
    ensures !Cong(p, d * (t * (x * y)), e)
  {
    BothZero(p, t, alpha * x, y);
    assert d * (t * (x * y)) == (t * y) * (d * x);
    UnitNotZero(p, d * x, t * y, d * (t * (x * y)), e);
  }

  lemma BothZero(p: int, t: int, a: int, y: int)
    requires OddPrime(p) && (t * (a + 1 * y)) % p == 0 && (t * (a + -1 * y)) % p == 0
    ensures (t * y) % p == 0
  {
    CongAdd(p, t * (a + 1 * y), 0, t * (a + -1 * y), 0);
    assert t * (a + 1 * y) - t * (a + -1 * y) == 2 * (t * y);
    TwiceZero(p, t * y);
  }

  lemma UnitNotZero(p: Modulus, c: int, z: int, kappa: int, e: int)
    requires kappa == z * c && z % p == 0 && e * e == 1
    ensures !Cong(p, kappa, e)
  {
    ZeroMul(p, z, c);
    if Cong(p, kappa, e) {
      ZeroMul(p, e, e);
      ModUnique(p, 1, 0, 1);
      assert false;
    }
  }

  lemma TwiceZero(p: int, v: int)
    requires OddPrime(p) && (2 * v) % p == 0
    ensures v % p == 0
  {
    OddPrimeIsOdd(p);
    ModUnique(p, 2, 0, 2);
    Euclid(p, 2, v);
  }

  /** Completeness: neither denominator of the addition law vanishes. */
  lemma Complete(cv: Curve, p: Point, q: Point)
    requires Valid(cv) && IsOnCurve(cv, p) && IsOnCurve(cv, q)
    ensures var k := (cv.d * p.x * q.x * p.y * q.y) % cv.p;
            (1 + k) % cv.p != 0 && (1 - k) % cv.p != 0
  {
    var kappa := cv.d * p.x * q.x * p.y * q.y;
    KappaFactors(cv.d, p.x, q.x, p.y, q.y);
    CongMod(cv.p, kappa);
    NotPlusMinusOne(cv, p, q, 1);
    NotPlusMinusOne(cv, p, q, -1);
    NonzeroDenominators(cv.p, kappa, kappa % cv.p);
  }

  lemma KappaFactors(d: int, x1: int, x2: int, y1: int, y2: int)
    ensures d * x1 * x2 * y1 * y2 == d * ((x1 * y1) * (x2 * y2))
  {
    assert x1 * x2 * y1 * y2 == (x1 * y1) * (x2 * y2);
    assert d * x1 * x2 * y1 * y2 == d * (x1 * x2 * y1 * y2);
  }

  lemma NonzeroDenominators(p: Modulus, kappa: int, k: int)
    requires Cong(p, k, kappa) && !Cong(p, kappa, 1) && !Cong(p, kappa, -1)
    ensures (1 + k) % p != 0 && (1 - k) % p != 0
  {
    CongZero(p, k, -1);
    CongZero(p, 1, k);
  }

  // ---- closure ----

  /** The four products of coordinates, and how they multiply. */
  ghost predicate Cross(x1: int, y1: int, x2: int, y2: int, p: int, q: int, r: int, s: int, w: int) {
    && p == x1 * y2 && q == y1 * x2 && r == y1 * y2 && s == x1 * x2 && w == (x1 * y1) * (x2 * y2)
  }

  lemma NumeratorSquares(a: int, x1: int, y1: int, x2: int, y2: int, p: int, q: int, r: int, s: int, w: int)
    requires Cross(x1, y1, x2, y2, p, q, r, s, w)
    ensures (p + q) * (p + q) == p * p + q * q + 2 * w
    ensures (r - a * s) * (r - a * s) == r * r + a * a * (s * s) - 2 * (a * w)
  {
    BinomialSquare(p, q);
    Exchange(x1, y2, y1, x2);
    BinomialSquare(r, -(a * s));
    Exchange(a, s, a, s);
    Slide(r, a, s);
    Exchange(y1, y2, x1, x2);
  }

  lemma SideProducts(a: int, x1: int, y1: int, x2: int, y2: int, p: int, q: int, r: int, s: int, w: int)
    requires Cross(x1, y1, x2, y2, p, q, r, s, w)
    ensures (a * (x1 * x1) + y1 * y1) * (a * (x2 * x2) + y2 * y2)
        == a * a * (s * s) + a * (p * p) + a * (q * q) + r * r
    ensures (y1 * y1 - a * (x1 * x1)) * (y2 * y2 - a * (x2 * x2))
        == r * r - a * (q * q) - a * (p * p) + a * a * (s * s)
  {
    SquareOfProduct(x1, y2);
    SquareOfProduct(y1, x2);
    SquareOfProduct(y1, y2);
    SquareOfProduct(x1, x2);
    TwoByTwo(a, x1 * x1, y1 * y1, x2 * x2, y2 * y2);
  }

  lemma NumeratorProduct(a: int, x1: int, y1: int, x2: int, y2: int, p: int, q: int, r: int, s: int, w: int)
    requires Cross(x1, y1, x2, y2, p, q, r, s, w)
    ensures (p + q) * (r - a * s)
        == (x1 * y1) * (y2 * y2 - a * (x2 * x2)) + (x2 * y2) * (y1 * y1 - a * (x1 * x1))
  {
    Exchange(x1, y2, y1, y2);
    Exchange(x2, y1, y2, y1);
    Exchange(y2, x1, x2, x1);
    Exchange(y1, x2, x1, x2);
    Spread(a, p, q, r, s, x1 * y1, x2 * y2, x1 * x1, y1 * y1, x2 * x2, y2 * y2);
  }

  /** The numerators u, v of the law against the two sides s1, s2 of the curve equation. */
  lemma Numerators(a: int, x1: int, y1: int, x2: int, y2: int, p: int, q: int, r: int, s: int, w: int)
    requires Cross(x1, y1, x2, y2, p, q, r, s, w)
    ensures var u, v := p + q, r - a * s;
            a * (u * u) + v * v == (a * (x1 * x1) + y1 * y1) * (a * (x2 * x2) + y2 * y2)
    ensures var u, v := p + q, r - a * s;
            (y1 * y1 - a * (x1 * x1)) * (y2 * y2 - a * (x2 * x2)) + a * (u * u) - v * v == 4 * (a * w)
  {
    NumeratorSquares(a, x1, y1, x2, y2, p, q, r, s, w);
    SideProducts(a, x1, y1, x2, y2, p, q, r, s, w);
    DistributeSum(a, p * p, q * q, 2 * w);
  }

  lemma DistributeSum(a: int, x: int, y: int, z: int)
    ensures a * (x + y + z) == a * x + a * y + a * z
  {}

  lemma SquareOfProduct(x: int, y: int)
    ensures (x * y) * (x * y) == (x * x) * (y * y)
  {}

  lemma TwoByTwo(a: int, m1: int, n1: int, m2: int, n2: int)
    ensures (a * m1 + n1) * (a * m2 + n2) == a * a * (m1 * m2) + a * (m1 * n2) + a * (n1 * m2) + n1 * n2
    ensures (n1 - a * m1) * (n2 - a * m2) == n1 * n2 - a * (n1 * m2) - a * (m1 * n2) + a * a * (m1 * m2)
  {
    Exchange(a, m1, a, m2);
    Assoc(a, m1, n2);
    Slide(n1, a, m2);
    TwoDifferences(a * m1, -n1, a * m2, -n2);
    TwoDifferences(n1, a * m1, n2, a * m2);
  }

  lemma Spread(a: int, p: int, q: int, r: int, s: int, t1: int, t2: int, m1: int, n1: int, m2: int, n2: int)
    requires p * r == t1 * n2 && q * r == t2 * n1 && p * s == t2 * m1 && q * s == t1 * m2
    ensures (p + q) * (r - a * s) == t1 * (n2 - a * m2) + t2 * (n1 - a * m1)
  {
    SumTimesDifference(p, q, r, a * s);
    Slide(p, a, s);
    Slide(q, a, s);
    TimesDifference(t1, n2, a * m2);
    Slide(t1, a, m2);
    TimesDifference(t2, n1, a * m1);
    Slide(t2, a, m1);
  }

  lemma Slide(x: int, a: int, y: int)
    ensures x * (a * y) == a * (x * y)
  {
    Assoc(x, a, y);
    Assoc(a, x, y);
  }

  lemma TimesDifference(x: int, y: int, z: int)
    ensures x * (y - z) == x * y - x * z
  {}

  lemma SumTimesDifference(p: int, q: int, r: int, s: int)
    ensures (p + q) * (r - s) == p * r + q * r - p * s - q * s
  {}

  /** The addition-law identity with its factors collected. */
  lemma LawIdentity(a: int, d: int, uu: int, vv: int, uv: int, w: int, t1: int, t2: int, s1: int, s2: int, d1: int, d2: int)
    requires w == t1 * t2 && uv * uv == uu * vv
    requires a * uu + vv == s1 * s2 && d1 * d2 + a * uu - vv == 4 * (a * w) && uv == t1 * d2 + t2 * d1
    requires s1 * s1 == d1 * d1 + 4 * (a * (t1 * t1)) && s2 * s2 == d2 * d2 + 4 * (a * (t2 * t2))
    ensures var k := d * w;
            a * uu * ((1 - k) * (1 - k)) + vv * ((1 + k) * (1 + k)) - d * (uu * vv)
            == (s1 - s2 * (d * (t1 * t1))) * (s2 - s1 * (d * (t2 * t2)))
  {
    var k, z := d * w, a * uu - vv;
    WeightedSquares(a * uu, vv, k);
    CrossSum(a, uu, vv, uv, w, t1, t2, s1, s2, d1, d2);
    FactorProduct(d, w, t1, t2, s1, s2);
    TwiceScaled(d, w, z);
    ScaleSum(d, uu * vv, 2 * w * z, (s1 * s1) * (t2 * t2) + (s2 * s2) * (t1 * t1));
  }

  lemma WeightedSquares(x: int, y: int, k: int)
    ensures x * ((1 - k) * (1 - k)) + y * ((1 + k) * (1 + k)) == (x + y) * (1 + k * k) - 2 * k * (x - y)
  {
    BinomialSquare(1, -k);
    BinomialSquare(1, k);
    var g, j := 1 + k * k, 2 * k;
    assert (1 - k) * (1 - k) == g - j && (1 + k) * (1 + k) == g + j;
    SplitWeights(x, y, g, j);
  }

  lemma SplitWeights(x: int, y: int, g: int, j: int)
    ensures x * (g - j) + y * (g + j) == (x + y) * g - j * (x - y)
  {}

  lemma TwiceScaled(d: int, w: int, z: int)
    ensures 2 * (d * w) * z == d * (2 * w * z)
  {
    Assoc(2, d * w, z);
    Assoc(d, w, z);
    Assoc(2, w, z);
    Assoc(d, w * z, 2);
  }

  lemma ScaleSum(d: int, x: int, y: int, sum: int)
    requires x + y == sum
    ensures d * x + d * y == d * sum
  {}

  lemma FactorProduct(d: int, w: int, t1: int, t2: int, s1: int, s2: int)
    requires w == t1 * t2
    ensures (s1 - s2 * (d * (t1 * t1))) * (s2 - s1 * (d * (t2 * t2)))
        == s1 * s2 * (1 + (d * w) * (d * w)) - d * ((s1 * s1) * (t2 * t2) + (s2 * s2) * (t1 * t1))
  {
    var m, n := d * (t1 * t1), d * (t2 * t2);
    Exchange(d, t1 * t1, d, t2 * t2);
    Exchange(t1, t1, t2, t2);
    Exchange(d, w, d, w);
    ExpandDifference(s1, s2, m, n);
    Assoc(d, t2 * t2, s1 * s1);
    Assoc(d, t1 * t1, s2 * s2);
    FactorEnds(s1 * s2, m * n, d, (s1 * s1) * (t2 * t2), (s2 * s2) * (t1 * t1));
  }

  lemma ExpandDifference(s1: int, s2: int, m: int, n: int)
    ensures (s1 - s2 * m) * (s2 - s1 * n) == s1 * s2 - (s1 * s1) * n - (s2 * s2) * m + (s1 * s2) * (m * n)
  {
    Exchange(s2, m, s1, n);
    Assoc(s1, s1, n);
    Assoc(s2, s2, m);
    TwoDifferences(s1, s2 * m, s2, s1 * n);
  }

  lemma TwoDifferences(a: int, b: int, c: int, e: int)
    ensures (a - b) * (c - e) == a * c - a * e - b * c + b * e
  {}

  lemma FactorEnds(s: int, g: int, d: int, x: int, y: int)
    ensures s - d * x - d * y + s * g == s * (1 + g) - d * (x + y)
  {}

  lemma CrossSum(a: int, uu: int, vv: int, uv: int, w: int, t1: int, t2: int, s1: int, s2: int, d1: int, d2: int)
    requires w == t1 * t2 && uv * uv == uu * vv
    requires d1 * d2 + a * uu - vv == 4 * (a * w) && uv == t1 * d2 + t2 * d1
    requires s1 * s1 == d1 * d1 + 4 * (a * (t1 * t1)) && s2 * s2 == d2 * d2 + 4 * (a * (t2 * t2))
    ensures uu * vv + 2 * w * (a * uu - vv) == (s1 * s1) * (t2 * t2) + (s2 * s2) * (t1 * t1)
  {
    SquareOfCross(t1, t2, d1, d2);
    SidesScaled(a, t1, t2, d1);
    SidesScaled(a, t2, t1, d2);
    var z := a * uu - vv;
    TimesDifference(w, 4 * (a * w), d1 * d2);
    Slide(w, 4, a * w);
    Slide(w, a, w);
    Assoc(2, w, z);
    Assoc(2, w, d1 * d2);
  }

  lemma SquareOfCross(t1: int, t2: int, d1: int, d2: int)
    ensures var uv := t1 * d2 + t2 * d1;
            uv * uv == (d2 * d2) * (t1 * t1) + (d1 * d1) * (t2 * t2) + 2 * (t1 * t2) * (d1 * d2)
  {
    var f, g := t1 * d2, t2 * d1;
    assert (f + g) * (f + g) == f * f + g * g + 2 * (f * g);
    assert f * g == (t1 * t2) * (d1 * d2);
    SquareOfProduct(t1, d2);
    SquareOfProduct(t2, d1);
  }

  lemma SidesScaled(a: int, t1: int, t2: int, d1: int)
    ensures (d1 * d1 + 4 * (a * (t1 * t1))) * (t2 * t2)
        == (d1 * d1) * (t2 * t2) + 4 * (a * ((t1 * t2) * (t1 * t2)))
  {
    SquareOfProduct(t1, t2);
    assert (a * (t1 * t1)) * (t2 * t2) == a * ((t1 * t1) * (t2 * t2));
  }

  /** The sum of two points satisfies the curve equation before division. */
  lemma LawHolds(cv: Curve, p: Point, q: Point, u: int, v: int, k: int)
    requires IsOnCurve(cv, p) && IsOnCurve(cv, q)
    requires u == p.x * q.y + p.y * q.x && v == p.y * q.y - cv.a * p.x * q.x
    requires k == cv.d * ((p.x * p.y) * (q.x * q.y))
    ensures Cong(cv.p, cv.a * (u * u) * ((1 - k) * (1 - k)) + (v * v) * ((1 + k) * (1 + k)) - cv.d * ((u * u) * (v * v)),
                 ((1 - k) * (1 + k)) * ((1 - k) * (1 + k)))
  {
    var a, d, t1, t2 := cv.a, cv.d, p.x * p.y, q.x * q.y;
    var s1, s2 := a * (p.x * p.x) + p.y * p.y, a * (q.x * q.x) + q.y * q.y;
    LawAsProduct(a, d, p, q, u, v, k);
    CurveSides(cv, p);
    CurveSides(cv, q);
    Assoc(a, p.x, p.x);
    Assoc(a, q.x, q.x);
    SideFactors(cv.p, d, t1, t2, s1, s2, k);
  }

  lemma SideFactors(p: Modulus, d: int, t1: int, t2: int, s1: int, s2: int, k: int)
    requires Cong(p, s1, 1 + d * (t1 * t1)) && Cong(p, s2, 1 + d * (t2 * t2)) && k == d * (t1 * t2)
    ensures Cong(p, (s1 - s2 * (d * (t1 * t1))) * (s2 - s1 * (d * (t2 * t2))), ((1 - k) * (1 + k)) * ((1 - k) * (1 + k)))
  {
    assert t2 * t1 == t1 * t2;
    SideFactor(p, d, t1, t2, s1, s2);
    SideFactor(p, d, t2, t1, s2, s1);
    OneMinusSquare(k);
    CongMul(p, s1 - s2 * (d * (t1 * t1)), 1 - k * k, s2 - s1 * (d * (t2 * t2)), 1 - k * k);
  }

  lemma OneMinusSquare(k: int)
    ensures 1 - k * k == (1 - k) * (1 + k)
  {}

  lemma LawAsProduct(a: int, d: int, p: Point, q: Point, u: int, v: int, k: int)
    requires u == p.x * q.y + p.y * q.x && v == p.y * q.y - a * p.x * q.x
    requires k == d * ((p.x * p.y) * (q.x * q.y))
    ensures var t1, t2 := p.x * p.y, q.x * q.y;
            var s1, s2 := a * (p.x * p.x) + p.y * p.y, a * (q.x * q.x) + q.y * q.y;
            a * (u * u) * ((1 - k) * (1 - k)) + (v * v) * ((1 + k) * (1 + k)) - d * ((u * u) * (v * v))
            == (s1 - s2 * (d * (t1 * t1))) * (s2 - s1 * (d * (t2 * t2)))
  {
    var m, n, r, s := p.x * q.y, p.y * q.x, p.y * q.y, p.x * q.x;
    var t1, t2 := p.x * p.y, q.x * q.y;
    assert a * p.x * q.x == a * s;
    Numerators(a, p.x, p.y, q.x, q.y, m, n, r, s, t1 * t2);
    NumeratorProduct(a, p.x, p.y, q.x, q.y, m, n, r, s, t1 * t2);
    SquareOfProduct(u, v);
    SideSquare(a, p.x, p.y);
    SideSquare(a, q.x, q.y);
    LawIdentity(a, d, u * u, v * v, u * v, t1 * t2, t1, t2,
                a * (p.x * p.x) + p.y * p.y, a * (q.x * q.x) + q.y * q.y,
                p.y * p.y - a * (p.x * p.x), q.y * q.y - a * (q.x * q.x));
  }

  lemma SideSquare(a: int, x: int, y: int)
    ensures var s, d := a * (x * x) + y * y, y * y - a * (x * x);
            s * s == d * d + 4 * (a * ((x * y) * (x * y)))
  {
    var m, n := a * (x * x), y * y;
    assert (m + n) * (m + n) == (n - m) * (n - m) + 4 * (m * n);
    SquareOfProduct(x, y);
    assert m * n == a * ((x * x) * (y * y));
  }

  lemma SideFactor(p: Modulus, d: int, t1: int, t2: int, s1: int, s2: int)
    requires Cong(p, s1, 1 + d * (t1 * t1)) && Cong(p, s2, 1 + d * (t2 * t2))
    ensures Cong(p, s1 - s2 * (d * (t1 * t1)), 1 - (d * (t1 * t2)) * (d * (t1 * t2)))
  {
    var m := d * (t1 * t1);
    CongMul(p, s2, 1 + d * (t2 * t2), m, m);
    CongAdd(p, s1, 1 + m, s2 * m, (1 + d * (t2 * t2)) * m);
    KappaSquared(d, t1, t2);
    assert (1 + d * (t2 * t2)) * m == m * (1 + d * (t2 * t2));
  }

  /** Dividing by the squares of the denominators, through their inverses e and f. */
  lemma Divide(p: Modulus, a: int, d: int, u: int, v: int, k: int, e: int, f: int)
    requires Cong(p, e * (1 + k), 1) && Cong(p, f * (1 - k), 1)
    requires Cong(p, a * (u * u) * ((1 - k) * (1 - k)) + (v * v) * ((1 + k) * (1 + k)) - d * ((u * u) * (v * v)),
                  ((1 - k) * (1 + k)) * ((1 - k) * (1 + k)))
    ensures var x, y := u * e, v * f;
            Cong(p, a * (x * x) + y * y, 1 + d * ((x * x) * (y * y)))
  {
    var x, y, g, m, n := u * e, v * f, (e * f) * (e * f), f * (1 - k), e * (1 + k);
    var lhs := a * (u * u) * ((1 - k) * (1 - k)) + (v * v) * ((1 + k) * (1 + k)) - d * ((u * u) * (v * v));
    var den := (1 - k) * (1 + k);
    CongMul(p, lhs, den * den, g, g);
    SplitDivision(a, d, u, v, k, e, f);
    CongMul(p, m, 1, m, 1);
    CongMul(p, n, 1, n, 1);
    CongMul(p, m * m, 1, n * n, 1);
    CongMul(p, a * (x * x), a * (x * x), m * m, 1);
    CongMul(p, y * y, y * y, n * n, 1);
    var z := d * ((x * x) * (y * y));
    CongAdd(p, (a * (x * x)) * (m * m), a * (x * x), (y * y) * (n * n), y * y);
    CongAdd(p, (a * (x * x)) * (m * m) + (y * y) * (n * n), a * (x * x) + y * y, z, z);
    CongAdd(p, a * (x * x) + y * y - z, 1, z, z);
  }

  lemma SplitDivision(a: int, d: int, u: int, v: int, k: int, e: int, f: int)
    ensures var x, y, g, m, n := u * e, v * f, (e * f) * (e * f), f * (1 - k), e * (1 + k);
            var lhs := a * (u * u) * ((1 - k) * (1 - k)) + (v * v) * ((1 + k) * (1 + k)) - d * ((u * u) * (v * v));
            var den := (1 - k) * (1 + k);
            && lhs * g == (a * (x * x)) * (m * m) + (y * y) * (n * n) - d * ((x * x) * (y * y))
            && (den * den) * g == (m * m) * (n * n)
  {
    var x, y, g, m, n := u * e, v * f, (e * f) * (e * f), f * (1 - k), e * (1 + k);
    var b, c := 1 - k, 1 + k;
    SquareOfProduct(u, e);
    SquareOfProduct(v, f);
    SquareOfProduct(e, f);
    SquareOfProduct(f, b);
    SquareOfProduct(e, c);
    SquareOfProduct(b, c);
    Regroup(a, d, u * u, v * v, e * e, f * f, b * b, c * c);
  }

  lemma Regroup(a: int, d: int, uu: int, vv: int, ee: int, ff: int, bb: int, cc: int)
    ensures (a * uu * bb + vv * cc - d * (uu * vv)) * (ee * ff)
        == (a * (uu * ee)) * (ff * bb) + (vv * ff) * (ee * cc) - d * ((uu * ee) * (vv * ff))
    ensures (bb * cc) * (ee * ff) == (ff * bb) * (ee * cc)
  {
    Exchange(a * uu, bb, ee, ff);
    Assoc(a, uu, ee);
    Exchange(vv, cc, ff, ee);
    Exchange(uu, vv, ee, ff);
    Assoc(d, uu * vv, ee * ff);
    Exchange(bb, cc, ff, ee);
    DistributeDifference(a * uu * bb, vv * cc, d * (uu * vv), ee * ff);
  }

  lemma DistributeDifference(x: int, y: int, z: int, g: int)
    ensures (x + y - z) * g == x * g + y * g - z * g
  {}

  lemma ReduceOnCurve(cv: Curve, x: int, y: int)
    requires Cong(cv.p, cv.a * (x * x) + y * y, 1 + cv.d * ((x * x) * (y * y)))
    ensures IsPoint(cv, Point(x % cv.p, y % cv.p))
  {
    var p, xx, yy := cv.p, (x % cv.p) * (x % cv.p), (y % cv.p) * (y % cv.p);
    CongMod(p, x);
    CongMod(p, y);
    CongMul(p, x % p, x, x % p, x);
    CongMul(p, y % p, y, y % p, y);
    CongMul(p, cv.a, cv.a, xx, x * x);
    CongAdd(p, cv.a * xx, cv.a * (x * x), yy, y * y);
    CongMul(p, xx, x * x, yy, y * y);
    CongMul(p, cv.d, cv.d, xx * yy, (x * x) * (y * y));
    CongAdd(p, 1, 1, cv.d * (xx * yy), cv.d * ((x * x) * (y * y)));
    CurveForm(cv, Point(x % p, y % p));
  }

  lemma CurveForm(cv: Curve, pt: Point)
    ensures IsOnCurve(cv, pt) <==>
            Cong(cv.p, cv.a * (pt.x * pt.x) + pt.y * pt.y, 1 + cv.d * ((pt.x * pt.x) * (pt.y * pt.y)))
  {
    assert cv.a * pt.x * pt.x == cv.a * (pt.x * pt.x);
    assert cv.d * pt.x * pt.x * pt.y * pt.y == cv.d * ((pt.x * pt.x) * (pt.y * pt.y));
  }

  /** The inverse of a denominator still inverts it before k is reduced. */
  lemma InverseOfReduced(p: int, k: int, kappa: int, s: int)
    requires Prime(p) && Cong(p, k, kappa) && (1 + s * k) % p != 0
    ensures Cong(p, Inv(p, 1 + s * k) * (1 + s * kappa), 1)
  {
    var e := Inv(p, 1 + s * k);
    InvCancels(p, 1 + s * k);
    CongMul(p, s, s, k, kappa);
    CongAdd(p, 1, 1, s * k, s * kappa);
    CongMul(p, e, e, 1 + s * k, 1 + s * kappa);
  }

  /** Closure: the sum of two points of the curve is a reduced point of the curve. */
  lemma Closed(cv: Curve, p: Point, q: Point)
    requires Valid(cv) && IsOnCurve(cv, p) && IsOnCurve(cv, q)
    ensures IsPoint(cv, AddPoints(cv, p, q))
  {
    Complete(cv, p, q);
    KappaFactors(cv.d, p.x, q.x, p.y, q.y);
    var kappa := cv.d * ((p.x * p.y) * (q.x * q.y));
    var k := kappa % cv.p;
    CongMod(cv.p, kappa);
    InverseOfReduced(cv.p, k, kappa, 1);
    InverseOfReduced(cv.p, k, kappa, -1);
    var u, v := p.x * q.y + p.y * q.x, p.y * q.y - cv.a * p.x * q.x;
    LawHolds(cv, p, q, u, v, kappa);
    Divide(cv.p, cv.a, cv.d, u, v, kappa, Inv(cv.p, 1 + k), Inv(cv.p, 1 - k));
    ReduceOnCurve(cv, u * Inv(cv.p, 1 + k), v * Inv(cv.p, 1 - k));
  }

  lemma Commutative(cv: Curve, p: Point, q: Point)
    ensures AddPoints(cv, p, q) == AddPoints(cv, q, p)
  {
    KappaFactors(cv.d, p.x, q.x, p.y, q.y);
    KappaFactors(cv.d, q.x, p.x, q.y, p.y);
    assert (p.x * p.y) * (q.x * q.y) == (q.x * q.y) * (p.x * p.y);
    assert cv.a * p.x * q.x == cv.a * q.x * p.x;
  }

  lemma IdentityLaw(cv: Curve, p: Point)
    requires IsPoint(cv, p)
    ensures AddPoints(cv, p, IDENTITY) == p
  {
    var k := cv.d * p.x * 0 * p.y * 1;
    assert k == 0 by { KappaFactors(cv.d, p.x, 0, p.y, 1); }
    ModUnique(cv.p, 0, 0, 0);
    ModUnique(cv.p, 1, 0, 1);
    PowOne(cv.p - 2);
    ModUnique(cv.p, p.x, 0, p.x);
    ModUnique(cv.p, p.y, 0, p.y);
    assert p.x * 1 + p.y * 0 == p.x && p.y * 1 - cv.a * p.x * 0 == p.y;
  }

  lemma IdentityIsPoint(cv: Curve)
    ensures IsPoint(cv, IDENTITY)
  {}

  // ---- the law, by its equations ----

  /** s is reduced and solves s.x (1 + kappa) = x1 y2 + y1 x2 and s.y (1 - kappa) = y1 y2 - a x1 x2, kappa = d x1 x2 y1 y2. */
  ghost predicate IsSum(cv: Curve, p: Point, q: Point, s: Point) {
    var kappa := cv.d * ((p.x * p.y) * (q.x * q.y));
    && Reduced(cv, s)
    && Cong(cv.p, s.x * (1 + kappa), p.x * q.y + p.y * q.x)
    && Cong(cv.p, s.y * (1 - kappa), p.y * q.y - cv.a * p.x * q.x)
  }

  /** A quotient num / den, computed as num * e with e den = 1, is the one reduced solution of z den = num. */
  lemma QuotientIs(p: int, num: int, den: int, e: int, z: int)
    requires Prime(p) && Cong(p, e * den, 1) && 0 <= z < p
    ensures z == (num * e) % p <==> Cong(p, z * den, num)
  {
    var t := (num * e) % p;
    CongMod(p, num * e);
    CongMul(p, t, num * e, den, den);
    CongMul(p, num, num, e * den, 1);
    Assoc(num, e, den);
    if Cong(p, z * den, num) {
      CongMul(p, z * den, num, e, e);
      CongMul(p, z, z, e * den, 1);
      Assoc(z, den, e);
      CongSmall(p, z, t);
    }
  }

  /** The two equations have one reduced solution for any two points of the curve, and it is their sum. */
  lemma AdditionLaw(cv: Curve, p: Point, q: Point, s: Point)
    requires Valid(cv) && IsOnCurve(cv, p) && IsOnCurve(cv, q) && Reduced(cv, s)
    ensures s == AddPoints(cv, p, q) <==> IsSum(cv, p, q, s)
  {
    Complete(cv, p, q);
    KappaFactors(cv.d, p.x, q.x, p.y, q.y);
    var kappa := cv.d * ((p.x * p.y) * (q.x * q.y));
    var k := kappa % cv.p;
    CongMod(cv.p, kappa);
    InverseOfReduced(cv.p, k, kappa, 1);
    InverseOfReduced(cv.p, k, kappa, -1);
    QuotientIs(cv.p, p.x * q.y + p.y * q.x, 1 + kappa, Inv(cv.p, 1 + k), s.x);
    QuotientIs(cv.p, p.y * q.y - cv.a * p.x * q.x, 1 - kappa, Inv(cv.p, 1 - k), s.y);
  }

  function Negated(cv: Curve, p: Point): Point {
    Point((-p.x) % cv.p, p.y)
  }

  /** The point with the opposite x is on the curve, and adds up with the point to the identity. */
  lemma InverseLaw(cv: Curve, p: Point)
    requires Valid(cv) && IsPoint(cv, p)
    ensures IsPoint(cv, Negated(cv, p)) && AddPoints(cv, p, Negated(cv, p)) == IDENTITY
  {
    NegatedOnCurve(cv, p);
    NegatedSum(cv, p);
    AdditionLaw(cv, p, Negated(cv, p), IDENTITY);
  }

  lemma NegatedOnCurve(cv: Curve, p: Point)
    requires IsPoint(cv, p)
    ensures IsPoint(cv, Negated(cv, p))
  {
    CurveForm(cv, p);
    Exchange(-1, p.x, -1, p.x);
    ReduceOnCurve(cv, -p.x, p.y);
    ModUnique(cv.p, p.y, 0, p.y);
  }

  lemma NegatedSum(cv: Curve, p: Point)
    requires IsPoint(cv, p) && cv.p >= 2
    ensures IsSum(cv, p, Negated(cv, p), IDENTITY)
  {
    var m, x := cv.p, (-p.x) % cv.p;
    CongMod(m, -p.x);
    CongMul(m, p.y, p.y, x, -p.x);
    CongAdd(m, p.x * p.y, p.x * p.y, p.y * x, p.y * (-p.x));
    assert p.x * p.y + p.y * (-p.x) == 0;
    // the second equation, from the equation of the curve
    CongMul(m, p.y, p.y, p.y, p.y);
    CongMul(m, cv.a * p.x, cv.a * p.x, x, -p.x);
    CongAdd(m, p.y * p.y, p.y * p.y, cv.a * p.x * x, (cv.a * p.x) * (-p.x));
    CongMul(m, x, -p.x, p.y, p.y);
    CongMul(m, p.x * p.y, p.x * p.y, x * p.y, (-p.x) * p.y);
    CongMul(m, cv.d, cv.d, (p.x * p.y) * (x * p.y), (p.x * p.y) * ((-p.x) * p.y));
    CongAdd(m, 1, 1, cv.d * ((p.x * p.y) * (x * p.y)), cv.d * ((p.x * p.y) * ((-p.x) * p.y)));
    OppositeSides(cv.a, cv.d, p.x, p.y);
    CurveForm(cv, p);
  }

  lemma OppositeSides(a: int, d: int, x: int, y: int)
    ensures 1 - d * ((x * y) * ((-x) * y)) == 1 + d * ((x * x) * (y * y))
    ensures y * y - (a * x) * (-x) == a * (x * x) + y * y
  {
    Exchange(x, y, x, y);
    assert (-x) * y == -(x * y);
    assert (x * y) * (-(x * y)) == -((x * y) * (x * y));
    Assoc(a, x, x);
  }
}
