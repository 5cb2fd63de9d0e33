/** Scalar multiplication and hashing to the curve. */
module CurvePoints {
  import opened Modular
  import opened Primes
  import opened Field
  import opened SquareRoots
  import opened Edwards
  import opened Group

  ghost function CurveGroup(cv: Curve): Monoid<Point> {
    Monoid((pt: Point) => IsPoint(cv, pt), (p: Point, q: Point) => AddPoints(cv, p, q), IDENTITY)
  }

  /** Everything but associativity is proved of the curve's points. */
  lemma CurveIsLawful(cv: Curve)
    requires Valid(cv) && Associative(CurveGroup(cv))
    ensures Lawful(CurveGroup(cv))
  {
    var g := CurveGroup(cv);
    forall x, y ensures CloseLaw(g, x, y) && CommuteLaw(g, x, y) {
      if g.has(x) && g.has(y) { Closed(cv, x, y); }
      Commutative(cv, x, y);
    }
    forall x ensures UnitLaw(g, x) {
      if g.has(x) { IdentityLaw(cv, x); }
    }
    IdentityIsPoint(cv);
  }

  ghost function Multiple(cv: Curve, p: Point, scalar: nat): Point {
    DoubleAndAdd(CurveGroup(cv), IDENTITY, p, scalar)
  }

  lemma {:induction false} DoubleAndAddCloses(cv: Curve, result: Point, base: Point, n: nat)
    requires Valid(cv) && IsPoint(cv, result) && IsPoint(cv, base)
    ensures IsPoint(cv, DoubleAndAdd(CurveGroup(cv), result, base, n))
    decreases n
  {
    if n != 0 {
      Closed(cv, result, base);
      Closed(cv, base, base);
      DoubleAndAddCloses(cv, if n % 2 == 1 then AddPoints(cv, result, base) else result, AddPoints(cv, base, base), n / 2);
    }
  }

  /** Double-and-add never leaves the curve, and is repeated addition when addition associates. */
  method MulPoint(cv: Curve, p: Point, scalar: nat) returns (result: Point)
    requires Valid(cv) && IsPoint(cv, p)
    ensures IsPoint(cv, result)
    ensures result == Multiple(cv, p, scalar)
    ensures Associative(CurveGroup(cv)) ==> result == Times(CurveGroup(cv), scalar, p)
  {
    result := IDENTITY;
    var base := p;
    var e := scalar;
    while e > 0
      invariant Multiple(cv, p, scalar) == DoubleAndAdd(CurveGroup(cv), result, base, e)
    {
      if e % 2 == 1 { result := AddPoints(cv, result, base); }
      base := AddPoints(cv, base, base);
      e := e / 2;
    }
    MultipleCloses(cv, p, scalar);
    if Associative(CurveGroup(cv)) {
      CurveIsLawful(cv);
      MultipleIsTimes(CurveGroup(cv), p, scalar);
    }
  }

  lemma MultipleCloses(cv: Curve, p: Point, scalar: nat)
    requires Valid(cv) && IsPoint(cv, p)
    ensures IsPoint(cv, Multiple(cv, p, scalar))
  {
    IdentityIsPoint(cv);
    DoubleAndAddCloses(cv, IDENTITY, p, scalar);
  }

  // ---- hashing to the curve ----

  const COFACTOR := 8
  const SUBGROUP_ORDER := 2736030358979909402780800718157159386076813972158567259200215660948447373041
  const COUNTER_LIMIT := 0x1_0000_0000

  /** The point over x with the smaller of the two y coordinates. */
  ghost predicate IsLift(cv: Curve, x: int, pt: Point) {
    pt.x == x && IsPoint(cv, pt) && pt.y <= cv.p - pt.y
  }

  /** pt is what the x coordinate of one counter yields: 8 times its lift, not the identity. */
  ghost predicate Yields(cv: Curve, x: int, pt: Point) {
    pt != IDENTITY && exists lift :: IsLift(cv, x, lift) && pt == Multiple(cv, lift, COFACTOR)
  }

  ghost predicate YieldsNothing(cv: Curve, x: int) {
    forall pt :: !Yields(cv, x, pt)
  }

  /** The quotient whose roots are the y coordinates over x. */
  function YSquared(cv: Curve, x: int): int {
    (1 - cv.a * (x * x)) * Inv(cv.p, 1 - cv.d * (x * x))
  }

  lemma LiftDenominator(cv: Curve, x: int)
    requires Valid(cv)
    ensures (1 - cv.d * (x * x)) % cv.p != 0
  {
    if (1 - cv.d * (x * x)) % cv.p == 0 {
      CongZero(cv.p, 1, cv.d * (x * x));
      NoSquareRatio(cv.p, cv.d, 1, x);
      ZeroMul(cv.p, x, x * cv.d);
      assert x * (x * cv.d) == cv.d * (x * x);
      ModUnique(cv.p, 1, 0, 1);
      assert false;
    }
  }

  /** y is a root of the quotient exactly when (x, y) is on the curve. */
  lemma RootsAreOnCurve(cv: Curve, x: int, y: int)
    requires Valid(cv)
    ensures IsRoot(cv.p, y, YSquared(cv, x)) <==> IsOnCurve(cv, Point(x, y))
  {
    LiftDenominator(cv, x);
    CurveForm(cv, Point(x, y));
    RootForm(cv.p, cv.a, cv.d, x * x, y * y);
  }

  lemma RootForm(p: int, a: int, d: int, xx: int, yy: int)
    requires Prime(p) && (1 - d * xx) % p != 0
    ensures Cong(p, yy, (1 - a * xx) * Inv(p, 1 - d * xx)) <==> Cong(p, a * xx + yy, 1 + d * (xx * yy))
  {
    var den, num := 1 - d * xx, 1 - a * xx;
    InvCancels(p, den);
    QuotientForm(p, yy, num, den, Inv(p, den));
    Spread(d, xx, yy);
    CrossForm(p, yy, d * (xx * yy), a * xx);
  }

  lemma Spread(d: int, xx: int, yy: int)
    ensures yy * (1 - d * xx) == yy - d * (xx * yy)
  {
    Assoc(d, xx, yy);
  }

  lemma QuotientForm(p: int, yy: int, num: int, den: int, e: int)
    requires Prime(p) && den % p != 0 && Cong(p, e * den, 1)
    ensures Cong(p, yy, num * e) <==> Cong(p, yy * den, num)
  {
    CongMul(p, num, num, e * den, 1);
    assert num * (e * den) == den * (num * e) == (num * e) * den;
    assert yy * den == den * yy;
    if Cong(p, yy, num * e) { CongMul(p, yy, num * e, den, den); }
    if Cong(p, yy * den, num) { Cancel(p, den, yy, num * e); }
  }

  lemma CrossForm(p: Modulus, yy: int, dxy: int, axx: int)
    ensures Cong(p, yy - dxy, 1 - axx) <==> Cong(p, axx + yy, 1 + dxy)
  {
    CongZero(p, yy - dxy, 1 - axx);
    CongZero(p, axx + yy, 1 + dxy);
    assert yy - dxy - (1 - axx) == axx + yy - (1 + dxy);
  }

  lemma DifferenceOfSquares(y: int, z: int)
    ensures y * y - z * z == (y - z) * (y + z)
  {}

  /** Two roots of one residue agree up to sign. */
  lemma RootsAgree(p: int, y: int, z: int, v: int)
    requires Prime(p) && IsRoot(p, y, v) && IsRoot(p, z, v) && 0 <= y < p && 0 <= z < p
    ensures y == z || y + z == p
  {
    CongZero(p, y * y, z * z);
    DifferenceOfSquares(y, z);
    Euclid(p, y - z, y + z);
    SmallMultiples(p, y, z);
  }

  lemma SmallMultiples(p: Modulus, y: int, z: int)
    requires 0 <= y < p && 0 <= z < p && ((y - z) % p == 0 || (y + z) % p == 0)
    ensures y == z || y + z == p
  {
    CongZero(p, y, z);
    ModUnique(p, y, 0, y);
    ModUnique(p, z, 0, z);
    if y + z < p { ModUnique(p, y + z, 0, y + z); } else { ModUnique(p, y + z, 1, y + z - p); }
  }

  lemma NegatedRoot(p: Modulus, y: int, v: int)
    requires IsRoot(p, y, v)
    ensures IsRoot(p, p - y, v)
  {
    assert (p - y) * (p - y) == y * y + (p - 2 * y) * p;
    CongFrom(p, (p - y) * (p - y), y * y, p - 2 * y);
  }

  lemma LiftFromRoot(cv: Curve, x: int, y: int, smaller: int)
    requires Valid(cv) && 0 <= x < cv.p && 0 <= y < cv.p && IsRoot(cv.p, y, YSquared(cv, x))
    requires smaller == if y < cv.p - y then y else cv.p - y
    ensures IsLift(cv, x, Point(x, smaller))
    ensures forall pt :: IsLift(cv, x, pt) ==> pt == Point(x, smaller)
  {
    NegatedRoot(cv.p, y, YSquared(cv, x));
    RootsAreOnCurve(cv, x, smaller);
    forall pt | IsLift(cv, x, pt) ensures pt == Point(x, smaller) {
      LiftUnique(cv, x, smaller, pt);
    }
  }

  lemma LiftUnique(cv: Curve, x: int, smaller: int, pt: Point)
    requires Valid(cv) && 0 <= smaller <= cv.p - smaller && IsRoot(cv.p, smaller, YSquared(cv, x))
    requires IsLift(cv, x, pt)
    ensures pt == Point(x, smaller)
  {
    RootsAreOnCurve(cv, x, pt.y);
    RootsAgree(cv.p, pt.y, smaller, YSquared(cv, x));
  }

  /** What one round of try-and-increment returns. */
  method TryX(cv: Curve, x: int) returns (found: Option<Point>)
    requires Valid(cv) && 0 <= x < cv.p
    ensures match found case Some(pt) => Yields(cv, x, pt) case None => YieldsNothing(cv, x)
  {
    var y := Sqrt(cv.p, YSquared(cv, x), cv.d);
    if y.None? {
      forall pt | IsLift(cv, x, pt) ensures false {
        RootsAreOnCurve(cv, x, pt.y);
      }
      return None;
    }
    var smaller := if y.value < cv.p - y.value then y.value else cv.p - y.value;
    LiftFromRoot(cv, x, y.value, smaller);
    var point := MulPoint(cv, Point(x, smaller), COFACTOR);
    found := if point == IDENTITY then None else Some(point);
  }

  ghost predicate FirstAt(cv: Curve, digest: int -> nat, c: nat, pt: Point) {
    Yields(cv, digest(c) % cv.p, pt) && forall b :: 0 <= b < c ==> YieldsNothing(cv, digest(b) % cv.p)
  }

  /** Try-and-increment over digest(0), digest(1), ...; None once the 4-byte counter overflows. */
  method HashToCurve(cv: Curve, digest: int -> nat) returns (found: Option<Point>)
    requires Valid(cv)
    ensures match found
            case Some(pt) =>
              && IsPoint(cv, pt) && pt != IDENTITY
              && (exists c: nat :: c < COUNTER_LIMIT && FirstAt(cv, digest, c, pt))
            case None => forall b :: 0 <= b < COUNTER_LIMIT ==> YieldsNothing(cv, digest(b) % cv.p)
  {
    var counter := 0;
    while counter < COUNTER_LIMIT
      invariant 0 <= counter <= COUNTER_LIMIT
      invariant forall b :: 0 <= b < counter ==> YieldsNothing(cv, digest(b) % cv.p)
    {
      found := TryX(cv, digest(counter) % cv.p);
      if found.Some? {
        YieldsPoint(cv, digest(counter) % cv.p, found.value);
        assert FirstAt(cv, digest, counter, found.value);
        return;
      }
      counter := counter + 1;
    }
    found := None;
  }

  lemma YieldsPoint(cv: Curve, x: int, pt: Point)
    requires Valid(cv) && Yields(cv, x, pt)
    ensures IsPoint(cv, pt)
  {
    var lift :| IsLift(cv, x, lift) && pt == Multiple(cv, lift, COFACTOR);
    MultipleCloses(cv, lift, COFACTOR);
  }

  /** The lift has the smaller of the two y coordinates over x. */
  lemma LiftIsSmaller(cv: Curve, x: int, pt: Point, y: int)
    requires Valid(cv) && IsLift(cv, x, pt) && IsPoint(cv, Point(x, y))
    ensures pt.y <= y
  {
    RootsAreOnCurve(cv, x, pt.y);
    RootsAreOnCurve(cv, x, y);
    RootsAgree(cv.p, pt.y, y, YSquared(cv, x));
  }

  /** On a curve of 8 times order points, clearing the cofactor lands in the subgroup: order kills what hash-to-curve returns. */
  lemma YieldsInSubgroup(cv: Curve, x: int, pt: Point, order: nat)
    requires Valid(cv) && Associative(CurveGroup(cv)) && Yields(cv, x, pt)
    requires forall q :: IsPoint(cv, q) ==> Times(CurveGroup(cv), order * 8, q) == IDENTITY
    ensures Times(CurveGroup(cv), order, pt) == IDENTITY
  {
    var lift :| IsLift(cv, x, lift) && pt == Multiple(cv, lift, COFACTOR);
    CurveIsLawful(cv);
    MultipleIsTimes(CurveGroup(cv), lift, COFACTOR);
    TimesMul(CurveGroup(cv), order, 8, lift);
  }
}
