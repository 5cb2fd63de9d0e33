/** Primes, Euclid's lemma and Fermat's little theorem. */
module Primes {
  import opened Modular

  ghost predicate Divides(m: Modulus, n: int) {
    n % m == 0
  }

  ghost predicate Prime(p: int) {
    2 <= p && forall m: Modulus :: m < p ==> !Divides(m, p)
  }

  ghost predicate OddPrime(p: int) {
    Prime(p) && p != 2
  }

  lemma OddPrimeIsOdd(p: int)
    requires OddPrime(p)
    ensures p % 2 == 1 && p >= 3
  {
    assert !Divides(2, p);
  }

  /**
   * Euclid's lemma: a prime dividing r * b divides b, for 0 < r < p. The
   * remainders of p by r decrease until one of them is 1.
   */
  lemma {:induction false} EuclidStep(p: int, r: int, b: int)
    requires Prime(p) && 0 < r < p && (r * b) % p == 0
    ensures b % p == 0
    decreases r
  {
    if r != 1 {
      var q, s := p / r, p % r;
      assert !Divides(r, p);
      assert p == q * r + s && 0 < s < r;
      assert s * b == p * b - q * (r * b) by {
        assert s * b == (p - q * r) * b == p * b - (q * r) * b;
      }
      ZeroMul(p, r * b, q);
      ZeroMul(p, p, b);
      CongAdd(p, p * b, 0, q * (r * b), 0);
      EuclidStep(p, s, b);
    }
  }

  lemma Euclid(p: int, a: int, b: int)
    requires Prime(p) && (a * b) % p == 0
    ensures a % p == 0 || b % p == 0
  {
    var r := a % p;
    if r != 0 {
      CongMod(p, a);
      CongMul(p, r, a, b, b);
      EuclidStep(p, r, b);
    }
  }

  /** A factor that p does not divide can be cancelled. */
  lemma Cancel(p: int, c: int, a: int, b: int)
    requires Prime(p) && c % p != 0 && Cong(p, c * a, c * b)
    ensures Cong(p, a, b)
  {
    CongZero(p, c * a, c * b);
    assert c * a - c * b == c * (a - b);
    Euclid(p, c, a - b);
    CongZero(p, a, b);
  }

  /** A square root of 1 is 1 or -1. */
  lemma RootOfOne(p: int, a: int)
    requires Prime(p) && Cong(p, a * a, 1)
    ensures Cong(p, a, 1) || Cong(p, a, -1)
  {
    CongZero(p, a * a, 1);
    assert a * a - 1 == (a - 1) * (a + 1);
    Euclid(p, a - 1, a + 1);
    CongZero(p, a, 1);
    CongZero(p, a, -1);
  }

  // ---- Fermat: multiplying the nonzero residues by b permutes them ----

  ghost function Pick<T>(s: set<T>): (x: T)
    requires s != {}
    ensures x in s
  {
    var x :| x in s; x
  }

  ghost function Product(s: set<int>): int {
    if s == {} then 1 else var x := Pick(s); x * Product(s - {x})
  }

  lemma {:induction false} ProductTake(s: set<int>, y: int)
    requires y in s
    ensures Product(s) == y * Product(s - {y})
    decreases |s|
  {
    var x := Pick(s);
    if x != y {
      ProductTake(s - {x}, y);
      ProductTake(s - {y}, x);
      assert s - {x} - {y} == s - {y} - {x};
      var rest := Product(s - {x} - {y});
      Assoc(x, y, rest);
      Assoc(y, x, rest);
    }
  }

  /** The residues 1, ..., p - 1. */
  ghost function Residues(p: int): (s: set<int>)
    ensures forall r :: r in s <==> 0 < r < p
    ensures p >= 1 ==> |s| == p - 1
  {
    if p <= 1 then {} else Residues(p - 1) + {p - 1}
  }

  ghost function Scale(p: Modulus, b: int, r: int): int {
    (b * r) % p
  }

  ghost function Scaled(p: Modulus, b: int, s: set<int>): set<int> {
    set r | r in s :: Scale(p, b, r)
  }

  lemma ScaleInjective(p: int, b: int, x: int, y: int)
    requires Prime(p) && b % p != 0 && 0 < x < p && 0 < y < p
    requires Cong(p, b * x, b * y)
    ensures x == y
  {
    Cancel(p, b, x, y);
    CongSmall(p, x, y);
  }

  lemma ScaledTake(p: int, b: int, s: set<int>, x: int)
    requires Prime(p) && b % p != 0 && s <= Residues(p) && x in s
    ensures Scale(p, b, x) in Scaled(p, b, s)
    ensures Scaled(p, b, s - {x}) == Scaled(p, b, s) - {Scale(p, b, x)}
  {
    forall z | z in s - {x} ensures Scale(p, b, z) != Scale(p, b, x) {
      if Scale(p, b, z) == Scale(p, b, x) { ScaleInjective(p, b, z, x); }
    }
    ScaledWithout(p, b, s, x);
  }

  lemma ScaledWithout(p: Modulus, b: int, s: set<int>, x: int)
    requires x in s
    requires forall z :: z in s - {x} ==> Scale(p, b, z) != Scale(p, b, x)
    ensures Scaled(p, b, s - {x}) == Scaled(p, b, s) - {Scale(p, b, x)}
  {}

  lemma {:induction false} ProductScaled(p: int, b: int, s: set<int>)
    requires Prime(p) && b % p != 0 && s <= Residues(p)
    ensures |Scaled(p, b, s)| == |s|
    ensures Cong(p, Product(Scaled(p, b, s)), Pow(b, |s|) * Product(s))
    decreases |s|
  {
    if s == {} {
      assert Scaled(p, b, s) == {};
    } else {
      var x := Pick(s);
      var t, y := s - {x}, Scale(p, b, x);
      ScaledTake(p, b, s, x);
      ProductScaled(p, b, t);
      ProductTake(s, x);
      ProductTake(Scaled(p, b, s), y);
      CongMod(p, b * x);
      ScaledProductStep(p, b, x, y, Product(Scaled(p, b, t)), Pow(b, |t|), Product(t));
    }
  }

  lemma ScaledProductStep(p: Modulus, b: int, x: int, y: int, scaled: int, power: int, product: int)
    requires Cong(p, y, b * x) && Cong(p, scaled, power * product)
    ensures Cong(p, y * scaled, (b * power) * (x * product))
  {
    CongMul(p, y, b * x, scaled, power * product);
    Exchange(b, x, power, product);
  }

  lemma {:induction false} SubsetOfSameSize(s: set<int>, t: set<int>)
    requires s <= t && |s| == |t|
    ensures s == t
  {
    if t - s == {} {
      assert t == s + (t - s);
    } else {
      SubsetSmaller(s, t - {Pick(t - s)});
    }
  }

  lemma {:induction false} SubsetSmaller(s: set<int>, t: set<int>)
    requires s <= t
    ensures |s| <= |t|
    decreases |s|
  {
    if s != {} {
      var x := Pick(s);
      SubsetSmaller(s - {x}, t - {x});
    }
  }

  lemma NonzeroProduct(p: int, a: int, b: int)
    requires Prime(p) && a % p != 0 && b % p != 0
    ensures (a * b) % p != 0
  {
    if (a * b) % p == 0 { Euclid(p, a, b); }
  }

  lemma {:induction false} ProductNonzero(p: int, s: set<int>)
    requires Prime(p) && s <= Residues(p)
    ensures Product(s) % p != 0
    decreases |s|
  {
    if s == {} {
      ModUnique(p, 1, 0, 1);
    } else {
      var x := Pick(s);
      ProductNonzero(p, s - {x});
      ModUnique(p, x, 0, x);
      NonzeroProduct(p, x, Product(s - {x}));
    }
  }

  /** Multiplication by b maps the nonzero residues onto themselves. */
  lemma ScaledResidues(p: int, b: int)
    requires Prime(p) && b % p != 0
    ensures Scaled(p, b, Residues(p)) == Residues(p)
  {
    forall r | r in Residues(p) ensures Scale(p, b, r) in Residues(p) {
      ModUnique(p, r, 0, r);
      NonzeroProduct(p, b, r);
    }
    ProductScaled(p, b, Residues(p));
    SubsetOfSameSize(Scaled(p, b, Residues(p)), Residues(p));
  }

  /** Fermat's little theorem. */
  lemma Fermat(p: int, b: int)
    requires Prime(p) && b % p != 0
    ensures Cong(p, Pow(b, p - 1), 1)
  {
    var s := Residues(p);
    var scaled := Product(Scaled(p, b, s));
    assert scaled == Product(s) by { ScaledResidues(p, b); }
    assert Cong(p, scaled, Pow(b, p - 1) * Product(s)) by { ProductScaled(p, b, s); }
    ProductNonzero(p, s);
    CancelOne(p, Product(s), Pow(b, p - 1));
  }

  lemma CancelOne(p: int, c: int, a: int)
    requires Prime(p) && c % p != 0 && Cong(p, c, a * c)
    ensures Cong(p, a, 1)
  {
    assert c * a == a * c && c * 1 == c;
    Cancel(p, c, a, 1);
  }
}
