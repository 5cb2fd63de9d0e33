/** Tonelli-Shanks, total and exact for every odd prime with a known non-residue. */
module SquareRoots {
  import opened Modular
  import opened Primes
  import opened Field

  /** p - 1 == q * 2^s with q odd. */
  method SplitPowerOfTwo(p: int) returns (q: nat, s: nat)
    requires OddPrime(p)
    ensures q % 2 == 1 && s >= 1 && p - 1 == q * Pow(2, s)
  {
    OddPrimeIsOdd(p);
    q, s := p - 1, 0;
    assert Pow(2, 0) == 1;
    while q % 2 == 0
      invariant q >= 1 && p - 1 == q * Pow(2, s)
      invariant s == 0 ==> q == p - 1
      decreases q
    {
      assert q * Pow(2, s) == (q / 2) * Pow(2, s + 1);
      q, s := q / 2, s + 1;
    }
  }

  /** The first z from 2 on whose Euler power is not 1; w is some non-residue. */
  method FindNonResidue(p: int, ghost w: int) returns (z: int)
    requires OddPrime(p) && 2 <= w < p && NonResidue(p, w)
    ensures 2 <= z <= w && NonResidue(p, z)
  {
    OddPrimeIsOdd(p);
    z := 2;
    var e := PowMod(p, z, (p - 1) / 2);
    while e == 1
      invariant 2 <= z <= w && e == Euler(p, z)
      decreases w - z
    {
      z := z + 1;
      e := PowMod(p, z, (p - 1) / 2);
    }
    ModUnique(p, z, 0, z);
    EulerIsUnit(p, z);
  }

  /**
   * What the main loop keeps: r is a root of t * n, t's order divides
   * 2^(m-1), and c's order is exactly 2^m.
   */
  ghost predicate Loop(p: Modulus, n: int, m: nat, c: int, t: int, r: int) {
    && m >= 1
    && 0 <= c < p && 0 <= t < p && 0 <= r < p
    && Squared(p, c, m - 1) == p - 1
    && Squared(p, t, m - 1) == 1
    && Cong(p, r * r, t * n)
  }

  lemma LoopEntry(p: int, n: int, z: int, q: nat, s: nat)
    requires OddPrime(p) && NonResidue(p, z) && Euler(p, n) == 1
    requires q % 2 == 1 && s >= 1 && p - 1 == q * Pow(2, s)
    ensures Loop(p, n, s, Pow(z, q) % p, Pow(n, q) % p, Pow(n, (q + 1) / 2) % p)
  {
    HalfOf(p - 1, q, Pow(2, s - 1));
    EulerBySquaring(p, z, q, s);
    EulerBySquaring(p, n, q, s);
    EntryRoot(p, n, q);
  }

  lemma HalfOf(n: int, q: int, x: int)
    requires n == q * (2 * x)
    ensures n / 2 == q * x
  {
    Assoc(q, x, 2);
  }

  lemma EntryRoot(p: Modulus, n: int, q: nat)
    requires q % 2 == 1
    ensures var r, t := Pow(n, (q + 1) / 2) % p, Pow(n, q) % p;
            0 <= r < p && 0 <= t < p && Cong(p, r * r, t * n)
  {
    var h := (q + 1) / 2;
    CongMod(p, Pow(n, h));
    CongMul(p, Pow(n, h) % p, Pow(n, h), Pow(n, h) % p, Pow(n, h));
    HalvesOfPower(n, h, q);
    CongMod(p, Pow(n, q));
    CongMul(p, Pow(n, q) % p, Pow(n, q), n, n);
  }

  lemma HalvesOfPower(n: int, h: nat, q: nat)
    requires h + h == q + 1
    ensures Pow(n, h) * Pow(n, h) == Pow(n, q) * n
  {
    PowAdd(n, h, h);
    PowAdd(n, q, 1);
    assert Pow(n, 1) == n * Pow(n, 0) == n;
  }

  lemma EulerBySquaring(p: int, x: int, q: nat, s: nat)
    requires OddPrime(p) && s >= 1 && (p - 1) / 2 == q * Pow(2, s - 1)
    ensures Squared(p, Pow(x, q) % p, s - 1) == Euler(p, x)
  {
    SquaredIsPow(p, Pow(x, q) % p, s - 1);
    CongMod(p, Pow(x, q));
    CongPow(p, Pow(x, q) % p, Pow(x, q), Pow(2, s - 1));
    PowMul(x, q, Pow(2, s - 1));
  }

  /** The least i with t^(2^i) == 1: below m, and t^(2^(i-1)) == -1. */
  method LeastOrder(p: int, t: int, ghost m: nat) returns (i: nat)
    requires OddPrime(p) && 1 < t < p && m >= 1 && Squared(p, t, m - 1) == 1
    ensures 1 <= i < m && Squared(p, t, i) == 1 && Squared(p, t, i - 1) == p - 1
  {
    OddPrimeIsOdd(p);
    i := 0;
    var t2 := t;
    ModUnique(p, t, 0, t);
    ghost var before := t;
    while t2 != 1
      invariant i < m && 0 <= t2 < p && t2 == Squared(p, t, i)
      invariant if i == 0 then t2 != 1 else before == Squared(p, t, i - 1) != 1
      decreases m - i
    {
      before := t2;
      t2 := (t2 * t2) % p;
      i := i + 1;
    }
    ModUnique(p, 1, 0, 1);
    RootOfOne(p, before);
    MinusOne(p, before);
    ModUnique(p, before, 0, before);
  }

  /** One round: b = c^(2^(m-i-1)) makes the order of t drop to 2^(i-1). */
  lemma LoopStep(p: int, n: int, m: nat, c: int, t: int, r: int, i: nat, b: int, c': int, t': int, r': int)
    requires OddPrime(p) && Loop(p, n, m, c, t, r)
    requires 1 <= i < m && Squared(p, t, i - 1) == p - 1
    requires b == Squared(p, c, m - i - 1)
    requires c' == (b * b) % p && t' == (t * c') % p && r' == (r * b) % p
    ensures Loop(p, n, i, c', t', r')
  {
    assert c' == Squared(p, c, m - i);
    SquaredTwice(p, c, m - i, i - 1);
    SquaredProduct(p, t, c', i - 1);
    MinusOneSquared(p);
    LoopProducts(p, b, c', t, r);
    RootStep(p, n, t, r, b, c', t', r');
  }

  lemma LoopProducts(p: Modulus, b: int, c: int, t: int, r: int)
    ensures Cong(p, (b * b) % p, b * b) && Cong(p, (t * c) % p, t * c) && Cong(p, (r * b) % p, r * b)
  {
    CongMod(p, b * b);
    CongMod(p, t * c);
    CongMod(p, r * b);
  }

  lemma MinusOneSquared(p: Modulus)
    ensures ((p - 1) * (p - 1)) % p == 1
  {
    assert (p - 1) * (p - 1) == (p - 2) * p + 1;
    ModUnique(p, (p - 1) * (p - 1), p - 2, 1);
  }

  lemma RootStep(p: Modulus, n: int, t: int, r: int, b: int, c': int, t': int, r': int)
    requires Cong(p, r * r, t * n)
    requires Cong(p, c', b * b) && Cong(p, t', t * c') && Cong(p, r', r * b)
    ensures Cong(p, r' * r', t' * n)
  {
    CongMul(p, r', r * b, r', r * b);
    assert (r * b) * (r * b) == (r * r) * (b * b);
    CongMul(p, r * r, t * n, b * b, c');
    assert (t * n) * c' == (t * c') * n;
    CongMul(p, t', t * c', n, n);
  }

  /**
   * A root of x reduced modulo p, or None when x is not a square. The
   * non-residue w only shows that the search for z ends.
   */
  method Sqrt(p: int, x: int, ghost w: int) returns (root: Option<int>)
    requires OddPrime(p) && 2 <= w < p && NonResidue(p, w)
    ensures root.Some? ==> 0 <= root.value < p && IsRoot(p, root.value, x)
    ensures root.Some? <==> IsSquare(p, x)
  {
    OddPrimeIsOdd(p);
    var n := x % p;
    CongMod(p, x);
    if n == 0 {
      assert IsRoot(p, 0, x);
      return Some(0);
    }
    var e := PowMod(p, n, (p - 1) / 2);
    if e != 1 {
      EulerIsUnit(p, n);
      NonResidueIsNoSquare(p, n);
      assert forall r :: IsRoot(p, r, x) ==> IsRoot(p, r, n);
      return None;
    }
    var r := RootOfResidue(p, n, w);
    assert IsRoot(p, r, x);
    return Some(r);
  }

  /** One round of the main loop. */
  method Round(p: int, ghost n: int, m: nat, c: int, t: int, r: int)
    returns (m': nat, c': int, t': int, r': int)
    requires OddPrime(p) && Loop(p, n, m, c, t, r) && t != 1
    ensures m' < m && Loop(p, n, m', c', t', r')
  {
    OrderNotZero(p, t, m - 1);
    m' := LeastOrder(p, t, m);
    SquaredIsPow(p, c, m - m' - 1);
    var b := PowMod(p, c, Pow(2, m - m' - 1));
    c' := (b * b) % p;
    t' := (t * c') % p;
    r' := (r * b) % p;
    LoopStep(p, n, m, c, t, r, m', b, c', t', r');
  }

  method RootOfResidue(p: int, n: int, ghost w: int) returns (r: int)
    requires OddPrime(p) && 2 <= w < p && NonResidue(p, w)
    requires 0 < n < p && Euler(p, n) == 1
    ensures 0 <= r < p && IsRoot(p, r, n)
  {
    var q, s := SplitPowerOfTwo(p);
    var z := FindNonResidue(p, w);
    var m := s;
    var c := PowMod(p, z, q);
    var t := PowMod(p, n, q);
    r := PowMod(p, n, (q + 1) / 2);
    LoopEntry(p, n, z, q, s);
    while t != 1
      invariant Loop(p, n, m, c, t, r)
      decreases m
    {
      m, c, t, r := Round(p, n, m, c, t, r);
    }
    assert 1 * n == n;
  }

  lemma {:induction false} OrderNotZero(p: Modulus, t: int, i: nat)
    requires Squared(p, t, i) == 1
    ensures t % p != 0
  {
    if i != 0 {
      if Squared(p, t, i - 1) == 0 { ModUnique(p, 0, 0, 0); }
      if t % p == 0 { SquaredZero(p, t, i); }
    }
  }

  lemma {:induction false} SquaredZero(p: Modulus, t: int, i: nat)
    requires t % p == 0
    ensures Squared(p, t, i) == 0
  {
    if i != 0 {
      SquaredZero(p, t, i - 1);
      ModUnique(p, 0, 0, 0);
    }
  }
}
