/**
 * Arithmetic modulo an odd prime p: square-and-multiply, the Fermat inverse
 * and Tonelli-Shanks square roots.
 */
module Field {
  import opened Modular
  import opened Primes

  datatype Option<+T> = None | Some(value: T)

  /** Square-and-multiply computes the power. */
  method PowMod(p: Modulus, base: int, exp: nat) returns (result: int)
    ensures result == Pow(base, exp) % p
  {
    result := 1;
    var b, e := base % p, exp;
    ModUnique(p, 1, 0, 1);
    CongMod(p, base);
    CongPow(p, b, base, exp);
    assert 1 * Pow(b, e) == Pow(b, e);
    while e > 0
      invariant 0 <= result < p
      invariant Cong(p, result * Pow(b, e), Pow(base, exp))
    {
      SquareStep(p, result, b, e);
      if e % 2 == 1 { result := (result * b) % p; }
      b := (b * b) % p;
      e := e / 2;
    }
    assert result * Pow(b, 0) == result;
    ModUnique(p, result, 0, result);
  }

  /** One round of square-and-multiply keeps result * b^e. */
  lemma SquareStep(p: Modulus, result: int, b: int, e: nat)
    requires e > 0
    ensures var next := if e % 2 == 1 then (result * b) % p else result;
            Cong(p, next * Pow((b * b) % p, e / 2), result * Pow(b, e))
  {
    var half := Pow(b * b, e / 2);
    CongMod(p, b * b);
    CongPow(p, (b * b) % p, b * b, e / 2);
    PowMul(b, 2, e / 2);
    assert Pow(b, 2) == b * b by { assert Pow(b, 1) == b * Pow(b, 0) == b; }
    if e % 2 == 1 {
      PowAdd(b, 1, 2 * (e / 2));
      assert e == 1 + 2 * (e / 2) && Pow(b, 1) == b * Pow(b, 0) == b;
      CongMod(p, result * b);
      CongMul(p, (result * b) % p, result * b, Pow((b * b) % p, e / 2), half);
      assert (result * b) * half == result * (b * half);
    } else {
      CongMul(p, result, result, Pow((b * b) % p, e / 2), half);
    }
  }

  /** The inverse by Fermat: x^(p - 2) mod p. */
  function Inv(p: Modulus, x: int): int {
    Pow(x, p - 2) % p
  }

  lemma InvCancels(p: int, x: int)
    requires Prime(p) && x % p != 0
    ensures Cong(p, Inv(p, x) * x, 1)
  {
    Fermat(p, x);
    CongMod(p, Pow(x, p - 2));
    CongMul(p, Inv(p, x), Pow(x, p - 2), x, x);
    assert Pow(x, p - 2) * x == Pow(x, p - 1);
  }

  // ---- squares ----

  ghost predicate IsRoot(p: Modulus, r: int, x: int) {
    Cong(p, r * r, x)
  }

  ghost predicate IsSquare(p: Modulus, x: int) {
    exists r :: IsRoot(p, r, x)
  }

  /** Euler's power x^((p - 1) / 2), reduced. */
  ghost function Euler(p: Modulus, x: int): int {
    Pow(x, (p - 1) / 2) % p
  }

  ghost predicate NonResidue(p: Modulus, z: int) {
    Euler(p, z) == p - 1
  }

  lemma EulerSquared(p: int, x: int)
    requires OddPrime(p)
    ensures Pow(x, (p - 1) / 2) * Pow(x, (p - 1) / 2) == Pow(x, p - 1)
  {
    OddPrimeIsOdd(p);
    PowAdd(x, (p - 1) / 2, (p - 1) / 2);
  }

  lemma MinusOne(p: Modulus, a: int)
    ensures Cong(p, a, -1) <==> a % p == p - 1
  {
    ModUnique(p, -1, -1, p - 1);
  }

  /** Euler's power of a nonzero residue is 1 or p - 1. */
  lemma EulerIsUnit(p: int, x: int)
    requires OddPrime(p) && x % p != 0
    ensures Euler(p, x) == 1 || Euler(p, x) == p - 1
  {
    Fermat(p, x);
    EulerSquared(p, x);
    RootOfOne(p, Pow(x, (p - 1) / 2));
    MinusOne(p, Pow(x, (p - 1) / 2));
    ModUnique(p, 1, 0, 1);
  }

  /** The power of a nonzero square is 1. */
  lemma EulerOfSquare(p: int, r: int, x: int)
    requires OddPrime(p) && IsRoot(p, r, x) && x % p != 0
    ensures Euler(p, x) == 1
  {
    if r % p == 0 {
      ZeroMul(p, r, r);
      assert false;
    }
    Fermat(p, r);
    EulerSquared(p, r);
    PowOfProduct(r, r, (p - 1) / 2);
    CongPow(p, r * r, x, (p - 1) / 2);
    ModUnique(p, 1, 0, 1);
  }

  lemma NonResidueIsNoSquare(p: int, z: int)
    requires OddPrime(p) && NonResidue(p, z)
    ensures z % p != 0 && !IsSquare(p, z)
  {
    OddPrimeIsOdd(p);
    if z % p == 0 {
      ModUnique(p, 0, 0, 0);
      CongPow(p, z, 0, (p - 1) / 2);
      assert false;
    }
    if IsSquare(p, z) {
      var r :| IsRoot(p, r, z);
      EulerOfSquare(p, r, z);
      assert false;
    }
  }

  // ---- repeated squaring ----

  ghost function Squared(p: Modulus, t: int, i: nat): int {
    if i == 0 then t % p else (Squared(p, t, i - 1) * Squared(p, t, i - 1)) % p
  }

  lemma {:induction false} SquaredIsPow(p: Modulus, t: int, i: nat)
    ensures Pow(2, i) >= 1 && Squared(p, t, i) == Pow(t, Pow(2, i)) % p
  {
    if i == 0 {
      assert Pow(t, 1) == t * Pow(t, 0) == t;
    } else {
      SquaredIsPow(p, t, i - 1);
      var e := Pow(2, i - 1);
      assert Pow(2, i) == e + e;
      PowAdd(t, e, e);
      CongMod(p, Pow(t, e));
      CongMul(p, Squared(p, t, i - 1), Pow(t, e), Squared(p, t, i - 1), Pow(t, e));
    }
  }

  lemma {:induction false} SquaredTwice(p: Modulus, t: int, i: nat, j: nat)
    ensures Squared(p, Squared(p, t, i), j) == Squared(p, t, i + j)
  {
    if j == 0 {
      CongMod(p, if i == 0 then t else Squared(p, t, i - 1) * Squared(p, t, i - 1));
    } else {
      SquaredTwice(p, t, i, j - 1);
    }
  }

  lemma {:induction false} SquaredProduct(p: Modulus, a: int, b: int, i: nat)
    ensures Squared(p, (a * b) % p, i) == (Squared(p, a, i) * Squared(p, b, i)) % p
  {
    SquaredIsPow(p, a, i);
    SquaredIsPow(p, b, i);
    SquaredIsPow(p, (a * b) % p, i);
    var e := Pow(2, i);
    CongMod(p, a * b);
    CongPow(p, (a * b) % p, a * b, e);
    PowOfProduct(a, b, e);
    CongMod(p, Pow(a, e));
    CongMod(p, Pow(b, e));
    CongMul(p, Squared(p, a, i), Pow(a, e), Squared(p, b, i), Pow(b, e));
  }
}
