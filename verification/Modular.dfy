/** Congruence of integers modulo p, and the rules the field proofs calculate with. */
module Modular {

  type Modulus = n: int | 2 <= n witness 2

  ghost predicate Cong(p: Modulus, a: int, b: int) {
    a % p == b % p
  }

  lemma MulBounds(d: int, p: nat)
    ensures d >= 1 ==> d * p >= p
    ensures d <= -1 ==> d * p <= 0 - p
  {
    if d >= 1 { assert (d - 1) * p >= 0; }
    if d <= -1 { assert (-1 - d) * p >= 0; }
  }

  // ---- moving factors around ----

  lemma Assoc(a: int, b: int, c: int)
    ensures (a * b) * c == a * (b * c)
  {}

  lemma Exchange(a: int, b: int, x: int, y: int)
    ensures (a * b) * (x * y) == (a * x) * (b * y)
  {
    Assoc(a, b, x * y);
    Assoc(b, x, y);
    Assoc(x, b, y);
    Assoc(a, x, b * y);
  }

  lemma ModUnique(p: Modulus, a: int, q: int, r: int)
    requires a == q * p + r && 0 <= r < p
    ensures a % p == r
  {
    var d := q - a / p;
    assert d * p == a % p - r;
    MulBounds(d, p);
  }

  /** The witness form of a congruence, read from right to left. */
  lemma CongFrom(p: Modulus, a: int, b: int, k: int)
    requires a == b + k * p
    ensures Cong(p, a, b)
  {
    var q := b / p;
    assert b == q * p + b % p;
    assert a == (q + k) * p + b % p by {
      assert (q + k) * p == q * p + k * p;
    }
    ModUnique(p, a, q + k, b % p);
  }

  lemma CongWitness(p: Modulus, a: int, b: int) returns (k: int)
    requires Cong(p, a, b)
    ensures a == b + k * p
  {
    k := a / p - b / p;
    assert k * p == (a / p) * p - (b / p) * p;
  }

  lemma CongMod(p: Modulus, a: int)
    ensures Cong(p, a % p, a)
  {
    CongFrom(p, a, a % p, a / p);
  }

  lemma CongAdd(p: Modulus, a: int, b: int, c: int, d: int)
    requires Cong(p, a, b) && Cong(p, c, d)
    ensures Cong(p, a + c, b + d) && Cong(p, a - c, b - d)
  {
    var k := CongWitness(p, a, b);
    var l := CongWitness(p, c, d);
    assert (k + l) * p == k * p + l * p && (k - l) * p == k * p - l * p;
    CongFrom(p, a + c, b + d, k + l);
    CongFrom(p, a - c, b - d, k - l);
  }

  lemma CongMul(p: Modulus, a: int, b: int, c: int, d: int)
    requires Cong(p, a, b) && Cong(p, c, d)
    ensures Cong(p, a * c, b * d)
  {
    var k := CongWitness(p, a, b);
    var l := CongWitness(p, c, d);
    assert a * c == b * d + (k * d + a * l) * p by {
      assert a * c == a * d + a * (l * p);
      assert a * d == b * d + (k * p) * d;
    }
    CongFrom(p, a * c, b * d, k * d + a * l);
  }

  lemma CongZero(p: Modulus, a: int, b: int)
    ensures Cong(p, a, b) <==> (a - b) % p == 0
  {
    if Cong(p, a, b) {
      CongAdd(p, a, b, b, b);
    }
    if (a - b) % p == 0 {
      CongAdd(p, a - b, 0, b, b);
    }
  }

  lemma CongSmall(p: Modulus, a: int, b: int)
    requires Cong(p, a, b) && 0 <= a < p && 0 <= b < p
    ensures a == b
  {}

  /** p divides a product as soon as it divides a factor. */
  lemma ZeroMul(p: Modulus, a: int, b: int)
    requires a % p == 0
    ensures (a * b) % p == 0
  {
    CongMul(p, a, 0, b, b);
  }

  // ---- powers over the integers, and their residues ----

  function Pow(b: int, e: nat): int {
    if e == 0 then 1 else b * Pow(b, e - 1)
  }

  lemma {:induction false} PowAdd(b: int, m: nat, n: nat)
    ensures Pow(b, m + n) == Pow(b, m) * Pow(b, n)
  {
    if m != 0 {
      PowAdd(b, m - 1, n);
      assert b * (Pow(b, m - 1) * Pow(b, n)) == (b * Pow(b, m - 1)) * Pow(b, n);
    }
  }

  lemma {:induction false} PowMul(b: int, m: nat, n: nat)
    ensures m * n >= 0 && Pow(b, m * n) == Pow(Pow(b, m), n)
  {
    if n == 0 {
      assert m * n == 0;
    } else {
      PowMul(b, m, n - 1);
      assert m * n == m + m * (n - 1);
      PowAdd(b, m, m * (n - 1));
    }
  }

  lemma {:induction false} PowOfProduct(a: int, b: int, n: nat)
    ensures Pow(a * b, n) == Pow(a, n) * Pow(b, n)
  {
    if n != 0 {
      PowOfProduct(a, b, n - 1);
      var x, y := Pow(a, n - 1), Pow(b, n - 1);
      Exchange(a, b, x, y);
    }
  }

  lemma {:induction false} PowOne(n: nat)
    ensures Pow(1, n) == 1
  {
    if n != 0 { PowOne(n - 1); }
  }

  lemma {:induction false} CongPow(p: Modulus, a: int, b: int, n: nat)
    requires Cong(p, a, b)
    ensures Cong(p, Pow(a, n), Pow(b, n))
  {
    if n != 0 {
      CongPow(p, a, b, n - 1);
      CongMul(p, a, b, Pow(a, n - 1), Pow(b, n - 1));
    }
  }
}
