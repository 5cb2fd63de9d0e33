/** Recovering a note's secret key from two RLN signals at one index. */
module Slashing {
  import opened Modular
  import opened Primes
  import opened Field

  /** An RLN signal (x, y), with y = k + a x for the note's key k and the index's slope a. */
  datatype Signal = Signal(x: int, y: int)

  ghost predicate OnLine(p: Modulus, k: int, slope: int, s: Signal) {
    Cong(p, s.y, k + slope * s.x)
  }

  function Numerator(s1: Signal, s2: Signal): int {
    s1.y * s2.x - s2.y * s1.x
  }

  /** The key behind two signals, None where the source throws. */
  function Recover(p: Modulus, s1: Signal, s2: Signal): Option<int> {
    if (s2.x - s1.x) % p == 0 then None
    else Some((Numerator(s1, s2) * Inv(p, (s2.x - s1.x) % p)) % p)
  }

  method RecoverSecretKey(p: Modulus, s1: Signal, s2: Signal) returns (key: Option<int>)
    ensures key == Recover(p, s1, s2)
  {
    var denominator := (s2.x - s1.x) % p;
    if denominator == 0 {
      return None;
    }
    var inverse, base, e := 1, denominator, p - 2;
    ModUnique(p, 1, 0, 1);
    while e > 0
      invariant 0 <= e <= p - 2 && 0 <= inverse < p
      invariant Cong(p, inverse * Pow(base, e), Pow(denominator, p - 2))
    {
      SquareStep(p, inverse, base, e);
      if e % 2 == 1 { inverse := (inverse * base) % p; }
      base := (base * base) % p;
      e := e / 2;
    }
    assert inverse * Pow(base, 0) == inverse;
    ModUnique(p, inverse, 0, inverse);
    key := Some((Numerator(s1, s2) * inverse) % p);
  }

  /** Recovery returns the one residue that solves r (x2 - x1) = y1 x2 - y2 x1. */
  lemma RecoverSolves(p: int, s1: Signal, s2: Signal, r: int)
    requires Prime(p) && (s2.x - s1.x) % p != 0
    ensures Recover(p, s1, s2) == Some(r) <==>
            0 <= r < p && Cong(p, r * (s2.x - s1.x), Numerator(s1, s2))
  {
    var d, n := s2.x - s1.x, Numerator(s1, s2);
    var e := Inv(p, d % p);
    CongMod(p, d);
    ModUnique(p, d % p, 0, d % p);
    InvCancels(p, d % p);
    CongMul(p, e, e, d % p, d);
    CongMul(p, n, n, e * d, 1);
    CongMod(p, n * e);
    CongMul(p, (n * e) % p, n * e, d, d);
    Reassociate(n, e, d);
    if 0 <= r < p && Cong(p, r * d, n) {
      assert r * d == d * r && ((n * e) % p) * d == d * ((n * e) % p);
      Cancel(p, d, r, (n * e) % p);
      CongSmall(p, r, (n * e) % p);
    }
  }

  lemma Reassociate(n: int, e: int, d: int)
    ensures (n * e) * d == n * (e * d)
  {}

  /** Recovery is exact, whatever representatives modulo p the signals carry. */
  lemma RecoveryExact(p: int, k: int, slope: int, s1: Signal, s2: Signal)
    requires Prime(p) && 0 <= k < p && OnLine(p, k, slope, s1) && OnLine(p, k, slope, s2)
    requires !Cong(p, s1.x, s2.x)
    ensures Recover(p, s1, s2) == Some(k)
  {
    CongZero(p, s2.x, s1.x);
    CongMul(p, s1.y, k + slope * s1.x, s2.x, s2.x);
    CongMul(p, s2.y, k + slope * s2.x, s1.x, s1.x);
    CongAdd(p, s1.y * s2.x, (k + slope * s1.x) * s2.x, s2.y * s1.x, (k + slope * s2.x) * s1.x);
    LineDifference(k, slope, s1.x, s2.x);
    RecoverSolves(p, s1, s2, k);
  }

  lemma LineDifference(k: int, slope: int, x1: int, x2: int)
    ensures (k + slope * x1) * x2 - (k + slope * x2) * x1 == k * (x2 - x1)
  {
    assert (slope * x1) * x2 == (slope * x2) * x1;
  }

  /** Nothing is recovered exactly when the signals share x. */
  lemma RecoveryFailsOnSharedX(p: Modulus, s1: Signal, s2: Signal)
    ensures Recover(p, s1, s2).None? <==> Cong(p, s1.x, s2.x)
  {
    CongZero(p, s2.x, s1.x);
  }

  /** The order of the signals does not matter. */
  lemma RecoverySymmetric(p: int, s1: Signal, s2: Signal)
    requires Prime(p)
    ensures Recover(p, s1, s2) == Recover(p, s2, s1)
  {
    var d := s2.x - s1.x;
    CongZero(p, s2.x, s1.x);
    CongZero(p, s1.x, s2.x);
    if d % p != 0 {
      var r := Recover(p, s1, s2).value;
      RecoverSolves(p, s1, s2, r);
      CongAdd(p, 0, 0, r * d, Numerator(s1, s2));
      assert r * (s1.x - s2.x) == 0 - r * d;
      RecoverSolves(p, s2, s1, r);
    }
  }

  lemma RecoveryRespectsResidues(p: int, s1: Signal, s2: Signal, t1: Signal, t2: Signal)
    requires Prime(p)
    requires Cong(p, s1.x, t1.x) && Cong(p, s1.y, t1.y) && Cong(p, s2.x, t2.x) && Cong(p, s2.y, t2.y)
    ensures Recover(p, s1, s2) == Recover(p, t1, t2)
  {
    CongAdd(p, s2.x, t2.x, s1.x, t1.x);
    if (s2.x - s1.x) % p != 0 {
      var r := Recover(p, s1, s2).value;
      RecoverSolves(p, s1, s2, r);
      CongMul(p, r, r, s2.x - s1.x, t2.x - t1.x);
      CongMul(p, s1.y, t1.y, s2.x, t2.x);
      CongMul(p, s2.y, t2.y, s1.x, t1.x);
      CongAdd(p, s1.y * s2.x, t1.y * t2.x, s2.y * s1.x, t2.y * t1.x);
      RecoverSolves(p, t1, t2, r);
    }
  }
}
