/** Commutative monoids with an explicit carrier, and multiples n * x in them. */
module Group {

  datatype Monoid<!T(!new)> = Monoid(has: T -> bool, op: (T, T) -> T, unit: T)

  // Each law is a predicate of its own, so that proofs name the instances they use.

  ghost predicate CloseLaw<T(!new)>(g: Monoid<T>, x: T, y: T) {
    g.has(x) && g.has(y) ==> g.has(g.op(x, y))
  }

  ghost predicate CommuteLaw<T(!new)>(g: Monoid<T>, x: T, y: T) {
    g.has(x) && g.has(y) ==> g.op(x, y) == g.op(y, x)
  }

  ghost predicate UnitLaw<T(!new)>(g: Monoid<T>, x: T) {
    g.has(x) ==> g.op(x, g.unit) == x
  }

  ghost predicate AssociateLaw<T(!new)>(g: Monoid<T>, x: T, y: T, z: T) {
    g.has(x) && g.has(y) && g.has(z) ==> g.op(g.op(x, y), z) == g.op(x, g.op(y, z))
  }

  ghost predicate Associative<T(!new)>(g: Monoid<T>) {
    forall x, y, z :: AssociateLaw(g, x, y, z)
  }

  ghost predicate Lawful<T(!new)>(g: Monoid<T>) {
    && g.has(g.unit)
    && (forall x, y :: CloseLaw(g, x, y))
    && (forall x, y :: CommuteLaw(g, x, y))
    && (forall x :: UnitLaw(g, x))
    && Associative(g)
  }

  /** Repeated addition. */
  function Times<T(!new)>(g: Monoid<T>, n: nat, x: T): T {
    if n == 0 then g.unit else g.op(Times(g, n - 1, x), x)
  }

  /** Double-and-add: result + n * base. */
  function DoubleAndAdd<T(!new)>(g: Monoid<T>, result: T, base: T, n: nat): T {
    if n == 0 then result
    else DoubleAndAdd(g, if n % 2 == 1 then g.op(result, base) else result, g.op(base, base), n / 2)
  }

  lemma {:induction false} TimesCloses<T(!new)>(g: Monoid<T>, n: nat, x: T)
    requires Lawful(g) && g.has(x)
    ensures g.has(Times(g, n, x))
  {
    if n != 0 {
      TimesCloses(g, n - 1, x);
      assert CloseLaw(g, Times(g, n - 1, x), x);
    }
  }

  lemma TimesOne<T(!new)>(g: Monoid<T>, x: T)
    requires Lawful(g) && g.has(x)
    ensures Times(g, 1, x) == x
  {
    assert CommuteLaw(g, g.unit, x) && UnitLaw(g, x);
    assert Times(g, 0, x) == g.unit;
  }

  lemma {:induction false} TimesAdd<T(!new)>(g: Monoid<T>, m: nat, n: nat, x: T)
    requires Lawful(g) && g.has(x)
    ensures Times(g, m + n, x) == g.op(Times(g, m, x), Times(g, n, x))
  {
    TimesCloses(g, m, x);
    if n == 0 {
      assert UnitLaw(g, Times(g, m, x));
    } else {
      TimesAdd(g, m, n - 1, x);
      TimesCloses(g, n - 1, x);
      assert AssociateLaw(g, Times(g, m, x), Times(g, n - 1, x), x);
    }
  }

  /** 2n multiples of x are n multiples of x + x. */
  lemma {:induction false} TimesDouble<T(!new)>(g: Monoid<T>, n: nat, x: T)
    requires Lawful(g) && g.has(x)
    ensures Times(g, 2 * n, x) == Times(g, n, g.op(x, x))
  {
    if n != 0 {
      TimesDouble(g, n - 1, x);
      var y := Times(g, 2 * (n - 1), x);
      TimesCloses(g, 2 * (n - 1), x);
      assert Times(g, 2 * n - 1, x) == g.op(y, x);
      assert AssociateLaw(g, y, x, x);
    }
  }

  /** Double-and-add refines repeated addition. */
  lemma {:induction false} DoubleAndAddIsTimes<T(!new)>(g: Monoid<T>, result: T, base: T, n: nat)
    requires Lawful(g) && g.has(result) && g.has(base)
    ensures DoubleAndAdd(g, result, base, n) == g.op(result, Times(g, n, base))
    decreases n
  {
    if n == 0 {
      assert UnitLaw(g, result);
    } else {
      var twice, h := g.op(base, base), n / 2;
      assert CloseLaw(g, base, base) && CloseLaw(g, result, base);
      TimesDouble(g, h, base);
      TimesCloses(g, h, twice);
      if n % 2 == 1 {
        DoubleAndAddIsTimes(g, g.op(result, base), twice, h);
        assert Times(g, n, base) == g.op(Times(g, 2 * h, base), base);
        assert AssociateLaw(g, result, base, Times(g, h, twice)) && CommuteLaw(g, base, Times(g, h, twice));
      } else {
        DoubleAndAddIsTimes(g, result, twice, h);
      }
    }
  }

  lemma MultipleIsTimes<T(!new)>(g: Monoid<T>, base: T, n: nat)
    requires Lawful(g) && g.has(base)
    ensures DoubleAndAdd(g, g.unit, base, n) == Times(g, n, base)
  {
    DoubleAndAddIsTimes(g, g.unit, base, n);
    TimesCloses(g, n, base);
    assert CommuteLaw(g, g.unit, Times(g, n, base)) && UnitLaw(g, Times(g, n, base));
  }

  lemma {:induction false} TimesUnit<T(!new)>(g: Monoid<T>, n: nat)
    requires Lawful(g)
    ensures Times(g, n, g.unit) == g.unit
  {
    if n != 0 {
      TimesUnit(g, n - 1);
      assert UnitLaw(g, g.unit);
    }
  }

  lemma {:induction false} TimesMul<T(!new)>(g: Monoid<T>, m: nat, n: nat, x: T)
    requires Lawful(g) && g.has(x)
    ensures m * n >= 0 && Times(g, m * n, x) == Times(g, m, Times(g, n, x))
  {
    if m == 0 {
      assert m * n == 0;
    } else {
      TimesMul(g, m - 1, n, x);
      assert m * n == (m - 1) * n + n;
      TimesAdd(g, (m - 1) * n, n, x);
    }
  }

  /** A scalar matters only modulo the order of x. */
  lemma TimesModOrder<T(!new)>(g: Monoid<T>, order: nat, n: nat, x: T)
    requires Lawful(g) && g.has(x) && order > 0 && Times(g, order, x) == g.unit
    ensures Times(g, n % order, x) == Times(g, n, x)
  {
    var q := n / order;
    TimesMul(g, q, order, x);
    TimesUnit(g, q);
    assert n == q * order + n % order;
    TimesAdd(g, q * order, n % order, x);
    TimesCloses(g, n % order, x);
    assert CommuteLaw(g, g.unit, Times(g, n % order, x)) && UnitLaw(g, Times(g, n % order, x));
  }
}
