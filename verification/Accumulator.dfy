/**
 * The refund accumulator A = R G + m J + c K + s H, and the two updates that
 * act on it without its opening.
 */
module Accumulator {
  import opened Group
  import opened Modular

  datatype Generators<!T(!new)> = Generators(G: T, J: T, K: T, H: T)

  /** Refunds, next index, note commitment, blinding. */
  datatype Opening = Opening(refunds: nat, index: nat, commitment: nat, blinding: nat)

  ghost predicate ValidSetup<T(!new)>(g: Monoid<T>, gens: Generators<T>, order: Modulus) {
    && Lawful(g)
    && g.has(gens.G) && g.has(gens.J) && g.has(gens.K) && g.has(gens.H)
    && Times(g, order, gens.H) == g.unit
  }

  function Multiple<T(!new)>(g: Monoid<T>, x: T, n: nat): T {
    DoubleAndAdd(g, g.unit, x, n)
  }

  function Commit<T(!new)>(g: Monoid<T>, gens: Generators<T>, o: Opening): T {
    g.op(g.op(g.op(Multiple(g, gens.G, o.refunds), Multiple(g, gens.J, o.index)),
              Multiple(g, gens.K, o.commitment)),
         Multiple(g, gens.H, o.blinding))
  }

  function Genesis<T(!new)>(g: Monoid<T>, gens: Generators<T>, commitment: nat): T {
    Commit(g, gens, Opening(0, 0, commitment, 0))
  }

  function Rerandomize<T(!new)>(g: Monoid<T>, gens: Generators<T>, accumulator: T, blinding: nat): T {
    g.op(accumulator, Multiple(g, gens.H, blinding))
  }

  function ApplyRefund<T(!new)>(g: Monoid<T>, gens: Generators<T>, accumulator: T, refund: nat): T {
    g.op(g.op(accumulator, Multiple(g, gens.G, refund)), gens.J)
  }

  lemma MultipleCloses<T(!new)>(g: Monoid<T>, x: T, n: nat)
    requires Lawful(g) && g.has(x)
    ensures g.has(Multiple(g, x, n)) && Multiple(g, x, n) == Times(g, n, x)
  {
    MultipleIsTimes(g, x, n);
    TimesCloses(g, n, x);
  }

  lemma MultipleAdd<T(!new)>(g: Monoid<T>, x: T, m: nat, n: nat)
    requires Lawful(g) && g.has(x)
    ensures g.op(Multiple(g, x, m), Multiple(g, x, n)) == Multiple(g, x, m + n)
    ensures g.has(Multiple(g, x, m)) && g.has(Multiple(g, x, n)) && g.has(Multiple(g, x, m + n))
  {
    MultipleCloses(g, x, m);
    MultipleCloses(g, x, n);
    MultipleCloses(g, x, m + n);
    TimesAdd(g, m, n, x);
  }

  /** Adding x to the first term of ((a + b) + c) + d. */
  lemma AddToFirst<T(!new)>(g: Monoid<T>, a: T, b: T, c: T, d: T, x: T)
    requires Lawful(g) && g.has(a) && g.has(b) && g.has(c) && g.has(d) && g.has(x)
    ensures g.op(g.op(g.op(g.op(a, b), c), d), x) == g.op(g.op(g.op(g.op(a, x), b), c), d)
  {
    assert CloseLaw(g, a, b) && CloseLaw(g, g.op(a, b), c);
    Rotate(g, g.op(g.op(a, b), c), d, x);
    Rotate(g, g.op(a, b), c, x);
    Rotate(g, a, b, x);
  }

  lemma Rotate<T(!new)>(g: Monoid<T>, a: T, b: T, x: T)
    requires Lawful(g) && g.has(a) && g.has(b) && g.has(x)
    ensures g.op(g.op(a, b), x) == g.op(g.op(a, x), b)
  {
    assert AssociateLaw(g, a, b, x) && CommuteLaw(g, b, x) && AssociateLaw(g, a, x, b);
  }

  // ---- what a commitment is ----

  function Sum(o: Opening, o': Opening): Opening {
    Opening(o.refunds + o'.refunds, o.index + o'.index, o.commitment + o'.commitment, o.blinding + o'.blinding)
  }

  lemma UnitLeft<T(!new)>(g: Monoid<T>, x: T)
    requires Lawful(g) && g.has(x)
    ensures g.op(g.unit, x) == x && g.op(x, g.unit) == x
  {
    assert UnitLaw(g, x) && CommuteLaw(g, g.unit, x);
  }

  /** R alone commits to R G. */
  lemma CommitRefunds<T(!new)>(g: Monoid<T>, gens: Generators<T>, order: Modulus, n: nat)
    requires ValidSetup(g, gens, order)
    ensures Commit(g, gens, Opening(n, 0, 0, 0)) == Times(g, n, gens.G)
  {
    MultipleCloses(g, gens.G, n);
    UnitLeft(g, Times(g, n, gens.G));
  }

  /** m alone commits to m J. */
  lemma CommitIndex<T(!new)>(g: Monoid<T>, gens: Generators<T>, order: Modulus, n: nat)
    requires ValidSetup(g, gens, order)
    ensures Commit(g, gens, Opening(0, n, 0, 0)) == Times(g, n, gens.J)
  {
    MultipleCloses(g, gens.J, n);
    UnitLeft(g, Times(g, n, gens.J));
  }

  /** The genesis accumulator of c is c K. */
  lemma GenesisIs<T(!new)>(g: Monoid<T>, gens: Generators<T>, order: Modulus, c: nat)
    requires ValidSetup(g, gens, order)
    ensures Genesis(g, gens, c) == Commit(g, gens, Opening(0, 0, c, 0)) == Times(g, c, gens.K)
  {
    MultipleCloses(g, gens.K, c);
    UnitLeft(g, g.unit);
    UnitLeft(g, Times(g, c, gens.K));
  }

  /** s alone commits to s H. */
  lemma CommitBlinding<T(!new)>(g: Monoid<T>, gens: Generators<T>, order: Modulus, n: nat)
    requires ValidSetup(g, gens, order)
    ensures Commit(g, gens, Opening(0, 0, 0, n)) == Times(g, n, gens.H)
  {
    MultipleCloses(g, gens.H, n);
    UnitLeft(g, g.unit);
    UnitLeft(g, Times(g, n, gens.H));
  }

  /** (a + b) + (c + d) = (a + c) + (b + d). */
  lemma Interchange<T(!new)>(g: Monoid<T>, a: T, b: T, c: T, d: T)
    requires Lawful(g) && g.has(a) && g.has(b) && g.has(c) && g.has(d)
    ensures g.op(g.op(a, b), g.op(c, d)) == g.op(g.op(a, c), g.op(b, d))
    ensures g.has(g.op(a, b)) && g.has(g.op(c, d))
  {
    assert CloseLaw(g, a, b) && CloseLaw(g, c, d) && CloseLaw(g, b, d);
    assert AssociateLaw(g, a, b, g.op(c, d));
    assert AssociateLaw(g, b, c, d) && CommuteLaw(g, b, c) && AssociateLaw(g, c, b, d);
    assert AssociateLaw(g, a, c, g.op(b, d));
  }

  lemma InterchangeFour<T(!new)>(g: Monoid<T>, a: T, b: T, c: T, d: T, a': T, b': T, c': T, d': T)
    requires Lawful(g) && g.has(a) && g.has(b) && g.has(c) && g.has(d)
    requires g.has(a') && g.has(b') && g.has(c') && g.has(d')
    ensures g.op(g.op(g.op(g.op(a, b), c), d), g.op(g.op(g.op(a', b'), c'), d'))
         == g.op(g.op(g.op(g.op(a, a'), g.op(b, b')), g.op(c, c')), g.op(d, d'))
  {
    Interchange(g, a, b, a', b');
    Interchange(g, g.op(a, b), c, g.op(a', b'), c');
    Interchange(g, g.op(g.op(a, b), c), d, g.op(g.op(a', b'), c'), d');
  }

  /** The commitment of a sum of openings is the sum of their commitments. */
  lemma CommitAdds<T(!new)>(g: Monoid<T>, gens: Generators<T>, order: Modulus, o: Opening, o': Opening)
    requires ValidSetup(g, gens, order)
    ensures g.op(Commit(g, gens, o), Commit(g, gens, o')) == Commit(g, gens, Sum(o, o'))
  {
    MultipleAdd(g, gens.G, o.refunds, o'.refunds);
    MultipleAdd(g, gens.J, o.index, o'.index);
    MultipleAdd(g, gens.K, o.commitment, o'.commitment);
    MultipleAdd(g, gens.H, o.blinding, o'.blinding);
    InterchangeFour(g, Multiple(g, gens.G, o.refunds), Multiple(g, gens.J, o.index),
                    Multiple(g, gens.K, o.commitment), Multiple(g, gens.H, o.blinding),
                    Multiple(g, gens.G, o'.refunds), Multiple(g, gens.J, o'.index),
                    Multiple(g, gens.K, o'.commitment), Multiple(g, gens.H, o'.blinding));
  }

  // ---- the updates ----

  /** Re-randomising a commitment adds to its blinding, modulo the order of H. */
  lemma RerandomizeOpens<T(!new)>(g: Monoid<T>, gens: Generators<T>, order: Modulus, o: Opening, blinding: nat)
    requires ValidSetup(g, gens, order)
    ensures Rerandomize(g, gens, Commit(g, gens, o), blinding)
         == Commit(g, gens, o.(blinding := (o.blinding + blinding) % order))
  {
    var head := g.op(g.op(Multiple(g, gens.G, o.refunds), Multiple(g, gens.J, o.index)), Multiple(g, gens.K, o.commitment));
    MultipleCloses(g, gens.G, o.refunds);
    MultipleCloses(g, gens.J, o.index);
    MultipleCloses(g, gens.K, o.commitment);
    assert CloseLaw(g, Multiple(g, gens.G, o.refunds), Multiple(g, gens.J, o.index));
    assert CloseLaw(g, g.op(Multiple(g, gens.G, o.refunds), Multiple(g, gens.J, o.index)), Multiple(g, gens.K, o.commitment));
    MultipleAdd(g, gens.H, o.blinding, blinding);
    assert AssociateLaw(g, head, Multiple(g, gens.H, o.blinding), Multiple(g, gens.H, blinding));
    MultipleCloses(g, gens.H, (o.blinding + blinding) % order);
    MultipleCloses(g, gens.H, o.blinding + blinding);
    TimesModOrder(g, order, o.blinding + blinding, gens.H);
  }

  /** Refunds count modulo the order of G. */
  lemma RefundsWrap<T(!new)>(g: Monoid<T>, gens: Generators<T>, order: Modulus, o: Opening, orderOfG: nat)
    requires ValidSetup(g, gens, order) && Multiple(g, gens.G, orderOfG) == g.unit
    ensures Commit(g, gens, o.(refunds := o.refunds + orderOfG)) == Commit(g, gens, o)
  {
    MultipleAdd(g, gens.G, o.refunds, orderOfG);
    assert UnitLaw(g, Multiple(g, gens.G, o.refunds));
  }

  /** The server's update adds to the refunds and moves the index on. */
  lemma ApplyRefundOpens<T(!new)>(g: Monoid<T>, gens: Generators<T>, order: Modulus, o: Opening, refund: nat)
    requires ValidSetup(g, gens, order)
    ensures ApplyRefund(g, gens, Commit(g, gens, o), refund)
         == Commit(g, gens, o.(refunds := o.refunds + refund, index := o.index + 1))
  {
    var a, b := Multiple(g, gens.G, o.refunds), Multiple(g, gens.J, o.index);
    var c, d := Multiple(g, gens.K, o.commitment), Multiple(g, gens.H, o.blinding);
    var v, a' := Multiple(g, gens.G, refund), Multiple(g, gens.G, o.refunds + refund);
    MultipleAdd(g, gens.G, o.refunds, refund);
    MultipleAdd(g, gens.J, o.index, 1);
    MultipleCloses(g, gens.J, 1);
    TimesOne(g, gens.J);
    MultipleCloses(g, gens.K, o.commitment);
    MultipleCloses(g, gens.H, o.blinding);
    AddToFirst(g, a, b, c, d, v);
    // J moves past d and c to b
    assert CloseLaw(g, a', b) && CloseLaw(g, g.op(a', b), c);
    Rotate(g, g.op(g.op(a', b), c), d, gens.J);
    Rotate(g, g.op(a', b), c, gens.J);
    assert AssociateLaw(g, a', b, gens.J);
  }

  // ---- whole runs ----

  /** What one served request adds: the refund v and the client's rerandomizer s'. */
  datatype Update = Update(refund: nat, rerandomizer: nat)

  function Fold<T(!new)>(g: Monoid<T>, gens: Generators<T>, commitment: nat, run: seq<Update>): T {
    if run == [] then Genesis(g, gens, commitment)
    else
      var before := Fold(g, gens, commitment, run[..|run| - 1]);
      var last := run[|run| - 1];
      ApplyRefund(g, gens, Rerandomize(g, gens, before, last.rerandomizer), last.refund)
  }

  function SumRefunds(run: seq<Update>): nat {
    if run == [] then 0 else SumRefunds(run[..|run| - 1]) + run[|run| - 1].refund
  }

  function SumBlindings(run: seq<Update>): nat {
    if run == [] then 0 else SumBlindings(run[..|run| - 1]) + run[|run| - 1].rerandomizer
  }

  /** After any run the accumulator opens to the sums the client keeps. */
  lemma {:induction false} RunOpens<T(!new)>(g: Monoid<T>, gens: Generators<T>, order: Modulus, commitment: nat, run: seq<Update>)
    requires ValidSetup(g, gens, order)
    ensures Fold(g, gens, commitment, run)
         == Commit(g, gens, Opening(SumRefunds(run), |run|, commitment, SumBlindings(run) % order))
  {
    if run == [] {
      assert 0 % order == 0;
    } else {
      var prefix, last := run[..|run| - 1], run[|run| - 1];
      var sum := SumBlindings(prefix);
      RunOpens(g, gens, order, commitment, prefix);
      var o := Opening(SumRefunds(prefix), |prefix|, commitment, sum % order);
      RerandomizeOpens(g, gens, order, o, last.rerandomizer);
      ModOfSum(order, sum, last.rerandomizer);
      ApplyRefundOpens(g, gens, order, o.(blinding := (sum + last.rerandomizer) % order), last.refund);
    }
  }

  lemma ModOfSum(n: Modulus, a: nat, b: nat)
    ensures (a % n + b) % n == (a + b) % n
  {
    CongMod(n, a);
    CongAdd(n, a % n, a, b, b);
  }
}

/** The accumulator on the curve: associativity of its addition is the only group law assumed. */
module CurveAccumulator {
  import opened Modular
  import opened Edwards
  import opened Group
  import CurvePoints
  import opened Accumulator

  ghost predicate ValidCurveSetup(cv: Curve, gens: Generators<Point>, order: Modulus) {
    && Valid(cv) && Associative(CurvePoints.CurveGroup(cv))
    && IsPoint(cv, gens.G) && IsPoint(cv, gens.J) && IsPoint(cv, gens.K) && IsPoint(cv, gens.H)
    && CurvePoints.Multiple(cv, gens.H, order) == IDENTITY
  }

  lemma SetupIsValid(cv: Curve, gens: Generators<Point>, order: Modulus)
    requires ValidCurveSetup(cv, gens, order)
    ensures ValidSetup(CurvePoints.CurveGroup(cv), gens, order)
  {
    CurvePoints.CurveIsLawful(cv);
    MultipleIsTimes(CurvePoints.CurveGroup(cv), gens.H, order);
  }

  lemma CurveRunOpens(cv: Curve, gens: Generators<Point>, order: Modulus, commitment: nat, run: seq<Update>)
    requires ValidCurveSetup(cv, gens, order)
    ensures var g := CurvePoints.CurveGroup(cv);
            Fold(g, gens, commitment, run)
            == Commit(g, gens, Opening(SumRefunds(run), |run|, commitment, SumBlindings(run) % order))
  {
    SetupIsValid(cv, gens, order);
    RunOpens(CurvePoints.CurveGroup(cv), gens, order, commitment, run);
  }
}
