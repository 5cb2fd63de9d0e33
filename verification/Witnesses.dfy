/**
 * The hypotheses can be met: a small valid curve, and a small instance of the
 * protocol with a run whose exit stands, one whose exit is slashed, and one
 * in which a request follows the slashed exit.
 */
module Witnesses {
  import Circuits
  import opened Modular
  import opened Primes
  import opened Field
  import opened Edwards
  import opened Slashing
  import opened Accumulator
  import opened GatewayState
  import opened Protocol
  import opened ProtocolInvariant

  lemma SevenIsPrime()
    ensures Prime(7)
  {
    forall m: Modulus | m < 7 ensures !Divides(m, 7) {
      assert m == 2 || m == 3 || m == 4 || m == 5 || m == 6;
    }
  }

  /** x^2 + y^2 = 1 + 3 x^2 y^2 modulo 7. */
  lemma ValidCurveExists()
    ensures Valid(Curve(7, 1, 3))
  {
    SevenIsPrime();
    assert Pow(3, 1) == 3 * Pow(3, 0) == 3;
    assert Pow(3, 3) == 3 * Pow(3, 2) == 3 * (3 * Pow(3, 1)) == 27;
    assert IsRoot(7, 1, 1);
  }

  /** The curve of the deployment. */
  const BABY_JUBJUB := Curve(Circuits.BN254_SCALAR_FIELD, 168700, 168696)

  /** 168700 is a square, so primality and 168696^((p-1)/2) = -1 are all its validity rests on. */
  lemma DeployedCurveIsValid()
    requires Prime(BABY_JUBJUB.p) && NonResidue(BABY_JUBJUB.p, BABY_JUBJUB.d)
    ensures Valid(BABY_JUBJUB)
  {
    var p, r := BABY_JUBJUB.p, 7214280148105020021932206872019688659210616427216992810330019057549499971851;
    ModUnique(p, r * r, 2377798819214617165433476951344251911883635150415111281305020607251752899453, 168700);
    ModUnique(p, 168700, 0, 168700);
    assert IsRoot(p, r, BABY_JUBJUB.a);
  }

  /** Two keys, C_MAX = 1, transparent hashes, and commitments that spell out what they open to. */
  function Small(): Params {
    Params({1, 2}, 7, 2, 1, true,
           n => if n < 0 then 0 else n,
           (k, i) => if k < 0 || i < 0 then 0 else 2 * i + k % 2,
           (o: Opening) => Point(o.refunds, 8 * o.index + o.commitment),
           (pt, blinding) => pt,
           (pt: Point, refund: nat) => Point(pt.x + refund, pt.y + 8),
           x => x >= 4)
  }

  lemma SmallIsIdeal()
    ensures Ideal(Small())
  {
    SevenIsPrime();
    var cr := Small();
    forall k, i, k', i' ensures NullifierLaw(cr, k, i, k', i') {}
    forall k, k' ensures CommitmentLaw(cr, k, k') {}
    forall o, blinding ensures RerandomizeLaw(cr, o, blinding) {}
    forall o, refund ensures RefundLaw(cr, o, refund) {}
  }

  /** A run and one more action. */
  lemma {:induction false} RunAppend(cr: Params, st: State, actions: seq<Action>, last: Action)
    ensures RunFrom(cr, st, actions + [last]) == Apply(cr, RunFrom(cr, st, actions), last)
    decreases |actions|
  {
    if actions == [] {
      assert [last][1..] == [] && [] + [last] == [last];
    } else {
      RunAppend(cr, Apply(cr, st, actions[0]), actions[1..], last);
      assert (actions + [last])[1..] == actions[1..] + [last];
    }
  }

  const GENESIS := Witness(1, 0, 0, 0, true)

  /** Deposits 5 and has one request recorded, at index 0 with x = 0. */
  const REQUEST := [Deposit(1, 5), Submit(0, GENESIS, 0, 0, 0)]

  lemma Requested()
    ensures var st := Run(Small(), REQUEST);
            && st.notes == map[1 := Note(5, 1, [])] && st.signLog == [] && st.exits == map[] && st.ingested == {}
            && st.server == Server(map[Key(1) := Signal(0, 1)], map[], [])
            && st.owner == map[Key(1) := Owner(1, 0, false)]
            && st.handlers == map[0 := Handler(Key(1), Signal(0, 1), Point(0, 1), 1, 0, Opening(0, 0, 1, 0), Recorded)]
  {
    var cr, start := Small(), InitialState().(notes := map[1 := Note(5, 0, [])]);
    assert Run(cr, []) == InitialState();
    RunAppend(cr, InitialState(), [], Deposit(1, 5));
    assert [] + [Deposit(1, 5)] == [Deposit(1, 5)];
    assert Apply(cr, InitialState(), Deposit(1, 5)) == start;
    RunAppend(cr, InitialState(), [Deposit(1, 5)], Submit(0, GENESIS, 0, 0, 0));
    assert [Deposit(1, 5)] + [Submit(0, GENESIS, 0, 0, 0)] == REQUEST;
    assert CanSubmit(cr, start, 0, GENESIS, 0);
  }

  lemma Revealed()
    ensures Recover(7, Signal(0, 1), Signal(4, 5)) == Some(1)
  {
    SmallIsIdeal();
    DoubleSignalReveals(Small(), 1, 0, 0, 4);
    ModUnique(7, 1, 0, 1);
    ModUnique(7, 5, 0, 5);
  }

  lemma Slashes(p: Modulus, server: Server, n: Key, s: Signal, k: int)
    requires n in server.nullifiers && server.nullifiers[n].x != s.x && Recover(p, server.nullifiers[n], s) == Some(k)
    ensures Record(p, true, server, n, s) == server.(slashed := server.slashed + [k])
  {}

  lemma SecondSignal()
    ensures Nullifier(Small(), 1, 0) == Key(1)
    ensures Record(7, true, Server(map[Key(1) := Signal(0, 1)], map[], []), Key(1), SignalAt(Small(), 1, 0, 4))
         == Server(map[Key(1) := Signal(0, 1)], map[], [1])
  {
    assert SignalAt(Small(), 1, 0, 4) == Signal(4, 5);
    Revealed();
    Slashes(7, Server(map[Key(1) := Signal(0, 1)], map[], []), Key(1), Signal(4, 5), 1);
  }

  lemma Underclaimed()
    ensures var st := Run(Small(), REQUEST + [InitiateWithdrawal(GENESIS, 0, 4)]);
            && st.exits == map[1 := Exit(0, 4, 5, 0, 0)]
            && st.server == Server(map[Key(1) := Signal(0, 1)], map[], [])
  {
    var cr, st := Small(), Run(Small(), REQUEST);
    Requested();
    assert CanWithdraw(cr, st, GENESIS, 0, 4);
    RunAppend(cr, InitialState(), REQUEST, InitiateWithdrawal(GENESIS, 0, 4));
  }

  /** An exit that leaves out the recorded index: its ingestion slashes the note. */
  lemma SlashedRun()
    ensures var st := Run(Small(), REQUEST + [InitiateWithdrawal(GENESIS, 0, 4)] + [Ingest(1)]);
            1 in st.ingested && 1 in st.exits && st.exits[1].payout == 5 && st.server.slashed == [1]
  {
    var st := Run(Small(), REQUEST + [InitiateWithdrawal(GENESIS, 0, 4)]);
    Underclaimed();
    RunAppend(Small(), InitialState(), REQUEST + [InitiateWithdrawal(GENESIS, 0, 4)], Ingest(1));
    assert ApplyIngest(Small(), st, 1).server.slashed == [1] by { SecondSignal(); }
  }

  /** The rest of the request, served at no cost, up to its answer. */
  const SERVICE := REQUEST + [CallProvider(0)] + [ProviderEnds(0, Served(0))] + [Sign(0)]

  const NEXT := Witness(1, 1, 1, 0, false)

  lemma Serviced()
    ensures var st := Run(Small(), SERVICE);
            && st.notes == map[1 := Note(5, 1, [Served(0)])] && st.exits == map[] && st.ingested == {}
            && st.server == Server(map[Key(1) := Signal(0, 1)], map[], [])
            && 1 !in st.handlers && st.owner == map[Key(1) := Owner(1, 0, false)]
            && st.signLog == [SignEvent(Key(1), Response(1, Point(1, 9), false), 1, 0, Opening(1, 1, 1, 0))]
  {
    var cr := Small();
    Requested();
    RunAppend(cr, InitialState(), REQUEST, CallProvider(0));
    RunAppend(cr, InitialState(), REQUEST + [CallProvider(0)], ProviderEnds(0, Served(0)));
    RunAppend(cr, InitialState(), REQUEST + [CallProvider(0)] + [ProviderEnds(0, Served(0))], Sign(0));
    assert [] + [Served(0)] == [Served(0)];
    assert map[1 := Note(5, 1, [])][1 := Note(5, 1, [Served(0)])] == map[1 := Note(5, 1, [Served(0)])];
  }

  lemma Claimed()
    ensures var st := Run(Small(), SERVICE + [InitiateWithdrawal(NEXT, 1, 4)]);
            && st.exits == map[1 := Exit(1, 4, 5, 1, 1)]
            && st.server == Server(map[Key(1) := Signal(0, 1)], map[], [])
  {
    var cr, st := Small(), Run(Small(), SERVICE);
    Serviced();
    assert SignedOpening(cr, st, NEXT) by {
      assert st.signLog[0] in st.signLog && st.signLog[0].response.accumulator == cr.commit(OpeningOf(cr, NEXT));
    }
    assert CanWithdraw(cr, st, NEXT, 1, 4);
    RunAppend(cr, InitialState(), SERVICE, InitiateWithdrawal(NEXT, 1, 4));
  }

  /** An exit that covers the served index stands: it pays the deposit, as the request cost nothing. */
  lemma StandingRun()
    ensures var st := Run(Small(), SERVICE + [InitiateWithdrawal(NEXT, 1, 4)] + [Ingest(1)]);
            1 in st.ingested && 1 in st.exits && st.exits[1].payout == 5 && st.server.slashed == []
  {
    Claimed();
    RunAppend(Small(), InitialState(), SERVICE + [InitiateWithdrawal(NEXT, 1, 4)], Ingest(1));
  }

  /** The same service, and an exit that leaves its request out. */
  const UNDERSTATED := SERVICE + [InitiateWithdrawal(GENESIS, 0, 4)]

  lemma Understated()
    ensures var st, before := Run(Small(), UNDERSTATED), Run(Small(), SERVICE);
            && st.exits == map[1 := Exit(0, 4, 5, 0, 0)]
            && st.server == before.server && st.notes == before.notes && st.signLog == before.signLog
            && st.handlers == before.handlers && st.owner == before.owner
  {
    var cr, st := Small(), Run(Small(), SERVICE);
    Serviced();
    assert CanWithdraw(cr, st, GENESIS, 0, 4);
    RunAppend(cr, InitialState(), SERVICE, InitiateWithdrawal(GENESIS, 0, 4));
  }

  lemma UnderstatedIngested()
    ensures var st, before := Run(Small(), UNDERSTATED + [Ingest(1)]), Run(Small(), SERVICE);
            && 1 in st.ingested && st.exits == map[1 := Exit(0, 4, 5, 0, 0)]
            && st.server == Server(map[Key(1) := Signal(0, 1)], map[], [1])
            && st.notes == before.notes && st.signLog == before.signLog && st.handlers == before.handlers
            && st.owner == before.owner
  {
    Serviced();
    Understated();
    RunAppend(Small(), InitialState(), UNDERSTATED, Ingest(1));
    SecondSignal();
  }

  /** After the slashed exit at index 0 the note's request at index 1 is recorded all the same. */
  lemma ReopenedRun()
    ensures var cr := Small();
            var exited := Run(cr, UNDERSTATED + [Ingest(1)]);
            var st := Run(cr, UNDERSTATED + [Ingest(1)] + [Submit(1, NEXT, 0, 1, 0)]);
            && 1 in exited.ingested && 1 in exited.exits && exited.exits[1].n == 0 && exited.server.slashed == [1]
            && !RequestedAt(cr, exited, 1, 1) && RequestedAt(cr, st, 1, 1)
  {
    var cr, st := Small(), Run(Small(), UNDERSTATED + [Ingest(1)]);
    Serviced();
    UnderstatedIngested();
    assert SignedOpening(cr, st, NEXT) by {
      assert st.signLog[0] in st.signLog && st.signLog[0].response.accumulator == cr.commit(OpeningOf(cr, NEXT));
    }
    assert CanSubmit(cr, st, 1, NEXT, 1);
    RunAppend(cr, InitialState(), UNDERSTATED + [Ingest(1)], Submit(1, NEXT, 0, 1, 0));
  }
}
