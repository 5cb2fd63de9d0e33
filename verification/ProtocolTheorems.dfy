/** What the protocol promises, over every run. */
module ProtocolTheorems {
  import opened Edwards
  import opened Accumulator
  import opened CurveAccumulator
  import Circuits
  import CurvePoints
  import opened GatewayState
  import opened Protocol
  import opened ProtocolInvariant
  import opened ProtocolSteps

  // ---- the prefix property ----

  lemma RequestsArePrefix(cr: Params, st: State, k: int)
    requires EntriesOk(cr, st) && NotesOk(cr, st)
    ensures forall i: nat :: RequestedAt(cr, st, k, i) <==> i < NoteAt(st, k).used
  {
    forall i: nat ensures RequestedAt(cr, st, k, i) <==> i < NoteAt(st, k).used {
      if RequestedAt(cr, st, k, i) { assert EntryOk(cr, st, Nullifier(cr, k, i)); }
      if k in st.notes { assert NoteOk(cr, st, k); }
    }
  }

  /** The indices a note's requests recorded are exactly those below one bound. */
  lemma IndicesFormPrefix(cr: Params, actions: seq<Action>, k: int)
    requires Ideal(cr)
    ensures var st := Run(cr, actions);
            forall i: nat :: RequestedAt(cr, st, k, i) <==> i < NoteAt(st, k).used
  {
    ReachableInv(cr, actions);
    RequestsArePrefix(cr, Run(cr, actions), k);
  }

  /** What was signed for index i refunds all of C_MAX but the charge. */
  ghost predicate AnsweredFor(cr: Params, st: State, k: int, i: nat, charge: nat) {
    exists e :: e in st.signLog && e.k == k && e.i == i && e.response.refund == cr.cMax - charge
  }

  /** The recorded indices have a signature each, for the outcome the note is charged with, save at most the last. */
  lemma OnlyLastUnanswered(cr: Params, actions: seq<Action>, k: int)
    requires Ideal(cr) && k in Run(cr, actions).notes
    ensures var st := Run(cr, actions);
            var note := st.notes[k];
            && |note.outcomes| <= note.used <= |note.outcomes| + 1
            && (forall i: nat :: AnsweredAt(st, k, i) <==> i < |note.outcomes|)
            && (forall i: nat :: i < |note.outcomes| ==> AnsweredFor(cr, st, k, i, Charge(cr.cMax, note.outcomes[i])))
  {
    ReachableInv(cr, actions);
    AnswersAreHistory(cr, Run(cr, actions), k);
  }

  lemma AnswersAreHistory(cr: Params, st: State, k: int)
    requires NotesOk(cr, st) && SignaturesOk(cr, st) && k in st.notes
    ensures |st.notes[k].outcomes| <= st.notes[k].used <= |st.notes[k].outcomes| + 1
    ensures forall i: nat :: AnsweredAt(st, k, i) <==> i < |st.notes[k].outcomes|
    ensures forall i: nat :: i < |st.notes[k].outcomes| ==>
              AnsweredFor(cr, st, k, i, Charge(cr.cMax, st.notes[k].outcomes[i]))
  {
    assert NoteOk(cr, st, k);
    forall i: nat | AnsweredAt(st, k, i)
      ensures i < |st.notes[k].outcomes| && AnsweredFor(cr, st, k, i, Charge(cr.cMax, st.notes[k].outcomes[i])) {
      var e :| e in st.signLog && e.k == k && e.i == i;
      assert SignOk(cr, st, e);
    }
  }

  // ---- signatures ----

  lemma OneSignaturePerIndex(cr: Params, actions: seq<Action>, a: nat, b: nat)
    requires Ideal(cr) && a < |Run(cr, actions).signLog| && b < |Run(cr, actions).signLog|
    ensures var log := Run(cr, actions).signLog;
            log[a].k == log[b].k && log[a].i == log[b].i ==> a == b
  {
    var st := Run(cr, actions);
    ReachableInv(cr, actions);
    assert SignOk(cr, st, st.signLog[a]) && SignOk(cr, st, st.signLog[b]);
  }

  /** What a client can prove about a signed or genesis accumulator of index m: the sum of the first m refunds. */
  lemma AccumulatorOpensToHistory(cr: Params, actions: seq<Action>, w: Witness)
    requires Ideal(cr) && w.k in Run(cr, actions).notes && SignedOpening(cr, Run(cr, actions), w)
    requires Binds(cr, Run(cr, actions), OpeningOf(cr, w))
    ensures var note := Run(cr, actions).notes[w.k];
            w.index <= |note.outcomes| && w.refunds == RefundTotal(cr.cMax, note.outcomes[..w.index])
  {
    ReachableInv(cr, actions);
    OpeningIsHistory(cr, Run(cr, actions), w);
  }

  /** Every signature the server gave for index m opens to the first m refunds, whatever points were published. */
  lemma SignaturesOpenToHistory(cr: Params, actions: seq<Action>, e: SignEvent)
    requires Ideal(cr) && e in Run(cr, actions).signLog
    ensures var st := Run(cr, actions);
            && e.k in st.notes && e.i < |st.notes[e.k].outcomes|
            && e.response.accumulator
               == cr.commit(Opening(RefundTotal(cr.cMax, st.notes[e.k].outcomes[..e.i + 1]), e.i + 1, cr.hash1(e.k),
                                    e.opening.blinding))
  {
    ReachableInv(cr, actions);
    assert SignOk(cr, Run(cr, actions), e);
  }

  // ---- economic safety ----

  /** What a note owes: the charges of its answered requests, which OnlyLastUnanswered ties to signatures, and C_MAX for an unanswered one. */
  function Charged(cr: Params, note: Note): int {
    ChargeTotal(cr.cMax, note.outcomes) + (note.used - |note.outcomes|) * cr.cMax
  }

  /** An ingested exit that no request contradicts claims every index ever used. */
  lemma ClaimCoversUsage(cr: Params, st: State, k: int)
    requires Ideal(cr) && Invariant(cr, st) && k in st.ingested && !SlashedIfEnabled(cr, st, k)
    ensures k in st.exits && k in st.notes && st.notes[k].used <= st.exits[k].n
    ensures Nullifier(cr, k, st.exits[k].n) in st.owner
    ensures st.owner[Nullifier(cr, k, st.exits[k].n)].byExit
  {
    assert IngestedOk(cr, st, k) && ExitOk(cr, st, k) && NoteOk(cr, st, k);
    var n := st.exits[k].n;
    assert n < st.notes[k].used ==> RequestedAt(cr, st, k, n);
  }

  lemma PayoutArithmetic(c: nat, deposit: nat, refunds: nat, refundsNow: nat, charges: nat, answered: nat, used: nat, n: nat)
    requires refunds <= refundsNow && refundsNow + charges == answered * c && used <= n
    ensures deposit + refunds - n * c <= deposit - charges - (used - answered) * c
  {
    assert n * c == used * c + (n - used) * c;
    assert used * c == answered * c + (used - answered) * c;
  }

  lemma UnslashedPayout(cr: Params, st: State, k: int)
    requires Ideal(cr) && Invariant(cr, st) && cr.slashingEnabled && k in st.ingested && k !in st.server.slashed
    ensures k in st.exits && k in st.notes && st.exits[k].payout <= st.notes[k].deposit - Charged(cr, st.notes[k])
  {
    ClaimCoversUsage(cr, st, k);
    assert ExitOk(cr, st, k);
    PayoutCovers(cr, st.notes[k], st.exits[k]);
  }

  /** Any earlier refund total leaves the payout at most what the whole history does. */
  lemma PayoutCovers(cr: Params, note: Note, e: Exit)
    requires note.used <= e.n && e.index <= |note.outcomes|
    requires e.payout == note.deposit + RefundTotal(cr.cMax, note.outcomes[..e.index]) - e.n * cr.cMax
    ensures e.payout <= note.deposit - Charged(cr, note)
  {
    RefundPrefix(cr.cMax, note.outcomes, e.index);
    RefundsAndCharges(cr.cMax, note.outcomes);
    PayoutArithmetic(cr.cMax, note.deposit, RefundTotal(cr.cMax, note.outcomes[..e.index]),
                     RefundTotal(cr.cMax, note.outcomes), ChargeTotal(cr.cMax, note.outcomes), |note.outcomes|, note.used, e.n);
  }

  /**
   * Economic safety: an ingested exit was slashed with the note's own key, or
   * pays at most the deposit less everything the note owes.
   */
  lemma EconomicSafety(cr: Params, actions: seq<Action>, k: int)
    requires Ideal(cr) && cr.slashingEnabled && k in Run(cr, actions).ingested
    ensures var st := Run(cr, actions);
            && k in st.exits && k in st.notes
            && (k in st.server.slashed || st.exits[k].payout <= st.notes[k].deposit - Charged(cr, st.notes[k]))
  {
    var st := Run(cr, actions);
    ReachableInv(cr, actions);
    assert IngestedOk(cr, st, k) && ExitOk(cr, st, k);
    if k !in st.server.slashed { UnslashedPayout(cr, st, k); }
  }

  /** The server never slashes a key whose holder did not sign twice at one index. */
  lemma NoFraming(cr: Params, actions: seq<Action>, k: int)
    requires Ideal(cr) && k in Run(cr, actions).server.slashed
    ensures DoubleSigned(Run(cr, actions), k)
  {
    ReachableInv(cr, actions);
  }

  // ---- exits racing requests ----

  /** Ingesting an exit at an index a request used slashes the note. */
  lemma ExitAfterRequest(cr: Params, st: State, k: int)
    requires Ideal(cr) && Invariant(cr, st) && cr.slashingEnabled && k in st.exits
    requires RequestedAt(cr, st, k, st.exits[k].n)
    ensures k in ApplyIngest(cr, st, k).server.slashed
  {
    var e, n := st.exits[k], Nullifier(cr, k, st.exits[k].n);
    assert ExitOk(cr, st, k) && EntryOk(cr, st, n);
    RecordAgain(cr, st, k, e.n, e.x);
  }

  /** A request at an index an ingested exit took slashes the note, and is not served. */
  lemma RequestAfterExit(cr: Params, st: State, id: nat, w: Witness, rerandomizer: nat, x: int, now: int)
    requires Ideal(cr) && Invariant(cr, st) && cr.slashingEnabled && CanSubmit(cr, st, id, w, x)
    requires Nullifier(cr, w.k, w.index) in st.owner
    requires st.owner[Nullifier(cr, w.k, w.index)] == Owner(w.k, w.index, true)
    ensures var st' := ApplySubmit(cr, st, id, w, rerandomizer, x, now);
            && w.k in st'.server.slashed
            && st'.handlers == st.handlers && st'.calls == st.calls && st'.replies == st.replies
  {
    assert EntryOk(cr, st, Nullifier(cr, w.k, w.index));
    RecordAgain(cr, st, w.k, w.index, x);
  }

  /** Whichever of an exit and a request at one index is stored first, the second reveals the key. */
  lemma ExitAndRequestCommute(cr: Params, st: State, id: nat, w: Witness, rerandomizer: nat, x: int, now: int)
    requires Ideal(cr) && Invariant(cr, st) && cr.slashingEnabled && CanSubmit(cr, st, id, w, x)
    requires Nullifier(cr, w.k, w.index) !in st.server.nullifiers
    requires w.k in st.exits && st.exits[w.k].n == w.index
    ensures w.k in ApplyIngest(cr, ApplySubmit(cr, st, id, w, rerandomizer, x, now), w.k).server.slashed
    ensures w.k in ApplySubmit(cr, ApplyIngest(cr, st, w.k), id, w, rerandomizer, x, now).server.slashed
  {
    RequestThenExit(cr, st, id, w, rerandomizer, x, now);
    ExitThenRequest(cr, st, id, w, rerandomizer, x, now);
  }

  lemma RequestThenExit(cr: Params, st: State, id: nat, w: Witness, rerandomizer: nat, x: int, now: int)
    requires Ideal(cr) && Invariant(cr, st) && cr.slashingEnabled && CanSubmit(cr, st, id, w, x)
    requires Nullifier(cr, w.k, w.index) !in st.server.nullifiers
    requires w.k in st.exits && st.exits[w.k].n == w.index
    ensures w.k in ApplyIngest(cr, ApplySubmit(cr, st, id, w, rerandomizer, x, now), w.k).server.slashed
  {
    FreshIndexIsNext(cr, st, w);
    FreshGrows(cr, st, id, w, rerandomizer, x, now);
    SubmitKeeps(cr, st, id, w, rerandomizer, x, now);
    ExitAfterRequest(cr, ApplySubmit(cr, st, id, w, rerandomizer, x, now), w.k);
  }

  lemma ExitThenRequest(cr: Params, st: State, id: nat, w: Witness, rerandomizer: nat, x: int, now: int)
    requires Ideal(cr) && Invariant(cr, st) && cr.slashingEnabled && CanSubmit(cr, st, id, w, x)
    requires Nullifier(cr, w.k, w.index) !in st.server.nullifiers
    requires w.k in st.exits && st.exits[w.k].n == w.index
    ensures w.k in ApplySubmit(cr, ApplyIngest(cr, st, w.k), id, w, rerandomizer, x, now).server.slashed
  {
    var st' := ApplyIngest(cr, st, w.k);
    IngestKeeps(cr, st, w.k);
    StillSubmittable(cr, st, st', id, w, x);
    RequestAfterExit(cr, st', id, w, rerandomizer, x, now);
  }

  lemma StillSubmittable(cr: Params, st: State, st': State, id: nat, w: Witness, x: int)
    requires CanSubmit(cr, st, id, w, x)
    requires st'.handlers == st.handlers && st'.signLog == st.signLog && st'.notes == st.notes
    ensures CanSubmit(cr, st', id, w, x)
  {}

  // ---- retries ----

  /** Each nullifier leads to at most one provider call and one signature. */
  lemma AtMostOncePerNullifier(cr: Params, actions: seq<Action>, a: nat, b: nat)
    requires Ideal(cr)
    ensures var st := Run(cr, actions);
            && (a < b < |st.calls| ==> st.calls[a] != st.calls[b])
            && (a < b < |st.signLog| ==> st.signLog[a].nullifier != st.signLog[b].nullifier)
  {
    ReachableInv(cr, actions);
  }

  lemma SignedAsUnique(st: State, n: Key, r: Response, r': Response)
    requires SignaturesDistinct(st) && SignedAs(st, n, r) && SignedAs(st, n, r')
    ensures r == r'
  {
    var e :| e in st.signLog && e.nullifier == n && e.response == r;
    var e' :| e' in st.signLog && e'.nullifier == n && e'.response == r';
    var a :| 0 <= a < |st.signLog| && st.signLog[a] == e;
    var b :| 0 <= b < |st.signLog| && st.signLog[b] == e';
    assert !(a < b) && !(b < a);
  }

  /** Whatever is answered for one nullifier, first or on a retry, is one and the same answer. */
  lemma OneAnswerPerNullifier(cr: Params, actions: seq<Action>, r: Reply, r': Reply)
    requires Ideal(cr) && r in Run(cr, actions).replies && r' in Run(cr, actions).replies
    requires r.nullifier == r'.nullifier
    ensures r == r'
  {
    var st := Run(cr, actions);
    ReachableInv(cr, actions);
    assert ReplyOk(st, r) && ReplyOk(st, r');
    SignedAsUnique(st, r.nullifier, r.response, r'.response);
  }

  /** A kept answer always carries the stored signal, and is what was signed for it. */
  lemma CacheMatchesStore(cr: Params, actions: seq<Action>, n: Key)
    requires Ideal(cr) && n in Run(cr, actions).server.responses
    ensures var server := Run(cr, actions).server;
            n in server.nullifiers && server.responses[n].signal == server.nullifiers[n]
    ensures SignedAs(Run(cr, actions), n, Run(cr, actions).server.responses[n].response)
  {
    ReachableInv(cr, actions);
    assert CachedOk(Run(cr, actions), n);
  }

  /** A second signal under a spent nullifier gets the signed answer or a refusal, and is never charged. */
  lemma RetryIsFree(cr: Params, actions: seq<Action>, id: nat, w: Witness, rerandomizer: nat, x: int, now: int)
    requires Ideal(cr) && CanSubmit(cr, Run(cr, actions), id, w, x)
    requires Nullifier(cr, w.k, w.index) in Run(cr, actions).server.nullifiers
    ensures var st, n := Run(cr, actions), Nullifier(cr, w.k, w.index);
            var st' := ApplySubmit(cr, st, id, w, rerandomizer, x, now);
            && st'.calls == st.calls && st'.signLog == st.signLog && st'.notes == st.notes && st'.handlers == st.handlers
            && (st'.replies == st.replies ||
                exists response :: SignedAs(st, n, response)
                  && st'.replies == st.replies + [Reply(n, st.server.nullifiers[n], response)])
  {
    var st := Run(cr, actions);
    ReachableInv(cr, actions);
    RepeatIs(cr, st, id, w, rerandomizer, x, now);
    RepeatIsFree(cr, st, ApplySubmit(cr, st, id, w, rerandomizer, x, now), w.k, Nullifier(cr, w.k, w.index), x);
  }

  lemma RepeatIsFree(cr: Params, st: State, st': State, k: int, n: Key, x: int)
    requires CacheOk(st) && n in st.server.nullifiers && RepeatResult(cr, st, st', k, n, x)
    ensures st'.calls == st.calls && st'.signLog == st.signLog && st'.notes == st.notes && st'.handlers == st.handlers
    ensures st'.replies == st.replies ||
            exists response :: SignedAs(st, n, response)
              && st'.replies == st.replies + [Reply(n, st.server.nullifiers[n], response)]
  {
    if n in st.server.responses { assert CachedOk(st, n); }
  }

  // ---- the relations are what the circuits check in the field ----

  /** In every reachable state the amounts stay in the circuits' ranges, so no constraint wraps around the field. */
  lemma RelationsAreConstraints(cr: Params, actions: seq<Action>, w: Witness, n: nat)
    requires Ideal(cr) && Circuits.TWO_162 < cr.p && w.k in Run(cr, actions).notes
    ensures var st := Run(cr, actions);
            var d := st.notes[w.k].deposit;
            && (RequestRelation(cr, st, w) <==>
                  SignedOpening(cr, st, w) && Circuits.SolvencyConstraint(cr.p, d, w.refunds, cr.cMax, w.index))
            && (SettlementRelation(cr, st, w, n) <==>
                  SignedOpening(cr, st, w) && w.index <= n < INDEX_BOUND
                  && Circuits.PayoutConstraint(cr.p, d, w.refunds, cr.cMax, n))
            && (SettlementRelation(cr, st, w, n) ==>
                  Circuits.PayoutSignal(cr.p, d, w.refunds, cr.cMax, n) == Payout(cr, st, w, n))
  {
    var st := Run(cr, actions);
    ReachableInv(cr, actions);
    assert NoteOk(cr, st, w.k);
    if SignedOpening(cr, st, w) {
      Circuits.SolvencyIsInteger(cr.p, st.notes[w.k].deposit, w.refunds, cr.cMax, w.index);
      if n < INDEX_BOUND { Circuits.PayoutIsInteger(cr.p, st.notes[w.k].deposit, w.refunds, cr.cMax, n); }
    }
  }

  // ---- the curve's accumulator meets the laws the protocol assumes ----

  lemma CurveMeetsLaws(cr: Params, cv: Curve, gens: Generators<Point>, o: Opening, scalar: nat)
    requires ValidCurveSetup(cv, gens, cr.order)
    requires forall o :: cr.commit(o) == Commit(CurvePoints.CurveGroup(cv), gens, o)
    requires forall pt, s :: cr.rerandomize(pt, s) == Rerandomize(CurvePoints.CurveGroup(cv), gens, pt, s)
    requires forall pt, v :: cr.applyRefund(pt, v) == ApplyRefund(CurvePoints.CurveGroup(cv), gens, pt, v)
    ensures RerandomizeLaw(cr, o, scalar) && RefundLaw(cr, o, scalar)
  {
    var g := CurvePoints.CurveGroup(cv);
    SetupIsValid(cv, gens, cr.order);
    RerandomizeOpens(g, gens, cr.order, o, scalar);
    ApplyRefundOpens(g, gens, cr.order, o, scalar);
  }
}
