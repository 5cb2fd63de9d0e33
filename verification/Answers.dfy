/** What the gateway answers an honest request, and which answers receive takes. */
module Answers {
  import opened Edwards
  import opened Accumulator
  import opened CurveAccumulator
  import CurvePoints
  import opened GatewayState
  import opened Protocol
  import opened ProtocolInvariant
  import opened ProtocolSteps
  import opened NoteClient
  import opened HonestRuns

  /** The world after a fresh request of the client is recorded, the provider called, and the outcome signed. */
  function ServedBy(cr: Params, st: State, id: nat, w: Witness, rerandomizer: nat, x: int, now: int, outcome: Outcome): State
    requires w.k in st.notes && RecordVerdict(st.server, Nullifier(cr, w.k, w.index), SignalAt(cr, w.k, w.index, x), now).Fresh?
  {
    var recorded := ApplySubmit(cr, st, id, w, rerandomizer, x, now);
    ApplySign(cr, SetPhase(ApplyCall(recorded, id), id, Priced(outcome)), id)
  }

  /**
   * Client and gateway agree: a fresh request of an honest file can be
   * submitted, and what the gateway signs for it is what receive accepts,
   * whatever its outcome.
   */
  lemma ServedRequestIsAccepted(cr: Params, h: Honest, id: nat, rerandomizer: nat, x: int, now: int, outcome: Outcome)
    requires Ideal(cr) && HonestOk(cr, h) && h.shown.None? && h.note.pending.None? && id !in h.st.handlers
    requires 0 <= x < cr.p && !cr.exitX(x) && Binds(cr, h.st, OpeningOf(cr, WitnessOf(h.note)))
    requires ProveRequest(cr, h.st, h.note, x, rerandomizer).Some?
    ensures CanSubmit(cr, h.st, id, WitnessOf(h.note), x)
    ensures Nullifier(cr, h.note.secretKey, h.note.index) !in h.st.server.nullifiers
    ensures SignedFor(cr, h.st, ServedBy(cr, h.st, id, WitnessOf(h.note), rerandomizer, x, now, outcome), id, h.note, x, rerandomizer)
    ensures var st' := ServedBy(cr, h.st, id, WitnessOf(h.note), rerandomizer, x, now, outcome);
            var response, pending := st'.handlers[id].phase.response, ProveRequest(cr, h.st, h.note, x, rerandomizer).value.1;
            && response.refund == Refund(cr.cMax, outcome)
            && Receive(cr, pending, response.refund, response.accumulator, IsSigned(st', response.accumulator)).Some?
  {
    OwnIndexUnspent(cr, h);
    ServedIsSigned(cr, h.st, id, h.note, rerandomizer, x, now, outcome);
  }

  /** Nobody else can spend the index an honest file is at. */
  lemma OwnIndexUnspent(cr: Params, h: Honest)
    requires Ideal(cr) && SignalsOk(cr, h) && h.shown.None? && h.note.pending.None? && h.note.index < INDEX_BOUND
    ensures Nullifier(cr, h.note.secretKey, h.note.index) !in h.st.server.nullifiers
  {
    var k := h.note.secretKey;
    KeysHold(cr, h.st, k);
    if Nullifier(cr, k, h.note.index) in h.st.server.nullifiers { OwnerIs(cr, h.st, k, h.note.index); }
  }

  /** Handler id carries the signed answer to the request that ProveRequest makes. */
  ghost predicate SignedFor(cr: Params, st: State, st': State, id: nat, note: NoteFile, x: int, rerandomizer: nat)
    requires ProveRequest(cr, st, note, x, rerandomizer).Some?
  {
    var body := ProveRequest(cr, st, note, x, rerandomizer).value.0;
    && id in st'.handlers && st'.handlers[id].phase.Signed?
    && st'.handlers[id].nullifier == body.nullifier && st'.handlers[id].signal == body.signal
    && st'.handlers[id].published == body.accumulator
    && IsSigned(st', st'.handlers[id].phase.response.accumulator)
    && st'.handlers[id].phase.response.accumulator
       == cr.applyRefund(body.accumulator, st'.handlers[id].phase.response.refund)
  }

  lemma ServedIsSigned(cr: Params, st: State, id: nat, note: NoteFile, rerandomizer: nat, x: int, now: int, outcome: Outcome)
    requires note.pending.None? && ProveRequest(cr, st, note, x, rerandomizer).Some?
    requires Nullifier(cr, note.secretKey, note.index) !in st.server.nullifiers
    ensures var st' := ServedBy(cr, st, id, WitnessOf(note), rerandomizer, x, now, outcome);
            SignedFor(cr, st, st', id, note, x, rerandomizer)
            && st'.handlers[id].phase.response.refund == Refund(cr.cMax, outcome)
  {
    var st' := ServedBy(cr, st, id, WitnessOf(note), rerandomizer, x, now, outcome);
    assert st'.signLog[|st'.signLog| - 1] in st'.signLog;
  }

  /** No request and no exit can be proved from the file. */
  ghost predicate Stranded(cr: Params, st: State, note: NoteFile) {
    && (forall x, rerandomizer :: ProveRequest(cr, st, note, x, rerandomizer).None?)
    && (forall claimed, x :: ProveWithdrawal(cr, st, note, claimed, x).None?)
  }

  lemma UnsignedStrands(cr: Params, st: State, note: NoteFile)
    requires note.pending.None? && (note.refunds < 0 || !SignedOpening(cr, st, WitnessOf(note)))
    ensures Stranded(cr, st, note)
  {}

  /**
   * receive does not look at the sign of a refund: whenever it accepts a
   * refund of 0 it accepts -1 with the same point and signature. Neither a
   * request nor an exit can be proved from the file that leaves.
   */
  lemma NegativeRefundAccepted(cr: Params, st: State, note: NoteFile, accumulator: Point)
    requires Ideal(cr) && Invariant(cr, st) && FileOk(cr, st, note) && note.pending.Some?
    requires Receive(cr, note, 0, accumulator, IsSigned(st, accumulator)).Some?
    requires Binds(cr, st, NextOpening(cr, note, note.pending.value.rerandomizer, 0))
    ensures Receive(cr, note, -1, accumulator, IsSigned(st, accumulator)).Some?
    ensures var broken := Receive(cr, note, -1, accumulator, IsSigned(st, accumulator)).value;
            && !FileOk(cr, st, broken)
            && (Binds(cr, st, OpeningOf(cr, WitnessOf(broken))) ==> Stranded(cr, st, broken))
  {
    AcceptedFile(cr, st, note, -1, accumulator);
    ExpectedOpens(cr, note, note.pending.value.rerandomizer, 0);
    SignedIsNext(cr, st, note, note.pending.value.rerandomizer, 0);
    var broken := Receive(cr, note, -1, accumulator, IsSigned(st, accumulator)).value;
    if Binds(cr, st, OpeningOf(cr, WitnessOf(broken))) {
      if broken.refunds >= 0 && SignedOpening(cr, st, WitnessOf(broken)) { OpeningIsHistory(cr, st, WitnessOf(broken)); }
      UnsignedStrands(cr, st, broken);
    }
  }

  /** Such an answer is at hand whenever a request costs C_MAX or more: its refund is 0, and -1 is accepted in its place. */
  lemma FullCostAcceptsNegative(cr: Params, h: Honest, id: nat, rerandomizer: nat, x: int, now: int, cost: nat)
    requires Ideal(cr) && HonestOk(cr, h) && h.shown.None? && h.note.pending.None? && id !in h.st.handlers
    requires 0 <= x < cr.p && !cr.exitX(x) && Binds(cr, h.st, OpeningOf(cr, WitnessOf(h.note)))
    requires ProveRequest(cr, h.st, h.note, x, rerandomizer).Some? && cost >= cr.cMax
    ensures Nullifier(cr, h.note.secretKey, h.note.index) !in h.st.server.nullifiers
    ensures var st' := ServedBy(cr, h.st, id, WitnessOf(h.note), rerandomizer, x, now, Served(cost));
            var response, pending := st'.handlers[id].phase.response, ProveRequest(cr, h.st, h.note, x, rerandomizer).value.1;
            && response.refund == 0
            && Receive(cr, pending, -1, response.accumulator, IsSigned(st', response.accumulator)).Some?
  {
    ServedRequestIsAccepted(cr, h, id, rerandomizer, x, now, Served(cost));
  }

  // ---- refunds that wrap around the order of G ----

  /** Refunds count modulo wrap in a commitment. */
  ghost predicate WrapLaw(cr: Params, wrap: nat, o: Opening) {
    cr.commit(o.(refunds := o.refunds + wrap)) == cr.commit(o)
  }

  /**
   * receive puts no upper bound on a refund either: whenever it accepts a
   * refund it accepts that refund plus wrap, with the same point and
   * signature. The opening that leaves does not bind, and is beyond what the
   * circuits take once wrap is.
   */
  lemma OversizedRefundAccepted(cr: Params, st: State, note: NoteFile, refund: nat, wrap: nat, accumulator: Point)
    requires Ideal(cr) && Invariant(cr, st) && FileOk(cr, st, note) && note.pending.Some?
    requires wrap > cr.cMax && forall o :: WrapLaw(cr, wrap, o)
    requires Receive(cr, note, refund, accumulator, IsSigned(st, accumulator)).Some?
    ensures Receive(cr, note, refund + wrap, accumulator, IsSigned(st, accumulator)).Some?
    ensures var broken := Receive(cr, note, refund + wrap, accumulator, IsSigned(st, accumulator)).value;
            && !FileOk(cr, st, broken) && !Binds(cr, st, OpeningOf(cr, WitnessOf(broken)))
            && (wrap >= AMOUNT_BOUND ==> Stranded(cr, st, broken))
  {
    var rerandomizer := note.pending.value.rerandomizer;
    ExpectedOpens(cr, note, rerandomizer, refund);
    ExpectedOpens(cr, note, rerandomizer, refund + wrap);
    assert WrapLaw(cr, wrap, NextOpening(cr, note, rerandomizer, refund));
    AcceptedFile(cr, st, note, refund + wrap, accumulator);
    DoesNotBind(cr, st, note, refund + wrap);
    var broken := Folded(cr, note, refund + wrap);
    assert OpeningOf(cr, WitnessOf(broken)) == NextOpening(cr, note, rerandomizer, refund + wrap);
    if wrap >= AMOUNT_BOUND { UnsignedStrands(cr, st, broken); }
  }

  /** A signed point never binds to an opening with more than C_MAX of new refunds. */
  lemma DoesNotBind(cr: Params, st: State, note: NoteFile, refund: nat)
    requires Ideal(cr) && Invariant(cr, st) && FileOk(cr, st, note) && note.pending.Some? && refund > cr.cMax
    requires IsSigned(st, cr.commit(NextOpening(cr, note, note.pending.value.rerandomizer, refund)))
    ensures !Binds(cr, st, NextOpening(cr, note, note.pending.value.rerandomizer, refund))
  {
    if Binds(cr, st, NextOpening(cr, note, note.pending.value.rerandomizer, refund)) {
      SignedIsNext(cr, st, note, note.pending.value.rerandomizer, refund);
      NextTotal(cr, st, note);
    }
  }

  /** On the curve the order of G is such a wrap, and it is beyond the circuits' bound on amounts. */
  lemma SubgroupOrderAccepted(cr: Params, cv: Curve, gens: Generators<Point>, st: State, note: NoteFile, refund: nat, accumulator: Point)
    requires Ideal(cr) && Invariant(cr, st) && FileOk(cr, st, note) && note.pending.Some?
    requires ValidCurveSetup(cv, gens, cr.order)
    requires forall o :: cr.commit(o) == Commit(CurvePoints.CurveGroup(cv), gens, o)
    requires CurvePoints.Multiple(cv, gens.G, CurvePoints.SUBGROUP_ORDER) == IDENTITY
    requires Receive(cr, note, refund, accumulator, IsSigned(st, accumulator)).Some?
    ensures var received := Receive(cr, note, refund + CurvePoints.SUBGROUP_ORDER, accumulator, IsSigned(st, accumulator));
            received.Some? && Stranded(cr, st, received.value)
  {
    forall o ensures WrapLaw(cr, CurvePoints.SUBGROUP_ORDER, o) {
      SetupIsValid(cv, gens, cr.order);
      RefundsWrap(CurvePoints.CurveGroup(cv), gens, cr.order, o, CurvePoints.SUBGROUP_ORDER);
    }
    OversizedRefundAccepted(cr, st, note, refund, CurvePoints.SUBGROUP_ORDER, accumulator);
  }
}
