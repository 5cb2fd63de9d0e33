/** Each action keeps the invariant and takes nothing back. */
module ProtocolSteps {
  import opened Accumulator
  import opened GatewayState
  import opened Protocol
  import opened ProtocolInvariant

  ghost predicate Keeps(cr: Params, st: State, st': State) {
    Invariant(cr, st') && Grows(st, st')
  }

  /**
   * An accepted opening is one the note's own history produced: binding leaves
   * a client nothing to choose but how old an accumulator to show.
   */
  lemma OpeningIsHistory(cr: Params, st: State, w: Witness)
    requires Ideal(cr) && NotesOk(cr, st) && SignaturesOk(cr, st) && w.k in st.notes && SignedOpening(cr, st, w)
    requires Binds(cr, st, OpeningOf(cr, w))
    ensures w.index <= |st.notes[w.k].outcomes|
    ensures w.refunds == RefundTotal(cr.cMax, st.notes[w.k].outcomes[..w.index])
  {
    if !w.genesis {
      var e :| e in st.signLog && e.response.accumulator == cr.commit(OpeningOf(cr, w));
      assert SignOk(cr, st, e) && NoteOk(cr, st, e.k) && NoteOk(cr, st, w.k);
      assert CommitmentLaw(cr, w.k, e.k);
    }
  }

  /** Whoever stored a signal under N(k, i), it was note k at index i. */
  lemma OwnerIs(cr: Params, st: State, k: int, i: nat)
    requires Ideal(cr) && EntriesOk(cr, st) && Nullifier(cr, k, i) in st.server.nullifiers
    requires k in cr.keys && i < INDEX_BOUND
    ensures var n := Nullifier(cr, k, i);
            n in st.owner && st.owner[n].k == k && st.owner[n].i == i && EntryOk(cr, st, n)
  {
    var n := Nullifier(cr, k, i);
    assert EntryOk(cr, st, n);
    assert NullifierLaw(cr, k, i, st.owner[n].k, st.owner[n].i);
  }

  /** A second signal under a spent nullifier: same x changes nothing, another x slashes k. */
  lemma RecordAgain(cr: Params, st: State, k: int, i: nat, x: int)
    requires Ideal(cr) && EntriesOk(cr, st) && Nullifier(cr, k, i) in st.server.nullifiers
    requires k in cr.keys && i < INDEX_BOUND && 0 <= x < cr.p
    ensures var n := Nullifier(cr, k, i);
            Record(cr.p, cr.slashingEnabled, st.server, n, SignalAt(cr, k, i, x))
            == if st.server.nullifiers[n].x != x && cr.slashingEnabled
               then st.server.(slashed := st.server.slashed + [k]) else st.server
  {
    var n := Nullifier(cr, k, i);
    OwnerIs(cr, st, k, i);
    var x' := st.server.nullifiers[n].x;
    if x' != x { DoubleSignalReveals(cr, k, i, x', x); }
  }

  // ---- actions that touch few parts ----

  lemma DepositKeeps(cr: Params, st: State, k: int, amount: nat)
    requires Ideal(cr) && Invariant(cr, st) && CanDeposit(cr, st, k, amount)
    ensures Keeps(cr, st, ApplyDeposit(st, k, amount))
  {
    var st' := ApplyDeposit(st, k, amount);
    DepositNotes(cr, st, k, amount);
    OnlyNotesNew(cr, st, st');
  }

  lemma DepositNotes(cr: Params, st: State, k: int, amount: nat)
    requires NotesOk(cr, st) && CanDeposit(cr, st, k, amount)
    ensures var st' := ApplyDeposit(st, k, amount);
            Grows(st, st') && NotesOk(cr, st') && MapGrows(st.notes, st'.notes)
  {
    var st' := ApplyDeposit(st, k, amount);
    forall j | j in st'.notes ensures NoteOk(cr, st', j) {
      if j != k { NoteStays(cr, st, st', j); }
    }
  }

  lemma OnlyNotesNew(cr: Params, st: State, st': State)
    requires Invariant(cr, st) && Grows(st, st') && NotesOk(cr, st') && MapGrows(st.notes, st'.notes)
    requires st' == st.(notes := st'.notes)
    ensures Keeps(cr, st, st')
  {
    EntriesStay(cr, st, st');
    HandlersStay(cr, st, st');
    SignaturesStay(cr, st, st');
    CallsStay(st, st');
    CacheStays(st, st');
    RepliesStay(st, st');
    ExitsStay(cr, st, st');
    SlashesStay(st, st');
  }

  // ---- requests ----

  /** The first request at N(k, i) takes the note's next index. */
  lemma FreshIndexIsNext(cr: Params, st: State, w: Witness)
    requires Ideal(cr) && EntriesOk(cr, st) && NotesOk(cr, st) && SignaturesOk(cr, st) && RequestRelation(cr, st, w)
    requires Binds(cr, st, OpeningOf(cr, w))
    requires Nullifier(cr, w.k, w.index) !in st.server.nullifiers
    ensures w.index == st.notes[w.k].used == |st.notes[w.k].outcomes|
    ensures w.refunds == RefundTotal(cr.cMax, st.notes[w.k].outcomes)
  {
    OpeningIsHistory(cr, st, w);
    assert NoteOk(cr, st, w.k);
    assert w.index < st.notes[w.k].used ==> RequestedAt(cr, st, w.k, w.index);
    assert st.notes[w.k].outcomes[..w.index] == st.notes[w.k].outcomes;
  }

  lemma PublishedOpens(cr: Params, o: Opening, rerandomizer: nat)
    requires Ideal(cr)
    ensures cr.rerandomize(cr.commit(o), rerandomizer)
         == cr.commit(o.(blinding := (o.blinding + rerandomizer) % cr.order))
  {
    assert RerandomizeLaw(cr, o, rerandomizer);
  }

  lemma FreshKeeps(cr: Params, st: State, id: nat, w: Witness, rerandomizer: nat, x: int, now: int)
    requires Ideal(cr) && Invariant(cr, st) && CanSubmit(cr, st, id, w, x)
    requires Nullifier(cr, w.k, w.index) !in st.server.nullifiers
    ensures Keeps(cr, st, ApplySubmit(cr, st, id, w, rerandomizer, x, now))
  {
    var st' := ApplySubmit(cr, st, id, w, rerandomizer, x, now);
    FreshIndexIsNext(cr, st, w);
    FreshGrows(cr, st, id, w, rerandomizer, x, now);
    FreshNotes(cr, st, st', w);
    FreshHandler(cr, st, id, w, rerandomizer, x, now);
    FreshHandlers(cr, st, st', w, id);
    FreshRest(cr, st, st');
  }

  lemma FreshRest(cr: Params, st: State, st': State)
    requires Invariant(cr, st) && Grows(st, st') && st'.calls == st.calls && st'.signLog == st.signLog
    requires st'.server == st.server.(nullifiers := st'.server.nullifiers) && st'.replies == st.replies
    requires st'.exits == st.exits && st'.ingested == st.ingested
    ensures SignaturesOk(cr, st') && CallsDistinct(st') && CacheOk(st') && RepliesOk(st')
    ensures ExitsOk(cr, st') && SlashesOk(st')
  {
    SignaturesStay(cr, st, st');
    CallsStay(st, st');
    CacheStays(st, st');
    RepliesStay(st, st');
    ExitsStay(cr, st, st');
    SlashesStay(st, st');
  }

  lemma FreshGrows(cr: Params, st: State, id: nat, w: Witness, rerandomizer: nat, x: int, now: int)
    requires EntriesOk(cr, st) && NotesOk(cr, st) && CanSubmit(cr, st, id, w, x)
    requires Nullifier(cr, w.k, w.index) !in st.server.nullifiers
    requires w.index == st.notes[w.k].used
    ensures var st' := ApplySubmit(cr, st, id, w, rerandomizer, x, now);
            Grows(st, st') && RequestedAt(cr, st', w.k, w.index) && EntriesOk(cr, st')
  {
    var st' := ApplySubmit(cr, st, id, w, rerandomizer, x, now);
    assert NoteOk(cr, st, w.k);
    assert EntryOk(cr, st', Nullifier(cr, w.k, w.index));
    EntriesStay(cr, st, st');
  }

  /** The other handlers are of other notes, or have signed already. */
  lemma FreshHandlers(cr: Params, st: State, st': State, w: Witness, id: nat)
    requires HandlersOk(cr, st) && Grows(st, st') && w.k in st.notes && st'.calls == st.calls
    requires st.notes[w.k].used == |st.notes[w.k].outcomes|
    requires forall k :: k in st.notes && k != w.k ==> st'.notes[k] == st.notes[k]
    requires id !in st.handlers && id in st'.handlers && st'.handlers == st.handlers[id := st'.handlers[id]]
    requires st'.handlers[id].nullifier !in st.server.nullifiers && HandlerOk(cr, st', st'.handlers[id])
    ensures HandlersOk(cr, st')
  {
    forall j | j in st.handlers ensures HandlerOk(cr, st', st.handlers[j]) {
      assert HandlerOk(cr, st, st.handlers[j]);
      HandlerStays(cr, st, st', st.handlers[j]);
    }
  }

  lemma FreshHandler(cr: Params, st: State, id: nat, w: Witness, rerandomizer: nat, x: int, now: int)
    requires Ideal(cr) && NotesOk(cr, st) && EntriesOk(cr, st) && CallsDistinct(st) && CanSubmit(cr, st, id, w, x)
    requires Nullifier(cr, w.k, w.index) !in st.server.nullifiers
    requires w.index == st.notes[w.k].used == |st.notes[w.k].outcomes|
    requires w.refunds == RefundTotal(cr.cMax, st.notes[w.k].outcomes)
    ensures var st' := ApplySubmit(cr, st, id, w, rerandomizer, x, now);
            HandlerOk(cr, st', st'.handlers[id])
  {
    PublishedOpens(cr, OpeningOf(cr, w), rerandomizer);
  }

  lemma FreshNotes(cr: Params, st: State, st': State, w: Witness)
    requires NotesOk(cr, st) && Grows(st, st') && RequestRelation(cr, st, w)
    requires w.index == st.notes[w.k].used == |st.notes[w.k].outcomes|
    requires w.refunds == RefundTotal(cr.cMax, st.notes[w.k].outcomes)
    requires st'.notes == st.notes[w.k := st.notes[w.k].(used := w.index + 1)]
    requires RequestedAt(cr, st', w.k, w.index)
    ensures NotesOk(cr, st')
  {
    forall k | k in st'.notes ensures NoteOk(cr, st', k) {
      assert NoteOk(cr, st, k);
      if k != w.k {
        NoteStays(cr, st, st', k);
      } else {
        assert st.notes[k].outcomes[..w.index] == st.notes[k].outcomes;
        forall i: nat | i < w.index + 1 ensures RequestedAt(cr, st', k, i) {
          if i < w.index { assert RequestedAt(cr, st, k, i); }
        }
        forall i: nat | i < w.index ensures AnsweredAt(st', k, i) { AnsweredStays(st, st', k, i); }
      }
    }
  }

  /** The note is slashed when x is another one, and nothing else but an answer is given out. */
  ghost predicate RepeatResult(cr: Params, st: State, st': State, k: int, n: Key, x: int)
    requires n in st.server.nullifiers
  {
    && st' == st.(server := st.server.(slashed := st'.server.slashed), presented := st'.presented, replies := st'.replies)
    && st.presented <= st'.presented
    && st'.server.slashed == (if st.server.nullifiers[n].x != x && cr.slashingEnabled
                              then st.server.slashed + [k] else st.server.slashed)
    && (st'.replies == st.replies ||
        (n in st.server.responses
         && st'.replies == st.replies + [Reply(n, st.server.nullifiers[n], st.server.responses[n].response)]))
  }

  lemma RepeatIs(cr: Params, st: State, id: nat, w: Witness, rerandomizer: nat, x: int, now: int)
    requires Ideal(cr) && EntriesOk(cr, st) && NotesOk(cr, st) && CacheOk(st) && CanSubmit(cr, st, id, w, x)
    requires Nullifier(cr, w.k, w.index) in st.server.nullifiers
    ensures RepeatResult(cr, st, ApplySubmit(cr, st, id, w, rerandomizer, x, now), w.k, Nullifier(cr, w.k, w.index), x)
  {
    KeysHold(cr, st, w.k);
    RecordAgain(cr, st, w.k, w.index, x);
    var n := Nullifier(cr, w.k, w.index);
    if n in st.server.responses { assert CachedOk(st, n); }
  }

  lemma KeysHold(cr: Params, st: State, k: int)
    requires NotesOk(cr, st) && k in st.notes
    ensures k in cr.keys
  {
    assert NoteOk(cr, st, k);
  }

  lemma RepeatKeeps(cr: Params, st: State, id: nat, w: Witness, rerandomizer: nat, x: int, now: int)
    requires Ideal(cr) && Invariant(cr, st) && CanSubmit(cr, st, id, w, x)
    requires Nullifier(cr, w.k, w.index) in st.server.nullifiers
    ensures Keeps(cr, st, ApplySubmit(cr, st, id, w, rerandomizer, x, now))
  {
    var st' := ApplySubmit(cr, st, id, w, rerandomizer, x, now);
    KeysHold(cr, st, w.k);
    RepeatIs(cr, st, id, w, rerandomizer, x, now);
    assert Presented(w.k, w.index, x) in st'.presented;
    RepeatResultKeeps(cr, st, st', w.k, w.index, x);
  }

  lemma RepeatResultKeeps(cr: Params, st: State, st': State, k: int, i: nat, x: int)
    requires Ideal(cr) && Invariant(cr, st) && Nullifier(cr, k, i) in st.server.nullifiers
    requires RepeatResult(cr, st, st', k, Nullifier(cr, k, i), x)
    requires k in cr.keys && i < INDEX_BOUND && Presented(k, i, x) in st'.presented
    ensures Keeps(cr, st, st')
  {
    SecondSignal(cr, st, st', k, i, x);
    RepeatReplies(cr, st, st', k, i, x);
    RepeatRest(cr, st, st');
  }

  lemma SecondSignal(cr: Params, st: State, st': State, k: int, i: nat, x: int)
    requires Ideal(cr) && EntriesOk(cr, st) && SlashesOk(st) && Nullifier(cr, k, i) in st.server.nullifiers
    requires RepeatResult(cr, st, st', k, Nullifier(cr, k, i), x)
    requires k in cr.keys && i < INDEX_BOUND && Presented(k, i, x) in st'.presented
    ensures Grows(st, st') && SlashesOk(st')
  {
    OwnerIs(cr, st, k, i);
    SlashesStay(st, st') by {
      forall j | j in st'.server.slashed && j !in st.server.slashed ensures DoubleSigned(st', j) {
        assert j == k;
      }
    }
  }

  lemma RepeatReplies(cr: Params, st: State, st': State, k: int, i: nat, x: int)
    requires CacheOk(st) && RepliesOk(st) && Grows(st, st') && Nullifier(cr, k, i) in st.server.nullifiers
    requires RepeatResult(cr, st, st', k, Nullifier(cr, k, i), x)
    ensures RepliesOk(st')
  {
    var n := Nullifier(cr, k, i);
    if n in st.server.responses {
      assert CachedOk(st, n);
      SignedStays(st, st', n, st.server.responses[n].response);
    }
    RepliesStay(st, st');
  }

  lemma RepeatRest(cr: Params, st: State, st': State)
    requires Invariant(cr, st) && Grows(st, st') && SlashesOk(st') && RepliesOk(st')
    requires st' == st.(server := st.server.(slashed := st'.server.slashed), presented := st'.presented, replies := st'.replies)
    ensures Keeps(cr, st, st')
  {
    EntriesStay(cr, st, st');
    NotesStay(cr, st, st');
    HandlersStay(cr, st, st');
    SignaturesStay(cr, st, st');
    CallsStay(st, st');
    CacheStays(st, st');
    ExitsStay(cr, st, st');
  }

  lemma SubmitKeeps(cr: Params, st: State, id: nat, w: Witness, rerandomizer: nat, x: int, now: int)
    requires Ideal(cr) && Invariant(cr, st) && CanSubmit(cr, st, id, w, x)
    ensures Keeps(cr, st, ApplySubmit(cr, st, id, w, rerandomizer, x, now))
  {
    if Nullifier(cr, w.k, w.index) in st.server.nullifiers {
      RepeatKeeps(cr, st, id, w, rerandomizer, x, now);
    } else {
      FreshKeeps(cr, st, id, w, rerandomizer, x, now);
    }
  }

  // ---- handlers ----

  /** Only handler id, and what the other handlers do not look at, changes. */
  lemma HandlerMoves(cr: Params, st: State, st': State, id: nat, h': Handler)
    requires HandlersOk(cr, st) && Grows(st, st') && id in st.handlers
    requires st'.handlers == st.handlers[id := h'] && h'.nullifier == st.handlers[id].nullifier
    requires HandlerOk(cr, st', h') && !st.handlers[id].phase.Signed? && h'.k == st.handlers[id].k
    requires MapGrows(st.notes - {h'.k}, st'.notes)
    requires st'.calls == st.calls || st'.calls == st.calls + [h'.nullifier]
    ensures HandlersOk(cr, st')
  {
    forall j | j in st.handlers && j != id ensures HandlerOk(cr, st', st'.handlers[j]) {
      OtherHandlerStays(cr, st, st', id, j);
    }
  }

  lemma OtherHandlerStays(cr: Params, st: State, st': State, id: nat, j: nat)
    requires HandlersOk(cr, st) && Grows(st, st') && id in st.handlers && j in st.handlers && j != id
    requires !st.handlers[id].phase.Signed?
    requires MapGrows(st.notes - {st.handlers[id].k}, st'.notes)
    requires st'.calls == st.calls || st'.calls == st.calls + [st.handlers[id].nullifier]
    ensures HandlerOk(cr, st', st.handlers[j])
  {
    var h, other := st.handlers[id], st.handlers[j];
    assert HandlerOk(cr, st, h) && HandlerOk(cr, st, other);
    assert h.k == other.k && !other.phase.Signed? ==> h.nullifier == other.nullifier;
    assert other.k in st.notes && (other.k != h.k ==> other.k in st.notes - {h.k});
    HandlerStays(cr, st, st', other);
  }

  lemma MoveRest(cr: Params, st: State, st': State)
    requires Invariant(cr, st) && Grows(st, st')
    requires HandlersOk(cr, st') && CallsDistinct(st')
    requires st' == st.(handlers := st'.handlers, calls := st'.calls)
    ensures Keeps(cr, st, st')
  {
    EntriesStay(cr, st, st');
    NotesStay(cr, st, st');
    SignaturesStay(cr, st, st');
    CacheStays(st, st');
    RepliesStay(st, st');
    ExitsStay(cr, st, st');
    SlashesStay(st, st');
  }

  lemma CallKeeps(cr: Params, st: State, id: nat)
    requires Ideal(cr) && Invariant(cr, st) && InPhase(st, id, Recorded)
    ensures Keeps(cr, st, ApplyCall(st, id))
  {
    var st' := ApplyCall(st, id);
    CallGrows(cr, st, id);
    HandlerMoves(cr, st, st', id, st'.handlers[id]);
    MoveRest(cr, st, st');
  }

  lemma CallGrows(cr: Params, st: State, id: nat)
    requires HandlersOk(cr, st) && CallsDistinct(st) && InPhase(st, id, Recorded)
    ensures var st' := ApplyCall(st, id);
            Grows(st, st') && HandlerOk(cr, st', st'.handlers[id]) && CallsDistinct(st')
  {
    var st' := ApplyCall(st, id);
    assert HandlerOk(cr, st, st.handlers[id]);
    MovedHandler(cr, st, st', st.handlers[id], Calling);
  }

  /** An unsigned handler moves on; from its call on, its nullifier is among the calls. */
  lemma MovedHandler(cr: Params, st: State, st': State, h: Handler, phase: Phase)
    requires HandlerOk(cr, st, h) && Grows(st, st') && st'.notes == st.notes && !h.phase.Signed? && !phase.Signed?
    requires phase != Recorded && h.nullifier in st'.calls
    ensures HandlerOk(cr, st', h.(phase := phase))
  {}

  lemma ProviderKeeps(cr: Params, st: State, id: nat, outcome: Outcome)
    requires Ideal(cr) && Invariant(cr, st) && InPhase(st, id, Calling)
    ensures Keeps(cr, st, SetPhase(st, id, Priced(outcome)))
  {
    var st' := SetPhase(st, id, Priced(outcome));
    ProviderGrows(cr, st, id, outcome);
    CallsStay(st, st');
    HandlerMoves(cr, st, st', id, st'.handlers[id]);
    MoveRest(cr, st, st');
  }

  lemma ProviderGrows(cr: Params, st: State, id: nat, outcome: Outcome)
    requires HandlersOk(cr, st) && InPhase(st, id, Calling)
    ensures var st' := SetPhase(st, id, Priced(outcome));
            Grows(st, st') && HandlerOk(cr, st', st'.handlers[id])
  {
    assert HandlerOk(cr, st, st.handlers[id]);
    MovedHandler(cr, st, SetPhase(st, id, Priced(outcome)), st.handlers[id], Priced(outcome));
  }

  /** Signing extends the note's history by the refund its new accumulator carries. */
  lemma SignedNext(cr: Params, note: Note, k: int, i: nat, opening: Opening, last: Outcome)
    requires Ideal(cr) && |note.outcomes| == i && opening == RunningOpening(cr, note.outcomes, k, opening.blinding)
    ensures var refund := Refund(cr.cMax, last);
            var next := opening.(refunds := opening.refunds + refund, index := opening.index + 1);
            && cr.applyRefund(cr.commit(opening), refund) == cr.commit(next)
            && next == RunningOpening(cr, (note.outcomes + [last])[..i + 1], k, opening.blinding)
  {
    RefundAppend(cr.cMax, note.outcomes, last);
    assert RefundLaw(cr, opening, Refund(cr.cMax, last));
    assert (note.outcomes + [last])[..i + 1] == note.outcomes + [last];
  }

  lemma SignEventOk(cr: Params, st: State, id: nat)
    requires Ideal(cr) && HandlersOk(cr, st) && id in st.handlers && st.handlers[id].phase.Priced?
    ensures var st' := ApplySign(cr, st, id);
            SignOk(cr, st', st'.signLog[|st.signLog|])
  {
    var h := st.handlers[id];
    assert HandlerOk(cr, st, h);
    SignedNext(cr, st.notes[h.k], h.k, h.i, h.opening, h.phase.outcome);
  }

  lemma SignNotRepeated(cr: Params, st: State, id: nat)
    requires Ideal(cr) && NotesOk(cr, st) && HandlersOk(cr, st) && SignaturesOk(cr, st) && id in st.handlers && st.handlers[id].phase.Priced?
    ensures forall d :: d in st.signLog ==> d.nullifier != st.handlers[id].nullifier
  {
    var h := st.handlers[id];
    assert HandlerOk(cr, st, h);
    forall d | d in st.signLog ensures d.nullifier != h.nullifier {
      assert SignOk(cr, st, d);
      assert NoteOk(cr, st, d.k) && NoteOk(cr, st, h.k);
      assert NullifierLaw(cr, d.k, d.i, h.k, h.i);
    }
  }

  lemma SignGrows(cr: Params, st: State, id: nat)
    requires HandlersOk(cr, st) && id in st.handlers && st.handlers[id].phase.Priced?
    ensures var st', h := ApplySign(cr, st, id), st.handlers[id];
            && Grows(st, st') && h.k in st.notes
            && st.notes[h.k].used == |st.notes[h.k].outcomes| + 1
            && HandlerOk(cr, st', st'.handlers[id]) && AnsweredAt(st', h.k, |st.notes[h.k].outcomes|)
  {
    var st', h := ApplySign(cr, st, id), st.handlers[id];
    assert HandlerOk(cr, st, h);
    var e := st'.signLog[|st.signLog|];
    assert e in st'.signLog;
    assert SignedAs(st', h.nullifier, st'.handlers[id].phase.response);
  }

  lemma SignKeeps(cr: Params, st: State, id: nat)
    requires Ideal(cr) && Invariant(cr, st) && id in st.handlers && st.handlers[id].phase.Priced?
    ensures Keeps(cr, st, ApplySign(cr, st, id))
  {
    var st' := ApplySign(cr, st, id);
    SignGrows(cr, st, id);
    SignLogged(cr, st, id);
    SignNotes(cr, st, id);
    HandlerMoves(cr, st, st', id, st'.handlers[id]);
    SignRest(cr, st, st');
  }

  lemma SignRest(cr: Params, st: State, st': State)
    requires Invariant(cr, st) && Grows(st, st')
    requires NotesOk(cr, st') && HandlersOk(cr, st') && SignaturesOk(cr, st')
    requires st' == st.(handlers := st'.handlers, notes := st'.notes, signLog := st'.signLog)
    ensures Keeps(cr, st, st')
  {
    EntriesStay(cr, st, st');
    CallsStay(st, st');
    CacheStays(st, st');
    RepliesStay(st, st');
    ExitsStay(cr, st, st');
    SlashesStay(st, st');
  }

  lemma SignLogged(cr: Params, st: State, id: nat)
    requires Ideal(cr) && NotesOk(cr, st) && HandlersOk(cr, st) && SignaturesOk(cr, st) && id in st.handlers && st.handlers[id].phase.Priced?
    requires Grows(st, ApplySign(cr, st, id))
    ensures SignaturesOk(cr, ApplySign(cr, st, id))
  {
    var st' := ApplySign(cr, st, id);
    SignEventOk(cr, st, id);
    SignNotRepeated(cr, st, id);
    forall e | e in st.signLog ensures SignOk(cr, st', e) { SignStays(cr, st, st', e); }
  }

  lemma SignNotes(cr: Params, st: State, id: nat)
    requires NotesOk(cr, st) && HandlersOk(cr, st) && id in st.handlers && st.handlers[id].phase.Priced?
    ensures var st' := ApplySign(cr, st, id);
            NotesOk(cr, st') && MapGrows(st.notes - {st.handlers[id].k}, st'.notes)
  {
    var h, st' := st.handlers[id], ApplySign(cr, st, id);
    SignGrows(cr, st, id);
    forall k | k in st'.notes ensures NoteOk(cr, st', k) {
      assert NoteOk(cr, st, k);
      if k == h.k { AnsweredNote(cr, st, st', k); } else { NoteStays(cr, st, st', k); }
    }
  }

  lemma AnsweredNote(cr: Params, st: State, st': State, k: int)
    requires NotesOk(cr, st) && Grows(st, st') && NoteOk(cr, st, k) && k in st'.notes
    requires st.notes[k].used == |st.notes[k].outcomes| + 1
    requires st'.notes[k].used == st.notes[k].used && |st'.notes[k].outcomes| == |st.notes[k].outcomes| + 1
    requires AnsweredAt(st', k, |st.notes[k].outcomes|)
    ensures NoteOk(cr, st', k)
  {
    var m := st.notes[k].used - 1;
    forall i: nat | i < m ensures AnsweredAt(st', k, i) { AnsweredStays(st, st', k, i); }
    assert st'.notes[k].outcomes[..m] == st.notes[k].outcomes[..m];
    forall i: nat | i < st.notes[k].used ensures RequestedAt(cr, st', k, i) {
      assert RequestedAt(cr, st, k, i);
    }
  }

  lemma AnswerKeeps(cr: Params, st: State, id: nat, now: int)
    requires Ideal(cr) && Invariant(cr, st) && id in st.handlers && st.handlers[id].phase.Signed?
    ensures Keeps(cr, st, ApplyAnswer(st, id, now))
  {
    var st' := ApplyAnswer(st, id, now);
    AnswerReplied(cr, st, id, now);
    AnswerCached(cr, st, id, now);
    AnswerRest(cr, st, st');
  }

  lemma AnswerReplied(cr: Params, st: State, id: nat, now: int)
    requires HandlersOk(cr, st) && RepliesOk(st) && id in st.handlers && st.handlers[id].phase.Signed?
    ensures Grows(st, ApplyAnswer(st, id, now)) && RepliesOk(ApplyAnswer(st, id, now))
  {
    AnswerIsSigned(cr, st, id, now);
    RepliesStay(st, ApplyAnswer(st, id, now));
  }

  lemma AnswerRest(cr: Params, st: State, st': State)
    requires Invariant(cr, st) && Grows(st, st') && CacheOk(st') && RepliesOk(st')
    requires MapGrows(st'.handlers, st.handlers)
    requires st' == st.(handlers := st'.handlers, replies := st'.replies,
                        server := st.server.(responses := st'.server.responses))
    ensures Keeps(cr, st, st')
  {
    EntriesStay(cr, st, st');
    NotesStay(cr, st, st');
    HandlersStay(cr, st, st');
    SignaturesStay(cr, st, st');
    CallsStay(st, st');
    ExitsStay(cr, st, st');
    SlashesStay(st, st');
  }

  lemma AnswerIsSigned(cr: Params, st: State, id: nat, now: int)
    requires HandlersOk(cr, st) && id in st.handlers && st.handlers[id].phase.Signed?
    ensures var st', h := ApplyAnswer(st, id, now), st.handlers[id];
            && Grows(st, st') && ReplyOk(st', Reply(h.nullifier, h.signal, h.phase.response))
  {
    var h, st' := st.handlers[id], ApplyAnswer(st, id, now);
    assert HandlerOk(cr, st, h);
    SignedStays(st, st', h.nullifier, h.phase.response);
  }

  lemma AnswerCached(cr: Params, st: State, id: nat, now: int)
    requires HandlersOk(cr, st) && CacheOk(st) && id in st.handlers && st.handlers[id].phase.Signed?
    ensures CacheOk(ApplyAnswer(st, id, now))
  {
    var h, st' := st.handlers[id], ApplyAnswer(st, id, now);
    AnswerIsSigned(cr, st, id, now);
    forall n | n in st'.server.responses ensures CachedOk(st', n) {
      if n != h.nullifier {
        assert CachedOk(st, n);
        SignedStays(st, st', n, st.server.responses[n].response);
      }
    }
  }

  /** Losing handlers or kept answers harms nothing. */
  lemma LossKeeps(cr: Params, st: State, handlers: map<nat, Handler>, responses: map<Key, CachedResponse>)
    requires Ideal(cr) && Invariant(cr, st)
    requires MapGrows(handlers, st.handlers) && MapGrows(responses, st.server.responses)
    ensures Keeps(cr, st, st.(handlers := handlers, server := st.server.(responses := responses)))
  {
    var st' := st.(handlers := handlers, server := st.server.(responses := responses));
    CacheStays(st, st');
    RepliesStay(st, st');
    AnswerRest(cr, st, st');
  }

  // ---- exits ----

  lemma WithdrawalKeeps(cr: Params, st: State, w: Witness, n: nat, x: int)
    requires Ideal(cr) && Invariant(cr, st) && CanWithdraw(cr, st, w, n, x)
    ensures Keeps(cr, st, ApplyWithdrawal(cr, st, w, n, x))
  {
    var st' := ApplyWithdrawal(cr, st, w, n, x);
    WithdrawalExit(cr, st, w, n, x);
    ExitsStay(cr, st, st');
    ExitRest(cr, st, st');
  }

  lemma WithdrawalExit(cr: Params, st: State, w: Witness, n: nat, x: int)
    requires Ideal(cr) && NotesOk(cr, st) && SignaturesOk(cr, st) && CanWithdraw(cr, st, w, n, x)
    ensures var st' := ApplyWithdrawal(cr, st, w, n, x);
            Grows(st, st') && ExitOk(cr, st', w.k)
  {
    OpeningIsHistory(cr, st, w);
    KeysHold(cr, st, w.k);
  }

  lemma ExitRest(cr: Params, st: State, st': State)
    requires Invariant(cr, st) && Grows(st, st') && ExitsOk(cr, st')
    requires st' == st.(exits := st'.exits, presented := st'.presented)
    ensures Keeps(cr, st, st')
  {
    EntriesStay(cr, st, st');
    NotesStay(cr, st, st');
    HandlersStay(cr, st, st');
    SignaturesStay(cr, st, st');
    CallsStay(st, st');
    CacheStays(st, st');
    RepliesStay(st, st');
    SlashesStay(st, st');
  }

  lemma IngestKeeps(cr: Params, st: State, k: int)
    requires Ideal(cr) && Invariant(cr, st) && k in st.exits
    ensures Keeps(cr, st, ApplyIngest(cr, st, k))
  {
    if Nullifier(cr, k, st.exits[k].n) in st.server.nullifiers {
      IngestSpentKeeps(cr, st, k);
    } else {
      IngestFreshKeeps(cr, st, k);
    }
  }

  lemma IngestFreshKeeps(cr: Params, st: State, k: int)
    requires Ideal(cr) && Invariant(cr, st) && k in st.exits
    requires Nullifier(cr, k, st.exits[k].n) !in st.server.nullifiers
    ensures Keeps(cr, st, ApplyIngest(cr, st, k))
  {
    var st' := ApplyIngest(cr, st, k);
    IngestFreshGrows(cr, st, k);
    ExitsStay(cr, st, st');
    SlashesStay(st, st');
    IngestRest(cr, st, st');
  }

  lemma IngestFreshGrows(cr: Params, st: State, k: int)
    requires EntriesOk(cr, st) && ExitsOk(cr, st) && k in st.exits
    requires Nullifier(cr, k, st.exits[k].n) !in st.server.nullifiers
    ensures var st' := ApplyIngest(cr, st, k);
            Grows(st, st') && EntriesOk(cr, st') && IngestedOk(cr, st', k)
  {
    var st' := ApplyIngest(cr, st, k);
    assert ExitOk(cr, st, k);
    assert EntryOk(cr, st', Nullifier(cr, k, st.exits[k].n));
    EntriesStay(cr, st, st');
  }

  lemma IngestSpentKeeps(cr: Params, st: State, k: int)
    requires Ideal(cr) && Invariant(cr, st) && k in st.exits
    requires Nullifier(cr, k, st.exits[k].n) in st.server.nullifiers
    ensures Keeps(cr, st, ApplyIngest(cr, st, k))
  {
    var st', e := ApplyIngest(cr, st, k), st.exits[k];
    assert ExitOk(cr, st, k);
    RecordAgain(cr, st, k, e.n, e.x);
    var noted := st.(server := st'.server);
    SecondSignal(cr, st, noted, k, e.n, e.x);
    OwnerIs(cr, st, k, e.n);
    assert IngestedOk(cr, st', k);
    SlashesCarry(noted, st');
    EntriesStay(cr, st, st');
    ExitsStay(cr, st, st');
    IngestRest(cr, st, st');
  }

  lemma SlashesCarry(st: State, st': State)
    requires SlashesOk(st) && st'.server.slashed == st.server.slashed && st'.presented == st.presented
    ensures SlashesOk(st')
  {
    forall k | k in st'.server.slashed ensures DoubleSigned(st', k) {
      assert DoubleSigned(st, k);
    }
  }

  lemma IngestRest(cr: Params, st: State, st': State)
    requires Invariant(cr, st) && Grows(st, st') && EntriesOk(cr, st') && ExitsOk(cr, st') && SlashesOk(st')
    requires st' == st.(owner := st'.owner, ingested := st'.ingested,
                        server := Server(st'.server.nullifiers, st.server.responses, st'.server.slashed))
    ensures Keeps(cr, st, st')
  {
    NotesStay(cr, st, st');
    HandlersStay(cr, st, st');
    SignaturesStay(cr, st, st');
    CallsStay(st, st');
    CacheStays(st, st');
    RepliesStay(st, st');
  }

  ghost predicate FromOutside(a: Action) {
    a.Deposit? || a.Submit? || a.InitiateWithdrawal? || a.Ingest?
  }

  lemma OutsideStepKeeps(cr: Params, st: State, a: Action)
    requires Ideal(cr) && Invariant(cr, st) && Enabled(cr, st, a) && FromOutside(a)
    ensures Keeps(cr, st, Apply(cr, st, a))
  {
    match a
    case Deposit(k, amount) => DepositKeeps(cr, st, k, amount);
    case Submit(id, w, rerandomizer, x, now) => SubmitKeeps(cr, st, id, w, rerandomizer, x, now);
    case InitiateWithdrawal(w, n, x) => WithdrawalKeeps(cr, st, w, n, x);
    case Ingest(k) => IngestKeeps(cr, st, k);
  }

  lemma HandlerStepKeeps(cr: Params, st: State, a: Action)
    requires Ideal(cr) && Invariant(cr, st) && Enabled(cr, st, a) && !FromOutside(a)
    ensures Keeps(cr, st, Apply(cr, st, a))
  {
    match a
    case CallProvider(id) => CallKeeps(cr, st, id);
    case ProviderEnds(id, outcome) => ProviderKeeps(cr, st, id, outcome);
    case Sign(id) => SignKeeps(cr, st, id);
    case Answer(id, now) => AnswerKeeps(cr, st, id, now);
    case Die(id) => LossKeeps(cr, st, st.handlers - {id}, st.server.responses);
    case Cleanup(now) => LossKeeps(cr, st, st.handlers, CleanResponses(st.server.responses, now));
    case Restart => LossKeeps(cr, st, map[], map[]);
  }

  lemma StepKeeps(cr: Params, st: State, a: Action)
    requires Ideal(cr) && Invariant(cr, st)
    ensures Keeps(cr, st, Apply(cr, st, a))
  {
    if Enabled(cr, st, a) {
      if FromOutside(a) { OutsideStepKeeps(cr, st, a); } else { HandlerStepKeeps(cr, st, a); }
    }
  }

  lemma GrowsTransitive(a: State, b: State, c: State)
    requires Grows(a, b) && Grows(b, c)
    ensures Grows(a, c)
  {
    forall k | k in a.notes ensures k in c.notes && NoteGrows(a.notes[k], c.notes[k]) {
      assert NoteGrows(a.notes[k], b.notes[k]) && NoteGrows(b.notes[k], c.notes[k]);
    }
  }

  lemma {:induction false} RunFromKeeps(cr: Params, st: State, actions: seq<Action>)
    requires Ideal(cr) && Invariant(cr, st)
    ensures Keeps(cr, st, RunFrom(cr, st, actions))
    decreases |actions|
  {
    if actions != [] {
      var next := Apply(cr, st, actions[0]);
      StepKeeps(cr, st, actions[0]);
      RunFromKeeps(cr, next, actions[1..]);
      GrowsTransitive(st, next, RunFrom(cr, next, actions[1..]));
    }
  }

  /** Every reachable state satisfies the invariant. */
  lemma ReachableInv(cr: Params, actions: seq<Action>)
    requires Ideal(cr)
    ensures Invariant(cr, Run(cr, actions))
  {
    RunFromKeeps(cr, InitialState(), actions);
  }
}
