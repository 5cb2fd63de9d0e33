/** Which requests can still be recorded once an exit is ingested. */
module ExitRaces {
  import opened Primes
  import opened Accumulator
  import opened GatewayState
  import opened Protocol
  import opened ProtocolInvariant
  import opened ProtocolSteps
  import opened ProtocolTheorems

  /** No request is recorded at n or above. */
  ghost predicate ClosedFrom(cr: Params, st: State, k: int, n: nat) {
    forall i: nat :: RequestedAt(cr, st, k, i) ==> i < n
  }

  /** Ingestion found the exit's nullifier unspent: its entry is the exit's own. */
  ghost predicate ExitCameFirst(cr: Params, st: State, k: int) {
    k in st.exits && Nullifier(cr, k, st.exits[k].n) in st.owner && st.owner[Nullifier(cr, k, st.exits[k].n)].byExit
  }

  /** A request at n or above is recorded that was not recorded before. */
  ghost predicate NewRequest(cr: Params, st: State, st': State, k: int, n: nat) {
    exists i: nat :: n <= i && RequestedAt(cr, st', k, i) && !RequestedAt(cr, st, k, i)
  }

  // ---- what the note can still prove ----

  /** Refunds the note's history holds once handler id has signed. */
  ghost predicate PendingTotal(cr: Params, st: State, k: int, id: nat, total: nat)
    requires k in st.notes
  {
    && id in st.handlers && st.handlers[id].k == k
    && var refunds := RefundTotal(cr.cMax, st.notes[k].outcomes);
    match st.handlers[id].phase
    case Priced(outcome) => total == refunds + Refund(cr.cMax, outcome)
    case Signed(_) => false
    case _ => refunds <= total <= refunds + cr.cMax
  }

  /** Refunds the note's next request can be proved with: all so far, or what a handler still at work will make them. */
  ghost predicate Attainable(cr: Params, st: State, k: int, total: nat)
    requires k in st.notes
  {
    if st.notes[k].used == |st.notes[k].outcomes| then total == RefundTotal(cr.cMax, st.notes[k].outcomes)
    else exists id :: PendingTotal(cr, st, k, id, total)
  }

  ghost predicate Funded(cr: Params, note: Note, total: nat) {
    && note.used < INDEX_BOUND && total < AMOUNT_BOUND
    && (note.used + 1) * cr.cMax <= note.deposit + total
  }

  /** The note can go on: its last request is answered or about to be, and leaves it able to pay for one more. */
  ghost predicate GoesOn(cr: Params, st: State, k: int) {
    k in st.notes && exists total :: Attainable(cr, st, k, total) && Funded(cr, st.notes[k], total)
  }

  // ---- a new request needs a note that can go on ----

  lemma HandlersShrink(cr: Params, st: State, st': State, k: int, total: nat)
    requires k in st.notes && k in st'.notes && st'.notes[k] == st.notes[k]
    requires MapGrows(st'.handlers, st.handlers) && Attainable(cr, st', k, total)
    ensures Attainable(cr, st, k, total)
  {
    if st.notes[k].used != |st.notes[k].outcomes| {
      var id :| PendingTotal(cr, st', k, id, total);
      assert PendingTotal(cr, st, k, id, total);
    }
  }

  lemma SubmitAttains(cr: Params, st: State, id: nat, w: Witness, rerandomizer: nat, x: int, now: int, k: int, total: nat)
    requires CanSubmit(cr, st, id, w, x) && k in st.notes
    requires var st' := ApplySubmit(cr, st, id, w, rerandomizer, x, now);
             st'.notes[k].used == st.notes[k].used && Attainable(cr, st', k, total)
    ensures Attainable(cr, st, k, total)
  {
    var st' := ApplySubmit(cr, st, id, w, rerandomizer, x, now);
    if st.notes[k].used != |st.notes[k].outcomes| {
      var j :| PendingTotal(cr, st', k, j, total);
      assert PendingTotal(cr, st, k, j, total);
    }
  }

  lemma CallAttains(cr: Params, st: State, id: nat, k: int, total: nat)
    requires InPhase(st, id, Recorded) && k in st.notes && Attainable(cr, ApplyCall(st, id), k, total)
    ensures Attainable(cr, st, k, total)
  {
    if st.notes[k].used != |st.notes[k].outcomes| {
      var j :| PendingTotal(cr, ApplyCall(st, id), k, j, total);
      assert PendingTotal(cr, st, k, j, total);
    }
  }

  lemma ProviderAttains(cr: Params, st: State, id: nat, outcome: Outcome, k: int, total: nat)
    requires InPhase(st, id, Calling) && k in st.notes
    requires Attainable(cr, SetPhase(st, id, Priced(outcome)), k, total)
    ensures Attainable(cr, st, k, total)
  {
    if st.notes[k].used != |st.notes[k].outcomes| {
      var j :| PendingTotal(cr, SetPhase(st, id, Priced(outcome)), k, j, total);
      assert PendingTotal(cr, st, k, j, total);
    }
  }

  lemma SignAttains(cr: Params, st: State, id: nat, k: int, total: nat)
    requires HandlersOk(cr, st) && id in st.handlers && st.handlers[id].phase.Priced? && k in st.notes
    requires Attainable(cr, ApplySign(cr, st, id), k, total)
    ensures Attainable(cr, st, k, total)
  {
    var h, st' := st.handlers[id], ApplySign(cr, st, id);
    assert HandlerOk(cr, st, h);
    if h.k == k {
      RefundAppend(cr.cMax, st.notes[k].outcomes, h.phase.outcome);
      assert PendingTotal(cr, st, k, id, total);
    } else if st.notes[k].used != |st.notes[k].outcomes| {
      var j :| PendingTotal(cr, st', k, j, total);
      assert PendingTotal(cr, st, k, j, total);
    }
  }

  /** An action that leaves the note as it is and makes no handler. */
  ghost predicate Elsewhere(a: Action) {
    a.Deposit? || a.Answer? || a.Die? || a.Cleanup? || a.Restart? || a.InitiateWithdrawal? || a.Ingest?
  }

  lemma ElsewhereAttains(cr: Params, st: State, a: Action, k: int, total: nat)
    requires Enabled(cr, st, a) && Elsewhere(a) && k in st.notes && k in Apply(cr, st, a).notes
    requires Attainable(cr, Apply(cr, st, a), k, total)
    ensures Attainable(cr, st, k, total)
  {
    HandlersShrink(cr, st, Apply(cr, st, a), k, total);
  }

  /** No step but a request of the note gives it refunds it could not get before. */
  lemma StepAttains(cr: Params, st: State, a: Action, k: int, total: nat)
    requires HandlersOk(cr, st) && Enabled(cr, st, a) && k in st.notes && k in Apply(cr, st, a).notes
    requires Apply(cr, st, a).notes[k].used == st.notes[k].used && Attainable(cr, Apply(cr, st, a), k, total)
    ensures Attainable(cr, st, k, total)
  {
    if Elsewhere(a) {
      ElsewhereAttains(cr, st, a, k, total);
    } else {
      match a
      case Submit(id, w, rerandomizer, x, now) => SubmitAttains(cr, st, id, w, rerandomizer, x, now, k, total);
      case CallProvider(id) => CallAttains(cr, st, id, k, total);
      case ProviderEnds(id, outcome) => ProviderAttains(cr, st, id, outcome, k, total);
      case Sign(id) => SignAttains(cr, st, id, k, total);
    }
  }

  lemma OnlySubmitUses(cr: Params, st: State, a: Action, k: int)
    requires HandlersOk(cr, st) && Enabled(cr, st, a) && !a.Submit? && k in st.notes
    ensures k in Apply(cr, st, a).notes && Apply(cr, st, a).notes[k].used == st.notes[k].used
  {
    if a.Sign? { assert HandlerOk(cr, st, st.handlers[a.id]); }
  }

  lemma OnlyFreshUses(cr: Params, st: State, id: nat, w: Witness, rerandomizer: nat, x: int, now: int, k: int)
    requires w.k in st.notes && k in st.notes
    requires ApplySubmit(cr, st, id, w, rerandomizer, x, now).notes[k].used != st.notes[k].used
    ensures w.k == k && Nullifier(cr, k, w.index) !in st.server.nullifiers
  {}

  lemma FreshNeedsFunds(cr: Params, st: State, id: nat, w: Witness, x: int)
    requires Ideal(cr) && EntriesOk(cr, st) && NotesOk(cr, st) && SignaturesOk(cr, st) && CanSubmit(cr, st, id, w, x)
    requires Nullifier(cr, w.k, w.index) !in st.server.nullifiers
    ensures GoesOn(cr, st, w.k)
  {
    FreshIndexIsNext(cr, st, w);
    assert Attainable(cr, st, w.k, w.refunds) && Funded(cr, st.notes[w.k], w.refunds);
  }

  lemma UseNeedsFunds(cr: Params, st: State, a: Action, k: int)
    requires Ideal(cr) && Invariant(cr, st) && Enabled(cr, st, a) && k in st.notes && k in Apply(cr, st, a).notes
    requires Apply(cr, st, a).notes[k].used != st.notes[k].used
    ensures GoesOn(cr, st, k)
  {
    match a
    case Submit(id, w, rerandomizer, x, now) =>
      OnlyFreshUses(cr, st, id, w, rerandomizer, x, now, k);
      FreshNeedsFunds(cr, st, id, w, x);
    case _ => OnlySubmitUses(cr, st, a, k);
  }

  /** If a run records more requests of the note, it could go on from the start. */
  lemma {:induction false} MoreNeedsFunds(cr: Params, st: State, actions: seq<Action>, k: int)
    requires Ideal(cr) && Invariant(cr, st) && k in st.notes
    requires NoteAt(RunFrom(cr, st, actions), k).used > st.notes[k].used
    ensures GoesOn(cr, st, k)
    decreases |actions|
  {
    if actions != [] {
      var next := Apply(cr, st, actions[0]);
      StepKeeps(cr, st, actions[0]);
      if next.notes[k].used != st.notes[k].used {
        UseNeedsFunds(cr, st, actions[0], k);
      } else {
        MoreNeedsFunds(cr, next, actions[1..], k);
        BackOneStep(cr, st, actions[0], k);
      }
    }
  }

  lemma BackOneStep(cr: Params, st: State, a: Action, k: int)
    requires HandlersOk(cr, st) && k in st.notes && k in Apply(cr, st, a).notes
    requires NoteGrows(st.notes[k], Apply(cr, st, a).notes[k])
    requires Apply(cr, st, a).notes[k].used == st.notes[k].used && GoesOn(cr, Apply(cr, st, a), k)
    ensures GoesOn(cr, st, k)
  {
    if Enabled(cr, st, a) {
      var st' := Apply(cr, st, a);
      var total :| Attainable(cr, st', k, total) && Funded(cr, st'.notes[k], total);
      StepAttains(cr, st, a, k, total);
      SameFunds(cr, st.notes[k], st'.notes[k], total);
    }
  }

  lemma SameFunds(cr: Params, note: Note, note': Note, total: nat)
    requires note.used == note'.used && note.deposit == note'.deposit && Funded(cr, note', total)
    ensures Funded(cr, note, total)
  {}

  // ---- a note that can go on has a new request ----

  ghost function Above(s: set<nat>): nat {
    if s == {} then 0
    else
      var i := Pick(s);
      i + 1 + Above(s - {i})
  }

  lemma {:induction false} BelowAbove(s: set<nat>, i: nat)
    requires i in s
    ensures i < Above(s)
    decreases |s|
  {
    var j := Pick(s);
    if i != j { BelowAbove(s - {j}, i); }
  }

  lemma UnusedId(st: State) returns (id: nat)
    ensures id !in st.handlers
  {
    id := Above(st.handlers.Keys);
    if id in st.handlers { BelowAbove(st.handlers.Keys, id); }
  }

  function Advanced(o: Opening, refund: nat): Opening {
    o.(refunds := o.refunds + refund, index := o.index + 1)
  }

  ghost predicate Unsigned(st: State, id: nat, k: int) {
    id in st.handlers && st.handlers[id].k == k && !st.handlers[id].phase.Signed?
  }

  /** The accumulators the note's next request can be proved with bind, as each is when it is presented. */
  ghost predicate NextBinds(cr: Params, st: State, k: int) {
    && (NoteAt(st, k).used == 0 ==> Binds(cr, st, Opening(0, 0, cr.hash1(k), 0)))
    && (forall e :: e in st.signLog && e.k == k && e.i + 1 == NoteAt(st, k).used ==> Binds(cr, st, e.opening))
    && (forall id: nat, v: nat :: Unsigned(st, id, k) && v <= cr.cMax ==> Binds(cr, st, Advanced(st.handlers[id].opening, v)))
  }

  ghost predicate NextUnspent(cr: Params, st: State, k: int)
    requires k in st.notes
  {
    Nullifier(cr, k, st.notes[k].used) !in st.server.nullifiers
  }

  /** The hypotheses of a continuation with one more request, whose refunds are total. */
  ghost predicate Ready(cr: Params, st: State, k: int, total: nat) {
    && k in st.notes
    && Attainable(cr, st, k, total) && Funded(cr, st.notes[k], total)
    && NextBinds(cr, st, k) && NextUnspent(cr, st, k)
  }

  ghost predicate Reaches(cr: Params, st: State, actions: seq<Action>, k: int) {
    k in st.notes && RequestedAt(cr, RunFrom(cr, st, actions), k, st.notes[k].used)
  }

  lemma AnsweredGoesOn(cr: Params, st: State, k: int, total: nat, x: int) returns (actions: seq<Action>)
    requires Ideal(cr) && NotesOk(cr, st) && SignaturesOk(cr, st)
    requires Ready(cr, st, k, total) && st.notes[k].used == |st.notes[k].outcomes|
    requires 0 <= x < cr.p && !cr.exitX(x)
    ensures Reaches(cr, st, actions, k)
  {
    var id := UnusedId(st);
    var w := LastWitness(cr, st, k, total);
    actions := [Submit(id, w, 0, x, 0)];
    assert CanSubmit(cr, st, id, w, x);
    OneAction(cr, st, actions[0]);
  }

  lemma OneAction(cr: Params, st: State, a: Action)
    ensures RunFrom(cr, st, [a]) == Apply(cr, st, a)
  {
    assert [a][1..] == [];
  }

  ghost predicate Opens(cr: Params, st: State, k: int, w: Witness)
    requires k in st.notes
  {
    w.k == k && w.index == st.notes[k].used && RequestRelation(cr, st, w) && Binds(cr, st, OpeningOf(cr, w))
  }

  lemma GenesisWitness(cr: Params, st: State, k: int, total: nat)
    requires Ready(cr, st, k, total) && st.notes[k].used == |st.notes[k].outcomes| == 0
    ensures Opens(cr, st, k, Witness(k, 0, 0, 0, true))
  {}

  lemma SignedWitness(cr: Params, st: State, k: int, total: nat, e: SignEvent)
    requires Ready(cr, st, k, total) && st.notes[k].used == |st.notes[k].outcomes| == e.i + 1
    requires e in st.signLog && e.k == k && SignOk(cr, st, e)
    ensures Opens(cr, st, k, Witness(k, e.opening.refunds, e.opening.index, e.opening.blinding, false))
  {
    assert st.notes[k].outcomes[..e.i + 1] == st.notes[k].outcomes;
    assert OpeningOf(cr, Witness(k, e.opening.refunds, e.opening.index, e.opening.blinding, false)) == e.opening;
  }

  /** The opening of the note's last signed accumulator, or of genesis. */
  lemma LastWitness(cr: Params, st: State, k: int, total: nat) returns (w: Witness)
    requires NotesOk(cr, st) && SignaturesOk(cr, st)
    requires Ready(cr, st, k, total) && st.notes[k].used == |st.notes[k].outcomes|
    ensures Opens(cr, st, k, w)
  {
    if st.notes[k].used == 0 {
      GenesisWitness(cr, st, k, total);
      return Witness(k, 0, 0, 0, true);
    }
    assert NoteOk(cr, st, k) && AnsweredAt(st, k, st.notes[k].used - 1);
    ghost var e :| e in st.signLog && e.k == k && e.i == st.notes[k].used - 1;
    SignedWitness(cr, st, k, total, e);
    w := Witness(k, e.opening.refunds, e.opening.index, e.opening.blinding, false);
  }

  lemma EarlierSignatures(cr: Params, st: State, k: int)
    requires SignaturesOk(cr, st) && k in st.notes && st.notes[k].used == |st.notes[k].outcomes| + 1
    ensures forall e :: e in st.signLog && e.k == k ==> e.i + 1 < st.notes[k].used
  {
    forall e | e in st.signLog && e.k == k ensures e.i + 1 < st.notes[k].used { assert SignOk(cr, st, e); }
  }

  /** A note has at most one handler that has not signed. */
  lemma OneUnsigned(cr: Params, st: State, k: int, id: nat)
    requires HandlersOk(cr, st) && Unsigned(st, id, k)
    ensures k in st.notes && st.notes[k].used == |st.notes[k].outcomes| + 1
    ensures forall j :: Unsigned(st, j, k) ==> j == id
  {
    assert HandlerOk(cr, st, st.handlers[id]);
    forall j | Unsigned(st, j, k) ensures j == id { assert HandlerOk(cr, st, st.handlers[j]); }
  }

  lemma SignedBinds(cr: Params, st: State, k: int, id: nat)
    requires Ideal(cr) && HandlersOk(cr, st) && SignaturesOk(cr, st) && k in st.notes && NextBinds(cr, st, k)
    requires Unsigned(st, id, k) && st.handlers[id].phase.Priced?
    ensures NextBinds(cr, ApplySign(cr, st, id), k)
  {
    var h, st' := st.handlers[id], ApplySign(cr, st, id);
    OneUnsigned(cr, st, k, id);
    EarlierSignatures(cr, st, k);
    var last := st'.signLog[|st.signLog|];
    assert last.opening == Advanced(h.opening, Refund(cr.cMax, h.phase.outcome));
    assert Binds(cr, st, last.opening);
    assert Binds(cr, st', last.opening);
    assert forall e :: e in st'.signLog ==> e in st.signLog || e == last;
  }

  /** Signing turns what a handler will make of the refunds into what they are. */
  lemma SigningAttains(cr: Params, st: State, k: int, id: nat, total: nat)
    requires HandlersOk(cr, st) && k in st.notes && PendingTotal(cr, st, k, id, total) && st.handlers[id].phase.Priced?
    ensures var st' := ApplySign(cr, st, id);
            && k in st'.notes && st'.notes[k].used == st.notes[k].used == |st'.notes[k].outcomes|
            && st'.notes[k].deposit == st.notes[k].deposit && Attainable(cr, st', k, total)
  {
    assert HandlerOk(cr, st, st.handlers[id]);
    RefundAppend(cr.cMax, st.notes[k].outcomes, st.handlers[id].phase.outcome);
  }

  /** How far handler id is from signing. */
  function Distance(st: State, id: nat): nat {
    if id !in st.handlers then 0
    else match st.handlers[id].phase
         case Recorded => 3
         case Calling => 2
         case Priced(_) => 1
         case Signed(_) => 0
  }

  /** Handler id is nearer to signing in st', towards the same refunds. */
  ghost predicate MovesTo(cr: Params, st: State, st': State, k: int, id: nat, total: nat)
    requires k in st.notes
  {
    && Ready(cr, st', k, total) && st'.notes[k].used == st.notes[k].used
    && Distance(st', id) < Distance(st, id)
    && (st'.notes[k].used == |st'.notes[k].outcomes| || PendingTotal(cr, st', k, id, total))
  }

  lemma SignMoves(cr: Params, st: State, k: int, id: nat, total: nat)
    requires Ideal(cr) && HandlersOk(cr, st) && SignaturesOk(cr, st)
    requires Ready(cr, st, k, total) && PendingTotal(cr, st, k, id, total) && st.handlers[id].phase.Priced?
    ensures MovesTo(cr, st, ApplySign(cr, st, id), k, id, total)
  {
    SigningAttains(cr, st, k, id, total);
    SignedBinds(cr, st, k, id);
  }

  /** Nothing but handler id's phase, and the log of calls, differs. */
  lemma PhaseMoves(cr: Params, st: State, k: int, id: nat, total: nat, phase: Phase, calls: seq<Key>)
    requires Ready(cr, st, k, total) && PendingTotal(cr, st, k, id, total) && !phase.Signed?
    requires st.notes[k].used != |st.notes[k].outcomes|
    requires var st' := SetPhase(st, id, phase).(calls := calls);
             PendingTotal(cr, st', k, id, total) && Distance(st', id) < Distance(st, id)
    ensures MovesTo(cr, st, SetPhase(st, id, phase).(calls := calls), k, id, total)
  {
    PhaseBinds(cr, st, SetPhase(st, id, phase).(calls := calls), k, id, phase);
  }

  lemma PhaseBinds(cr: Params, st: State, st': State, k: int, id: nat, phase: Phase)
    requires k in st.notes && NextBinds(cr, st, k) && Unsigned(st, id, k)
    requires st' == SetPhase(st, id, phase).(calls := st'.calls)
    ensures NextBinds(cr, st', k)
  {
    forall j: nat, v: nat | Unsigned(st', j, k) && v <= cr.cMax ensures Binds(cr, st', Advanced(st'.handlers[j].opening, v)) {
      assert Unsigned(st, j, k);
    }
  }

  /** The outcome that leaves a refund of v. */
  lemma OutcomeFor(cMax: nat, v: nat) returns (outcome: Outcome)
    requires v <= cMax
    ensures Refund(cMax, outcome) == v
  {
    outcome := Served(cMax - v);
  }

  lemma ProviderMoves(cr: Params, st: State, k: int, id: nat, total: nat) returns (outcome: Outcome)
    requires Ready(cr, st, k, total) && PendingTotal(cr, st, k, id, total) && st.handlers[id].phase == Calling
    requires st.notes[k].used != |st.notes[k].outcomes|
    ensures MovesTo(cr, st, SetPhase(st, id, Priced(outcome)), k, id, total)
  {
    outcome := OutcomeFor(cr.cMax, total - RefundTotal(cr.cMax, st.notes[k].outcomes));
    assert SetPhase(st, id, Priced(outcome)).(calls := st.calls) == SetPhase(st, id, Priced(outcome));
    PhaseMoves(cr, st, k, id, total, Priced(outcome), st.calls);
  }

  lemma CallMoves(cr: Params, st: State, k: int, id: nat, total: nat)
    requires Ready(cr, st, k, total) && PendingTotal(cr, st, k, id, total) && st.handlers[id].phase == Recorded
    requires st.notes[k].used != |st.notes[k].outcomes|
    ensures MovesTo(cr, st, ApplyCall(st, id), k, id, total)
  {
    PhaseMoves(cr, st, k, id, total, Calling, st.calls + [st.handlers[id].nullifier]);
  }

  lemma PendingMoves(cr: Params, st: State, k: int, id: nat, total: nat) returns (a: Action, st': State)
    requires Ideal(cr) && HandlersOk(cr, st) && SignaturesOk(cr, st)
    requires Ready(cr, st, k, total) && PendingTotal(cr, st, k, id, total)
    requires st.notes[k].used != |st.notes[k].outcomes|
    ensures st' == Apply(cr, st, a) && MovesTo(cr, st, st', k, id, total)
  {
    match st.handlers[id].phase
    case Recorded =>
      CallMoves(cr, st, k, id, total);
      a, st' := CallProvider(id), ApplyCall(st, id);
    case Calling =>
      var outcome := ProviderMoves(cr, st, k, id, total);
      a, st' := ProviderEnds(id, outcome), SetPhase(st, id, Priced(outcome));
    case Priced(_) =>
      SignMoves(cr, st, k, id, total);
      a, st' := Sign(id), ApplySign(cr, st, id);
  }

  lemma ActionFirst(cr: Params, st: State, a: Action, actions: seq<Action>, k: int)
    requires k in st.notes && k in Apply(cr, st, a).notes && Apply(cr, st, a).notes[k].used == st.notes[k].used
    requires Reaches(cr, Apply(cr, st, a), actions, k)
    ensures Reaches(cr, st, [a] + actions, k)
  {
    assert ([a] + actions)[1..] == actions;
  }

  lemma {:induction false} PendingReaches(cr: Params, st: State, k: int, id: nat, total: nat, x: int) returns (actions: seq<Action>)
    requires Ideal(cr) && Invariant(cr, st) && Ready(cr, st, k, total) && 0 <= x < cr.p && !cr.exitX(x)
    requires st.notes[k].used == |st.notes[k].outcomes| || PendingTotal(cr, st, k, id, total)
    ensures Reaches(cr, st, actions, k)
    decreases Distance(st, id)
  {
    if st.notes[k].used == |st.notes[k].outcomes| {
      actions := AnsweredGoesOn(cr, st, k, total, x);
    } else {
      var a, st' := PendingMoves(cr, st, k, id, total);
      StepKeeps(cr, st, a);
      actions := PendingReaches(cr, st', k, id, total, x);
      ActionFirst(cr, st, a, actions, k);
      actions := [a] + actions;
    }
  }

  /** A note that can go on has a run to one more request. */
  lemma ReadyReaches(cr: Params, st: State, k: int, total: nat, x: int) returns (actions: seq<Action>)
    requires Ideal(cr) && Invariant(cr, st) && Ready(cr, st, k, total) && 0 <= x < cr.p && !cr.exitX(x)
    ensures Reaches(cr, st, actions, k)
  {
    ghost var id: nat := 0;
    if st.notes[k].used != |st.notes[k].outcomes| { id :| PendingTotal(cr, st, k, id, total); }
    actions := PendingReaches(cr, st, k, id, total, x);
  }

  /**
   * A note whose next index is unspent has a run that records a request there
   * exactly when it can go on.
   */
  lemma RequestsGoOn(cr: Params, before: seq<Action>, k: int, x: int)
    requires Ideal(cr) && k in Run(cr, before).notes && NextUnspent(cr, Run(cr, before), k)
    requires 0 <= x < cr.p && !cr.exitX(x) && NextBinds(cr, Run(cr, before), k)
    ensures (exists after :: Reaches(cr, Run(cr, before), after, k)) <==> GoesOn(cr, Run(cr, before), k)
  {
    var st := Run(cr, before);
    ReachableInv(cr, before);
    if GoesOn(cr, st, k) {
      var total :| Attainable(cr, st, k, total) && Funded(cr, st.notes[k], total);
      var after := ReadyReaches(cr, st, k, total, x);
    }
    if after :| Reaches(cr, st, after, k) {
      RunFromKeeps(cr, st, after);
      RequestsArePrefix(cr, RunFrom(cr, st, after), k);
      MoreNeedsFunds(cr, st, after, k);
    }
  }

  /** Every deposit covers a first request: a note with none yet can go on. */
  lemma DepositCoversOne(cr: Params, before: seq<Action>, k: int)
    requires Ideal(cr) && k in Run(cr, before).notes && Run(cr, before).notes[k].used == 0
    ensures GoesOn(cr, Run(cr, before), k)
  {
    var st := Run(cr, before);
    ReachableInv(cr, before);
    assert NoteOk(cr, st, k);
    assert Attainable(cr, st, k, 0) && Funded(cr, st.notes[k], 0);
  }

  // ---- exits ----

  lemma ExitOwner(cr: Params, st: State, k: int)
    requires Ideal(cr) && EntriesOk(cr, st) && ExitsOk(cr, st) && k in st.ingested
    ensures k in st.exits && k in st.notes && k in cr.keys && st.exits[k].n < INDEX_BOUND
    ensures var n := Nullifier(cr, k, st.exits[k].n);
            && n in st.owner && st.owner[n] == Owner(k, st.exits[k].n, st.owner[n].byExit)
            && (st.owner[n].byExit || SlashedIfEnabled(cr, st, k))
  {
    assert IngestedOk(cr, st, k) && ExitOk(cr, st, k);
    OwnerIs(cr, st, k, st.exits[k].n);
  }

  /** An exit that came first keeps its index, and with it every later one, closed for good. */
  lemma FirstExitCloses(cr: Params, st: State, st': State, k: int)
    requires Ideal(cr) && EntriesOk(cr, st) && ExitsOk(cr, st) && EntriesOk(cr, st') && NotesOk(cr, st')
    requires MapGrows(st.owner, st'.owner) && k in st.ingested && ExitCameFirst(cr, st, k)
    ensures ClosedFrom(cr, st', k, st.exits[k].n)
  {
    ExitOwner(cr, st, k);
    RequestsArePrefix(cr, st', k);
    PrefixClosed(cr, st', k, NoteAt(st', k).used, st.exits[k].n);
  }

  lemma PrefixClosed(cr: Params, st: State, k: int, used: nat, n: nat)
    requires forall i: nat :: RequestedAt(cr, st, k, i) <==> i < used
    requires !RequestedAt(cr, st, k, n)
    ensures ClosedFrom(cr, st, k, n)
  {
    assert used <= n;
  }

  /** An exit that came second was at a used index, so the next index is above it and unspent. */
  lemma SecondExitIsBelow(cr: Params, st: State, k: int)
    requires Ideal(cr) && EntriesOk(cr, st) && ExitsOk(cr, st) && NotesOk(cr, st) && k in st.ingested && !ExitCameFirst(cr, st, k)
    ensures k in st.exits && k in st.notes && st.exits[k].n < st.notes[k].used
    ensures st.notes[k].used < INDEX_BOUND ==> NextUnspent(cr, st, k)
  {
    ExitOwner(cr, st, k);
    assert EntryOk(cr, st, Nullifier(cr, k, st.exits[k].n));
    if st.notes[k].used < INDEX_BOUND && !NextUnspent(cr, st, k) { OwnerIs(cr, st, k, st.notes[k].used); }
  }

  lemma NewRequestUses(cr: Params, st: State, st': State, k: int, n: nat)
    requires EntriesOk(cr, st) && NotesOk(cr, st) && EntriesOk(cr, st') && NotesOk(cr, st')
    requires NewRequest(cr, st, st', k, n)
    ensures NoteAt(st', k).used > NoteAt(st, k).used
  {
    RequestsArePrefix(cr, st, k);
    RequestsArePrefix(cr, st', k);
  }

  ghost predicate Reopens(cr: Params, st: State, k: int, n: nat) {
    exists after :: NewRequest(cr, st, RunFrom(cr, st, after), k, n)
  }

  lemma ReopeningNeeds(cr: Params, st: State, k: int)
    requires Ideal(cr) && Invariant(cr, st) && k in st.ingested && k in st.exits && Reopens(cr, st, k, st.exits[k].n)
    ensures !ExitCameFirst(cr, st, k) && GoesOn(cr, st, k)
  {
    var after :| NewRequest(cr, st, RunFrom(cr, st, after), k, st.exits[k].n);
    var st' := RunFrom(cr, st, after);
    RunFromKeeps(cr, st, after);
    ExitOwner(cr, st, k);
    if ExitCameFirst(cr, st, k) { FirstExitCloses(cr, st, st', k); }
    NewRequestUses(cr, st, st', k, st.exits[k].n);
    MoreNeedsFunds(cr, st, after, k);
  }

  lemma ReopeningHappens(cr: Params, st: State, k: int, x: int)
    requires Ideal(cr) && Invariant(cr, st) && k in st.ingested && k in st.notes && 0 <= x < cr.p && !cr.exitX(x)
    requires NextBinds(cr, st, k) && !ExitCameFirst(cr, st, k) && GoesOn(cr, st, k)
    ensures k in st.exits && Reopens(cr, st, k, st.exits[k].n)
  {
    SecondExitIsBelow(cr, st, k);
    var total :| Attainable(cr, st, k, total) && Funded(cr, st.notes[k], total);
    var after := ReadyReaches(cr, st, k, total, x);
    RequestsArePrefix(cr, st, k);
    assert NewRequest(cr, st, RunFrom(cr, st, after), k, st.exits[k].n);
  }

  /**
   * Once an exit at n is ingested, some continuation records another request
   * at n or above exactly when a request took n before the exit, so that its
   * ingestion slashed the note, and the note can still go on.
   */
  lemma ExitClosesIndices(cr: Params, before: seq<Action>, k: int, x: int)
    requires Ideal(cr) && k in Run(cr, before).ingested
    requires 0 <= x < cr.p && !cr.exitX(x) && NextBinds(cr, Run(cr, before), k)
    ensures var st := Run(cr, before);
            && k in st.exits
            && (Reopens(cr, st, k, st.exits[k].n) <==> !ExitCameFirst(cr, st, k) && GoesOn(cr, st, k))
            && (ExitCameFirst(cr, st, k) || SlashedIfEnabled(cr, st, k))
  {
    var st := Run(cr, before);
    ReachableInv(cr, before);
    ExitOwner(cr, st, k);
    if Reopens(cr, st, k, st.exits[k].n) { ReopeningNeeds(cr, st, k); }
    if !ExitCameFirst(cr, st, k) && GoesOn(cr, st, k) { ReopeningHappens(cr, st, k, x); }
  }

  /** An exit stored before any request at its index closes it and every later one, in every continuation. */
  lemma FirstExitIsFinal(cr: Params, before: seq<Action>, after: seq<Action>, k: int)
    requires Ideal(cr) && k in Run(cr, before).ingested && ExitCameFirst(cr, Run(cr, before), k)
    ensures ClosedFrom(cr, RunFrom(cr, Run(cr, before), after), k, Run(cr, before).exits[k].n)
  {
    ReachableInv(cr, before);
    RunFromKeeps(cr, Run(cr, before), after);
    FirstExitCloses(cr, Run(cr, before), RunFrom(cr, Run(cr, before), after), k);
  }
}
