/**
 * The note protocol as a transition system: adversarial clients, interleaved
 * handlers that may die between any two awaits, and exits racing requests.
 */
module Protocol {
  import Circuits
  import opened Modular
  import opened Primes
  import opened Field
  import opened Edwards
  import opened Slashing
  import opened Accumulator
  import opened GatewayState

  /**
   * The deployment, its primitives, and the keys the notes of a run draw.
   * exitX tells the x of an exit from the x of a request.
   */
  datatype Params = Params(
    keys: set<int>,
    p: Modulus,
    order: Modulus,
    cMax: nat,
    slashingEnabled: bool,
    hash1: int -> nat,
    hash2: (int, int) -> nat,
    commit: Opening -> Point,
    rerandomize: (Point, nat) -> Point,
    applyRefund: (Point, nat) -> Point,
    exitX: int -> bool)

  const INDEX_BOUND := Circuits.TWO_32
  const AMOUNT_BOUND := Circuits.TWO_128

  /** N = Poseidon(Poseidon(k, i)). */
  function Nullifier(cr: Params, k: int, i: nat): Key {
    Key(cr.hash1(cr.hash2(k, i)))
  }

  // ---- the idealisations, one law each ----

  /** No two of the run's keys share a commitment. */
  ghost predicate CommitmentLaw(cr: Params, k: int, k': int) {
    (k in cr.keys && k' in cr.keys && cr.hash1(k) == cr.hash1(k')) ==> k == k'
  }

  /** No two of the run's keys and indices share a nullifier. */
  ghost predicate NullifierLaw(cr: Params, k: int, i: nat, k': int, i': nat) {
    (k in cr.keys && k' in cr.keys && i < INDEX_BOUND && i' < INDEX_BOUND
     && Nullifier(cr, k, i) == Nullifier(cr, k', i')) ==> (k == k' && i == i')
  }

  ghost predicate RerandomizeLaw(cr: Params, o: Opening, blinding: nat) {
    cr.rerandomize(cr.commit(o), blinding) == cr.commit(o.(blinding := (o.blinding + blinding) % cr.order))
  }

  ghost predicate RefundLaw(cr: Params, o: Opening, refund: nat) {
    cr.applyRefund(cr.commit(o), refund) == cr.commit(o.(refunds := o.refunds + refund, index := o.index + 1))
  }

  ghost predicate Ideal(cr: Params) {
    && Prime(cr.p)
    && cr.cMax < AMOUNT_BOUND
    && (forall k :: k in cr.keys ==> 0 <= k < cr.p)
    && (forall k, k' :: CommitmentLaw(cr, k, k'))
    && (forall k, i, k', i' :: NullifierLaw(cr, k, i, k', i'))
    && (forall o, blinding :: RerandomizeLaw(cr, o, blinding))
    && (forall o, refund :: RefundLaw(cr, o, refund))
  }

  // ---- RLN signals ----

  function SignalAt(cr: Params, k: int, i: nat, x: int): Signal {
    Signal(x, (k + cr.hash2(k, i) * x) % cr.p)
  }

  /** Two signals of one note at one index give up its key. */
  lemma DoubleSignalReveals(cr: Params, k: int, i: nat, x: int, x': int)
    requires Ideal(cr) && 0 <= k < cr.p && 0 <= x < cr.p && 0 <= x' < cr.p && x != x'
    ensures Recover(cr.p, SignalAt(cr, k, i, x), SignalAt(cr, k, i, x')) == Some(k)
  {
    var slope := cr.hash2(k, i);
    CongMod(cr.p, k + slope * x);
    CongMod(cr.p, k + slope * x');
    if Cong(cr.p, x, x') { CongSmall(cr.p, x, x'); }
    RecoveryExact(cr.p, k, slope, SignalAt(cr, k, i, x), SignalAt(cr, k, i, x'));
  }

  /** a = Poseidon(k, i) is both the slope of the line at i and what the nullifier there hashes. */
  lemma SignalOnSlope(cr: Params, k: int, i: nat, x: int)
    ensures var a := cr.hash2(k, i);
            Nullifier(cr, k, i) == Key(cr.hash1(a)) && OnLine(cr.p, k, a, SignalAt(cr, k, i, x))
    ensures SignalAt(cr, k, i, x).x == x && 0 <= SignalAt(cr, k, i, x).y < cr.p
  {
    CongMod(cr.p, k + cr.hash2(k, i) * x);
  }

  lemma LinesDifference(k: int, a: int, b: int, x: int, x': int)
    ensures (k + a * x) * x' - (k + b * x') * x == k * (x' - x) + (a - b) * (x * x')
  {
    Assoc(a, x, x');
    Assoc(b, x', x);
    assert (a - b) * (x * x') == a * (x * x') - b * (x * x');
  }

  /** Signals at indices i and j give up the key exactly when their lines agree there: (a_i - a_j) x x' = 0 modulo p. */
  lemma RevealsAcrossIndices(cr: Params, k: int, i: nat, j: nat, x: int, x': int)
    requires Prime(cr.p) && 0 <= k < cr.p && 0 <= x < cr.p && 0 <= x' < cr.p && x != x'
    ensures Recover(cr.p, SignalAt(cr, k, i, x), SignalAt(cr, k, j, x')) == Some(k)
       <==> Cong(cr.p, (cr.hash2(k, i) - cr.hash2(k, j)) * (x * x'), 0)
  {
    var p, a, b := cr.p, cr.hash2(k, i), cr.hash2(k, j);
    var s, s' := SignalAt(cr, k, i, x), SignalAt(cr, k, j, x');
    var gap := (a - b) * (x * x');
    SignalOnSlope(cr, k, i, x);
    SignalOnSlope(cr, k, j, x');
    CongZero(p, x', x);
    if Cong(p, x', x) { CongSmall(p, x', x); }
    RecoverSolves(p, s, s', k);
    CongMul(p, s.y, k + a * x, x', x');
    CongMul(p, s'.y, k + b * x', x, x);
    CongAdd(p, s.y * x', (k + a * x) * x', s'.y * x, (k + b * x') * x);
    LinesDifference(k, a, b, x, x');
    ShiftCong(p, k * (x' - x), gap);
  }

  lemma ShiftCong(p: Modulus, v: int, gap: int)
    ensures Cong(p, v, v + gap) <==> Cong(p, gap, 0)
  {
    if Cong(p, v, v + gap) { CongAdd(p, v + gap, v, v, v); }
    if Cong(p, gap, 0) { CongAdd(p, v, v, gap, 0); }
  }

  /** With reduced slopes that differ and no x that is 0, they do not. */
  lemma IndicesHideKey(cr: Params, k: int, i: nat, j: nat, x: int, x': int)
    requires Ideal(cr) && k in cr.keys && i < INDEX_BOUND && j < INDEX_BOUND && i != j
    requires cr.hash2(k, i) < cr.p && cr.hash2(k, j) < cr.p
    requires 0 < x < cr.p && 0 < x' < cr.p && x != x'
    ensures Recover(cr.p, SignalAt(cr, k, i, x), SignalAt(cr, k, j, x')) != Some(k)
  {
    var p, a, b := cr.p, cr.hash2(k, i), cr.hash2(k, j);
    assert NullifierLaw(cr, k, i, k, j);
    RevealsAcrossIndices(cr, k, i, j, x, x');
    ModUnique(p, 0, 0, 0);
    if Cong(p, (a - b) * (x * x'), 0) {
      Euclid(p, a - b, x * x');
      if (a - b) % p == 0 {
        CongZero(p, a, b);
        CongSmall(p, a, b);
      } else {
        Euclid(p, x, x');
        ModUnique(p, x, 0, x);
        ModUnique(p, x', 0, x');
      }
    }
  }

  // ---- state ----

  /**
   * A note: its deposit, and the history of its requests: how many indices
   * were recorded and how the answered ones ended. The gateway keeps neither.
   */
  datatype Note = Note(deposit: nat, used: nat, outcomes: seq<Outcome>)

  /** Who a stored signal came from, known to the history only. */
  datatype Owner = Owner(k: int, i: nat, byExit: bool)

  /** The private inputs of a request or settlement proof. */
  datatype Witness = Witness(k: int, refunds: nat, index: nat, blinding: nat, genesis: bool)

  datatype Phase = Recorded | Calling | Priced(outcome: Outcome) | Signed(response: Response)

  datatype Handler = Handler(nullifier: Key, signal: Signal, published: Point, k: int, i: nat, opening: Opening, phase: Phase)

  datatype SignEvent = SignEvent(nullifier: Key, response: Response, k: int, i: nat, opening: Opening)

  datatype Exit = Exit(n: nat, x: int, payout: int, refunds: nat, index: nat)

  datatype Reply = Reply(nullifier: Key, signal: Signal, response: Response)

  datatype Presented = Presented(k: int, i: nat, x: int)

  datatype State = State(
    server: Server,
    handlers: map<nat, Handler>,
    calls: seq<Key>,
    signLog: seq<SignEvent>,
    replies: seq<Reply>,
    notes: map<int, Note>,
    exits: map<int, Exit>,
    ingested: set<int>,
    owner: map<Key, Owner>,
    presented: set<Presented>)

  function InitialState(): State {
    State(Server(map[], map[], []), map[], [], [], [], map[], map[], {}, map[], {})
  }

  // ---- the circuits as relations ----

  function OpeningOf(cr: Params, w: Witness): Opening {
    Opening(w.refunds, w.index, cr.hash1(w.k), w.blinding)
  }

  ghost predicate SameContents(o: Opening, o': Opening) {
    o.refunds == o'.refunds && o.index == o'.index && o.commitment == o'.commitment
  }

  /** The accumulator is genesis, with nothing in it, or signed by the server. */
  ghost predicate SignedOpening(cr: Params, st: State, w: Witness) {
    && w.refunds < AMOUNT_BOUND && w.index < INDEX_BOUND
    && if w.genesis then w.refunds == 0 && w.index == 0 && w.blinding == 0
       else exists e :: e in st.signLog && e.response.accumulator == cr.commit(OpeningOf(cr, w))
  }

  /**
   * Openings bind: whoever opens a signed point opens it to what is in it.
   * Assumed of each opening a client comes up with.
   */
  ghost predicate Binds(cr: Params, st: State, o: Opening) {
    forall e :: e in st.signLog && e.response.accumulator == cr.commit(o) ==> SameContents(e.opening, o)
  }

  ghost predicate RequestRelation(cr: Params, st: State, w: Witness) {
    && w.k in st.notes
    && SignedOpening(cr, st, w)
    && (w.index + 1) * cr.cMax <= st.notes[w.k].deposit + w.refunds
  }

  function Payout(cr: Params, st: State, w: Witness, n: nat): int
    requires w.k in st.notes
  {
    st.notes[w.k].deposit + w.refunds - n * cr.cMax
  }

  ghost predicate SettlementRelation(cr: Params, st: State, w: Witness, n: nat) {
    && w.k in st.notes
    && SignedOpening(cr, st, w)
    && w.index <= n < INDEX_BOUND
    && Payout(cr, st, w, n) >= 0
  }

  // ---- actions ----

  datatype Action =
    | Deposit(k: int, amount: nat)
    | Submit(id: nat, w: Witness, rerandomizer: nat, x: int, now: int)
    | CallProvider(id: nat)
    | ProviderEnds(id: nat, outcome: Outcome)
    | Sign(id: nat)
    | Answer(id: nat, now: int)
    | Die(id: nat)
    | Cleanup(now: int)
    | Restart
    | InitiateWithdrawal(w: Witness, n: nat, x: int)
    | Ingest(k: int)

  ghost predicate CanDeposit(cr: Params, st: State, k: int, amount: nat) {
    k in cr.keys && k !in st.notes && cr.cMax <= amount < AMOUNT_BOUND
  }

  /** The checks before checkAndSet: a valid proof, and an x bound to a payload. */
  ghost predicate CanSubmit(cr: Params, st: State, id: nat, w: Witness, x: int) {
    id !in st.handlers && RequestRelation(cr, st, w) && Binds(cr, st, OpeningOf(cr, w)) && 0 <= x < cr.p && !cr.exitX(x)
  }

  ghost predicate InPhase(st: State, id: nat, phase: Phase) {
    id in st.handlers && st.handlers[id].phase == phase
  }

  /** The contract's checks: one exit per note, a valid proof, and a payout of at most D. */
  ghost predicate CanWithdraw(cr: Params, st: State, w: Witness, n: nat, x: int) {
    && SettlementRelation(cr, st, w, n) && Binds(cr, st, OpeningOf(cr, w))
    && w.k !in st.exits && 0 <= x < cr.p && cr.exitX(x)
    && Payout(cr, st, w, n) <= st.notes[w.k].deposit
  }

  ghost predicate Enabled(cr: Params, st: State, a: Action) {
    match a
    case Deposit(k, amount) => CanDeposit(cr, st, k, amount)
    case Submit(id, w, _, x, _) => CanSubmit(cr, st, id, w, x)
    case CallProvider(id) => InPhase(st, id, Recorded)
    case ProviderEnds(id, _) => InPhase(st, id, Calling)
    case Sign(id) => id in st.handlers && st.handlers[id].phase.Priced?
    case Answer(id, _) => id in st.handlers && st.handlers[id].phase.Signed?
    case Die(id) => id in st.handlers
    case Cleanup(_) => true
    case Restart => true
    case InitiateWithdrawal(w, n, x) => CanWithdraw(cr, st, w, n, x)
    case Ingest(k) => k in st.exits
  }

  function ApplyDeposit(st: State, k: int, amount: nat): State {
    st.(notes := st.notes[k := Note(amount, 0, [])])
  }

  /** checkAndSet and what follows it up to the next await. */
  function ApplySubmit(cr: Params, st: State, id: nat, w: Witness, rerandomizer: nat, x: int, now: int): State
    requires w.k in st.notes
  {
    var nullifier, signal := Nullifier(cr, w.k, w.index), SignalAt(cr, w.k, w.index, x);
    var seen := st.(
      server := Record(cr.p, cr.slashingEnabled, st.server, nullifier, signal),
      presented := st.presented + {Presented(w.k, w.index, x)});
    match RecordVerdict(st.server, nullifier, signal, now)
    case Fresh =>
      var published := cr.rerandomize(cr.commit(OpeningOf(cr, w)), rerandomizer);
      var opening := OpeningOf(cr, w).(blinding := (w.blinding + rerandomizer) % cr.order);
      seen.(handlers := st.handlers[id := Handler(nullifier, signal, published, w.k, w.index, opening, Recorded)],
            owner := st.owner[nullifier := Owner(w.k, w.index, false)],
            notes := st.notes[w.k := st.notes[w.k].(used := st.notes[w.k].used + 1)])
    case Replay(response) => seen.(replies := st.replies + [Reply(nullifier, signal, response)])
    case AlreadyUsed => seen
    case DoubleSpend => seen
  }

  function NoteAt(st: State, k: int): Note {
    if k in st.notes then st.notes[k] else Note(0, 0, [])
  }

  function SetPhase(st: State, id: nat, phase: Phase): State
    requires id in st.handlers
  {
    st.(handlers := st.handlers[id := st.handlers[id].(phase := phase)])
  }

  function ApplyCall(st: State, id: nat): State
    requires id in st.handlers
  {
    SetPhase(st, id, Calling).(calls := st.calls + [st.handlers[id].nullifier])
  }

  /** nextAccumulator: add v G + J to the published point and sign it. */
  function ApplySign(cr: Params, st: State, id: nat): State
    requires id in st.handlers && st.handlers[id].phase.Priced?
  {
    var h := st.handlers[id];
    var refund := Refund(cr.cMax, h.phase.outcome);
    var response := Response(refund, cr.applyRefund(h.published, refund), h.phase.outcome.ProviderFailed?);
    var opening := h.opening.(refunds := h.opening.refunds + refund, index := h.opening.index + 1);
    var note := NoteAt(st, h.k);
    SetPhase(st, id, Signed(response)).(
      signLog := st.signLog + [SignEvent(h.nullifier, response, h.k, h.i, opening)],
      notes := st.notes[h.k := note.(outcomes := note.outcomes + [h.phase.outcome])])
  }

  function ApplyAnswer(st: State, id: nat, now: int): State
    requires id in st.handlers && st.handlers[id].phase.Signed?
  {
    var h := st.handlers[id];
    st.(server := Remember(st.server, h.nullifier, h.signal, h.phase.response, now),
        replies := st.replies + [Reply(h.nullifier, h.signal, h.phase.response)],
        handlers := st.handlers - {id})
  }

  /** ExitWatcherService.ingest, and the chain event it reads. */
  function ApplyIngest(cr: Params, st: State, k: int): State
    requires k in st.exits
  {
    var exit := st.exits[k];
    var nullifier := Nullifier(cr, k, exit.n);
    st.(server := Record(cr.p, cr.slashingEnabled, st.server, nullifier, SignalAt(cr, k, exit.n, exit.x)),
        owner := if nullifier in st.server.nullifiers then st.owner else st.owner[nullifier := Owner(k, exit.n, true)],
        ingested := st.ingested + {k})
  }

  function ApplyWithdrawal(cr: Params, st: State, w: Witness, n: nat, x: int): State
    requires w.k in st.notes
  {
    st.(exits := st.exits[w.k := Exit(n, x, Payout(cr, st, w, n), w.refunds, w.index)],
        presented := st.presented + {Presented(w.k, n, x)})
  }

  function ApplyDie(st: State, id: nat): State {
    st.(handlers := st.handlers - {id})
  }

  function ApplyCleanup(st: State, now: int): State {
    st.(server := st.server.(responses := CleanResponses(st.server.responses, now)))
  }

  /** A restart loses the handlers and the kept answers; the table of nullifiers stays. */
  function ApplyRestart(st: State): State {
    st.(server := st.server.(responses := map[]), handlers := map[])
  }

  ghost function Apply(cr: Params, st: State, a: Action): State {
    if !Enabled(cr, st, a) then st else
    match a
    case Deposit(k, amount) => ApplyDeposit(st, k, amount)
    case Submit(id, w, rerandomizer, x, now) => ApplySubmit(cr, st, id, w, rerandomizer, x, now)
    case CallProvider(id) => ApplyCall(st, id)
    case ProviderEnds(id, outcome) => SetPhase(st, id, Priced(outcome))
    case Sign(id) => ApplySign(cr, st, id)
    case Answer(id, now) => ApplyAnswer(st, id, now)
    case Die(id) => ApplyDie(st, id)
    case Cleanup(now) => ApplyCleanup(st, now)
    case Restart => ApplyRestart(st)
    case InitiateWithdrawal(w, n, x) => ApplyWithdrawal(cr, st, w, n, x)
    case Ingest(k) => ApplyIngest(cr, st, k)
  }

  ghost function RunFrom(cr: Params, st: State, actions: seq<Action>): State
    decreases |actions|
  {
    if actions == [] then st else RunFrom(cr, Apply(cr, st, actions[0]), actions[1..])
  }

  ghost function Run(cr: Params, actions: seq<Action>): State {
    RunFrom(cr, InitialState(), actions)
  }
}
