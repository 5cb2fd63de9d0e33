/**
 * Runs of one honest client among adversaries: lost, late and repeated
 * answers, replays of its requests, and everyone else's notes.
 */
module HonestRuns {
  import Circuits
  import opened Field
  import opened Edwards
  import opened Modular
  import opened Slashing
  import opened Accumulator
  import opened Protocol
  import opened ProtocolInvariant
  import opened ProtocolSteps
  import opened NoteClient

  /** The signal of an exit that was proved: its index and its x. */
  datatype Shown = Shown(n: nat, x: int)

  /** The world, the client's file, the x it emitted at each index, and the exit it proved. */
  datatype Honest = Honest(st: State, note: NoteFile, emitted: map<nat, int>, shown: Option<Shown>)

  datatype Move =
    | Prove(x: int, rerandomizer: nat)
    | Accept(refund: int, accumulator: Point)
    | Withdraw(claimed: Option<nat>, x: int)
    | World(action: Action)

  /** Others can send what the client emitted or showed, at any time or never, but can make nothing else with its key. */
  ghost predicate WithoutKey(h: Honest, a: Action) {
    match a
    case Submit(_, w, _, x, _) => w.k == h.note.secretKey ==> w.index in h.emitted && h.emitted[w.index] == x
    case InitiateWithdrawal(w, n, x) => w.k == h.note.secretKey ==> h.shown == Some(Shown(n, x))
    case _ => true
  }

  ghost function AfterProve(cr: Params, h: Honest, x: int, rerandomizer: nat): Honest {
    match ProveRequest(cr, h.st, h.note, x, rerandomizer)
    case None => h
    case Some((body, note)) => h.(note := note, emitted := h.emitted[h.note.index := body.signal.x])
  }

  ghost predicate IsSigned(st: State, point: Point) {
    exists e :: e in st.signLog && e.response.accumulator == point
  }

  function NextOpening(cr: Params, note: NoteFile, rerandomizer: nat, refund: nat): Opening {
    var o := OpeningOf(cr, WitnessOf(note));
    Opening(o.refunds + refund, o.index + 1, o.commitment, (o.blinding + rerandomizer) % cr.order)
  }

  ghost function AfterAccept(cr: Params, h: Honest, refund: int, accumulator: Point): Honest {
    match Receive(cr, h.note, refund, accumulator, IsSigned(h.st, accumulator))
    case None => h
    case Some(note) => h.(note := note)
  }

  /** The client proves an exit; whether it is ever mined is up to the world. */
  ghost function AfterWithdraw(cr: Params, h: Honest, claimed: Option<nat>, x: int): Honest {
    match ProveWithdrawal(cr, h.st, h.note, claimed, x)
    case None => h
    case Some(exit) => h.(shown := Some(Shown(exit.n, x)))
  }

  /** One exit, for at least every index used, and no new request after it. Answers may be any that receive accepts. */
  ghost predicate MoveAllowed(cr: Params, h: Honest, move: Move) {
    match move
    case Prove(x, _) => (h.shown.None? || h.note.pending.Some?) && 0 <= x < cr.p && !cr.exitX(x)
    case Accept(_, _) => true
    case Withdraw(claimed, x) =>
      h.shown.None? && 0 <= x < cr.p && cr.exitX(x) && (claimed.Some? ==> claimed.value >= Used(h.note))
    case World(a) => WithoutKey(h, a)
  }

  /** The refund of an answer is one the protocol allows, and the point it adds up to binds. */
  ghost predicate FairAnswer(cr: Params, st: State, note: NoteFile, refund: int) {
    && 0 <= refund <= cr.cMax
    && (note.pending.Some? ==> Binds(cr, st, NextOpening(cr, note, note.pending.value.rerandomizer, refund)))
  }

  ghost function Moved(cr: Params, h: Honest, move: Move): Honest {
    if !MoveAllowed(cr, h, move) then h else
    match move
    case Prove(x, rerandomizer) => AfterProve(cr, h, x, rerandomizer)
    case Accept(refund, accumulator) => AfterAccept(cr, h, refund, accumulator)
    case Withdraw(claimed, x) => AfterWithdraw(cr, h, claimed, x)
    case World(a) => h.(st := Apply(cr, h.st, a))
  }

  ghost function MovedAll(cr: Params, h: Honest, moves: seq<Move>): Honest
    decreases |moves|
  {
    if moves == [] then h else MovedAll(cr, Moved(cr, h, moves[0]), moves[1..])
  }

  /** Every answer of the run is fair. */
  ghost predicate FairRun(cr: Params, h: Honest, moves: seq<Move>)
    decreases |moves|
  {
    moves != [] ==>
      && (moves[0].Accept? ==> FairAnswer(cr, h.st, h.note, moves[0].refund))
      && FairRun(cr, Moved(cr, h, moves[0]), moves[1..])
  }

  // ---- what the client's file is worth ----

  /** The file's opening is the note's history up to its index, and was signed unless it is genesis. */
  ghost predicate FileOk(cr: Params, st: State, note: NoteFile) {
    && note.secretKey in st.notes && note.index <= INDEX_BOUND
    && var history := st.notes[note.secretKey];
    && note.index <= |history.outcomes|
    && note.refunds == RefundTotal(cr.cMax, history.outcomes[..note.index])
    && (if note.signed then IsSigned(st, cr.commit(OpeningOf(cr, WitnessOf(note))))
        else note.refunds == 0 && note.index == 0 && note.blinding == 0)
    && Used(note) * cr.cMax <= history.deposit + note.refunds
    && (note.pending.Some? ==> note.index < INDEX_BOUND)
  }

  /** The client emitted one x at each index it used, and nobody presented anything else. */
  ghost predicate EmittedOk(cr: Params, h: Honest) {
    && (forall i: nat :: i in h.emitted <==> i < Used(h.note))
    && (forall i: nat :: i in h.emitted ==> 0 <= h.emitted[i] < cr.p && !cr.exitX(h.emitted[i]))
    && (h.note.pending.Some? ==>
          h.note.index in h.emitted && h.emitted[h.note.index] == h.note.pending.value.body.signal.x)
    && h.note.secretKey in h.st.notes && h.st.notes[h.note.secretKey].used <= Used(h.note)
  }

  ghost predicate PresentedOk(cr: Params, h: Honest) {
    var k := h.note.secretKey;
    && (k in h.st.exits ==> h.shown == Some(Shown(h.st.exits[k].n, h.st.exits[k].x)))
    && (h.shown.Some? ==> h.shown.value.n >= Used(h.note) && 0 <= h.shown.value.x < cr.p && cr.exitX(h.shown.value.x))
    && forall i, x :: Presented(k, i, x) in h.st.presented ==>
         (i in h.emitted && h.emitted[i] == x) || h.shown == Some(Shown(i, x))
  }

  /** The signals alone: nothing here depends on the refunds of the answers. */
  ghost predicate SignalsOk(cr: Params, h: Honest) {
    Invariant(cr, h.st) && EmittedOk(cr, h) && PresentedOk(cr, h)
  }

  ghost predicate HonestOk(cr: Params, h: Honest) {
    SignalsOk(cr, h) && FileOk(cr, h.st, h.note)
  }

  /** The world's growth leaves the file good. */
  lemma FileStays(cr: Params, st: State, st': State, note: NoteFile)
    requires FileOk(cr, st, note) && Grows(st, st')
    ensures FileOk(cr, st', note)
  {
    var k := note.secretKey;
    assert NoteGrows(st.notes[k], st'.notes[k]);
    assert st'.notes[k].outcomes[..note.index] == st.notes[k].outcomes[..note.index];
    if note.signed {
      var e :| e in st.signLog && e.response.accumulator == cr.commit(OpeningOf(cr, WitnessOf(note)));
      assert e in st'.signLog;
    }
  }

  lemma ProveSignals(cr: Params, h: Honest, x: int, rerandomizer: nat)
    requires SignalsOk(cr, h) && MoveAllowed(cr, h, Prove(x, rerandomizer))
    ensures SignalsOk(cr, AfterProve(cr, h, x, rerandomizer))
  {
    var h' := AfterProve(cr, h, x, rerandomizer);
    if h.note.pending.Some? {
      assert h'.emitted == h.emitted;
    } else if ProveRequest(cr, h.st, h.note, x, rerandomizer).Some? {
      ProvedEmitted(cr, h, x, rerandomizer);
      ProvedPresented(cr, h, x, rerandomizer);
    }
  }

  lemma ProvedFile(cr: Params, st: State, note: NoteFile, x: int, rerandomizer: nat)
    requires FileOk(cr, st, note) && ProveRequest(cr, st, note, x, rerandomizer).Some?
    ensures FileOk(cr, st, ProveRequest(cr, st, note, x, rerandomizer).value.1)
  {}

  lemma ProvedEmitted(cr: Params, h: Honest, x: int, rerandomizer: nat)
    requires EmittedOk(cr, h) && h.note.pending.None? && 0 <= x < cr.p && !cr.exitX(x)
    requires ProveRequest(cr, h.st, h.note, x, rerandomizer).Some?
    ensures EmittedOk(cr, AfterProve(cr, h, x, rerandomizer))
  {}

  lemma ProvedPresented(cr: Params, h: Honest, x: int, rerandomizer: nat)
    requires EmittedOk(cr, h) && PresentedOk(cr, h) && h.note.pending.None? && h.shown.None?
    requires ProveRequest(cr, h.st, h.note, x, rerandomizer).Some?
    ensures PresentedOk(cr, AfterProve(cr, h, x, rerandomizer))
  {}

  // ---- accepting an answer ----

  /** What the client expects is the next opening's commitment. */
  lemma ExpectedOpens(cr: Params, note: NoteFile, rerandomizer: nat, refund: int)
    requires Ideal(cr)
    ensures ExpectedAccumulator(cr, note, rerandomizer, refund)
         == cr.commit(NextOpening(cr, note, rerandomizer, if refund < 0 then 0 else refund))
  {
    var o, v := OpeningOf(cr, WitnessOf(note)), if refund < 0 then 0 else refund;
    assert RerandomizeLaw(cr, o, rerandomizer);
    assert RefundLaw(cr, o.(blinding := (o.blinding + rerandomizer) % cr.order), v);
  }

  /** A signed point that opens to the note's next opening is the answer to its pending request. */
  lemma SignedIsNext(cr: Params, st: State, note: NoteFile, rerandomizer: nat, refund: nat)
    requires Ideal(cr) && Invariant(cr, st) && FileOk(cr, st, note)
    requires IsSigned(st, cr.commit(NextOpening(cr, note, rerandomizer, refund)))
    requires Binds(cr, st, NextOpening(cr, note, rerandomizer, refund))
    ensures var outcomes := st.notes[note.secretKey].outcomes;
            && note.index < |outcomes|
            && RefundTotal(cr.cMax, outcomes[..note.index + 1]) == note.refunds + refund
  {
    var o := NextOpening(cr, note, rerandomizer, refund);
    var e :| e in st.signLog && e.response.accumulator == cr.commit(o);
    assert SignOk(cr, st, e) && NoteOk(cr, st, e.k) && NoteOk(cr, st, note.secretKey);
    assert CommitmentLaw(cr, note.secretKey, e.k);
    assert SameContents(e.opening, o);
    assert e.k == note.secretKey && e.i == note.index;
  }

  /** The refund totals of neighbouring indices differ by at most C_MAX. */
  lemma NextTotal(cr: Params, st: State, note: NoteFile)
    requires FileOk(cr, st, note) && note.index < |st.notes[note.secretKey].outcomes|
    ensures var outcomes := st.notes[note.secretKey].outcomes;
            note.refunds <= RefundTotal(cr.cMax, outcomes[..note.index + 1]) <= note.refunds + cr.cMax
  {
    var outcomes := st.notes[note.secretKey].outcomes;
    assert outcomes[..note.index + 1] == outcomes[..note.index] + [outcomes[note.index]];
    RefundAppend(cr.cMax, outcomes[..note.index], outcomes[note.index]);
  }

  /**
   * An answer receive accepts leaves a good file exactly when its refund is
   * one the protocol allows. Binding is asked of allowed refunds only.
   */
  lemma AcceptedFile(cr: Params, st: State, note: NoteFile, refund: int, accumulator: Point)
    requires Ideal(cr) && Invariant(cr, st) && FileOk(cr, st, note) && note.pending.Some?
    requires Receive(cr, note, refund, accumulator, IsSigned(st, accumulator)).Some?
    requires 0 <= refund <= cr.cMax ==> Binds(cr, st, NextOpening(cr, note, note.pending.value.rerandomizer, refund))
    ensures FileOk(cr, st, Receive(cr, note, refund, accumulator, IsSigned(st, accumulator)).value) <==> 0 <= refund <= cr.cMax
  {
    if 0 <= refund <= cr.cMax {
      ExpectedOpens(cr, note, note.pending.value.rerandomizer, refund);
      SignedIsNext(cr, st, note, note.pending.value.rerandomizer, refund);
      NextFile(cr, st, note, refund);
    } else if note.index < |st.notes[note.secretKey].outcomes| {
      NextTotal(cr, st, note);
    }
  }

  lemma NextFile(cr: Params, st: State, note: NoteFile, refund: nat)
    requires FileOk(cr, st, note) && note.pending.Some? && note.index < |st.notes[note.secretKey].outcomes|
    requires RefundTotal(cr.cMax, st.notes[note.secretKey].outcomes[..note.index + 1]) == note.refunds + refund
    requires IsSigned(st, cr.commit(NextOpening(cr, note, note.pending.value.rerandomizer, refund)))
    ensures FileOk(cr, st, Folded(cr, note, refund))
  {
    assert OpeningOf(cr, WitnessOf(Folded(cr, note, refund)))
        == NextOpening(cr, note, note.pending.value.rerandomizer, refund);
  }

  lemma AcceptSignals(cr: Params, h: Honest, refund: int, accumulator: Point)
    requires SignalsOk(cr, h)
    ensures SignalsOk(cr, AfterAccept(cr, h, refund, accumulator))
  {}

  lemma AcceptKeepsFile(cr: Params, h: Honest, refund: int, accumulator: Point)
    requires Ideal(cr) && HonestOk(cr, h) && FairAnswer(cr, h.st, h.note, refund)
    ensures FileOk(cr, AfterAccept(cr, h, refund, accumulator).st, AfterAccept(cr, h, refund, accumulator).note)
  {
    if Receive(cr, h.note, refund, accumulator, IsSigned(h.st, accumulator)).Some? {
      AcceptedFile(cr, h.st, h.note, refund, accumulator);
    }
  }

  // ---- withdrawing ----

  lemma WithdrawSignals(cr: Params, h: Honest, claimed: Option<nat>, x: int)
    requires SignalsOk(cr, h) && MoveAllowed(cr, h, Withdraw(claimed, x))
    ensures SignalsOk(cr, AfterWithdraw(cr, h, claimed, x))
  {}

  // ---- everyone else ----

  /** What the world's actions leave of key k's own history. */
  ghost predicate KeyUntouched(st: State, st': State, k: int) {
    && k in st.notes && k in st'.notes && st'.notes[k].used == st.notes[k].used
    && (k in st'.exits <==> k in st.exits)
    && (k in st.exits ==> st'.exits[k] == st.exits[k])
    && (forall i, x :: Presented(k, i, x) in st'.presented ==> Presented(k, i, x) in st.presented)
  }

  lemma OtherActions(cr: Params, st: State, a: Action, k: int)
    requires k in st.notes && Enabled(cr, st, a)
    requires a.Submit? ==> a.w.k != k
    requires a.InitiateWithdrawal? ==> a.w.k != k
    ensures KeyUntouched(st, Apply(cr, st, a), k)
  {}

  /** A replay of something the client emitted leaves the history of its key as the client knows it. */
  ghost predicate KeyReplayed(st: State, st': State, k: int, used: nat, i: nat, x: int) {
    && k in st'.notes && st'.notes[k].used <= used
    && st'.exits == st.exits && st'.presented == st.presented + {Presented(k, i, x)}
  }

  lemma OwnSubmit(cr: Params, st: State, used: nat, id: nat, w: Witness, rerandomizer: nat, x: int, now: int)
    requires Ideal(cr) && Invariant(cr, st) && CanSubmit(cr, st, id, w, x)
    requires st.notes[w.k].used <= used && w.index < used
    ensures KeyReplayed(st, ApplySubmit(cr, st, id, w, rerandomizer, x, now), w.k, used, w.index, x)
  {
    if Nullifier(cr, w.k, w.index) !in st.server.nullifiers {
      FreshIndexIsNext(cr, st, w);
      assert st.notes[w.k].used + 1 <= used;
    }
    SubmitReplays(cr, st, used, id, w, rerandomizer, x, now);
  }

  lemma SubmitReplays(cr: Params, st: State, used: nat, id: nat, w: Witness, rerandomizer: nat, x: int, now: int)
    requires w.k in st.notes && st.notes[w.k].used <= used
    requires Nullifier(cr, w.k, w.index) !in st.server.nullifiers ==> st.notes[w.k].used + 1 <= used
    ensures KeyReplayed(st, ApplySubmit(cr, st, id, w, rerandomizer, x, now), w.k, used, w.index, x)
  {}

  lemma ReplayStaysOk(cr: Params, h: Honest, st': State, i: nat, x: int)
    requires EmittedOk(cr, h) && PresentedOk(cr, h) && KeyReplayed(h.st, st', h.note.secretKey, Used(h.note), i, x)
    requires i in h.emitted && h.emitted[i] == x
    ensures EmittedOk(cr, h.(st := st')) && PresentedOk(cr, h.(st := st'))
  {}

  lemma OwnWithdrawal(cr: Params, h: Honest, w: Witness, n: nat, x: int)
    requires EmittedOk(cr, h) && PresentedOk(cr, h) && CanWithdraw(cr, h.st, w, n, x)
    requires w.k == h.note.secretKey && h.shown == Some(Shown(n, x))
    ensures var h' := h.(st := ApplyWithdrawal(cr, h.st, w, n, x));
            EmittedOk(cr, h') && PresentedOk(cr, h')
  {}

  lemma WorldSignals(cr: Params, h: Honest, a: Action)
    requires Ideal(cr) && SignalsOk(cr, h) && WithoutKey(h, a)
    ensures SignalsOk(cr, h.(st := Apply(cr, h.st, a)))
  {
    StepKeeps(cr, h.st, a);
    if Enabled(cr, h.st, a) {
      if a.Submit? && a.w.k == h.note.secretKey {
        OwnSubmit(cr, h.st, Used(h.note), a.id, a.w, a.rerandomizer, a.x, a.now);
        ReplayStaysOk(cr, h, Apply(cr, h.st, a), a.w.index, a.x);
      } else if a.InitiateWithdrawal? && a.w.k == h.note.secretKey {
        OwnWithdrawal(cr, h, a.w, a.n, a.x);
      } else {
        OtherActions(cr, h.st, a, h.note.secretKey);
      }
    }
  }

  lemma MoveKeepsSignals(cr: Params, h: Honest, move: Move)
    requires Ideal(cr) && SignalsOk(cr, h)
    ensures SignalsOk(cr, Moved(cr, h, move))
  {
    if MoveAllowed(cr, h, move) {
      match move
      case Prove(x, rerandomizer) => ProveSignals(cr, h, x, rerandomizer);
      case Accept(refund, accumulator) => AcceptSignals(cr, h, refund, accumulator);
      case Withdraw(claimed, x) => WithdrawSignals(cr, h, claimed, x);
      case World(a) => WorldSignals(cr, h, a);
    }
  }

  lemma MoveKeepsFile(cr: Params, h: Honest, move: Move)
    requires Ideal(cr) && HonestOk(cr, h) && (move.Accept? ==> FairAnswer(cr, h.st, h.note, move.refund))
    ensures FileOk(cr, Moved(cr, h, move).st, Moved(cr, h, move).note)
  {
    if MoveAllowed(cr, h, move) {
      match move
      case Prove(x, rerandomizer) =>
        if ProveRequest(cr, h.st, h.note, x, rerandomizer).Some? { ProvedFile(cr, h.st, h.note, x, rerandomizer); }
      case Accept(refund, accumulator) => AcceptKeepsFile(cr, h, refund, accumulator);
      case Withdraw(_, _) =>
      case World(a) =>
        StepKeeps(cr, h.st, a);
        FileStays(cr, h.st, Apply(cr, h.st, a), h.note);
    }
  }

  /** What was emitted at an index is never replaced, and neither is the exit that was shown. */
  ghost predicate EmittedGrows(h: Honest, h': Honest) {
    MapGrows(h.emitted, h'.emitted) && (h.shown.Some? ==> h'.shown == h.shown)
  }

  /** A new request is at an index that emitted nothing yet. */
  lemma MoveKeepsEmitted(cr: Params, h: Honest, move: Move)
    requires EmittedOk(cr, h)
    ensures EmittedGrows(h, Moved(cr, h, move))
  {}

  /** Whatever the answers carry, a run keeps every signal it emitted and emits no second one at an index. */
  lemma {:induction false} SignalsRunKeeps(cr: Params, h: Honest, moves: seq<Move>)
    requires Ideal(cr) && SignalsOk(cr, h)
    ensures SignalsOk(cr, MovedAll(cr, h, moves)) && EmittedGrows(h, MovedAll(cr, h, moves))
    decreases |moves|
  {
    if moves != [] {
      MoveKeepsSignals(cr, h, moves[0]);
      MoveKeepsEmitted(cr, h, moves[0]);
      SignalsRunKeeps(cr, Moved(cr, h, moves[0]), moves[1..]);
    }
  }

  /** With fair answers it keeps the file good as well. */
  lemma {:induction false} HonestRunKeeps(cr: Params, h: Honest, moves: seq<Move>)
    requires Ideal(cr) && HonestOk(cr, h) && FairRun(cr, h, moves)
    ensures HonestOk(cr, MovedAll(cr, h, moves)) && EmittedGrows(h, MovedAll(cr, h, moves))
    decreases |moves|
  {
    if moves != [] {
      MoveKeepsSignals(cr, h, moves[0]);
      MoveKeepsFile(cr, h, moves[0]);
      MoveKeepsEmitted(cr, h, moves[0]);
      HonestRunKeeps(cr, Moved(cr, h, moves[0]), moves[1..]);
    }
  }

  /** A client that has just deposited, in any reachable world. */
  ghost predicate JustDeposited(cr: Params, actions: seq<Action>, k: int) {
    var st := Run(cr, actions);
    && k in st.notes && st.notes[k].used == 0 && k !in st.exits
    && forall i, x :: Presented(k, i, x) !in st.presented
  }

  ghost function Start(cr: Params, actions: seq<Action>, k: int): Honest {
    Honest(Run(cr, actions), NewNote(k), map[], None)
  }

  lemma StartOk(cr: Params, actions: seq<Action>, k: int)
    requires Ideal(cr) && JustDeposited(cr, actions, k)
    ensures HonestOk(cr, Start(cr, actions, k))
  {
    ReachableInv(cr, actions);
    assert NoteOk(cr, Run(cr, actions), k);
  }

  // ---- the promises to an honest client ----

  /** Over any run with at most one exit, covering every used index, the note is never slashed, whatever answers were accepted. */
  lemma HonestNeverSlashed(cr: Params, actions: seq<Action>, k: int, moves: seq<Move>)
    requires Ideal(cr) && JustDeposited(cr, actions, k)
    ensures k !in MovedAll(cr, Start(cr, actions, k), moves).st.server.slashed
  {
    StartOk(cr, actions, k);
    SignalsRunKeeps(cr, Start(cr, actions, k), moves);
    KeyStays(cr, Start(cr, actions, k), moves);
    SingleSigned(cr, MovedAll(cr, Start(cr, actions, k), moves));
  }

  lemma SingleSigned(cr: Params, h: Honest)
    requires SignalsOk(cr, h)
    ensures !DoubleSigned(h.st, h.note.secretKey) && h.note.secretKey !in h.st.server.slashed
  {
    assert h.note.secretKey in h.st.server.slashed ==> DoubleSigned(h.st, h.note.secretKey);
  }

  /** The client let out the signal at i with this x, in a request or in its exit. */
  ghost predicate LetOut(h: Honest, i: nat, x: int) {
    (i in h.emitted && h.emitted[i] == x) || h.shown == Some(Shown(i, x))
  }

  lemma LetOutOnce(cr: Params, h: Honest, i: nat, x: int, j: nat, x': int)
    requires EmittedOk(cr, h) && PresentedOk(cr, h) && LetOut(h, i, x) && LetOut(h, j, x')
    ensures 0 <= x < cr.p && 0 <= x' < cr.p && (x != x' ==> i != j)
  {}

  /**
   * Any two signals an honest client let out, over any run: they give up its
   * key exactly when their x differ and (a_i - a_j) x x' is 0 modulo p. Slopes
   * below p and x other than 0 rule that out.
   */
  lemma HonestSignalsHide(cr: Params, actions: seq<Action>, k: int, moves: seq<Move>, i: nat, x: int, j: nat, x': int)
    requires Ideal(cr) && JustDeposited(cr, actions, k) && i < INDEX_BOUND && j < INDEX_BOUND
    requires var h := MovedAll(cr, Start(cr, actions, k), moves);
             LetOut(h, i, x) && LetOut(h, j, x')
    ensures var revealed := Recover(cr.p, SignalAt(cr, k, i, x), SignalAt(cr, k, j, x')) == Some(k);
            && (revealed <==> x != x' && Cong(cr.p, (cr.hash2(k, i) - cr.hash2(k, j)) * (x * x'), 0))
            && (cr.hash2(k, i) < cr.p && cr.hash2(k, j) < cr.p && x != 0 && x' != 0 ==> !revealed)
  {
    var h := MovedAll(cr, Start(cr, actions, k), moves);
    StartOk(cr, actions, k);
    SignalsRunKeeps(cr, Start(cr, actions, k), moves);
    LetOutOnce(cr, h, i, x, j, x');
    KeysHold(cr, Run(cr, actions), k);
    SignalsHide(cr, k, i, x, j, x');
  }

  lemma SignalsHide(cr: Params, k: int, i: nat, x: int, j: nat, x': int)
    requires Ideal(cr) && k in cr.keys && i < INDEX_BOUND && j < INDEX_BOUND
    requires 0 <= x < cr.p && 0 <= x' < cr.p && (x != x' ==> i != j)
    ensures var revealed := Recover(cr.p, SignalAt(cr, k, i, x), SignalAt(cr, k, j, x')) == Some(k);
            && (revealed <==> x != x' && Cong(cr.p, (cr.hash2(k, i) - cr.hash2(k, j)) * (x * x'), 0))
            && (cr.hash2(k, i) < cr.p && cr.hash2(k, j) < cr.p && x != 0 && x' != 0 ==> !revealed)
  {
    if x == x' {
      RecoveryFailsOnSharedX(cr.p, SignalAt(cr, k, i, x), SignalAt(cr, k, j, x'));
    } else {
      RevealsAcrossIndices(cr, k, i, j, x, x');
      if cr.hash2(k, i) < cr.p && cr.hash2(k, j) < cr.p && x != 0 && x' != 0 { IndicesHideKey(cr, k, i, j, x, x'); }
    }
  }

  lemma {:induction false} KeyStays(cr: Params, h: Honest, moves: seq<Move>)
    ensures MovedAll(cr, h, moves).note.secretKey == h.note.secretKey
    decreases |moves|
  {
    if moves != [] { KeyStays(cr, Moved(cr, h, moves[0]), moves[1..]); }
  }

  /** A claim repeats a used nullifier with another x exactly when it leaves out a used index. */
  lemma UnderclaimRevealsKey(cr: Params, h: Honest, claimed: Option<nat>, x: int)
    requires Ideal(cr) && SignalsOk(cr, h) && cr.exitX(x) && Used(h.note) <= INDEX_BOUND
    requires ProveWithdrawal(cr, h.st, h.note, claimed, x).Some?
    ensures var exit := ProveWithdrawal(cr, h.st, h.note, claimed, x).value;
            (exists i :: i in h.emitted && Nullifier(cr, h.note.secretKey, i) == exit.nullifier && h.emitted[i] != exit.signal.x)
            <==> claimed.Some? && claimed.value < Used(h.note)
  {
    var exit := ProveWithdrawal(cr, h.st, h.note, claimed, x).value;
    var k := h.note.secretKey;
    assert NoteOk(cr, h.st, k);
    forall i | i in h.emitted && Nullifier(cr, k, i) == exit.nullifier ensures i == exit.n {
      assert NullifierLaw(cr, k, i, k, exit.n);
    }
    if exit.n in h.emitted { assert Nullifier(cr, k, exit.n) == exit.nullifier; }
  }

  /**
   * A request proved after an exit was shown, with the exit not mined, is at
   * the exit's index exactly when the claim was that index; the two signals
   * then give up the key.
   */
  lemma RequestAfterShownExit(cr: Params, st: State, note: NoteFile, claimed: Option<nat>, x: int, x': int, rerandomizer: nat)
    requires Ideal(cr) && NotesOk(cr, st) && note.pending.None? && 0 <= x < cr.p && 0 <= x' < cr.p && x != x'
    requires ProveWithdrawal(cr, st, note, claimed, x).Some? && ProveRequest(cr, st, note, x', rerandomizer).Some?
    ensures var exit, body := ProveWithdrawal(cr, st, note, claimed, x).value, ProveRequest(cr, st, note, x', rerandomizer).value.0;
            && (exit.nullifier == body.nullifier <==> claimed.None? || claimed.value == note.index)
            && (exit.nullifier == body.nullifier ==> Recover(cr.p, exit.signal, body.signal) == Some(note.secretKey))
  {
    var exit := ProveWithdrawal(cr, st, note, claimed, x).value;
    KeysHold(cr, st, note.secretKey);
    assert NullifierLaw(cr, note.secretKey, exit.n, note.secretKey, note.index);
    if exit.n == note.index { DoubleSignalReveals(cr, note.secretKey, note.index, x, x'); }
  }

  /** A pending request is proved again as it was, whatever payload and randomness come with the retry. */
  lemma RetryIsSameRequest(cr: Params, st: State, note: NoteFile, x: int, rerandomizer: nat, st': State, x': int, rerandomizer': nat)
    requires ProveRequest(cr, st, note, x, rerandomizer).Some?
    ensures var (body, pending) := ProveRequest(cr, st, note, x, rerandomizer).value;
            ProveRequest(cr, st', pending, x', rerandomizer') == Some((body, pending))
  {}

  const COST_BOUND := 0x1_00000000_00000000_00000000

  lemma RangeOf(c: nat, index: nat)
    requires c < COST_BOUND && index <= INDEX_BOUND
    ensures index * c < AMOUNT_BOUND
  {
    assert index * c <= INDEX_BOUND * c;
    assert INDEX_BOUND * c < INDEX_BOUND * COST_BOUND;
  }

  /**
   * The client can always prove its exit, and the contract accepts its payout:
   * every operand fits the circuit's ranges and the payout lies in [0, D].
   */
  lemma HonestCanExit(cr: Params, h: Honest, x: int)
    requires Ideal(cr) && HonestOk(cr, h) && cr.cMax < COST_BOUND && Used(h.note) < INDEX_BOUND
    ensures var exit := ProveWithdrawal(cr, h.st, h.note, None, x);
            && exit.Some? && exit.value.n == Used(h.note)
            && exit.value.payout == h.st.notes[h.note.secretKey].deposit + h.note.refunds - Used(h.note) * cr.cMax
            && 0 <= exit.value.payout <= h.st.notes[h.note.secretKey].deposit
    ensures 0 <= h.note.refunds < AMOUNT_BOUND && h.st.notes[h.note.secretKey].deposit < AMOUNT_BOUND
    ensures var exit, deposit := ProveWithdrawal(cr, h.st, h.note, None, x), h.st.notes[h.note.secretKey].deposit;
            Circuits.TWO_162 < cr.p ==>
              && Circuits.PayoutConstraint(cr.p, deposit, h.note.refunds, cr.cMax, Used(h.note))
              && Circuits.PayoutSignal(cr.p, deposit, h.note.refunds, cr.cMax, Used(h.note)) == exit.value.payout
  {
    assert NoteOk(cr, h.st, h.note.secretKey);
    RefundRange(cr, h.st, h.note);
    if Circuits.TWO_162 < cr.p {
      Circuits.PayoutIsInteger(cr.p, h.st.notes[h.note.secretKey].deposit, h.note.refunds, cr.cMax, Used(h.note));
    }
    assert SettlementRelation(cr, h.st, WitnessOf(h.note), Used(h.note));
  }

  /** The refunds never exceed what the used indices could have cost. */
  lemma RefundRange(cr: Params, st: State, note: NoteFile)
    requires FileOk(cr, st, note) && cr.cMax < COST_BOUND
    ensures 0 <= note.refunds < AMOUNT_BOUND && note.refunds <= Used(note) * cr.cMax
  {
    var outcomes := st.notes[note.secretKey].outcomes[..note.index];
    RefundsAndCharges(cr.cMax, outcomes);
    RangeOf(cr.cMax, note.index);
    MoreIndices(cr.cMax, note.index, Used(note));
  }

  lemma MoreIndices(c: nat, m: nat, n: nat)
    requires m <= n
    ensures m * c <= n * c
  {
    assert (n - m) * c >= 0;
  }

  /** A good file with nothing pending can prove a request exactly when its deposit and refunds pay for one more. */
  lemma HonestCanRequest(cr: Params, h: Honest, x: int, rerandomizer: nat)
    requires Ideal(cr) && HonestOk(cr, h) && cr.cMax < COST_BOUND && h.note.pending.None?
    ensures ProveRequest(cr, h.st, h.note, x, rerandomizer).Some? <==>
              h.note.index < INDEX_BOUND
              && (h.note.index + 1) * cr.cMax <= h.st.notes[h.note.secretKey].deposit + h.note.refunds
  {
    RefundRange(cr, h.st, h.note);
  }

  /** It can prove an exit for exactly the claims that cover its accumulator and leave a payout. */
  lemma HonestClaims(cr: Params, h: Honest, claimed: nat, x: int)
    requires Ideal(cr) && HonestOk(cr, h) && cr.cMax < COST_BOUND && h.note.index < INDEX_BOUND
    ensures ProveWithdrawal(cr, h.st, h.note, Some(claimed), x).Some? <==>
              h.note.index <= claimed < INDEX_BOUND
              && h.st.notes[h.note.secretKey].deposit + h.note.refunds - claimed * cr.cMax >= 0
  {
    RefundRange(cr, h.st, h.note);
  }

  /** With nothing pending, the exit pays the deposit less exactly what the answered requests cost. */
  lemma HonestPaysItsCosts(cr: Params, h: Honest, x: int)
    requires Ideal(cr) && HonestOk(cr, h) && cr.cMax < COST_BOUND && Used(h.note) < INDEX_BOUND
    requires h.note.pending.None?
    ensures var exit := ProveWithdrawal(cr, h.st, h.note, None, x);
            var history := h.st.notes[h.note.secretKey];
            exit.Some? && exit.value.payout == history.deposit - ChargeTotal(cr.cMax, history.outcomes)
  {
    var history := h.st.notes[h.note.secretKey];
    HonestCanExit(cr, h, x);
    assert NoteOk(cr, h.st, h.note.secretKey);
    assert history.outcomes[..h.note.index] == history.outcomes;
    RefundsAndCharges(cr.cMax, history.outcomes);
  }
}
