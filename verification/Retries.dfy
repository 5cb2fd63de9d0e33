/** A client that lost its answer gets it back. */
module Retries {
  import opened Slashing
  import opened GatewayState
  import opened Protocol
  import opened ProtocolInvariant
  import opened ProtocolSteps

  /** The signed answer under n is kept until expiry, and no handler is left that could replace it. */
  ghost predicate KeptUntil(st: State, n: Key, s: Signal, response: Response, expiry: int) {
    && n in st.server.nullifiers && st.server.nullifiers[n] == s
    && n in st.server.responses && st.server.responses[n] == CachedResponse(s, response, expiry)
    && forall id :: id in st.handlers ==> st.handlers[id].nullifier != n
  }

  /** Neither a restart nor a cleanup at expiry or later. */
  predicate Spares(a: Action, expiry: int) {
    match a
    case Restart => false
    case Cleanup(now) => now < expiry
    case _ => true
  }

  lemma AnsweredIsKept(cr: Params, st: State, id: nat, now: int)
    requires HandlersOk(cr, st) && id in st.handlers && st.handlers[id].phase.Signed?
    ensures var h := st.handlers[id];
            KeptUntil(ApplyAnswer(st, id, now), h.nullifier, h.signal, h.phase.response, now + 600000)
    ensures var h := st.handlers[id];
            ApplyAnswer(st, id, now).replies == st.replies + [Reply(h.nullifier, h.signal, h.phase.response)]
  {
    assert HandlerOk(cr, st, st.handlers[id]);
  }

  lemma SubmitSpares(cr: Params, st: State, id: nat, w: Witness, rerandomizer: nat, x: int, now: int, n: Key, s: Signal, response: Response, expiry: int)
    requires w.k in st.notes && KeptUntil(st, n, s, response, expiry)
    ensures KeptUntil(ApplySubmit(cr, st, id, w, rerandomizer, x, now), n, s, response, expiry)
  {}

  /** Every other action leaves the kept answer alone. */
  lemma StepSpares(cr: Params, st: State, a: Action, n: Key, s: Signal, response: Response, expiry: int)
    requires KeptUntil(st, n, s, response, expiry) && Spares(a, expiry)
    ensures KeptUntil(Apply(cr, st, a), n, s, response, expiry)
  {
    if Enabled(cr, st, a) && a.Submit? {
      SubmitSpares(cr, st, a.id, a.w, a.rerandomizer, a.x, a.now, n, s, response, expiry);
    }
  }

  lemma {:induction false} RunSpares(cr: Params, st: State, actions: seq<Action>, n: Key, s: Signal, response: Response, expiry: int)
    requires KeptUntil(st, n, s, response, expiry) && forall a :: a in actions ==> Spares(a, expiry)
    ensures KeptUntil(RunFrom(cr, st, actions), n, s, response, expiry)
    decreases |actions|
  {
    if actions != [] {
      StepSpares(cr, st, actions[0], n, s, response, expiry);
      RunSpares(cr, Apply(cr, st, actions[0]), actions[1..], n, s, response, expiry);
    }
  }

  /** The retry's signal is the stored one: x is the same, and the line through it is the note's own. */
  lemma SameLine(cr: Params, st: State, w: Witness, x: int)
    requires Ideal(cr) && EntriesOk(cr, st) && NotesOk(cr, st) && w.k in st.notes && w.index < INDEX_BOUND
    requires Nullifier(cr, w.k, w.index) in st.server.nullifiers
    requires st.server.nullifiers[Nullifier(cr, w.k, w.index)].x == x
    ensures SignalAt(cr, w.k, w.index, x) == st.server.nullifiers[Nullifier(cr, w.k, w.index)]
  {
    KeysHold(cr, st, w.k);
    OwnerIs(cr, st, w.k, w.index);
  }

  lemma KeptIsReplied(cr: Params, st: State, id: nat, w: Witness, rerandomizer: nat, x: int, now: int, s: Signal, response: Response, expiry: int)
    requires Ideal(cr) && EntriesOk(cr, st) && NotesOk(cr, st) && CanSubmit(cr, st, id, w, x) && x == s.x
    requires KeptUntil(st, Nullifier(cr, w.k, w.index), s, response, expiry)
    ensures ApplySubmit(cr, st, id, w, rerandomizer, x, now).replies
         == st.replies + if now < expiry then [Reply(Nullifier(cr, w.k, w.index), s, response)] else []
  {
    SameLine(cr, st, w, x);
  }

  /** The state after handler id answers at kept and the world goes on. */
  ghost function Later(cr: Params, st: State, id: nat, kept: int, between: seq<Action>): State {
    RunFrom(cr, Apply(cr, st, Answer(id, kept)), between)
  }

  lemma KeptLater(cr: Params, st: State, id: nat, kept: int, between: seq<Action>)
    requires Ideal(cr) && Invariant(cr, st) && id in st.handlers && st.handlers[id].phase.Signed?
    requires forall a :: a in between ==> Spares(a, kept + 600000)
    ensures var h, later := st.handlers[id], Later(cr, st, id, kept, between);
            Invariant(cr, later) && KeptUntil(later, h.nullifier, h.signal, h.phase.response, kept + 600000)
  {
    AnswerIsKept(cr, st, id, kept);
    var h := st.handlers[id];
    KeptOn(cr, Apply(cr, st, Answer(id, kept)), between, h.nullifier, h.signal, h.phase.response, kept + 600000);
  }

  lemma AnswerIsKept(cr: Params, st: State, id: nat, kept: int)
    requires Ideal(cr) && Invariant(cr, st) && id in st.handlers && st.handlers[id].phase.Signed?
    ensures var h, answered := st.handlers[id], Apply(cr, st, Answer(id, kept));
            Invariant(cr, answered) && KeptUntil(answered, h.nullifier, h.signal, h.phase.response, kept + 600000)
  {
    AnswerApplies(cr, st, id, kept);
    AnsweredIsKept(cr, st, id, kept);
    AnswerKeeps(cr, st, id, kept);
  }

  lemma AnswerApplies(cr: Params, st: State, id: nat, kept: int)
    requires id in st.handlers && st.handlers[id].phase.Signed?
    ensures Apply(cr, st, Answer(id, kept)) == ApplyAnswer(st, id, kept)
  {}

  lemma KeptOn(cr: Params, st: State, actions: seq<Action>, n: Key, s: Signal, response: Response, expiry: int)
    requires Ideal(cr) && Invariant(cr, st) && KeptUntil(st, n, s, response, expiry)
    requires forall a :: a in actions ==> Spares(a, expiry)
    ensures Invariant(cr, RunFrom(cr, st, actions)) && KeptUntil(RunFrom(cr, st, actions), n, s, response, expiry)
  {
    RunSpares(cr, st, actions, n, s, response, expiry);
    RunFromKeeps(cr, st, actions);
  }

  /**
   * Whatever happens after an answer, save a restart or a cleanup ten minutes
   * on, a retry of the same nullifier and x within those ten minutes gets that
   * very answer, and a later one gets none.
   */
  lemma LostAnswerComesBack(cr: Params, before: seq<Action>, id: nat, kept: int, between: seq<Action>,
                            id': nat, w: Witness, rerandomizer: nat, x: int, now: int)
    requires Ideal(cr) && id in Run(cr, before).handlers && Run(cr, before).handlers[id].phase.Signed?
    requires forall a :: a in between ==> Spares(a, kept + 600000)
    requires CanSubmit(cr, Later(cr, Run(cr, before), id, kept, between), id', w, x)
    requires var h := Run(cr, before).handlers[id]; Nullifier(cr, w.k, w.index) == h.nullifier && x == h.signal.x
    ensures var h, st := Run(cr, before).handlers[id], Later(cr, Run(cr, before), id, kept, between);
            ApplySubmit(cr, st, id', w, rerandomizer, x, now).replies
            == st.replies + if now < kept + 600000 then [Reply(h.nullifier, h.signal, h.phase.response)] else []
  {
    var h := Run(cr, before).handlers[id];
    ReachableInv(cr, before);
    KeptLater(cr, Run(cr, before), id, kept, between);
    KeptIsReplied(cr, Later(cr, Run(cr, before), id, kept, between), id', w, rerandomizer, x, now,
                  h.signal, h.phase.response, kept + 600000);
  }

  /** A restart forgets the kept answers and no nullifier: a retry after it is refused, and a handler it stopped never answers. */
  lemma RestartForgets(cr: Params, st: State, id: nat, w: Witness, rerandomizer: nat, x: int, now: int)
    requires CanSubmit(cr, st, id, w, x) && Nullifier(cr, w.k, w.index) in st.server.nullifiers
    ensures var restarted := Apply(cr, st, Restart);
            && restarted.handlers == map[] && restarted.server.nullifiers == st.server.nullifiers
            && ApplySubmit(cr, restarted, id, w, rerandomizer, x, now).replies == st.replies
            && ApplySubmit(cr, restarted, id, w, rerandomizer, x, now).handlers == map[]
  {}
}
