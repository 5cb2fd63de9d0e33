/** What every action of the protocol keeps. */
module ProtocolInvariant {
  import opened Accumulator
  import opened GatewayState
  import opened Protocol

  // ---- totals over the answered requests of a note ----

  function RefundTotal(cMax: nat, outcomes: seq<Outcome>): nat {
    if outcomes == [] then 0
    else RefundTotal(cMax, outcomes[..|outcomes| - 1]) + Refund(cMax, outcomes[|outcomes| - 1])
  }

  function ChargeTotal(cMax: nat, outcomes: seq<Outcome>): nat {
    if outcomes == [] then 0
    else ChargeTotal(cMax, outcomes[..|outcomes| - 1]) + Charge(cMax, outcomes[|outcomes| - 1])
  }

  lemma {:induction false} RefundsAndCharges(cMax: nat, outcomes: seq<Outcome>)
    ensures RefundTotal(cMax, outcomes) + ChargeTotal(cMax, outcomes) == |outcomes| * cMax
  {
    if outcomes != [] {
      RefundsAndCharges(cMax, outcomes[..|outcomes| - 1]);
      assert |outcomes| * cMax == (|outcomes| - 1) * cMax + cMax;
    }
  }

  lemma {:induction false} RefundPrefix(cMax: nat, outcomes: seq<Outcome>, m: nat)
    requires m <= |outcomes|
    ensures RefundTotal(cMax, outcomes[..m]) <= RefundTotal(cMax, outcomes)
    decreases |outcomes|
  {
    if m == |outcomes| {
      assert outcomes[..m] == outcomes;
    } else {
      RefundPrefix(cMax, outcomes[..|outcomes| - 1], m);
      assert outcomes[..|outcomes| - 1][..m] == outcomes[..m];
    }
  }

  lemma RefundAppend(cMax: nat, outcomes: seq<Outcome>, last: Outcome)
    ensures RefundTotal(cMax, outcomes + [last]) == RefundTotal(cMax, outcomes) + Refund(cMax, last)
  {
    assert (outcomes + [last])[..|outcomes|] == outcomes;
  }

  // ---- the invariant, one predicate per kind of thing ----

  ghost predicate RequestedAt(cr: Params, st: State, k: int, i: nat) {
    var n := Nullifier(cr, k, i);
    n in st.owner && st.owner[n] == Owner(k, i, false)
  }

  /** A stored signal lies on the line of its note and index; its x tells whether an exit put it there. */
  ghost predicate EntryOk(cr: Params, st: State, n: Key) {
    && n in st.owner && n in st.server.nullifiers
    && var o, s := st.owner[n], st.server.nullifiers[n];
    && n == Nullifier(cr, o.k, o.i) && o.k in cr.keys && o.k in st.notes && o.i < INDEX_BOUND
    && s == SignalAt(cr, o.k, o.i, s.x) && 0 <= s.x < cr.p && cr.exitX(s.x) == o.byExit
    && Presented(o.k, o.i, s.x) in st.presented
    && (if o.byExit
        then o.k in st.ingested && o.k in st.exits && st.exits[o.k].n == o.i && st.exits[o.k].x == s.x
        else o.i < st.notes[o.k].used)
  }

  /** The answer to the note's request at i was signed. */
  ghost predicate AnsweredAt(st: State, k: int, i: nat) {
    exists e :: e in st.signLog && e.k == k && e.i == i
  }

  /** The recorded indices reach used - 1, all but at most the last of them are answered, and the last was solvent. */
  ghost predicate NoteOk(cr: Params, st: State, k: int) {
    && k in st.notes && k in cr.keys
    && var note := st.notes[k];
    && cr.cMax <= note.deposit < AMOUNT_BOUND
    && |note.outcomes| <= note.used <= |note.outcomes| + 1
    && (note.used > 0 ==>
          note.used * cr.cMax <= note.deposit + RefundTotal(cr.cMax, note.outcomes[..note.used - 1]))
    && (forall i: nat :: i < note.used ==> RequestedAt(cr, st, k, i))
    && forall i: nat :: i < |note.outcomes| ==> AnsweredAt(st, k, i)
  }

  ghost predicate SignedAs(st: State, n: Key, response: Response) {
    exists e :: e in st.signLog && e.nullifier == n && e.response == response
  }

  function RunningOpening(cr: Params, outcomes: seq<Outcome>, k: int, blinding: nat): Opening {
    Opening(RefundTotal(cr.cMax, outcomes), |outcomes|, cr.hash1(k), blinding)
  }

  /** A handler that has not signed yet holds the note's last index and its running accumulator. */
  ghost predicate PendingOk(cr: Params, st: State, h: Handler)
    requires h.k in st.notes
  {
    var note := st.notes[h.k];
    && |note.outcomes| == h.i && note.used == h.i + 1 && h.i < INDEX_BOUND
    && h.opening == RunningOpening(cr, note.outcomes, h.k, h.opening.blinding)
    && h.published == cr.commit(h.opening)
    && (h.phase == Recorded <==> h.nullifier !in st.calls)
  }

  ghost predicate HandlerOk(cr: Params, st: State, h: Handler) {
    && h.k in st.notes && h.nullifier == Nullifier(cr, h.k, h.i) && RequestedAt(cr, st, h.k, h.i)
    && h.nullifier in st.server.nullifiers && st.server.nullifiers[h.nullifier] == h.signal
    && if h.phase.Signed? then SignedAs(st, h.nullifier, h.phase.response) else PendingOk(cr, st, h)
  }

  ghost predicate HandlersDistinct(st: State) {
    forall a, b :: a in st.handlers && b in st.handlers && a != b
      ==> st.handlers[a].nullifier != st.handlers[b].nullifier
  }

  /** What was signed for index i opens to the refunds of the first i + 1 requests. */
  ghost predicate SignOk(cr: Params, st: State, e: SignEvent) {
    && e.k in st.notes && e.i < |st.notes[e.k].outcomes| && e.i < INDEX_BOUND
    && e.nullifier == Nullifier(cr, e.k, e.i)
    && var outcomes := st.notes[e.k].outcomes;
    && e.response.refund == Refund(cr.cMax, outcomes[e.i])
    && e.response.failed == outcomes[e.i].ProviderFailed?
    && e.opening == RunningOpening(cr, outcomes[..e.i + 1], e.k, e.opening.blinding)
    && e.response.accumulator == cr.commit(e.opening)
  }

  ghost predicate SignaturesDistinct(st: State) {
    forall a, b :: 0 <= a < b < |st.signLog| ==> st.signLog[a].nullifier != st.signLog[b].nullifier
  }

  ghost predicate CallsDistinct(st: State) {
    && (forall a, b :: 0 <= a < b < |st.calls| ==> st.calls[a] != st.calls[b])
    && (forall n :: n in st.calls ==> n in st.owner)
  }

  ghost predicate CachedOk(st: State, n: Key) {
    && n in st.server.responses && n in st.server.nullifiers
    && st.server.responses[n].signal == st.server.nullifiers[n]
    && SignedAs(st, n, st.server.responses[n].response)
  }

  ghost predicate ReplyOk(st: State, r: Reply) {
    && r.nullifier in st.server.nullifiers && st.server.nullifiers[r.nullifier] == r.signal
    && SignedAs(st, r.nullifier, r.response)
  }

  /** An exit pays D + R - n C_MAX for some earlier accumulator of the note. */
  ghost predicate ExitOk(cr: Params, st: State, k: int) {
    && k in st.exits && k in st.notes && k in cr.keys
    && var e := st.exits[k];
    && e.index <= e.n < INDEX_BOUND && e.index <= |st.notes[k].outcomes|
    && e.refunds == RefundTotal(cr.cMax, st.notes[k].outcomes[..e.index])
    && e.payout == st.notes[k].deposit + e.refunds - e.n * cr.cMax
    && 0 <= e.payout <= st.notes[k].deposit
    && 0 <= e.x < cr.p && cr.exitX(e.x) && Presented(k, e.n, e.x) in st.presented
  }

  ghost predicate SlashedIfEnabled(cr: Params, st: State, k: int) {
    cr.slashingEnabled ==> k in st.server.slashed
  }

  ghost predicate IngestedOk(cr: Params, st: State, k: int) {
    && k in st.exits
    && var n := Nullifier(cr, k, st.exits[k].n);
    && n in st.owner
    && (st.owner[n] == Owner(k, st.exits[k].n, true) || SlashedIfEnabled(cr, st, k))
  }

  ghost predicate DoubleSigned(st: State, k: int) {
    exists i, x, x' :: x != x' && Presented(k, i, x) in st.presented && Presented(k, i, x') in st.presented
  }

  ghost predicate EntriesOk(cr: Params, st: State) {
    st.owner.Keys == st.server.nullifiers.Keys && forall n :: n in st.owner ==> EntryOk(cr, st, n)
  }

  ghost predicate NotesOk(cr: Params, st: State) {
    forall k :: k in st.notes ==> NoteOk(cr, st, k)
  }

  ghost predicate HandlersOk(cr: Params, st: State) {
    HandlersDistinct(st) && forall id :: id in st.handlers ==> HandlerOk(cr, st, st.handlers[id])
  }

  ghost predicate SignaturesOk(cr: Params, st: State) {
    SignaturesDistinct(st) && forall e :: e in st.signLog ==> SignOk(cr, st, e)
  }

  ghost predicate CacheOk(st: State) {
    forall n :: n in st.server.responses ==> CachedOk(st, n)
  }

  ghost predicate RepliesOk(st: State) {
    forall r :: r in st.replies ==> ReplyOk(st, r)
  }

  ghost predicate ExitsOk(cr: Params, st: State) {
    && (forall k :: k in st.exits ==> ExitOk(cr, st, k))
    && (forall k :: k in st.ingested ==> IngestedOk(cr, st, k))
  }

  ghost predicate SlashesOk(st: State) {
    forall k :: k in st.server.slashed ==> DoubleSigned(st, k)
  }

  ghost predicate Invariant(cr: Params, st: State) {
    && EntriesOk(cr, st) && NotesOk(cr, st) && HandlersOk(cr, st) && SignaturesOk(cr, st)
    && CallsDistinct(st) && CacheOk(st) && RepliesOk(st) && ExitsOk(cr, st) && SlashesOk(st)
  }

  // ---- nothing recorded is ever taken back ----

  ghost predicate NoteGrows(note: Note, note': Note) {
    note.deposit == note'.deposit && note.used <= note'.used && note.outcomes <= note'.outcomes
  }

  ghost predicate MapGrows<K(!new), V>(m: map<K, V>, m': map<K, V>) {
    forall k :: k in m ==> k in m' && m'[k] == m[k]
  }

  ghost predicate Grows(st: State, st': State) {
    && MapGrows(st.server.nullifiers, st'.server.nullifiers) && MapGrows(st.owner, st'.owner)
    && (forall k :: k in st.notes ==> k in st'.notes && NoteGrows(st.notes[k], st'.notes[k]))
    && st.signLog <= st'.signLog && st.presented <= st'.presented
    && MapGrows(st.exits, st'.exits) && st.ingested <= st'.ingested
    && st.server.slashed <= st'.server.slashed
  }

  lemma EntryStays(cr: Params, st: State, st': State, n: Key)
    requires Grows(st, st') && EntryOk(cr, st, n)
    ensures EntryOk(cr, st', n)
  {}

  lemma SignedStays(st: State, st': State, n: Key, response: Response)
    requires Grows(st, st') && SignedAs(st, n, response)
    ensures SignedAs(st', n, response)
  {
    var e :| e in st.signLog && e.nullifier == n && e.response == response;
    assert e in st'.signLog;
  }

  lemma SignStays(cr: Params, st: State, st': State, e: SignEvent)
    requires Grows(st, st') && SignOk(cr, st, e)
    ensures SignOk(cr, st', e)
  {
    assert st'.notes[e.k].outcomes[..e.i + 1] == st.notes[e.k].outcomes[..e.i + 1];
  }

  lemma ExitStays(cr: Params, st: State, st': State, k: int)
    requires Grows(st, st') && ExitOk(cr, st, k)
    ensures ExitOk(cr, st', k)
  {
    var m := st.exits[k].index;
    assert st'.notes[k].outcomes[..m] == st.notes[k].outcomes[..m];
  }

  lemma IngestedStays(cr: Params, st: State, st': State, k: int)
    requires Grows(st, st') && IngestedOk(cr, st, k)
    ensures IngestedOk(cr, st', k)
  {}

  lemma DoubleSignedStays(st: State, st': State, k: int)
    requires Grows(st, st') && DoubleSigned(st, k)
    ensures DoubleSigned(st', k)
  {}

  lemma AnsweredStays(st: State, st': State, k: int, i: nat)
    requires Grows(st, st') && AnsweredAt(st, k, i)
    ensures AnsweredAt(st', k, i)
  {
    var e :| e in st.signLog && e.k == k && e.i == i;
    assert e in st'.signLog;
  }

  lemma NoteStays(cr: Params, st: State, st': State, k: int)
    requires Grows(st, st') && NoteOk(cr, st, k) && st'.notes[k] == st.notes[k]
    ensures NoteOk(cr, st', k)
  {
    forall i: nat | i < st.notes[k].used ensures RequestedAt(cr, st', k, i) {
      assert RequestedAt(cr, st, k, i);
    }
    forall i: nat | i < |st.notes[k].outcomes| ensures AnsweredAt(st', k, i) {
      AnsweredStays(st, st', k, i);
    }
  }

  lemma HandlerStays(cr: Params, st: State, st': State, h: Handler)
    requires Grows(st, st') && HandlerOk(cr, st, h)
    requires h.phase.Signed? || (st'.notes[h.k] == st.notes[h.k] && (h.nullifier in st'.calls <==> h.nullifier in st.calls))
    ensures HandlerOk(cr, st', h)
  {
    if h.phase.Signed? { SignedStays(st, st', h.nullifier, h.phase.response); }
  }

  // ---- each part of the invariant survives growth, given what is new ----

  lemma EntriesStay(cr: Params, st: State, st': State)
    requires EntriesOk(cr, st) && Grows(st, st') && st'.owner.Keys == st'.server.nullifiers.Keys
    requires forall n :: n in st'.owner && n !in st.owner ==> EntryOk(cr, st', n)
    ensures EntriesOk(cr, st')
  {
    forall n | n in st'.owner ensures EntryOk(cr, st', n) {
      if n in st.owner { EntryStays(cr, st, st', n); }
    }
  }

  lemma SignaturesStay(cr: Params, st: State, st': State)
    requires SignaturesOk(cr, st) && Grows(st, st') && st'.signLog == st.signLog
    ensures SignaturesOk(cr, st')
  {
    forall e | e in st'.signLog ensures SignOk(cr, st', e) { SignStays(cr, st, st', e); }
  }

  lemma CacheStays(st: State, st': State)
    requires CacheOk(st) && Grows(st, st') && MapGrows(st'.server.responses, st.server.responses)
    ensures CacheOk(st')
  {
    forall n | n in st'.server.responses ensures CachedOk(st', n) {
      assert CachedOk(st, n);
      SignedStays(st, st', n, st.server.responses[n].response);
    }
  }

  lemma RepliesStay(st: State, st': State)
    requires RepliesOk(st) && Grows(st, st')
    requires forall r :: r in st'.replies && r !in st.replies ==> ReplyOk(st', r)
    ensures RepliesOk(st')
  {
    forall r | r in st'.replies ensures ReplyOk(st', r) {
      if r in st.replies { SignedStays(st, st', r.nullifier, r.response); }
    }
  }

  lemma ExitsStay(cr: Params, st: State, st': State)
    requires ExitsOk(cr, st) && Grows(st, st')
    requires forall k :: k in st'.exits && k !in st.exits ==> ExitOk(cr, st', k)
    requires forall k :: k in st'.ingested && k !in st.ingested ==> IngestedOk(cr, st', k)
    ensures ExitsOk(cr, st')
  {
    forall k | k in st'.exits ensures ExitOk(cr, st', k) {
      if k in st.exits { ExitStays(cr, st, st', k); }
    }
    forall k | k in st'.ingested ensures IngestedOk(cr, st', k) {
      if k in st.ingested { IngestedStays(cr, st, st', k); }
    }
  }

  lemma SlashesStay(st: State, st': State)
    requires SlashesOk(st) && Grows(st, st')
    requires forall k :: k in st'.server.slashed && k !in st.server.slashed ==> DoubleSigned(st', k)
    ensures SlashesOk(st')
  {
    forall k | k in st'.server.slashed ensures DoubleSigned(st', k) {
      if k in st.server.slashed { DoubleSignedStays(st, st', k); }
    }
  }

  lemma NotesStay(cr: Params, st: State, st': State)
    requires NotesOk(cr, st) && Grows(st, st') && st'.notes == st.notes
    ensures NotesOk(cr, st')
  {
    forall k | k in st'.notes ensures NoteOk(cr, st', k) { NoteStays(cr, st, st', k); }
  }

  /** Handlers may be lost; those that remain, and the notes and calls they depend on, are as before. */
  lemma HandlersStay(cr: Params, st: State, st': State)
    requires HandlersOk(cr, st) && Grows(st, st') && st'.calls == st.calls
    requires MapGrows(st'.handlers, st.handlers) && MapGrows(st.notes, st'.notes)
    ensures HandlersOk(cr, st')
  {
    forall id | id in st'.handlers ensures HandlerOk(cr, st', st'.handlers[id]) {
      HandlerStays(cr, st, st', st.handlers[id]);
    }
  }

  lemma CallsStay(st: State, st': State)
    requires CallsDistinct(st) && Grows(st, st') && st'.calls == st.calls
    ensures CallsDistinct(st')
  {}
}
