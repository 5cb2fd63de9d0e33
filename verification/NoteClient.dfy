/** The honest client: its note file, and what it proves from it. */
module NoteClient {
  import opened Field
  import opened Edwards
  import opened Slashing
  import opened GatewayState
  import opened Protocol

  /** What a retry needs of a request that has no answer yet. */
  datatype Pending = Pending(rerandomizer: nat, body: Body)

  datatype Body = Body(nullifier: Key, signal: Signal, accumulator: Point)

  /** refunds is an integer: receive adds whatever number a response carries. */
  datatype NoteFile = NoteFile(
    secretKey: int, refunds: int, index: nat, blinding: nat, signed: bool, pending: Option<Pending>)

  datatype Withdrawal = Withdrawal(n: nat, nullifier: Key, signal: Signal, payout: int)

  function NewNote(secretKey: int): NoteFile {
    NoteFile(secretKey, 0, 0, 0, false, None)
  }

  function Used(note: NoteFile): nat {
    note.index + if note.pending.Some? then 1 else 0
  }

  function WitnessOf(note: NoteFile): Witness {
    Witness(note.secretKey, if note.refunds < 0 then 0 else note.refunds, note.index, note.blinding, !note.signed)
  }

  /**
   * While a request is pending, its body again; otherwise a new body for
   * signal x, and None when no proof of it exists.
   */
  ghost function ProveRequest(cr: Params, st: State, note: NoteFile, x: int, rerandomizer: nat): Option<(Body, NoteFile)> {
    match note.pending
    case Some(pending) => Some((pending.body, note))
    case None =>
      var w := WitnessOf(note);
      if note.refunds < 0 || !RequestRelation(cr, st, w) then None
      else
        var body := Body(Nullifier(cr, w.k, w.index), SignalAt(cr, w.k, w.index, x),
                         cr.rerandomize(cr.commit(OpeningOf(cr, w)), rerandomizer));
        Some((body, note.(pending := Some(Pending(rerandomizer, body)))))
  }

  /** A' as the client expects it: mulPoint returns the identity for a negative refund. */
  function ExpectedAccumulator(cr: Params, note: NoteFile, rerandomizer: nat, refund: int): Point {
    cr.applyRefund(cr.rerandomize(cr.commit(OpeningOf(cr, WitnessOf(note))), rerandomizer), if refund < 0 then 0 else refund)
  }

  /** The file moved on to the next opening: (R + v, i + 1, c, s + s'). */
  function Folded(cr: Params, note: NoteFile, refund: int): NoteFile
    requires note.pending.Some?
  {
    note.(refunds := note.refunds + refund, index := note.index + 1,
          blinding := (note.blinding + note.pending.value.rerandomizer) % cr.order, signed := true, pending := None)
  }

  /** Moves on by an answer that adds up and whose signature checks; None where the source throws. */
  function Receive(cr: Params, note: NoteFile, refund: int, accumulator: Point, signatureValid: bool): Option<NoteFile> {
    match note.pending
    case None => None
    case Some(pending) =>
      if ExpectedAccumulator(cr, note, pending.rerandomizer, refund) != accumulator || !signatureValid then None
      else Some(Folded(cr, note, refund))
  }

  /** An exit at the claimed index, by default every used one; None where the source throws. */
  ghost function ProveWithdrawal(cr: Params, st: State, note: NoteFile, claimed: Option<nat>, x: int): Option<Withdrawal> {
    var n := match claimed case Some(c) => c case None => Used(note);
    var w := WitnessOf(note);
    if n < note.index || note.refunds < 0 || !SettlementRelation(cr, st, w, n) then None
    else Some(Withdrawal(n, Nullifier(cr, w.k, n), SignalAt(cr, w.k, n, x), Payout(cr, st, w, n)))
  }
}
