/**
 * What the gateway stores, as values, and what each atomic section of its
 * code does to it. The services in Gateway.dfy are proved against these.
 */
module GatewayState {
  import opened Modular
  import opened Field
  import opened Edwards
  import opened Slashing

  const RESPONSE_TTL_MS := 600000

  /** A nullifier as the store's key: the canonical decimal string of a field element. */
  datatype Key = Key(element: int)

  /** A signed answer: the body of a 200, or of the 502 that refunds all of C_MAX. */
  datatype Response = Response(refund: nat, accumulator: Point, failed: bool)

  datatype CachedResponse = CachedResponse(signal: Signal, response: Response, expiresAt: int)

  /** The spent nullifiers, the kept answers, and the keys slash was called with. */
  datatype Server = Server(
    nullifiers: map<Key, Signal>,
    responses: map<Key, CachedResponse>,
    slashed: seq<int>)

  /** How a provider call ended; a served request carries its actual cost. */
  datatype Outcome = Served(cost: nat) | ProviderFailed

  /** v = C_MAX - cost clamped to [0, C_MAX], and all of C_MAX for a failed call. */
  function Refund(cMax: nat, outcome: Outcome): nat {
    match outcome
    case Served(cost) => if cost < cMax then cMax - cost else 0
    case ProviderFailed => cMax
  }

  /** What a request costs its note: min(cost, C_MAX), and nothing for a failed call. */
  function Charge(cMax: nat, outcome: Outcome): nat {
    match outcome
    case Served(cost) => if cost < cMax then cost else cMax
    case ProviderFailed => 0
  }

  function Recall(responses: map<Key, CachedResponse>, nullifier: Key, signal: Signal, now: int): Option<Response> {
    if nullifier in responses && responses[nullifier].expiresAt > now && responses[nullifier].signal == signal
    then Some(responses[nullifier].response)
    else None
  }

  function SlashRevealed(p: Modulus, enabled: bool, server: Server, s1: Signal, s2: Signal): Server {
    match Recover(p, s1, s2)
    case Some(key) => if enabled then server.(slashed := server.slashed + [key]) else server
    case None => server
  }

  datatype Verdict = Fresh | Replay(response: Response) | AlreadyUsed | DoubleSpend

  /** Recording a verified request: what the handler decides, and the new state. */
  function RecordVerdict(server: Server, nullifier: Key, signal: Signal, now: int): Verdict {
    if nullifier !in server.nullifiers then Fresh
    else if server.nullifiers[nullifier].x != signal.x then DoubleSpend
    else match Recall(server.responses, nullifier, signal, now)
         case Some(response) => Replay(response)
         case None => AlreadyUsed
  }

  function Record(p: Modulus, enabled: bool, server: Server, nullifier: Key, signal: Signal): Server {
    if nullifier !in server.nullifiers then server.(nullifiers := server.nullifiers[nullifier := signal])
    else if server.nullifiers[nullifier].x != signal.x
    then SlashRevealed(p, enabled, server, server.nullifiers[nullifier], signal)
    else server
  }

  function Remember(server: Server, nullifier: Key, signal: Signal, response: Response, now: int): Server {
    server.(responses := server.responses[nullifier := CachedResponse(signal, response, now + RESPONSE_TTL_MS)])
  }

  function CleanResponses(responses: map<Key, CachedResponse>, now: int): map<Key, CachedResponse> {
    map n | n in responses && responses[n].expiresAt > now :: responses[n]
  }

  // ---- what a request costs ----

  /** A request is charged its cost or C_MAX, whichever is less, and nothing if the provider failed. */
  lemma ChargeIsMinimum(cMax: nat, outcome: Outcome)
    ensures Charge(cMax, outcome) <= cMax && Charge(cMax, outcome) + Refund(cMax, outcome) == cMax
    ensures outcome.ProviderFailed? ==> Charge(cMax, outcome) == 0
    ensures outcome.Served? ==>
              Charge(cMax, outcome) <= outcome.cost && (Charge(cMax, outcome) == outcome.cost || Charge(cMax, outcome) == cMax)
  {}

  // ---- retries ----

  /** For ten minutes after an answer is kept a retry of its signal gets it back, and from then on a refusal. */
  lemma RetryWithinTtl(server: Server, n: Key, s: Signal, response: Response, kept: int, now: int)
    requires n in server.nullifiers && server.nullifiers[n] == s
    ensures RecordVerdict(Remember(server, n, s, response, kept), n, s, now)
         == if now < kept + 600000 then Replay(response) else AlreadyUsed
  {}

  /** The same x with another y is not a retry: it is refused, and nothing is slashed. */
  lemma OtherYRefused(server: Server, n: Key, s: Signal, s': Signal, response: Response, kept: int, now: int)
    requires n in server.nullifiers && server.nullifiers[n] == s && s'.x == s.x && s' != s
    ensures RecordVerdict(Remember(server, n, s, response, kept), n, s', now) == AlreadyUsed
  {}

  /** Without a kept answer a spent nullifier is refused, or slashed under another x; an unspent one is fresh. */
  lemma VerdictWithoutAnswer(server: Server, n: Key, s: Signal, now: int)
    requires n !in server.responses
    ensures RecordVerdict(server, n, s, now).Fresh? <==> n !in server.nullifiers
    ensures RecordVerdict(server, n, s, now).DoubleSpend? <==> n in server.nullifiers && server.nullifiers[n].x != s.x
    ensures RecordVerdict(server, n, s, now).AlreadyUsed? <==> n in server.nullifiers && server.nullifiers[n].x == s.x
  {}

  /** A cleanup is invisible from then on: it takes only answers no later retry would get. */
  lemma CleanupKeepsRecall(responses: map<Key, CachedResponse>, at: int, n: Key, s: Signal, now: int)
    requires at <= now
    ensures Recall(CleanResponses(responses, at), n, s, now) == Recall(responses, n, s, now)
  {}
}
