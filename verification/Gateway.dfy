/**
 * The services that act on the shared store. Each method is one atomic
 * section of the source's code, the stretch between two awaits.
 */
module Gateway {
  import opened Modular
  import opened Primes
  import opened Slashing
  import opened GatewayState
  import opened RateLimit
  import opened NullifierStores

  class SlashingService {
    const p: Modulus
    const enabled: bool
    /** The keys slash was called with. */
    var slashed: seq<int>

    constructor (p: Modulus, enabled: bool)
      ensures this.p == p && this.enabled == enabled && slashed == []
    {
      this.p, this.enabled, slashed := p, enabled, [];
    }

    method SlashRevealed(s1: Signal, s2: Signal)
      modifies this
      ensures slashed == match Recover(p, s1, s2)
                         case Some(key) => if enabled then old(slashed) + [key] else old(slashed)
                         case None => old(slashed)
    {
      if !enabled { return; }
      var key := RecoverSecretKey(p, s1, s2);
      if key.Some? { slashed := slashed + [key.value]; }
    }
  }

  /** What the store and the slasher hold, as one value. */
  ghost function View(store: NullifierStore, slashing: SlashingService): Server
    reads store, slashing
  {
    Server(store.nullifiers, store.responses, slashing.slashed)
  }

  class ExitWatcherService {
    const nullifierStore: NullifierStore
    const slashing: SlashingService

    constructor (nullifierStore: NullifierStore, slashing: SlashingService)
      ensures this.nullifierStore == nullifierStore && this.slashing == slashing
    {
      this.nullifierStore, this.slashing := nullifierStore, slashing;
    }

    method Ingest(nullifier: Key, signal: Signal)
      modifies nullifierStore`nullifiers, slashing
      ensures View(nullifierStore, slashing)
           == Record(slashing.p, slashing.enabled, old(View(nullifierStore, slashing)), nullifier, signal)
    {
      var existing := nullifierStore.CheckAndSet(nullifier, signal);
      if existing.Some? && existing.value.x != signal.x {
        slashing.SlashRevealed(existing.value, signal);
      }
    }
  }

  class LongjingService {
    const nullifierStore: NullifierStore
    const slashing: SlashingService
    const cMax: nat

    constructor (nullifierStore: NullifierStore, slashing: SlashingService, cMax: nat)
      ensures this.nullifierStore == nullifierStore && this.slashing == slashing && this.cMax == cMax
    {
      this.nullifierStore, this.slashing, this.cMax := nullifierStore, slashing, cMax;
    }

    /** Step 1: the rate limit. */
    method Admit(nullifier: Key, now: int) returns (ok: bool)
      modifies nullifierStore`nullifierAttempts
      ensures ok == Allowed(old(nullifierStore.nullifierAttempts), nullifier, now)
      ensures nullifierStore.nullifierAttempts == Checked(old(nullifierStore.nullifierAttempts), nullifier, now)
    {
      ok := nullifierStore.CheckRateLimit(nullifier, now);
    }

    /** Step 3: C_MAX must cover the worst case before anything is consumed. */
    method CoversWorstCase(worstCaseCost: nat) returns (ok: bool)
      ensures ok <==> Charge(cMax, Served(worstCaseCost)) == worstCaseCost
    {
      ok := worstCaseCost <= cMax;
    }

    /** Step 5: record (N, x, y), and decide what a second signal under N gets. */
    method RecordSignal(nullifier: Key, signal: Signal, now: int) returns (verdict: Verdict)
      modifies nullifierStore`nullifiers, slashing
      ensures verdict == RecordVerdict(old(View(nullifierStore, slashing)), nullifier, signal, now)
      ensures View(nullifierStore, slashing)
           == Record(slashing.p, slashing.enabled, old(View(nullifierStore, slashing)), nullifier, signal)
    {
      var existing := nullifierStore.CheckAndSet(nullifier, signal);
      if existing.None? {
        return Fresh;
      }
      if existing.value.x != signal.x {
        slashing.SlashRevealed(existing.value, signal);
        return DoubleSpend;
      }
      var cached := nullifierStore.RecallResponse(nullifier, signal, now);
      verdict := if cached.Some? then Replay(cached.value) else AlreadyUsed;
    }

    /** Steps 6 and 8: v, all of C_MAX when the provider failed, else C_MAX - cost clamped to [0, C_MAX]. */
    method RefundFor(outcome: Outcome) returns (refund: nat)
      ensures refund == Refund(cMax, outcome)
      ensures refund <= cMax && refund + Charge(cMax, outcome) == cMax
    {
      match outcome
      case ProviderFailed => refund := cMax;
      case Served(actualCost) => refund := if actualCost < cMax then cMax - actualCost else 0;
    }

    /** The last step: keep the signed answer for retries. */
    method Finish(nullifier: Key, signal: Signal, response: Response, now: int)
      modifies nullifierStore`responses
      ensures View(nullifierStore, slashing)
           == Remember(old(View(nullifierStore, slashing)), nullifier, signal, response, now)
    {
      nullifierStore.RememberResponse(nullifier, signal, response, now);
    }
  }

  /**
   * Requests and exits that share one store: whichever of two signals arrives
   * first, the second calls slash with what the two reveal.
   */
  method RequestThenExit(longjing: LongjingService, watcher: ExitWatcherService, nullifier: Key, request: Signal, exit: Signal, now: int)
    requires longjing.nullifierStore == watcher.nullifierStore && longjing.slashing == watcher.slashing
    requires Prime(longjing.slashing.p) && longjing.slashing.enabled && !Cong(longjing.slashing.p, request.x, exit.x)
    requires nullifier !in longjing.nullifierStore.nullifiers
    modifies longjing.nullifierStore`nullifiers, longjing.slashing
    ensures Recover(longjing.slashing.p, request, exit).Some?
    ensures longjing.slashing.slashed
         == old(longjing.slashing.slashed) + [Recover(longjing.slashing.p, request, exit).value]
  {
    var verdict := longjing.RecordSignal(nullifier, request, now);
    watcher.Ingest(nullifier, exit);
    RecoveryFailsOnSharedX(longjing.slashing.p, request, exit);
  }

  method ExitThenRequest(longjing: LongjingService, watcher: ExitWatcherService, nullifier: Key, request: Signal, exit: Signal, now: int)
    returns (verdict: Verdict)
    requires longjing.nullifierStore == watcher.nullifierStore && longjing.slashing == watcher.slashing
    requires Prime(longjing.slashing.p) && longjing.slashing.enabled && !Cong(longjing.slashing.p, request.x, exit.x)
    requires nullifier !in longjing.nullifierStore.nullifiers
    modifies longjing.nullifierStore`nullifiers, longjing.slashing
    ensures verdict == DoubleSpend
    ensures Recover(longjing.slashing.p, request, exit).Some?
    ensures longjing.slashing.slashed
         == old(longjing.slashing.slashed) + [Recover(longjing.slashing.p, request, exit).value]
  {
    watcher.Ingest(nullifier, exit);
    verdict := longjing.RecordSignal(nullifier, request, now);
    RecoveryFailsOnSharedX(longjing.slashing.p, request, exit);
    RecoverySymmetric(longjing.slashing.p, request, exit);
  }
}
