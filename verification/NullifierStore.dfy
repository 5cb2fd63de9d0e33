/**
 * The store of spent nullifiers, with the kept answers and the rate limiter,
 * updated in place.
 */
module NullifierStores {
  import opened Field
  import opened Slashing
  import opened GatewayState
  import opened RateLimit

  class NullifierStore {
    var nullifiers: map<Key, Signal>
    var responses: map<Key, CachedResponse>
    var nullifierAttempts: Attempts

    constructor ()
      ensures nullifiers == map[] && responses == map[] && nullifierAttempts == map[]
    {
      nullifiers, responses, nullifierAttempts := map[], map[], map[];
    }

    method Get(nullifier: Key) returns (stored: Option<Signal>)
      ensures stored == if nullifier in nullifiers then Some(nullifiers[nullifier]) else None
    {
      stored := if nullifier in nullifiers then Some(nullifiers[nullifier]) else None;
    }

    /** Write-once: the first signal under a nullifier stays, and later ones get it back. */
    method CheckAndSet(nullifier: Key, signal: Signal) returns (existing: Option<Signal>)
      modifies this`nullifiers
      ensures existing.Some? <==> nullifier in old(nullifiers)
      ensures existing.Some? ==> existing.value == old(nullifiers)[nullifier] && nullifiers == old(nullifiers)
      ensures existing.None? ==> nullifiers == old(nullifiers)[nullifier := signal]
    {
      existing := Get(nullifier);
      if existing.Some? { return; }
      nullifiers := nullifiers[nullifier := signal];
    }

    method RememberResponse(nullifier: Key, signal: Signal, response: Response, now: int)
      modifies this`responses
      ensures responses == old(responses)[nullifier := CachedResponse(signal, response, now + RESPONSE_TTL_MS)]
    {
      responses := responses[nullifier := CachedResponse(signal, response, now + RESPONSE_TTL_MS)];
    }

    method RecallResponse(nullifier: Key, signal: Signal, now: int) returns (response: Option<Response>)
      ensures response.Some? <==>
        nullifier in responses && responses[nullifier].signal == signal && now < responses[nullifier].expiresAt
      ensures response.Some? ==> response.value == responses[nullifier].response
      ensures response == Recall(responses, nullifier, signal, now)
    {
      if nullifier !in responses || responses[nullifier].expiresAt <= now {
        return None;
      }
      var cached := responses[nullifier];
      if cached.signal.x != signal.x || cached.signal.y != signal.y {
        return None;
      }
      response := Some(cached.response);
    }

    method CheckRateLimit(nullifier: Key, now: int) returns (ok: bool)
      modifies this`nullifierAttempts
      ensures ok == Allowed(old(nullifierAttempts), nullifier, now)
      ensures nullifierAttempts == Checked(old(nullifierAttempts), nullifier, now)
      ensures ok && |nullifierAttempts| > 1000 ==> AllRecent(nullifierAttempts, now)
    {
      var attempts := if nullifier in nullifierAttempts then nullifierAttempts[nullifier] else [];
      var recentAttempts := Live(attempts, now);
      if |recentAttempts| >= MAX_ATTEMPTS {
        return false;
      }
      nullifierAttempts := nullifierAttempts[nullifier := recentAttempts + [now]];
      if |nullifierAttempts| > MAX_TRACKED {
        CleanupRateLimitMap(now);
      }
      ok := true;
    }

    /** Deletes and overwrites entries one by one, in any order. */
    method CleanupRateLimitMap(now: int)
      modifies this`nullifierAttempts
      ensures nullifierAttempts == Cleaned(old(nullifierAttempts), now)
      ensures AllRecent(nullifierAttempts, now)
    {
      var before := nullifierAttempts;
      var todo := before.Keys;
      while todo != {}
        invariant todo <= before.Keys && nullifierAttempts.Keys <= before.Keys
        invariant forall n :: n in todo ==> n in nullifierAttempts && nullifierAttempts[n] == before[n]
        invariant forall n :: n in before && n !in todo ==>
          if Live(before[n], now) == [] then n !in nullifierAttempts
          else n in nullifierAttempts && nullifierAttempts[n] == Live(before[n], now)
        decreases |todo|
      {
        var nullifier :| nullifier in todo;
        var attempts := nullifierAttempts[nullifier];
        var recentAttempts := Live(attempts, now);
        if |recentAttempts| == 0 {
          nullifierAttempts := nullifierAttempts - {nullifier};
        } else if |recentAttempts| < |attempts| {
          nullifierAttempts := nullifierAttempts[nullifier := recentAttempts];
        } else {
          LiveAll(attempts, now);
        }
        todo := todo - {nullifier};
      }
      CleanedRecent(before, now);
    }

    method CleanupResponses(now: int)
      modifies this`responses
      ensures forall n :: n in responses <==> n in old(responses) && old(responses)[n].expiresAt > now
      ensures forall n :: n in responses ==> responses[n] == old(responses)[n]
      ensures responses == CleanResponses(old(responses), now)
    {
      var before := responses;
      var todo := before.Keys;
      while todo != {}
        invariant todo <= before.Keys && responses.Keys <= before.Keys
        invariant forall n :: n in responses ==> responses[n] == before[n]
        invariant forall n :: n in todo ==> n in responses
        invariant forall n :: n in before && n !in todo ==> (n in responses <==> before[n].expiresAt > now)
        decreases |todo|
      {
        var nullifier :| nullifier in todo;
        if responses[nullifier].expiresAt <= now {
          responses := responses - {nullifier};
        }
        todo := todo - {nullifier};
      }
    }

    method GetRemainingAttempts(nullifier: Key, now: int) returns (left: int)
      ensures left == Remaining(nullifierAttempts, nullifier, now)
    {
      var attempts := if nullifier in nullifierAttempts then nullifierAttempts[nullifier] else [];
      left := MAX_ATTEMPTS - |Live(attempts, now)|;
      if left < 0 { left := 0; }
    }
  }

  /** A filter that drops nothing returns its input. */
  lemma {:induction false} LiveAll(times: seq<int>, now: int)
    requires |Live(times, now)| >= |times|
    ensures Live(times, now) == times
  {
    if times != [] {
      LiveShorter(times[..|times| - 1], now);
      LiveAll(times[..|times| - 1], now);
    }
  }
}
