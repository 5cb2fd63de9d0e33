/**
 * The per-nullifier sliding window, against a log that keeps every grant:
 * forgetting old attempts, whenever it happens, changes no later answer.
 */
module RateLimit {
  import opened GatewayState

  const WINDOW_MS := 60000
  const MAX_ATTEMPTS := 3
  const MAX_TRACKED := 1000

  type Attempts = map<Key, seq<int>>

  /** The attempts still inside the window at now. */
  function Live(times: seq<int>, now: int): seq<int> {
    if times == [] then []
    else Live(times[..|times| - 1], now)
         + (if now - times[|times| - 1] < WINDOW_MS then [times[|times| - 1]] else [])
  }

  function AttemptsOf(attempts: Attempts, nullifier: Key): seq<int> {
    if nullifier in attempts then attempts[nullifier] else []
  }

  function Cleaned(attempts: Attempts, now: int): Attempts {
    map n | n in attempts && Live(attempts[n], now) != [] :: Live(attempts[n], now)
  }

  predicate Allowed(attempts: Attempts, nullifier: Key, now: int) {
    |Live(AttemptsOf(attempts, nullifier), now)| < MAX_ATTEMPTS
  }

  /** The map after a call: a granted attempt is added, and a map grown too large is cleaned. */
  function Checked(attempts: Attempts, nullifier: Key, now: int): Attempts {
    if !Allowed(attempts, nullifier, now) then attempts
    else
      var added := attempts[nullifier := Live(AttemptsOf(attempts, nullifier), now) + [now]];
      if |added| > MAX_TRACKED then Cleaned(added, now) else added
  }

  function Remaining(attempts: Attempts, nullifier: Key, now: int): int {
    var left := MAX_ATTEMPTS - |Live(AttemptsOf(attempts, nullifier), now)|;
    if left > 0 then left else 0
  }

  /** No nullifier is tracked without an attempt, and no attempt is a minute old. */
  ghost predicate AllRecent(attempts: Attempts, now: int) {
    forall n :: n in attempts ==> attempts[n] != [] && forall t :: t in attempts[n] ==> now - t < 60000
  }

  lemma {:induction false} LiveRecent(times: seq<int>, now: int)
    ensures forall t :: t in Live(times, now) <==> t in times && now - t < 60000
  {
    if times != [] {
      LiveRecent(times[..|times| - 1], now);
      assert times == times[..|times| - 1] + [times[|times| - 1]];
    }
  }

  lemma CleanedRecent(attempts: Attempts, now: int)
    ensures AllRecent(Cleaned(attempts, now), now)
  {
    forall n | n in Cleaned(attempts, now) ensures forall t :: t in Live(attempts[n], now) ==> now - t < 60000 {
      LiveRecent(attempts[n], now);
    }
  }

  // ---- the full log ----

  datatype Call = Check(nullifier: Key, at: int) | Cleanup(at: int) | Ask(nullifier: Key, at: int)

  datatype Answer = Granted(ok: bool) | Left(count: int) | Quiet

  /** Every grant ever given, per nullifier, in order. */
  type Log = map<Key, seq<int>>

  function GrantsOf(log: Log, nullifier: Key): seq<int> {
    if nullifier in log then log[nullifier] else []
  }

  function StepLog(log: Log, call: Call): (Log, Answer) {
    match call
    case Check(n, now) =>
      if |Live(GrantsOf(log, n), now)| < MAX_ATTEMPTS
      then (log[n := GrantsOf(log, n) + [now]], Granted(true)) else (log, Granted(false))
    case Cleanup(_) => (log, Quiet)
    case Ask(n, now) => (log, Left(MAX_ATTEMPTS - |Live(GrantsOf(log, n), now)|))
  }

  function StepMap(attempts: Attempts, call: Call): (Attempts, Answer) {
    match call
    case Check(n, now) => (Checked(attempts, n, now), Granted(Allowed(attempts, n, now)))
    case Cleanup(now) => (Cleaned(attempts, now), Quiet)
    case Ask(n, now) => (attempts, Left(Remaining(attempts, n, now)))
  }

  function AnswersOfLog(log: Log, calls: seq<Call>): seq<Answer>
    decreases |calls|
  {
    if calls == [] then [] else [StepLog(log, calls[0]).1] + AnswersOfLog(StepLog(log, calls[0]).0, calls[1..])
  }

  function AnswersOfMap(attempts: Attempts, calls: seq<Call>): seq<Answer>
    decreases |calls|
  {
    if calls == [] then [] else [StepMap(attempts, calls[0]).1] + AnswersOfMap(StepMap(attempts, calls[0]).0, calls[1..])
  }

  function LogAfter(log: Log, calls: seq<Call>): Log
    decreases |calls|
  {
    if calls == [] then log else LogAfter(StepLog(log, calls[0]).0, calls[1..])
  }

  /** The clock never goes back. */
  ghost predicate Monotone(last: int, calls: seq<Call>) {
    && (forall i :: 0 <= i < |calls| ==> last <= calls[i].at)
    && (forall i, j :: 0 <= i < j < |calls| ==> calls[i].at <= calls[j].at)
  }

  // ---- filtering ----

  lemma {:induction false} LiveConcat(a: seq<int>, b: seq<int>, now: int)
    ensures Live(a + b, now) == Live(a, now) + Live(b, now)
  {
    if b == [] {
      assert a + b == a;
    } else {
      LiveConcat(a, b[..|b| - 1], now);
      assert (a + b)[..|a + b| - 1] == a + b[..|b| - 1];
    }
  }

  lemma {:induction false} LiveTwice(times: seq<int>, t: int, now: int)
    requires t <= now
    ensures Live(Live(times, t), now) == Live(times, now)
  {
    if times != [] {
      var rest, last := times[..|times| - 1], times[|times| - 1];
      LiveTwice(rest, t, now);
      LiveConcat(Live(rest, t), if t - last < WINDOW_MS then [last] else [], now);
    }
  }

  lemma LiveOfNow(now: int, later: int)
    ensures Live([now], later) == if later - now < WINDOW_MS then [now] else []
  {
    assert [now][..0] == [];
  }

  lemma {:induction false} LiveShorter(times: seq<int>, now: int)
    ensures |Live(times, now)| <= |times|
  {
    if times != [] { LiveShorter(times[..|times| - 1], now); }
  }

  // ---- refinement ----

  ghost predicate SameLive(attempts: Attempts, log: Log, nullifier: Key, now: int) {
    Live(AttemptsOf(attempts, nullifier), now) == Live(GrantsOf(log, nullifier), now)
  }

  /** From last on, the map and the log agree on what is live. */
  ghost predicate Agree(attempts: Attempts, log: Log, last: int) {
    forall n, now :: last <= now ==> SameLive(attempts, log, n, now)
  }

  ghost predicate LogBounded(log: Log, last: int) {
    forall n, now :: last <= now ==> |Live(GrantsOf(log, n), now)| <= MAX_ATTEMPTS
  }

  lemma CleanAgrees(attempts: Attempts, log: Log, last: int, at: int)
    requires Agree(attempts, log, last) && last <= at
    ensures Agree(Cleaned(attempts, at), log, at)
  {
    forall n, now | at <= now ensures SameLive(Cleaned(attempts, at), log, n, now) {
      assert SameLive(attempts, log, n, now);
      LiveTwice(AttemptsOf(attempts, n), at, now);
    }
  }

  lemma GrantAgrees(attempts: Attempts, log: Log, last: int, nullifier: Key, at: int)
    requires Agree(attempts, log, last) && last <= at
    ensures Agree(attempts[nullifier := Live(AttemptsOf(attempts, nullifier), at) + [at]],
                  log[nullifier := GrantsOf(log, nullifier) + [at]], at)
  {
    var attempts' := attempts[nullifier := Live(AttemptsOf(attempts, nullifier), at) + [at]];
    var log' := log[nullifier := GrantsOf(log, nullifier) + [at]];
    forall n, now | at <= now ensures SameLive(attempts', log', n, now) {
      assert SameLive(attempts, log, n, now);
      if n == nullifier {
        LiveConcat(Live(AttemptsOf(attempts, n), at), [at], now);
        LiveTwice(AttemptsOf(attempts, n), at, now);
        LiveConcat(GrantsOf(log, n), [at], now);
      }
    }
  }

  lemma {:induction false} LiveShrinks(times: seq<int>, t: int, now: int)
    requires t <= now
    ensures |Live(times, now)| <= |Live(times, t)|
  {
    if times != [] { LiveShrinks(times[..|times| - 1], t, now); }
  }

  lemma StepBounded(log: Log, last: int, call: Call)
    requires LogBounded(log, last) && last <= call.at
    ensures LogBounded(StepLog(log, call).0, call.at)
  {
    var log' := StepLog(log, call).0;
    forall n, now | call.at <= now ensures |Live(GrantsOf(log', n), now)| <= MAX_ATTEMPTS {
      if log' != log && n == call.nullifier {
        LiveConcat(GrantsOf(log, n), [call.at], now);
        LiveOfNow(call.at, now);
        LiveShrinks(GrantsOf(log, n), call.at, now);
      } else {
        assert |Live(GrantsOf(log, n), now)| <= MAX_ATTEMPTS;
      }
    }
  }

  lemma StepAgrees(attempts: Attempts, log: Log, last: int, call: Call)
    requires Agree(attempts, log, last) && LogBounded(log, last) && last <= call.at
    ensures Agree(StepMap(attempts, call).0, StepLog(log, call).0, call.at)
    ensures StepMap(attempts, call).1 == StepLog(log, call).1
  {
    match call
    case Check(n, now) =>
      assert SameLive(attempts, log, n, now);
      if Allowed(attempts, n, now) {
        GrantAgrees(attempts, log, last, n, now);
        var added := attempts[n := Live(AttemptsOf(attempts, n), now) + [now]];
        CleanAgrees(added, StepLog(log, call).0, now, now);
      }
    case Cleanup(now) => CleanAgrees(attempts, log, last, now);
    case Ask(n, now) => assert SameLive(attempts, log, n, now);
  }

  lemma {:induction false} AnswersAgree(attempts: Attempts, log: Log, last: int, calls: seq<Call>)
    requires Agree(attempts, log, last) && LogBounded(log, last) && Monotone(last, calls)
    ensures AnswersOfMap(attempts, calls) == AnswersOfLog(log, calls)
    decreases |calls|
  {
    if calls != [] {
      StepAgrees(attempts, log, last, calls[0]);
      StepBounded(log, last, calls[0]);
      AnswersAgree(StepMap(attempts, calls[0]).0, StepLog(log, calls[0]).0, calls[0].at, calls[1..]);
    }
  }

  /** Over any run with a clock that never goes back, the limiter answers as the full log would. */
  lemma LimiterRefinesLog(start: int, calls: seq<Call>)
    requires Monotone(start, calls)
    ensures AnswersOfMap(map[], calls) == AnswersOfLog(map[], calls)
  {
    assert Agree(map[], map[], start) by {
      forall n, now | start <= now ensures SameLive(map[], map[], n, now) {}
    }
    AnswersAgree(map[], map[], start, calls);
  }

  // ---- the window ----

  /** No four grants within one window. */
  ghost predicate Spaced(times: seq<int>) {
    && (forall i, j :: 0 <= i <= j < |times| ==> times[i] <= times[j])
    && (forall i, j :: 0 <= i && i + MAX_ATTEMPTS <= j < |times| ==> times[j] - times[i] >= WINDOW_MS)
  }

  lemma {:induction false} LiveSuffix(times: seq<int>, now: int, i: nat)
    requires i <= |times| && forall j :: i <= j < |times| ==> now - times[j] < WINDOW_MS
    ensures |Live(times, now)| >= |times| - i
  {
    if i < |times| { LiveSuffix(times[..|times| - 1], now, i); }
  }

  lemma GrantKeepsSpaced(times: seq<int>, now: int)
    requires Spaced(times) && |Live(times, now)| < MAX_ATTEMPTS
    requires forall t :: t in times ==> t <= now
    ensures Spaced(times + [now])
  {
    var times' := times + [now];
    assert forall i :: 0 <= i < |times| ==> times[i] in times;
    forall i, j | 0 <= i && i + MAX_ATTEMPTS <= j < |times'| ensures times'[j] - times'[i] >= WINDOW_MS {
      if j == |times| && now - times[i] < WINDOW_MS {
        LiveSuffix(times, now, i);
      }
    }
  }

  ghost predicate LogSpaced(log: Log, last: int) {
    forall n :: n in log ==> Spaced(log[n]) && forall t :: t in log[n] ==> t <= last
  }

  lemma {:induction false} GrantsSpaced(log: Log, last: int, calls: seq<Call>)
    requires LogSpaced(log, last) && Monotone(last, calls)
    ensures forall n :: n in LogAfter(log, calls) ==> Spaced(LogAfter(log, calls)[n])
    decreases |calls|
  {
    if calls != [] {
      var call, next := calls[0], StepLog(log, calls[0]).0;
      forall n | n in next ensures Spaced(next[n]) && forall t :: t in next[n] ==> t <= call.at {
        if next != log && n == call.nullifier {
          GrantKeepsSpaced(GrantsOf(log, n), call.at);
        }
      }
      GrantsSpaced(next, call.at, calls[1..]);
    }
  }

  /** Any two grants of one nullifier less than a window apart are among three consecutive ones. */
  lemma AtMostThreePerWindow(start: int, calls: seq<Call>, nullifier: Key, i: nat, j: nat)
    requires Monotone(start, calls)
    requires i <= j < |GrantsOf(LogAfter(map[], calls), nullifier)|
    ensures var grants := GrantsOf(LogAfter(map[], calls), nullifier);
            grants[j] - grants[i] < WINDOW_MS ==> j - i < MAX_ATTEMPTS
  {
    GrantsSpaced(map[], start, calls);
    assert Spaced(GrantsOf(LogAfter(map[], calls), nullifier));
  }

  // ---- each answer, by the last grants ----

  lemma {:induction false} AnswersAppend(log: Log, calls: seq<Call>, last: Call)
    ensures AnswersOfLog(log, calls + [last]) == AnswersOfLog(log, calls) + [StepLog(LogAfter(log, calls), last).1]
    ensures LogAfter(log, calls + [last]) == StepLog(LogAfter(log, calls), last).0
    decreases |calls|
  {
    if calls == [] {
      assert [] + [last] == [last] && [last][1..] == [];
    } else {
      AnswersAppend(StepLog(log, calls[0]).0, calls[1..], last);
      assert (calls + [last])[1..] == calls[1..] + [last];
    }
  }

  lemma {:induction false} NoneLive(times: seq<int>, now: int)
    requires forall i :: 0 <= i < |times| ==> now - times[i] >= WINDOW_MS
    ensures Live(times, now) == []
  {
    if times != [] { NoneLive(times[..|times| - 1], now); }
  }

  /** In ascending times at least j are live exactly when the j-th from the end is. */
  lemma LiveCount(times: seq<int>, now: int, j: nat)
    requires j >= 1 && forall a, b :: 0 <= a <= b < |times| ==> times[a] <= times[b]
    ensures |Live(times, now)| >= j <==> |times| >= j && now - times[|times| - j] < 60000
  {
    LiveShorter(times, now);
    if |times| >= j {
      var m := |times| - j;
      if now - times[m] < WINDOW_MS {
        LiveSuffix(times, now, m);
      } else {
        assert times == times[..m + 1] + times[m + 1..];
        LiveConcat(times[..m + 1], times[m + 1..], now);
        NoneLive(times[..m + 1], now);
        LiveShorter(times[m + 1..], now);
      }
    }
  }

  lemma PrefixMonotone(last: int, calls: seq<Call>, call: Call)
    requires Monotone(last, calls + [call])
    ensures Monotone(last, calls)
  {
    assert forall i :: 0 <= i < |calls| ==> (calls + [call])[i] == calls[i];
  }

  lemma GrantsAscend(start: int, calls: seq<Call>, nullifier: Key)
    requires Monotone(start, calls)
    ensures var grants := GrantsOf(LogAfter(map[], calls), nullifier);
            forall a, b :: 0 <= a <= b < |grants| ==> grants[a] <= grants[b]
  {
    GrantsSpaced(map[], start, calls);
  }

  /** A check is granted exactly when the third grant from the end, if any, is at least a minute old; a grant is then logged. */
  lemma CheckAnswer(start: int, calls: seq<Call>, nullifier: Key, now: int)
    requires Monotone(start, calls + [Check(nullifier, now)])
    ensures var grants := GrantsOf(LogAfter(map[], calls), nullifier);
            var ok := |grants| < 3 || now - grants[|grants| - 3] >= 60000;
            && AnswersOfMap(map[], calls + [Check(nullifier, now)]) == AnswersOfMap(map[], calls) + [Granted(ok)]
            && GrantsOf(LogAfter(map[], calls + [Check(nullifier, now)]), nullifier) == grants + if ok then [now] else []
  {
    PrefixMonotone(start, calls, Check(nullifier, now));
    LimiterRefinesLog(start, calls);
    LimiterRefinesLog(start, calls + [Check(nullifier, now)]);
    AnswersAppend(map[], calls, Check(nullifier, now));
    GrantsAscend(start, calls, nullifier);
    LiveCount(GrantsOf(LogAfter(map[], calls), nullifier), now, 3);
  }

  /** The j-th grant from the end is less than a minute old. */
  predicate Recent(grants: seq<int>, now: int, j: int) {
    1 <= j <= |grants| && now - grants[|grants| - j] < 60000
  }

  /** What is left is 3 less the grants of the last minute: at most 3 - j exactly when the j-th from the end is recent. */
  lemma AskAnswer(start: int, calls: seq<Call>, nullifier: Key, now: int)
    requires Monotone(start, calls + [Ask(nullifier, now)])
    ensures var grants := GrantsOf(LogAfter(map[], calls), nullifier);
            exists left :: AnswersOfMap(map[], calls + [Ask(nullifier, now)]) == AnswersOfMap(map[], calls) + [Left(left)]
              && 0 <= left <= 3
              && forall j :: 1 <= j <= 3 ==> (left <= 3 - j <==> Recent(grants, now, j))
  {
    PrefixMonotone(start, calls, Ask(nullifier, now));
    LimiterRefinesLog(start, calls);
    LimiterRefinesLog(start, calls + [Ask(nullifier, now)]);
    AnswersAppend(map[], calls, Ask(nullifier, now));
    GrantsAscend(start, calls, nullifier);
    var grants := GrantsOf(LogAfter(map[], calls), nullifier);
    var left := 3 - |Live(grants, now)|;
    forall j | 1 <= j <= 3 ensures left <= 3 - j <==> Recent(grants, now, j) {
      LiveCount(grants, now, j);
    }
    AtMostThreeLive(start, calls, nullifier, now);
    assert AnswersOfMap(map[], calls + [Ask(nullifier, now)]) == AnswersOfMap(map[], calls) + [Left(left)];
  }

  lemma {:induction false} StaysBounded(log: Log, last: int, calls: seq<Call>, nullifier: Key, now: int)
    requires LogBounded(log, last) && Monotone(last, calls) && last <= now && forall i :: 0 <= i < |calls| ==> calls[i].at <= now
    ensures |Live(GrantsOf(LogAfter(log, calls), nullifier), now)| <= MAX_ATTEMPTS
    decreases |calls|
  {
    if calls != [] {
      StepBounded(log, last, calls[0]);
      StaysBounded(StepLog(log, calls[0]).0, calls[0].at, calls[1..], nullifier, now);
    }
  }

  lemma AtMostThreeLive(start: int, calls: seq<Call>, nullifier: Key, now: int)
    requires Monotone(start, calls + [Ask(nullifier, now)])
    ensures |Live(GrantsOf(LogAfter(map[], calls), nullifier), now)| <= 3
  {
    var all := calls + [Ask(nullifier, now)];
    PrefixMonotone(start, calls, Ask(nullifier, now));
    assert all[|calls|].at == now && start <= all[|calls|].at;
    assert forall i :: 0 <= i < |calls| ==> calls[i] == all[i] && all[i].at <= all[|calls|].at;
    StaysBounded(map[], start, calls, nullifier, now);
  }

  // ---- cleanup ----

  function Loud(answers: seq<Answer>): seq<Answer> {
    if answers == [] then []
    else (if answers[0].Quiet? then [] else [answers[0]]) + Loud(answers[1..])
  }

  function NoCleanups(calls: seq<Call>): seq<Call> {
    if calls == [] then []
    else (if calls[0].Cleanup? then [] else [calls[0]]) + NoCleanups(calls[1..])
  }

  lemma {:induction false} LogIgnoresCleanups(log: Log, calls: seq<Call>)
    ensures AnswersOfLog(log, NoCleanups(calls)) == Loud(AnswersOfLog(log, calls))
    decreases |calls|
  {
    if calls != [] {
      var next := StepLog(log, calls[0]);
      LogIgnoresCleanups(next.0, calls[1..]);
      var rest := AnswersOfLog(next.0, calls[1..]);
      assert ([next.1] + rest)[1..] == rest;
      if !calls[0].Cleanup? {
        assert ([calls[0]] + NoCleanups(calls[1..]))[1..] == NoCleanups(calls[1..]);
      } else {
        assert [] + NoCleanups(calls[1..]) == NoCleanups(calls[1..]);
      }
    }
  }

  lemma {:induction false} NoCleanupsMonotone(last: int, calls: seq<Call>)
    requires Monotone(last, calls)
    ensures Monotone(last, NoCleanups(calls))
    decreases |calls|
  {
    if calls != [] {
      assert Monotone(calls[0].at, calls[1..]);
      NoCleanupsMonotone(calls[0].at, calls[1..]);
    }
  }

  /** Cleanups change no answer: dropping them from the run leaves the other answers as they were. */
  lemma CleanupIsInvisible(start: int, calls: seq<Call>)
    requires Monotone(start, calls)
    ensures AnswersOfMap(map[], NoCleanups(calls)) == Loud(AnswersOfMap(map[], calls))
  {
    LimiterRefinesLog(start, calls);
    NoCleanupsMonotone(start, calls);
    LimiterRefinesLog(start, NoCleanups(calls));
    LogIgnoresCleanups(map[], calls);
  }
}
