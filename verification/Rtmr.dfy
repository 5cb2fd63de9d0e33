/** Replaying a TDX event log into the four RTMRs, and checking a quote against it. */
module Rtmr {
  import opened Field
  import opened Bytes

  type Hash = ByteString -> ByteString

  const QUOTE_HEADER_LENGTH := 48
  const MEASUREMENT_LENGTH := 48
  const TDX_QUOTE_BODY_END := 632
  const DSTACK_RUNTIME_EVENT_TYPE := 0x08000001
  const COLON: Byte := 58

  /** One event of the log; the name stands as its UTF-8 bytes. */
  datatype Event = Event(imr: int, eventType: int, digest: string, name: ByteString, payload: string)

  datatype Fault = UnknownRegister(imr: int) | DigestTooLong | DigestMismatch(name: ByteString)

  datatype Replayed = Replayed(registers: seq<ByteString>) | Failed(fault: Fault)

  function Start(): ByteString {
    Zeros(MEASUREMENT_LENGTH)
  }

  function RtmrOffset(i: nat): nat
    requires i < 4
  {
    QUOTE_HEADER_LENGTH + 328 + 48 * i
  }

  // ---- one event ----

  /** What a runtime event hashes: its type in little-endian order, its name and its payload. */
  function RuntimeInput(name: ByteString, payload: ByteString): ByteString {
    [1, 0, 0, 8] + [COLON] + name + [COLON] + payload
  }

  function FaultOf(h: Hash, e: Event): Option<Fault> {
    if !(0 <= e.imr <= 3) then Some(UnknownRegister(e.imr))
    else if |FromHex(e.digest)| > MEASUREMENT_LENGTH then Some(DigestTooLong)
    else if e.eventType == DSTACK_RUNTIME_EVENT_TYPE && FromHex(e.digest) != h(RuntimeInput(e.name, FromHex(e.payload)))
    then Some(DigestMismatch(e.name))
    else None
  }

  function Padded(e: Event): ByteString {
    var digest := FromHex(e.digest);
    if |digest| >= MEASUREMENT_LENGTH then digest else digest + Zeros(MEASUREMENT_LENGTH - |digest|)
  }

  /** 48 bytes: the digest, and zeros after it. */
  lemma PaddedLayout(e: Event)
    requires |FromHex(e.digest)| <= 48
    ensures var digest := FromHex(e.digest);
            && |Padded(e)| == 48 && Padded(e)[..|digest|] == digest
            && forall i :: |digest| <= i < 48 ==> Padded(e)[i] == 0
  {}

  /** The number four bytes write, least significant first. */
  function LittleEndian(b: ByteString): nat {
    if b == [] then 0 else b[0] + 256 * LittleEndian(b[1..])
  }

  /** A runtime event hashes its type in four little-endian bytes, then its name and its payload, each after a colon. */
  lemma RuntimeInputLayout(name: ByteString, payload: ByteString)
    ensures var input := RuntimeInput(name, payload);
            && |input| == 6 + |name| + |payload| && LittleEndian(input[..4]) == 0x08000001
            && input[4] == ':' as int && input[5..5 + |name|] == name
            && input[5 + |name|] == ':' as int && input[6 + |name|..] == payload
  {
    var input := RuntimeInput(name, payload);
    assert input[..4] == [1, 0, 0, 8];
    assert [1, 0, 0, 8][1..] == [0, 0, 8] && [0, 0, 8][1..] == [0, 8] && [0, 8][1..] == [8] && [8][1..] == [];
  }

  /**
   * An event is refused exactly when its register is none of the four, else
   * when its digest is longer than 48 bytes, else when it is a runtime event
   * whose digest is not that of its own name and payload.
   */
  lemma FaultsExact(h: Hash, e: Event)
    ensures FaultOf(h, e).None? <==>
              e.imr in {0, 1, 2, 3} && |FromHex(e.digest)| <= 48
              && (e.eventType == 0x08000001 ==> FromHex(e.digest) == h(RuntimeInput(e.name, FromHex(e.payload))))
    ensures FaultOf(h, e) == Some(UnknownRegister(e.imr)) <==> e.imr !in {0, 1, 2, 3}
    ensures FaultOf(h, e) == Some(DigestTooLong) <==> e.imr in {0, 1, 2, 3} && |FromHex(e.digest)| > 48
  {}

  // ---- the log, one register at a time ----

  /** The events that extend register k, in order. */
  function Only(events: seq<Event>, k: int): seq<Event> {
    if events == [] then []
    else Only(Prior(events), k) + (if Latest(events).imr == k then [Latest(events)] else [])
  }

  function Prior(events: seq<Event>): seq<Event>
    requires events != []
  {
    events[..|events| - 1]
  }

  function Latest(events: seq<Event>): Event
    requires events != []
  {
    events[|events| - 1]
  }

  /** The padded digests a register is extended with. */
  function Digests(events: seq<Event>): seq<ByteString> {
    seq(|events|, i requires 0 <= i < |events| => Padded(events[i]))
  }

  function Init(digests: seq<ByteString>): seq<ByteString>
    requires digests != []
  {
    digests[..|digests| - 1]
  }

  function Last(digests: seq<ByteString>): ByteString
    requires digests != []
  {
    digests[|digests| - 1]
  }

  /** RTMR = SHA-384(RTMR || digest), for each digest in turn. */
  function Extended(h: Hash, digests: seq<ByteString>): ByteString {
    if digests == [] then Start()
    else h(Extended(h, Init(digests)) + Last(digests))
  }

  function Register(h: Hash, events: seq<Event>, k: int): ByteString {
    Extended(h, Digests(Only(events, k)))
  }

  ghost predicate Clean(h: Hash, events: seq<Event>) {
    forall e :: e in events ==> FaultOf(h, e).None?
  }

  ghost predicate FirstFault(h: Hash, events: seq<Event>, i: nat, fault: Fault) {
    i < |events| && FaultOf(h, events[i]) == Some(fault) && Clean(h, events[..i])
  }

  /** Replay is the per-register fold, or the fault of the first faulty event. */
  ghost predicate IsReplay(h: Hash, events: seq<Event>, r: Replayed) {
    match r
    case Replayed(registers) =>
      Clean(h, events) && |registers| == 4 && forall k :: 0 <= k < 4 ==> registers[k] == Register(h, events, k)
    case Failed(fault) => exists i: nat :: FirstFault(h, events, i, fault)
  }

  lemma ExtendByOne(h: Hash, events: seq<Event>, e: Event, k: int)
    ensures Only(events + [e], k) == Only(events, k) + (if e.imr == k then [e] else [])
    ensures Register(h, events + [e], k)
         == if e.imr == k then h(Register(h, events, k) + Padded(e)) else Register(h, events, k)
  {
    assert Prior(events + [e]) == events;
    if e.imr == k {
      var ds := Digests(Only(events, k));
      assert Digests(Only(events, k) + [e]) == ds + [Padded(e)];
      assert (ds + [Padded(e)])[..|ds|] == ds;
    } else {
      assert Only(events + [e], k) == Only(events, k);
    }
  }

  /** A register no event extends is 48 zero bytes. */
  lemma EmptyRegister(h: Hash, events: seq<Event>, k: int)
    requires forall e :: e in events ==> e.imr != k
    ensures |Register(h, events, k)| == 48 && forall i :: 0 <= i < 48 ==> Register(h, events, k)[i] == 0
  {
    NoneOnly(events, k);
  }

  lemma {:induction false} NoneOnly(events: seq<Event>, k: int)
    requires forall e :: e in events ==> e.imr != k
    ensures Only(events, k) == []
  {
    if events != [] {
      assert Latest(events) in events;
      NoneOnly(Prior(events), k);
    }
  }

  method ReplayRtmrs(h: Hash, events: seq<Event>) returns (r: Replayed)
    ensures IsReplay(h, events, r)
  {
    var rtmrs := new ByteString[4](_ => Start());
    var i := 0;
    while i < |events|
      invariant 0 <= i <= |events| && Clean(h, events[..i])
      invariant forall k :: 0 <= k < 4 ==> rtmrs[k] == Register(h, events[..i], k)
    {
      var event := events[i];
      var fault := FaultOf(h, event);
      if fault.Some? {
        assert FirstFault(h, events, i, fault.value);
        return Failed(fault.value);
      }
      assert events[..i + 1] == events[..i] + [event];
      forall k ensures Register(h, events[..i + 1], k)
                    == if event.imr == k then h(Register(h, events[..i], k) + Padded(event)) else Register(h, events[..i], k) {
        ExtendByOne(h, events[..i], event, k);
      }
      rtmrs[event.imr] := h(rtmrs[event.imr] + Padded(event));
      i := i + 1;
    }
    assert events[..i] == events;
    r := Replayed(rtmrs[..]);
  }

  /** The replay has one outcome. */
  lemma ReplayUnique(h: Hash, events: seq<Event>, r: Replayed, r': Replayed)
    requires IsReplay(h, events, r) && IsReplay(h, events, r')
    ensures r == r'
  {
    match (r, r')
    case (Replayed(a), Replayed(b)) => assert a == b;
    case (Replayed(_), Failed(_)) =>
    case (Failed(_), Replayed(_)) =>
    case (Failed(f), Failed(f')) =>
      var i: nat :| FirstFault(h, events, i, f);
      var i': nat :| FirstFault(h, events, i', f');
      FirstFaultUnique(h, events, i, f, i', f');
  }

  lemma FirstFaultUnique(h: Hash, events: seq<Event>, i: nat, f: Fault, i': nat, f': Fault)
    requires FirstFault(h, events, i, f) && FirstFault(h, events, i', f')
    ensures i == i' && f == f'
  {
    if i < i' { CleanBefore(h, events, i, i'); }
    if i' < i { CleanBefore(h, events, i', i); }
  }

  lemma CleanBefore(h: Hash, events: seq<Event>, i: nat, j: nat)
    requires i < j <= |events| && Clean(h, events[..j])
    ensures FaultOf(h, events[i]).None?
  {
    assert events[i] == events[..j][i];
  }

  // ---- reordering ----

  lemma {:induction false} OnlyMembers(events: seq<Event>, e: Event)
    ensures e in events <==> e in Only(events, e.imr)
  {
    if events != [] {
      OnlyMembers(Prior(events), e);
      assert events == Prior(events) + [Latest(events)];
    }
  }

  /** A reordering that keeps each register's own events in order changes neither the registers nor whether the replay fails. */
  lemma ReorderInvisible(h: Hash, log: seq<Event>, log': seq<Event>, r: Replayed, r': Replayed)
    requires forall k :: Only(log, k) == Only(log', k)
    requires IsReplay(h, log, r) && IsReplay(h, log', r')
    ensures r.Replayed? <==> r'.Replayed?
    ensures r.Replayed? ==> r == r'
  {
    forall e ensures e in log <==> e in log' {
      OnlyMembers(log, e);
      OnlyMembers(log', e);
    }
    FaultMeansUnclean(h, log, r);
    FaultMeansUnclean(h, log', r');
    if r.Replayed? { assert r.registers == r'.registers; }
  }

  lemma FaultMeansUnclean(h: Hash, events: seq<Event>, r: Replayed)
    requires IsReplay(h, events, r)
    ensures r.Replayed? <==> Clean(h, events)
  {
    if r.Failed? {
      var i: nat :| FirstFault(h, events, i, r.fault);
      assert events[i] in events;
    }
  }

  lemma {:induction false} OnlyConcat(a: seq<Event>, b: seq<Event>, k: int)
    ensures Only(a + b, k) == Only(a, k) + Only(b, k)
  {
    if b == [] {
      assert a + b == a;
    } else {
      OnlyConcat(a, Prior(b), k);
      assert Prior(a + b) == a + Prior(b);
    }
  }

  /** Swapping two neighbours of different registers is such a reordering. */
  lemma SwapKeepsRegisters(before: seq<Event>, a: Event, b: Event, after: seq<Event>, k: int)
    requires a.imr != b.imr
    ensures Only(before + [a, b] + after, k) == Only(before + [b, a] + after, k)
  {
    OnlyConcat(before + [a, b], after, k);
    OnlyConcat(before + [b, a], after, k);
    OnlyConcat(before, [a, b], k);
    OnlyConcat(before, [b, a], k);
    assert Prior([a, b]) == [a] && Prior([b, a]) == [b] && Prior([a]) == [] && Prior([b]) == [];
  }

  // ---- what the registers pin down ----

  /** Everything hashed while a register is extended. */
  function Hashed(h: Hash, digests: seq<ByteString>): set<ByteString> {
    if digests == [] then {}
    else {Extended(h, Init(digests)) + Last(digests)} + Hashed(h, Init(digests))
  }

  /** No two of the strings at hand collide, and none hashes to the start value. */
  ghost predicate NoCollision(h: Hash, a: set<ByteString>, b: set<ByteString>) {
    && (forall u, v :: u in a && v in b && h(u) == h(v) ==> u == v)
    && (forall u :: u in a || u in b ==> h(u) != Start())
  }

  ghost predicate AllPadded(digests: seq<ByteString>) {
    forall d :: d in digests ==> |d| == MEASUREMENT_LENGTH
  }

  /** Equal registers were last extended from equal registers by equal digests. */
  lemma LastStep(h: Hash, a: seq<ByteString>, b: seq<ByteString>)
    requires a != [] && b != [] && |Last(a)| == |Last(b)| && Extended(h, a) == Extended(h, b)
    requires NoCollision(h, Hashed(h, a), Hashed(h, b))
    ensures Last(a) == Last(b) && Extended(h, Init(a)) == Extended(h, Init(b))
    ensures NoCollision(h, Hashed(h, Init(a)), Hashed(h, Init(b)))
  {
    assert Extended(h, Init(a)) + Last(a) in Hashed(h, a) && Extended(h, Init(b)) + Last(b) in Hashed(h, b);
    SplitTail(Extended(h, Init(a)), Last(a), Extended(h, Init(b)), Last(b));
  }

  lemma PaddedParts(digests: seq<ByteString>)
    requires AllPadded(digests) && digests != []
    ensures AllPadded(Init(digests)) && |Last(digests)| == MEASUREMENT_LENGTH
  {
    assert forall d :: d in Init(digests) ==> d in digests;
    assert Last(digests) in digests;
  }

  lemma SameParts(a: seq<ByteString>, b: seq<ByteString>)
    requires a != [] && b != [] && Init(a) == Init(b) && Last(a) == Last(b)
    ensures a == b
  {
    assert a == Init(a) + [Last(a)] && b == Init(b) + [Last(b)];
  }

  lemma {:induction false} RegisterPinsDigests(h: Hash, a: seq<ByteString>, b: seq<ByteString>)
    requires AllPadded(a) && AllPadded(b) && NoCollision(h, Hashed(h, a), Hashed(h, b))
    requires Extended(h, a) == Extended(h, b)
    ensures a == b
    decreases |a|
  {
    assert (a == [] <==> b == []) by {
      NeverStart(h, a);
      NeverStart(h, b);
    }
    if a != [] {
      PaddedParts(a);
      PaddedParts(b);
      LastStep(h, a, b);
      RegisterPinsDigests(h, Init(a), Init(b));
      SameParts(a, b);
    }
  }

  lemma NeverStart(h: Hash, digests: seq<ByteString>)
    requires forall u :: u in Hashed(h, digests) ==> h(u) != Start()
    ensures Extended(h, digests) == Start() <==> digests == []
  {
    if digests != [] {
      assert Extended(h, Init(digests)) + Last(digests) in Hashed(h, digests);
    }
  }

  lemma SplitTail(a: ByteString, x: ByteString, b: ByteString, y: ByteString)
    requires a + x == b + y && |x| == |y|
    ensures a == b && x == y
  {
    assert |a| == |b|;
    assert a == (a + x)[..|a|] && b == (b + y)[..|b|];
    assert x == (a + x)[|a|..] && y == (b + y)[|b|..];
  }

  lemma CleanDigestsPadded(h: Hash, events: seq<Event>, k: int)
    requires Clean(h, events)
    ensures AllPadded(Digests(Only(events, k)))
  {
    var own := Only(events, k);
    OnlyIsPart(events, k);
    forall d | d in Digests(own) ensures |d| == MEASUREMENT_LENGTH {
      var i :| 0 <= i < |own| && d == Padded(own[i]);
      assert own[i] in own;
    }
  }

  lemma {:induction false} OnlyIsPart(events: seq<Event>, k: int)
    ensures forall e :: e in Only(events, k) ==> e in events && e.imr == k
  {
    if events != [] { OnlyIsPart(Prior(events), k); }
  }

  // ---- quotes ----

  datatype Check = CannotReplay(fault: Fault) | Mismatch(register: nat)

  function Measurement(quote: ByteString, offset: nat): string
    requires offset + MEASUREMENT_LENGTH <= |quote|
  {
    ToHex(quote[offset..offset + MEASUREMENT_LENGTH])
  }

  /** The quote's measurement of register k is not the replayed one. */
  ghost predicate Differs(h: Hash, quote: ByteString, events: seq<Event>, k: nat)
    requires |quote| >= TDX_QUOTE_BODY_END
  {
    k < 4 && quote[RtmrOffset(k)..RtmrOffset(k) + MEASUREMENT_LENGTH] != Register(h, events, k)
  }

  ghost predicate Verified(h: Hash, quote: ByteString, events: seq<Event>)
    requires |quote| >= TDX_QUOTE_BODY_END
  {
    Clean(h, events) && forall k: nat :: !Differs(h, quote, events, k)
  }

  /** The registers the quote disagrees with; the source compares them as hex text. */
  method Mismatches(quote: ByteString, registers: seq<ByteString>) returns (checks: seq<Check>)
    requires |quote| >= TDX_QUOTE_BODY_END && |registers| == 4
    ensures forall k: nat :: Mismatch(k) in checks <==>
      k < 4 && quote[RtmrOffset(k)..RtmrOffset(k) + MEASUREMENT_LENGTH] != registers[k]
    ensures forall c :: c in checks ==> c.Mismatch?
  {
    checks := [];
    for k := 0 to 4
      invariant forall j: nat :: Mismatch(j) in checks <==>
        j < k && quote[RtmrOffset(j)..RtmrOffset(j) + MEASUREMENT_LENGTH] != registers[j]
      invariant forall c :: c in checks ==> c.Mismatch?
    {
      HexIsFaithful(quote[RtmrOffset(k)..RtmrOffset(k) + MEASUREMENT_LENGTH], registers[k]);
      if Measurement(quote, RtmrOffset(k)) != ToHex(registers[k]) {
        checks := checks + [Mismatch(k)];
      }
    }
  }

  /** The failed checks; None where the quote is too short and the source throws. */
  method VerifyEventLog(h: Hash, quote: ByteString, events: seq<Event>) returns (failed: Option<seq<Check>>)
    ensures failed.None? <==> |quote| < TDX_QUOTE_BODY_END
    ensures failed.Some? ==> (failed.value == [] <==> Verified(h, quote, events))
    ensures failed.Some? && Clean(h, events) ==>
      forall k: nat :: Mismatch(k) in failed.value <==> Differs(h, quote, events, k)
    ensures failed.Some? && !Clean(h, events) ==>
      exists i: nat, fault :: FirstFault(h, events, i, fault) && failed.value == [CannotReplay(fault)]
  {
    if |quote| < TDX_QUOTE_BODY_END {
      return None;
    }
    var replayed := ReplayRtmrs(h, events);
    FaultMeansUnclean(h, events, replayed);
    if replayed.Failed? {
      return Some([CannotReplay(replayed.fault)]);
    }
    var checks := Mismatches(quote, replayed.registers);
    if checks != [] {
      assert checks[0] in checks && checks[0] == Mismatch(checks[0].register);
      assert Differs(h, quote, events, checks[0].register);
    }
    failed := Some(checks);
  }

  /** The RTMRs are the four 48-byte fields from byte 376 of the quote on, the last of them ending at byte 568. */
  lemma OffsetsAre(k: nat)
    requires k < 4
    ensures RtmrOffset(k) == [376, 424, 472, 520][k] && RtmrOffset(k) + MEASUREMENT_LENGTH <= 568 < TDX_QUOTE_BODY_END
  {}

  /**
   * Two logs that verify against one quote extend each register as often, and
   * with the same padded digests: full digests agree one by one.
   */
  lemma QuotePinsLog(h: Hash, quote: ByteString, log: seq<Event>, log': seq<Event>, k: nat)
    requires |quote| >= TDX_QUOTE_BODY_END && Verified(h, quote, log) && Verified(h, quote, log') && k < 4
    requires NoCollision(h, Hashed(h, Digests(Only(log, k))), Hashed(h, Digests(Only(log', k))))
    ensures Digests(Only(log, k)) == Digests(Only(log', k))
    ensures |Only(log, k)| == |Only(log', k)|
    ensures forall i :: 0 <= i < |Only(log, k)| ==> SameDigest(Only(log, k)[i], Only(log', k)[i])
  {
    CleanDigestsPadded(h, log, k);
    CleanDigestsPadded(h, log', k);
    assert !Differs(h, quote, log, k) && !Differs(h, quote, log', k);
    RegisterPinsDigests(h, Digests(Only(log, k)), Digests(Only(log', k)));
    CleanOnly(h, log, k);
    CleanOnly(h, log', k);
    assert |Digests(Only(log, k))| == |Only(log, k)| && |Digests(Only(log', k))| == |Only(log', k)|;
    forall i | 0 <= i < |Only(log, k)| ensures SameDigest(Only(log, k)[i], Only(log', k)[i]) {
      assert Digests(Only(log, k))[i] == Digests(Only(log', k))[i];
      EqualPadding(Only(log, k)[i], Only(log', k)[i]);
    }
  }

  /** Digests equal up to trailing zeros, and equal if they are as long as each other. */
  ghost predicate SameDigest(e: Event, e': Event) {
    var d, d' := FromHex(e.digest), FromHex(e'.digest);
    && (|d| == |d'| ==> d == d')
    && (|d| <= |d'| ==> d == d'[..|d|] && forall i :: |d| <= i < |d'| ==> d'[i] == 0)
    && (|d'| <= |d| ==> d' == d[..|d'|] && forall i :: |d'| <= i < |d| ==> d[i] == 0)
  }

  lemma EqualPadding(e: Event, e': Event)
    requires |FromHex(e.digest)| <= 48 && |FromHex(e'.digest)| <= 48 && Padded(e) == Padded(e')
    ensures SameDigest(e, e')
  {
    PaddedLayout(e);
    PaddedLayout(e');
    var d, d', p := FromHex(e.digest), FromHex(e'.digest), Padded(e);
    assert d == p[..|d|] && d' == p[..|d'|];
    assert |d| <= |d'| ==> d'[..|d|] == p[..|d|];
    assert |d'| <= |d| ==> d[..|d'|] == p[..|d'|];
  }

  lemma CleanOnly(h: Hash, events: seq<Event>, k: int)
    requires Clean(h, events)
    ensures forall i :: 0 <= i < |Only(events, k)| ==> |FromHex(Only(events, k)[i].digest)| <= 48
  {
    OnlyIsPart(events, k);
    forall i | 0 <= i < |Only(events, k)| ensures |FromHex(Only(events, k)[i].digest)| <= 48 {
      assert Only(events, k)[i] in Only(events, k);
    }
  }

  /** In a clean log a runtime event's digest fixes the payload its name goes with. */
  lemma RuntimePayloadPinned(h: Hash, log: seq<Event>, log': seq<Event>, e: Event, e': Event)
    requires Clean(h, log) && Clean(h, log') && e in log && e' in log'
    requires e.eventType == e'.eventType == DSTACK_RUNTIME_EVENT_TYPE && FromHex(e.digest) == FromHex(e'.digest)
    requires h(RuntimeInput(e.name, FromHex(e.payload))) == h(RuntimeInput(e'.name, FromHex(e'.payload)))
         ==> RuntimeInput(e.name, FromHex(e.payload)) == RuntimeInput(e'.name, FromHex(e'.payload))
    ensures e.name == e'.name <==> FromHex(e.payload) == FromHex(e'.payload)
    ensures COLON !in e.name && COLON !in e'.name ==> e.name == e'.name
  {
    assert FaultOf(h, e).None? && FaultOf(h, e').None?;
    RuntimeInputSplits(e.name, FromHex(e.payload), e'.name, FromHex(e'.payload));
  }

  lemma RuntimeInputSplits(n: ByteString, p: ByteString, n': ByteString, p': ByteString)
    requires RuntimeInput(n, p) == RuntimeInput(n', p')
    ensures n == n' <==> p == p'
    ensures COLON !in n && COLON !in n' ==> n == n'
  {
    var s, s' := n + [COLON] + p, n' + [COLON] + p';
    assert RuntimeInput(n, p)[5..] == s && RuntimeInput(n', p')[5..] == s';
    assert s == s';
    assert s[..|n|] == n && s'[..|n'|] == n' && s[|n| + 1..] == p && s'[|n'| + 1..] == p';
    assert s[|n|] == COLON && s'[|n'|] == COLON;
    if |n| < |n'| { assert n'[|n|] == COLON && |p| > |p'|; }
    if |n'| < |n| { assert n[|n'|] == COLON && |p'| > |p|; }
  }
}
