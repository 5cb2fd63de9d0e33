/**
 * The bounded cache of cost estimates: a map in insertion order, evicted from
 * its oldest entry while it is iterated.
 */
module EstimateCaches {
  import opened Field

  const CACHE_TTL_MS := 300000
  const MAX_CACHE_ENTRIES := 1000

  /** What an estimate carries of the cost, in wei, and the deposit recommended for it. */
  datatype Estimate = Estimate(costWei: nat, recommendedDepositWei: nat)

  datatype Entry = Entry(key: string, estimate: Estimate, expiry: int)

  /** A JavaScript map: entries in insertion order, keys distinct. */
  ghost predicate Distinct(entries: seq<Entry>) {
    forall i, j :: 0 <= i < j < |entries| ==> entries[i].key != entries[j].key
  }

  function Without(entries: seq<Entry>, key: string): seq<Entry> {
    if entries == [] then []
    else if entries[0].key == key then Without(entries[1..], key)
    else [entries[0]] + Without(entries[1..], key)
  }

  function Live(entries: seq<Entry>, now: int): seq<Entry> {
    if entries == [] then []
    else if entries[0].expiry > now then [entries[0]] + Live(entries[1..], now)
    else Live(entries[1..], now)
  }

  /** Evicting from the oldest: expired entries, and any while the cache is full. */
  function Kept(entries: seq<Entry>, now: int, cap: nat): seq<Entry> {
    if entries == [] || (entries[0].expiry > now && |entries| < cap) then entries
    else Kept(entries[1..], now, cap)
  }

  function Stored(entries: seq<Entry>, key: string, estimate: Estimate, now: int, cap: nat): seq<Entry> {
    Kept(Without(entries, key), now, cap) + [Entry(key, estimate, now + CACHE_TTL_MS)]
  }

  function Found(entries: seq<Entry>, key: string): Option<Entry> {
    if entries == [] then None
    else if entries[0].key == key then Some(entries[0])
    else Found(entries[1..], key)
  }

  function Hit(entries: seq<Entry>, key: string, now: int): Option<Estimate> {
    match Found(entries, key)
    case Some(e) => if e.expiry > now then Some(e.estimate) else None
    case None => None
  }

  class EstimateCache {
    var entries: seq<Entry>
    const cap: nat

    ghost predicate Valid()
      reads this
    {
      cap >= 1 && Distinct(entries) && |entries| <= cap
    }

    constructor ()
      ensures Valid() && entries == [] && cap == MAX_CACHE_ENTRIES
    {
      entries, cap := [], MAX_CACHE_ENTRIES;
    }

    /** The cache lookup of estimateCost. */
    method Lookup(key: string, now: int) returns (estimate: Option<Estimate>)
      ensures estimate == Hit(entries, key, now)
    {
      var i := 0;
      while i < |entries| && entries[i].key != key
        invariant 0 <= i <= |entries| && Found(entries, key) == Found(entries[i..], key)
      {
        i := i + 1;
      }
      estimate := if i < |entries| && entries[i].expiry > now then Some(entries[i].estimate) else None;
    }

    /** Map.delete. */
    method Delete(key: string)
      modifies this`entries
      ensures entries == Without(old(entries), key)
    {
      var kept: seq<Entry>, i := [], 0;
      while i < |entries|
        invariant 0 <= i <= |entries| && entries == old(entries)
        invariant Without(entries, key) == kept + Without(entries[i..], key)
      {
        if entries[i].key != key { kept := kept + [entries[i]]; }
        i := i + 1;
      }
      entries := kept;
    }

    /** cacheEstimate: each turn of the loop looks at the oldest entry left. */
    method CacheEstimate(key: string, estimate: Estimate, now: int)
      requires Valid()
      modifies this`entries
      ensures Valid()
      ensures entries == Stored(old(entries), key, estimate, now, cap)
    {
      Delete(key);
      ghost var others := entries;
      while entries != []
        invariant Kept(entries, now, cap) == Kept(others, now, cap)
        decreases |entries|
      {
        if entries[0].expiry > now && |entries| < cap {
          break;
        }
        entries := entries[1..];
      }
      assert entries == Kept(others, now, cap);
      StoredStaysValid(old(entries), key, estimate, now, cap);
      entries := entries + [Entry(key, estimate, now + CACHE_TTL_MS)];
    }
  }

  // ---- the filters ----

  lemma ConsDistinct(e: Entry, entries: seq<Entry>)
    requires Distinct(entries) && forall x :: x in entries ==> x.key != e.key
    ensures Distinct([e] + entries)
  {
    assert forall i :: 0 <= i < |entries| ==> entries[i] in entries;
  }

  lemma FirstIsApart(entries: seq<Entry>)
    requires Distinct(entries) && entries != []
    ensures Distinct(entries[1..]) && forall x :: x in entries[1..] ==> x.key != entries[0].key
  {}

  lemma SnocDistinct(entries: seq<Entry>, e: Entry)
    requires Distinct(entries) && forall x :: x in entries ==> x.key != e.key
    ensures Distinct(entries + [e])
  {
    assert forall i :: 0 <= i < |entries| ==> entries[i] in entries;
  }

  lemma {:induction false} WithoutIsOthers(entries: seq<Entry>, key: string)
    requires Distinct(entries)
    ensures Distinct(Without(entries, key))
    ensures forall e :: e in Without(entries, key) <==> e in entries && e.key != key
    ensures |Without(entries, key)| == if Found(entries, key).Some? then |entries| - 1 else |entries|
  {
    if entries != [] {
      var first, rest := entries[0], entries[1..];
      assert entries == [first] + rest;
      FirstIsApart(entries);
      WithoutIsOthers(rest, key);
      if first.key == key {
        NotFound(rest, key);
      } else {
        ConsDistinct(first, Without(rest, key));
      }
    }
  }

  lemma {:induction false} NotFound(entries: seq<Entry>, key: string)
    requires forall e :: e in entries ==> e.key != key
    ensures Found(entries, key).None?
  {
    if entries != [] { NotFound(entries[1..], key); }
  }

  lemma {:induction false} FoundIsMember(entries: seq<Entry>, e: Entry)
    requires Distinct(entries)
    ensures Found(entries, e.key) == Some(e) <==> e in entries
  {
    if entries != [] {
      assert entries == [entries[0]] + entries[1..];
      assert forall i :: 0 < i < |entries| ==> entries[i].key != entries[0].key;
      FoundIsMember(entries[1..], e);
    }
  }

  /** What is kept is a tail, short enough for one more entry. */
  lemma {:induction false} KeptIsSuffix(entries: seq<Entry>, now: int, cap: nat)
    ensures var kept := Kept(entries, now, cap);
            |kept| <= |entries| && kept == entries[|entries| - |kept|..] && (kept == [] || |kept| < cap)
  {
    if entries != [] && !(entries[0].expiry > now && |entries| < cap) {
      KeptIsSuffix(entries[1..], now, cap);
    }
  }

  lemma {:induction false} KeptIsPart(entries: seq<Entry>, now: int, cap: nat)
    requires Distinct(entries)
    ensures Distinct(Kept(entries, now, cap)) && forall e :: e in Kept(entries, now, cap) ==> e in entries
  {
    KeptIsSuffix(entries, now, cap);
  }

  lemma StoredStaysValid(entries: seq<Entry>, key: string, estimate: Estimate, now: int, cap: nat)
    requires Distinct(entries) && 1 <= cap && |entries| <= cap
    ensures Distinct(Stored(entries, key, estimate, now, cap)) && |Stored(entries, key, estimate, now, cap)| <= cap
  {
    var others := Without(entries, key);
    WithoutIsOthers(entries, key);
    KeptIsPart(others, now, cap);
    KeptIsSuffix(others, now, cap);
    SnocDistinct(Kept(others, now, cap), Entry(key, estimate, now + CACHE_TTL_MS));
  }

  lemma StoredMembers(entries: seq<Entry>, key: string, estimate: Estimate, now: int, cap: nat, e: Entry)
    requires Distinct(entries) && e in Stored(entries, key, estimate, now, cap)
    ensures e == Entry(key, estimate, now + CACHE_TTL_MS) || (e in entries && e.key != key)
  {
    WithoutIsOthers(entries, key);
    KeptIsPart(Without(entries, key), now, cap);
  }

  // ---- one insert ----

  /** Insertion order is expiry order. */
  ghost predicate Ordered(entries: seq<Entry>) {
    forall i, j :: 0 <= i <= j < |entries| ==> entries[i].expiry <= entries[j].expiry
  }

  lemma {:induction false} LiveAll(entries: seq<Entry>, now: int)
    requires forall e :: e in entries ==> e.expiry > now
    ensures Live(entries, now) == entries
  {
    if entries != [] { LiveAll(entries[1..], now); }
  }

  lemma {:induction false} LiveIsLive(entries: seq<Entry>, now: int)
    ensures forall e :: e in Live(entries, now) <==> e in entries && e.expiry > now
    ensures |Live(entries, now)| <= |entries|
  {
    if entries != [] { LiveIsLive(entries[1..], now); }
  }

  /** In expiry order, the loop keeps the live entries, less the oldest of them when they fill the cache. */
  lemma {:induction false} KeptOfOrdered(entries: seq<Entry>, now: int, cap: nat)
    requires Ordered(entries) && 1 <= cap && |entries| <= cap
    ensures var live := Live(entries, now);
            Kept(entries, now, cap) == if |live| < cap then live else live[1..]
  {
    if entries != [] {
      if entries[0].expiry > now {
        LiveAll(entries, now);
      } else {
        LiveIsLive(entries[1..], now);
        KeptOfOrdered(entries[1..], now, cap);
      }
    }
  }

  lemma {:induction false} WithoutOrdered(entries: seq<Entry>, key: string)
    requires Ordered(entries) && Distinct(entries)
    ensures Ordered(Without(entries, key))
  {
    if entries != [] {
      var rest := Without(entries[1..], key);
      WithoutOrdered(entries[1..], key);
      FirstIsApart(entries);
      WithoutIsOthers(entries[1..], key);
      FirstIsOldest(entries);
      if entries[0].key != key { ConsOrdered(entries[0], rest); }
    }
  }

  lemma FirstIsOldest(entries: seq<Entry>)
    requires Ordered(entries) && entries != []
    ensures Ordered(entries[1..]) && forall x :: x in entries[1..] ==> entries[0].expiry <= x.expiry
  {}

  lemma {:induction false} LiveOrdered(entries: seq<Entry>, now: int)
    requires Ordered(entries)
    ensures Ordered(Live(entries, now))
  {
    if entries != [] {
      var rest := Live(entries[1..], now);
      FirstIsOldest(entries);
      LiveOrdered(entries[1..], now);
      LiveIsLive(entries[1..], now);
      if entries[0].expiry > now { ConsOrdered(entries[0], rest); }
    }
  }

  lemma ConsOrdered(e: Entry, entries: seq<Entry>)
    requires Ordered(entries) && forall x :: x in entries ==> e.expiry <= x.expiry
    ensures Ordered([e] + entries)
  {
    assert forall i :: 0 <= i < |entries| ==> entries[i] in entries;
  }

  lemma SnocOrdered(entries: seq<Entry>, e: Entry)
    requires Ordered(entries) && forall x :: x in entries ==> x.expiry <= e.expiry
    ensures Ordered(entries + [e])
  {
    assert forall i :: 0 <= i < |entries| ==> entries[i] in entries;
  }

  /**
   * One insert: no expired entry is left, and at most one live entry, the
   * oldest, is evicted, which happens only if the cache was full of other
   * live entries.
   */
  lemma InsertEvictsOldest(entries: seq<Entry>, key: string, estimate: Estimate, now: int, cap: nat)
    requires Ordered(entries) && Distinct(entries) && 1 <= cap && |entries| <= cap
    requires forall e :: e in entries ==> e.expiry <= now + CACHE_TTL_MS
    ensures var stored, live := Stored(entries, key, estimate, now, cap), Live(Without(entries, key), now);
            && stored == (if |live| < cap then live else live[1..]) + [Entry(key, estimate, now + CACHE_TTL_MS)]
            && Ordered(stored)
            && (forall e :: e in stored ==> now < e.expiry <= now + CACHE_TTL_MS)
            && (|live| >= cap ==> |entries| == cap && Found(entries, key).None? && live == entries)
  {
    var others := Without(entries, key);
    var live := Live(others, now);
    var kept := if |live| < cap then live else live[1..];
    WithoutIsOthers(entries, key);
    WithoutOrdered(entries, key);
    KeptOfOrdered(others, now, cap);
    LiveIsLive(others, now);
    LiveOrdered(others, now);
    if |live| >= cap { FirstIsOldest(live); }
    assert forall e :: e in kept ==> e in live;
    SnocOrdered(kept, Entry(key, estimate, now + CACHE_TTL_MS));
    if |live| >= cap {
      FullIsAll(others, now);
      WithoutAll(entries, key);
    }
  }

  lemma {:induction false} FullIsAll(entries: seq<Entry>, now: int)
    requires |Live(entries, now)| >= |entries|
    ensures Live(entries, now) == entries
  {
    if entries != [] {
      LiveIsLive(entries[1..], now);
      FullIsAll(entries[1..], now);
    }
  }

  lemma {:induction false} WithoutAll(entries: seq<Entry>, key: string)
    requires Found(entries, key).None?
    ensures Without(entries, key) == entries
  {
    if entries != [] { WithoutAll(entries[1..], key); }
  }

  // ---- whole runs ----

  datatype Insert = Insert(key: string, estimate: Estimate, at: int)

  /** The cache after a run of inserts. */
  function Cached(log: seq<Insert>, cap: nat): seq<Entry> {
    if log == [] then []
    else Stored(Cached(Earlier(log), cap), Latest(log).key, Latest(log).estimate, Latest(log).at, cap)
  }

  function Earlier(log: seq<Insert>): seq<Insert>
    requires log != []
  {
    log[..|log| - 1]
  }

  function Latest(log: seq<Insert>): Insert
    requires log != []
  {
    log[|log| - 1]
  }

  function EntryOf(insert: Insert): Entry {
    Entry(insert.key, insert.estimate, insert.at + CACHE_TTL_MS)
  }

  /** Whatever the clock does, keys stay distinct and the cap holds. */
  lemma {:induction false} CapHolds(log: seq<Insert>, cap: nat)
    requires 1 <= cap
    ensures Distinct(Cached(log, cap)) && |Cached(log, cap)| <= cap
  {
    if log != [] {
      CapHolds(Earlier(log), cap);
      StoredStaysValid(Cached(Earlier(log), cap), Latest(log).key, Latest(log).estimate, Latest(log).at, cap);
    }
  }

  ghost predicate Monotone(log: seq<Insert>) {
    forall i, j :: 0 <= i <= j < |log| ==> log[i].at <= log[j].at
  }

  /** With a clock that never goes back, insertion order is expiry order and nothing expired is left. */
  lemma {:induction false} OrderHolds(log: seq<Insert>, cap: nat)
    requires 1 <= cap && Monotone(log)
    ensures Ordered(Cached(log, cap))
    ensures forall e :: e in Cached(log, cap) ==> log != [] && Latest(log).at < e.expiry <= Latest(log).at + CACHE_TTL_MS
  {
    if log != [] {
      OrderHolds(Earlier(log), cap);
      CapHolds(Earlier(log), cap);
      InsertEvictsOldest(Cached(Earlier(log), cap), Latest(log).key, Latest(log).estimate, Latest(log).at, cap);
    }
  }

  /** Insert i is the last one of its key. */
  ghost predicate IsLatest(log: seq<Insert>, i: nat, key: string) {
    i < |log| && log[i].key == key && forall j :: i < j < |log| ==> log[j].key != key
  }

  lemma {:induction false} EntryIsLatest(log: seq<Insert>, cap: nat, e: Entry)
    requires 1 <= cap && e in Cached(log, cap)
    ensures exists i: nat :: IsLatest(log, i, e.key) && e == EntryOf(log[i])
  {
    var before, last := Cached(Earlier(log), cap), Latest(log);
    CapHolds(Earlier(log), cap);
    StoredMembers(before, last.key, last.estimate, last.at, cap, e);
    if e == EntryOf(last) {
      assert IsLatest(log, |log| - 1, e.key);
    } else {
      EntryIsLatest(Earlier(log), cap, e);
      var i: nat :| IsLatest(Earlier(log), i, e.key) && e == EntryOf(Earlier(log)[i]);
      LatestStays(log, i, e.key);
    }
  }

  lemma LatestStays(log: seq<Insert>, i: nat, key: string)
    requires log != [] && IsLatest(Earlier(log), i, key) && Latest(log).key != key
    ensures IsLatest(log, i, key) && log[i] == Earlier(log)[i]
  {}

  /** A hit returns the last estimate stored for its key, less than one lifetime ago. */
  lemma HitIsLatest(log: seq<Insert>, cap: nat, key: string, now: int)
    requires 1 <= cap && Hit(Cached(log, cap), key, now).Some?
    ensures exists i: nat :: IsLatest(log, i, key) && log[i].estimate == Hit(Cached(log, cap), key, now).value
                             && now < log[i].at + 300000
  {
    var entries := Cached(log, cap);
    CapHolds(log, cap);
    FoundHasKey(entries, key);
    var e := Found(entries, key).value;
    FoundIsMember(entries, e);
    EntryIsLatest(log, cap, e);
    var i: nat :| IsLatest(log, i, key) && e == EntryOf(log[i]);
  }

  lemma {:induction false} FoundHasKey(entries: seq<Entry>, key: string)
    ensures Found(entries, key).Some? ==> Found(entries, key).value.key == key
  {
    if entries != [] { FoundHasKey(entries[1..], key); }
  }

  /** Deleting another key keeps an entry, no further from the end. */
  lemma {:induction false} WithoutPosition(entries: seq<Entry>, key: string, j: nat) returns (j': nat)
    requires j < |entries| && entries[j].key != key
    ensures j' < |Without(entries, key)| && Without(entries, key)[j'] == entries[j]
    ensures |Without(entries, key)| - j' <= |entries| - j
  {
    if j == 0 {
      j' := 0;
      WithoutShorter(entries[1..], key);
    } else {
      j' := WithoutPosition(entries[1..], key, j - 1);
      if entries[0].key != key { j' := j' + 1; }
    }
  }

  lemma {:induction false} WithoutShorter(entries: seq<Entry>, key: string)
    ensures |Without(entries, key)| <= |entries|
  {
    if entries != [] { WithoutShorter(entries[1..], key); }
  }

  /** Eviction spares a live entry with fewer than cap entries from it on. */
  lemma {:induction false} YoungAreKept(entries: seq<Entry>, now: int, cap: nat, j: nat)
    requires j < |entries| && entries[j].expiry > now && |entries| - j < cap
    ensures |Kept(entries, now, cap)| >= |entries| - j
  {
    if !(entries[0].expiry > now && |entries| < cap) {
      YoungAreKept(entries[1..], now, cap, j - 1);
    }
  }

  lemma {:induction false} RecentIsCached(log: seq<Insert>, cap: nat, i: nat) returns (j: nat)
    requires i < |log| && IsLatest(log, i, log[i].key) && |log| - i <= cap
    requires forall l :: i <= l < |log| ==> log[l].at < log[i].at + CACHE_TTL_MS
    ensures j < |Cached(log, cap)| && Cached(log, cap)[j] == EntryOf(log[i])
    ensures |Cached(log, cap)| - j <= |log| - i
    decreases |log|
  {
    var last := Latest(log);
    var others := Without(Cached(Earlier(log), cap), last.key);
    KeptIsSuffix(others, last.at, cap);
    if i == |log| - 1 {
      j := |Cached(log, cap)| - 1;
    } else {
      j := RecentIsCached(Earlier(log), cap, i);
      j := WithoutPosition(Cached(Earlier(log), cap), last.key, j);
      YoungAreKept(others, last.at, cap, j);
      j := j - (|others| - |Kept(others, last.at, cap)|);
    }
  }

  /** Each of the last cap inserts is a hit until it expires or its key is stored again. */
  lemma RecentIsHit(log: seq<Insert>, cap: nat, i: nat, now: int)
    requires i < |log| && IsLatest(log, i, log[i].key) && |log| - i <= cap
    requires forall l :: i <= l < |log| ==> log[l].at < log[i].at + 300000
    requires now < log[i].at + 300000
    ensures Hit(Cached(log, cap), log[i].key, now) == Some(log[i].estimate)
  {
    var j := RecentIsCached(log, cap, i);
    CapHolds(log, cap);
    FoundIsMember(Cached(log, cap), EntryOf(log[i]));
  }
}
