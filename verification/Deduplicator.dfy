/** The sliding-window packet filter of src/deduplicator.py.  The ordered dictionary is a
    sequence of entries, oldest sighting first. */
module Deduplicator {
  import opened Common

  datatype Entry = Entry(key: string, lastSeen: real, expiresAt: real)

  type Cache = seq<Entry>

  // ---------------------------------------------------------------- one call

  function Unexpired(c: Cache, now: real): Cache {
    if c == [] then []
    else
      var front, e := Unexpired(c[..|c| - 1], now), c[|c| - 1];
      if now >= e.expiresAt then front else front + [e]
  }

  /** The position of a key, |c| when it is absent. */
  function Find(c: Cache, key: string): (i: nat)
    ensures i <= |c| && (i < |c| ==> c[i].key == key)
    ensures forall j | 0 <= j < i :: c[j].key != key
  {
    if c == [] || c[0].key == key then 0 else 1 + Find(c[1..], key)
  }

  function Dropped(c: Cache, i: nat): Cache
    requires i < |c|
  {
    c[..i] + c[i + 1..]
  }

  /** The cache without its entry for a key. */
  function Without(c: Cache, key: string): Cache {
    var i := Find(c, key);
    if i < |c| then Dropped(c, i) else c
  }

  /** Setting a key and moving it to the end. */
  function Put(c: Cache, e: Entry): Cache {
    Without(c, e.key) + [e]
  }

  function Trim(c: Cache, max: nat): Cache {
    if |c| > max then c[1..] else c
  }

  function IsDuplicate(c: Cache, key: string, window: real, now: real): bool {
    var i := Find(c, key);
    i < |c| && now < c[i].expiresAt && now - c[i].lastSeen < window
  }

  /** `_check_and_insert`: the answer and the new cache. */
  function Check(c: Cache, max: nat, key: string, window: real, now: real): (bool, Cache) {
    var kept := Unexpired(c, now);
    if IsDuplicate(kept, key, window, now) then (true, kept)
    else (false, Trim(Put(kept, Entry(key, now, now + window)), max))
  }

  lemma {:induction false} UnexpiredHas(c: Cache, now: real)
    ensures forall e :: e in Unexpired(c, now) <==> e in c && now < e.expiresAt
  {
    if c != [] {
      UnexpiredHas(c[..|c| - 1], now);
      assert forall e :: e in c <==> e in c[..|c| - 1] || e == c[|c| - 1];
    }
  }

  lemma OnePlace(c: Cache, i: nat, j: nat)
    requires Distinct(c) && i < |c| && j < |c| && c[i].key == c[j].key
    ensures i == j
  {
  }

  /** The entry for a key is the one that the search finds. */
  lemma FindsEntry(c: Cache, e: Entry)
    requires Distinct(c) && e in c
    ensures Find(c, e.key) < |c| && c[Find(c, e.key)] == e
  {
    var i :| 0 <= i < |c| && c[i] == e;
    OnePlace(c, i, Find(c, e.key));
  }

  lemma {:induction false} UnexpiredDistinct(c: Cache, now: real)
    requires Distinct(c)
    ensures Distinct(Unexpired(c, now))
  {
    if c != [] {
      UnexpiredDistinct(c[..|c| - 1], now);
      UnexpiredHas(c[..|c| - 1], now);
    }
  }

  /** An entry for the key that has not expired and is younger than the window of the call. */
  ghost predicate SeenLately(c: Cache, key: string, window: real, now: real) {
    exists e :: e in c && e.key == key && now < e.expiresAt && now - e.lastSeen < window
  }

  lemma DuplicateMeans(c: Cache, key: string, window: real, now: real)
    requires Distinct(c)
    ensures IsDuplicate(Unexpired(c, now), key, window, now) <==> SeenLately(c, key, window, now)
  {
    var kept := Unexpired(c, now);
    UnexpiredHas(c, now);
    UnexpiredDistinct(c, now);
    if IsDuplicate(kept, key, window, now) {
      assert kept[Find(kept, key)] in kept;
    }
    if SeenLately(c, key, window, now) {
      var e :| e in c && e.key == key && now < e.expiresAt && now - e.lastSeen < window;
      FindsEntry(kept, e);
    }
  }

  /** What one call does to the cache `c`: a sighting is a duplicate exactly when its key was seen
      lately; one that is not becomes the last entry, and what else is left was there before and
      has not expired. */
  ghost predicate Answers(c: Cache, key: string, window: real, now: real, duplicate: bool, after: Cache) {
    && (duplicate <==> SeenLately(c, key, window, now))
    && (duplicate ==> forall e :: e in after <==> e in c && now < e.expiresAt)
    && (!duplicate ==>
          && after != [] && after[|after| - 1] == Entry(key, now, now + window)
          && forall e | e in after[..|after| - 1] :: e in c && now < e.expiresAt)
  }

  lemma PutMeans(c: Cache, max: nat, e: Entry)
    requires max > 0
    ensures var after := Trim(Put(c, e), max);
            after != [] && after[|after| - 1] == e && forall x | x in after[..|after| - 1] :: x in c
  {
  }

  lemma CheckMeans(c: Cache, max: nat, key: string, window: real, now: real)
    requires Distinct(c) && max > 0
    ensures var (duplicate, after) := Check(c, max, key, window, now);
            Answers(c, key, window, now, duplicate, after)
  {
    DuplicateMeans(c, key, window, now);
    UnexpiredHas(c, now);
    PutMeans(Unexpired(c, now), max, Entry(key, now, now + window));
  }

  // ---------------------------------------------------------------- any windows

  ghost predicate Distinct(c: Cache) {
    forall i, j | 0 <= i < j < |c| :: c[i].key != c[j].key
  }

  ghost predicate Ordered(c: Cache, clock: real) {
    && (forall i, j | 0 <= i < j < |c| :: c[i].lastSeen <= c[j].lastSeen)
    && (forall i | 0 <= i < |c| :: c[i].lastSeen <= clock)
  }

  ghost predicate WellKept(c: Cache, max: nat, clock: real) {
    |c| <= max && Distinct(c) && Ordered(c, clock)
  }

  lemma {:induction false} UnexpiredKeeps(c: Cache, max: nat, clock: real, now: real)
    requires WellKept(c, max, clock) && clock <= now
    ensures WellKept(Unexpired(c, now), max, now) && |Unexpired(c, now)| <= |c|
    ensures forall i | 0 <= i < |Unexpired(c, now)| :: Unexpired(c, now)[i] in c && now < Unexpired(c, now)[i].expiresAt
  {
    if c != [] {
      var front, e := c[..|c| - 1], c[|c| - 1];
      UnexpiredKeeps(front, max, clock, now);
      forall i | 0 <= i < |Unexpired(front, now)|
        ensures Unexpired(front, now)[i].key != e.key && Unexpired(front, now)[i].lastSeen <= e.lastSeen
      {
        var j :| 0 <= j < |front| && front[j] == Unexpired(front, now)[i];
        assert c[j] == front[j];
      }
    }
  }

  lemma DroppedKeeps(c: Cache, now: real, i: nat)
    requires Distinct(c) && Ordered(c, now) && i < |c|
    ensures Distinct(Dropped(c, i)) && Ordered(Dropped(c, i), now) && |Dropped(c, i)| < |c|
    ensures forall j | 0 <= j < |Dropped(c, i)| :: Dropped(c, i)[j].key != c[i].key
  {
    var rest := Dropped(c, i);
    assert forall j | 0 <= j < |rest| :: rest[j] == c[if j < i then j else j + 1];
  }

  lemma PutKeeps(c: Cache, max: nat, now: real, e: Entry)
    requires Distinct(c) && Ordered(c, now) && |c| <= max && e.lastSeen == now
    ensures Distinct(Put(c, e)) && Ordered(Put(c, e), now) && |Put(c, e)| <= max + 1
  {
    if Find(c, e.key) < |c| {
      DroppedKeeps(c, now, Find(c, e.key));
    }
  }

  lemma TrimKeeps(c: Cache, max: nat, now: real)
    requires Distinct(c) && Ordered(c, now) && |c| <= max + 1
    ensures WellKept(Trim(c, max), max, now)
  {
  }

  /** Whatever windows the calls ask for, the cache stays within its capacity, without repeated
      keys and in the order of the last sightings. */
  lemma CheckKeeps(c: Cache, max: nat, clock: real, key: string, window: real, now: real)
    requires WellKept(c, max, clock) && clock <= now
    ensures WellKept(Check(c, max, key, window, now).1, max, now)
  {
    UnexpiredKeeps(c, max, clock, now);
    var kept := Unexpired(c, now);
    PutKeeps(kept, max, now, Entry(key, now, now + window));
    TrimKeeps(Put(kept, Entry(key, now, now + window)), max, now);
  }

  // ---------------------------------------------------------------- one fixed window

  datatype Sighting = Sighting(key: string, time: real)

  /** The latest sighting of a key in the log of accepted ones. */
  function Latest(log: seq<Sighting>, key: string): (i: int)
    ensures -1 <= i < |log| && (i >= 0 ==> log[i].key == key)
    ensures forall j | i < j < |log| :: log[j].key != key
  {
    if log == [] then -1
    else if log[|log| - 1].key == key then |log| - 1
    else Latest(log[..|log| - 1], key)
  }

  /** What the filter is for: the key was accepted less than a window ago, and fewer than `max`
      others have been accepted since. */
  ghost predicate SeenRecently(log: seq<Sighting>, key: string, window: real, max: nat, now: real) {
    var i := Latest(log, key);
    i >= 0 && now - log[i].time < window && |log| - 1 - i < max
  }

  ghost predicate Mirrors(c: Cache, log: seq<Sighting>, window: real) {
    && |c| <= |log|
    && forall i | 0 <= i < |c| :: c[i] == EntryOf(log[|log| - |c| + i], window)
  }

  function EntryOf(s: Sighting, window: real): Entry {
    Entry(s.key, s.time, s.time + window)
  }

  ghost predicate InOrder(log: seq<Sighting>, clock: real) {
    && (forall i, j | 0 <= i < j < |log| :: log[i].time <= log[j].time)
    && (forall i | 0 <= i < |log| :: log[i].time <= clock)
  }

  /** The first `n` sightings are too old or too far back to matter. */
  ghost predicate Gone(log: seq<Sighting>, n: int, window: real, max: nat, clock: real)
    requires n <= |log|
  {
    forall i | 0 <= i < n :: log[i].time + window <= clock || |log| - 1 - i >= max
  }

  /** The cache is the end of the log, and what lies before it is gone. */
  ghost predicate EndOf(c: Cache, log: seq<Sighting>, window: real, max: nat, clock: real) {
    && |c| <= max && Distinct(c) && Mirrors(c, log, window) && InOrder(log, clock)
    && Gone(log, |log| - |c|, window, max, clock)
  }

  lemma {:induction false} AllExpired(c: Cache, now: real)
    requires forall i | 0 <= i < |c| :: c[i].expiresAt <= now
    ensures Unexpired(c, now) == []
  {
    if c != [] {
      AllExpired(c[..|c| - 1], now);
    }
  }

  /** With one window the expired entries are a prefix. */
  lemma {:induction false} UnexpiredIsSuffix(c: Cache, now: real) returns (k: nat)
    requires forall i, j | 0 <= i < j < |c| :: c[i].expiresAt <= c[j].expiresAt
    ensures k <= |c| && Unexpired(c, now) == c[k..]
    ensures forall i | 0 <= i < k :: c[i].expiresAt <= now
    ensures forall i | k <= i < |c| :: now < c[i].expiresAt
  {
    if c == [] {
      k := 0;
    } else {
      var front := c[..|c| - 1];
      if now >= c[|c| - 1].expiresAt {
        AllExpired(c, now);
        k := |c|;
      } else {
        k := UnexpiredIsSuffix(front, now);
        assert c[k..] == front[k..] + [c[|c| - 1]];
      }
    }
  }

  lemma PrunedIsEndOf(c: Cache, log: seq<Sighting>, window: real, max: nat, clock: real, now: real)
    requires EndOf(c, log, window, max, clock) && clock <= now
    ensures EndOf(Unexpired(c, now), log, window, max, now)
    ensures forall i | 0 <= i < |Unexpired(c, now)| :: now < Unexpired(c, now)[i].expiresAt
  {
    forall i, j | 0 <= i < j < |c|
      ensures c[i].expiresAt <= c[j].expiresAt
    {
      assert log[|log| - |c| + i].time <= log[|log| - |c| + j].time;
    }
    var k := UnexpiredIsSuffix(c, now);
    forall i | 0 <= i < |log| - |c[k..]|
      ensures log[i].time + window <= now || |log| - 1 - i >= max
    {
      if i >= |log| - |c| {
        assert c[i - (|log| - |c|)].expiresAt <= now;
      }
    }
    assert Mirrors(c[k..], log, window);
  }

  lemma MirroredKeys(c: Cache, log: seq<Sighting>, window: real, from: nat, key: string)
    requires Mirrors(c, log, window) && from <= |c|
    requires forall j | from <= j < |c| :: c[j].key != key
    ensures forall j | |log| - |c| + from <= j < |log| :: log[j].key != key
  {
    forall j | |log| - |c| + from <= j < |log|
      ensures log[j].key != key
    {
      assert c[j - (|log| - |c|)] == EntryOf(log[j], window);
    }
  }

  /** A key in a distinct end of the log: its entry is its latest sighting. */
  lemma {:induction false} FoundIsLatest(c: Cache, log: seq<Sighting>, window: real, key: string)
    requires Mirrors(c, log, window) && Distinct(c)
    ensures var i := Find(c, key);
            if i < |c| then Latest(log, key) == |log| - |c| + i else Latest(log, key) < |log| - |c|
  {
    var i := Find(c, key);
    if i < |c| {
      MirroredKeys(c, log, window, i + 1, key);
      assert c[i] == EntryOf(log[|log| - |c| + i], window);
    } else {
      MirroredKeys(c, log, window, 0, key);
    }
  }

  /** On a pruned cache; an entry that is found is then always a duplicate. */
  lemma DuplicateMeansSeen(c: Cache, log: seq<Sighting>, window: real, max: nat, key: string, now: real)
    requires EndOf(c, log, window, max, now)
    requires forall i | 0 <= i < |c| :: now < c[i].expiresAt
    ensures IsDuplicate(c, key, window, now) <==> Find(c, key) < |c|
    ensures IsDuplicate(c, key, window, now) <==> SeenRecently(log, key, window, max, now)
  {
    FoundIsLatest(c, log, window, key);
    var i := Find(c, key);
    if i < |c| {
      assert c[i] == EntryOf(log[|log| - |c| + i], window);
    }
  }

  /** The filter answers "duplicate" exactly when the key was seen recently, and goes on
      mirroring the log. */
  lemma CheckMeansSeenRecently(c: Cache, log: seq<Sighting>, window: real, max: nat, clock: real, key: string, now: real)
    requires EndOf(c, log, window, max, clock) && clock <= now
    ensures var (duplicate, c') := Check(c, max, key, window, now);
            && (duplicate <==> SeenRecently(log, key, window, max, now))
            && EndOf(c', if duplicate then log else log + [Sighting(key, now)], window, max, now)
  {
    var kept, s := Unexpired(c, now), Sighting(key, now);
    PrunedIsEndOf(c, log, window, max, clock, now);
    DuplicateMeansSeen(kept, log, window, max, key, now);
    if !IsDuplicate(kept, key, window, now) {
      InsertedIsEndOf(kept, log, window, max, now, s);
      assert EntryOf(s, window) == Entry(key, now, now + window);
    }
  }

  lemma InsertedIsEndOf(c: Cache, log: seq<Sighting>, window: real, max: nat, now: real, s: Sighting)
    requires EndOf(c, log, window, max, now) && Find(c, s.key) == |c| && s.time == now
    ensures EndOf(Trim(Put(c, EntryOf(s, window)), max), log + [s], window, max, now)
  {
    MirrorsAppend(c, log, s, window);
    GoneAppend(log, |log| - |c|, window, max, now, s);
    InOrderAppend(log, now, s);
    DistinctAppend(c, EntryOf(s, window));
    TrimmedIsEndOf(c + [EntryOf(s, window)], log + [s], window, max, now);
  }

  lemma TrimmedIsEndOf(c: Cache, log: seq<Sighting>, window: real, max: nat, now: real)
    requires |c| <= max + 1 && Distinct(c) && Mirrors(c, log, window) && InOrder(log, now)
    requires Gone(log, |log| - |c|, window, max, now)
    ensures EndOf(Trim(c, max), log, window, max, now)
  {
  }

  lemma InOrderAppend(log: seq<Sighting>, now: real, s: Sighting)
    requires InOrder(log, now) && s.time == now
    ensures InOrder(log + [s], now)
  {
  }

  lemma DistinctAppend(c: Cache, e: Entry)
    requires Distinct(c) && Find(c, e.key) == |c|
    ensures Distinct(c + [e])
  {
  }

  lemma GoneAppend(log: seq<Sighting>, n: nat, window: real, max: nat, clock: real, s: Sighting)
    requires n <= |log| && Gone(log, n, window, max, clock)
    ensures Gone(log + [s], n, window, max, clock)
  {
  }

  lemma MirrorsAppend(c: Cache, log: seq<Sighting>, s: Sighting, window: real)
    requires Mirrors(c, log, window)
    ensures Mirrors(c + [EntryOf(s, window)], log + [s], window)
  {
  }

  datatype Call = Call(key: string, now: real)
  datatype State = State(cache: Cache, log: seq<Sighting>)

  /** A run of calls on an empty filter, with the log of the sightings it accepted. */
  function Run(calls: seq<Call>, window: real, max: nat): State {
    if calls == [] then State([], [])
    else
      var s, call := Run(calls[..|calls| - 1], window, max), calls[|calls| - 1];
      var (duplicate, c) := Check(s.cache, max, call.key, window, call.now);
      State(c, if duplicate then s.log else s.log + [Sighting(call.key, call.now)])
  }

  predicate ClockRuns(calls: seq<Call>) {
    forall i, j | 0 <= i < j < |calls| :: calls[i].now <= calls[j].now
  }

  lemma {:induction false} RunMirrorsLog(calls: seq<Call>, window: real, max: nat)
    requires ClockRuns(calls) && calls != []
    ensures var s := Run(calls, window, max); EndOf(s.cache, s.log, window, max, calls[|calls| - 1].now)
  {
    var front, call := calls[..|calls| - 1], calls[|calls| - 1];
    var s := Run(front, window, max);
    if front != [] {
      RunMirrorsLog(front, window, max);
      CheckMeansSeenRecently(s.cache, s.log, window, max, front[|front| - 1].now, call.key, call.now);
    } else {
      CheckMeansSeenRecently(s.cache, s.log, window, max, call.now, call.key, call.now);
    }
  }

  /** After any run, the next answer. */
  lemma NextAnswer(calls: seq<Call>, window: real, max: nat, key: string, now: real)
    requires ClockRuns(calls + [Call(key, now)])
    ensures var s := Run(calls, window, max);
            Check(s.cache, max, key, window, now).0 <==> SeenRecently(s.log, key, window, max, now)
  {
    var s := Run(calls, window, max);
    if calls == [] {
      CheckMeansSeenRecently(s.cache, s.log, window, max, now, key, now);
    } else {
      var all := calls + [Call(key, now)];
      assert forall i | 0 <= i < |calls| :: all[i] == calls[i];
      assert calls[|calls| - 1].now <= all[|calls|].now;
      RunMirrorsLog(calls, window, max);
      CheckMeansSeenRecently(s.cache, s.log, window, max, calls[|calls| - 1].now, key, now);
    }
  }

  // ---------------------------------------------------------------- the program

  class PacketDeduplicator {
    const windowSeconds: real
    const maxEntries: nat
    var cache: Cache
    ghost var clock: real

    ghost predicate Valid()
      reads this
    {
      WellKept(cache, maxEntries, clock)
    }

    constructor (windowSeconds: real, maxEntries: nat, ghost now: real)
      ensures this.windowSeconds == windowSeconds && this.maxEntries == maxEntries
      ensures Valid() && cache == [] && clock == now
    {
      this.windowSeconds, this.maxEntries := windowSeconds, maxEntries;
      cache, clock := [], now;
    }

    method Prune(now: real)
      modifies this`cache
      ensures cache == Unexpired(old(cache), now)
    {
      var kept: Cache := [];
      for i := 0 to |cache|
        invariant cache == old(cache) && kept == Unexpired(cache[..i], now)
      {
        assert cache[..i + 1][..i] == cache[..i];
        if now < cache[i].expiresAt {
          kept := kept + [cache[i]];
        }
      }
      assert cache[..|cache|] == cache;
      cache := kept;
    }

    method CheckAndInsert(key: string, windowOverride: Option<real>, now: real) returns (duplicate: bool)
      requires Valid() && clock <= now
      modifies this
      ensures Valid() && clock == now
      ensures var window := if windowOverride.Some? then windowOverride.value else windowSeconds;
              (duplicate, cache) == Check(old(cache), maxEntries, key, window, now)
      ensures var window := if windowOverride.Some? then windowOverride.value else windowSeconds;
              maxEntries > 0 ==> Answers(old(cache), key, window, now, duplicate, cache)
    {
      var window := if windowOverride.Some? then windowOverride.value else windowSeconds;
      if maxEntries > 0 {
        CheckMeans(cache, maxEntries, key, window, now);
      }
      Prune(now);
      duplicate := Seen(key, window, now);
      if !duplicate {
        Insert(Entry(key, now, now + window));
      }
      assert (duplicate, cache) == Check(old(cache), maxEntries, key, window, now);
      CheckKeeps(old(cache), maxEntries, old(clock), key, window, now);
      clock := now;
    }

    method Seen(key: string, window: real, now: real) returns (duplicate: bool)
      ensures duplicate == IsDuplicate(cache, key, window, now)
    {
      var i := Find(cache, key);
      duplicate := i < |cache| && now < cache[i].expiresAt && now - cache[i].lastSeen < window;
    }

    method Insert(e: Entry)
      modifies this`cache
      ensures cache == Trim(Put(old(cache), e), maxEntries)
    {
      cache := Put(cache, e);
      if |cache| > maxEntries {
        cache := cache[1..];
      }
    }
  }
}
