/**
 The process-local response cache: least-recently-used eviction over a capacity bound, and a
 time-to-live on every entry. An insertion-ordered dictionary is a sequence of entries with
 distinct keys, oldest first.

 `InMemoryKVCache` is proved against `Step`, which says what one operation does to the entries.
 The theorems are about whole scripts of timed operations: what a hit may return, which keys
 must still hit, and how caches of different capacities compare.
 */
module KVCache {
  import opened Basics

  type Payload = seq<byte>

  datatype Entry = Entry(key: string, expiresAt: real, value: Payload)

  datatype Op =
    | Get(key: string)
    | Set(key: string, value: Payload, ttlSeconds: int)
    | Close

  datatype Reply = Miss | Hit(value: Payload) | Stored | InvalidTtl | Closed

  /** An operation together with the reading of the clock while it holds the lock. */
  datatype Event = Event(now: real, op: Op)

  // ---------------------------------------------------------------- one operation

  ghost function Keys(entries: seq<Entry>): set<string> {
    set e | e in entries :: e.key
  }

  function Find(entries: seq<Entry>, key: string): (found: Option<Entry>)
    ensures found.None? <==> key !in Keys(entries)
    ensures found.Some? ==> found.value in entries && found.value.key == key
  {
    if entries == [] then None
    else if entries[0].key == key then Some(entries[0])
    else Find(entries[1..], key)
  }

  function Without(entries: seq<Entry>, key: string): seq<Entry> {
    if entries == [] then []
    else if entries[0].key == key then Without(entries[1..], key)
    else [entries[0]] + Without(entries[1..], key)
  }

  function Trim(entries: seq<Entry>, capacity: nat): seq<Entry> {
    if |entries| > capacity then entries[|entries| - capacity..] else entries
  }

  /** The entries once `e` has become the most recently used one. */
  function Recent(entries: seq<Entry>, e: Entry): seq<Entry> {
    Without(entries, e.key) + [e]
  }

  function Step(entries: seq<Entry>, capacity: nat, event: Event): (seq<Entry>, Reply) {
    match event.op
    case Get(key) => (
      match Find(entries, key)
      case None => (entries, Miss)
      case Some(e) =>
        if e.expiresAt <= event.now then (Without(entries, key), Miss)
        else (Recent(entries, e), Hit(e.value)))
    case Set(key, value, ttl) =>
      if ttl < 1 then (entries, InvalidTtl)
      else (Trim(Recent(entries, Entry(key, event.now + ttl as real, value)), capacity), Stored)
    case Close => ([], Closed)
  }

  /** The entries a fresh cache holds after a script. */
  function After(capacity: nat, script: seq<Event>): seq<Entry> {
    if script == [] then []
    else Step(After(capacity, script[..|script| - 1]), capacity, script[|script| - 1]).0
  }

  function Answer(capacity: nat, script: seq<Event>, event: Event): Reply {
    Step(After(capacity, script), capacity, event).1
  }

  // ---------------------------------------------------------------- the class

  ghost predicate DistinctKeys(entries: seq<Entry>) {
    forall i, j :: 0 <= i < j < |entries| ==> entries[i].key != entries[j].key
  }

  lemma {:induction false} WithoutMembers(entries: seq<Entry>, key: string)
    ensures forall e :: e in Without(entries, key) <==> e in entries && e.key != key
    ensures |Without(entries, key)| <= |entries|
  {
    if entries != [] {
      WithoutMembers(entries[1..], key);
      assert entries == [entries[0]] + entries[1..];
    }
  }

  lemma {:induction false} WithoutKeepsDistinct(entries: seq<Entry>, key: string)
    requires DistinctKeys(entries)
    ensures DistinctKeys(Without(entries, key))
  {
    if entries != [] {
      var rest := Without(entries[1..], key);
      WithoutKeepsDistinct(entries[1..], key);
      WithoutMembers(entries[1..], key);
      forall i | 0 <= i < |rest| ensures rest[i].key != entries[0].key {
        assert rest[i] in entries[1..];
      }
    }
  }

  lemma {:induction false} WithoutLength(entries: seq<Entry>, key: string)
    requires DistinctKeys(entries)
    ensures key in Keys(entries) ==> |Without(entries, key)| == |entries| - 1
    ensures key !in Keys(entries) ==> Without(entries, key) == entries
  {
    if entries != [] {
      WithoutLength(entries[1..], key);
      assert entries == [entries[0]] + entries[1..];
      assert entries[0].key !in Keys(entries[1..]);
    }
  }

  lemma RecentKeepsDistinct(entries: seq<Entry>, e: Entry)
    requires DistinctKeys(entries)
    ensures DistinctKeys(Recent(entries, e))
    ensures |Recent(entries, e)| == if e.key in Keys(entries) then |entries| else |entries| + 1
  {
    var rest := Without(entries, e.key);
    WithoutKeepsDistinct(entries, e.key);
    WithoutMembers(entries, e.key);
    WithoutLength(entries, e.key);
    forall i | 0 <= i < |rest| ensures rest[i].key != e.key {
      assert rest[i] in rest;
    }
  }

  lemma StepKeepsBound(entries: seq<Entry>, capacity: nat, event: Event)
    requires DistinctKeys(entries) && |entries| <= capacity
    ensures DistinctKeys(Step(entries, capacity, event).0)
    ensures |Step(entries, capacity, event).0| <= capacity
  {
    match event.op
    case Close =>
    case Set(key, value, ttl) =>
      RecentKeepsDistinct(entries, Entry(key, event.now + ttl as real, value));
    case Get(key) =>
      WithoutKeepsDistinct(entries, key);
      WithoutMembers(entries, key);
      if Find(entries, key).Some? {
        assert Find(entries, key).value.key in Keys(entries);
        RecentKeepsDistinct(entries, Find(entries, key).value);
      }
  }

  class InMemoryKVCache {
    const maxEntries: nat
    var entries: seq<Entry>

    ghost predicate Valid() reads this {
      1 <= maxEntries && |entries| <= maxEntries && DistinctKeys(entries)
    }

    constructor (maxEntries: nat)
      requires 1 <= maxEntries
      ensures Valid() && this.maxEntries == maxEntries && entries == []
    {
      this.maxEntries := maxEntries;
      entries := [];
    }

    /** Construction as callers see it: a bound below one is a ValueError. */
    static method Create(maxEntries: int) returns (r: Result<InMemoryKVCache, string>)
      ensures r.Err? <==> maxEntries < 1
      ensures r.Ok? ==> fresh(r.value) && r.value.Valid() && r.value.maxEntries == maxEntries && r.value.entries == []
    {
      if maxEntries < 1 { return Err("max_entries must be positive"); }
      var cache := new InMemoryKVCache(maxEntries);
      r := Ok(cache);
    }

    method Lookup(key: string, now: real) returns (value: Option<Payload>)
      requires Valid()
      modifies this
      ensures Valid()
      ensures entries == Step(old(entries), maxEntries, Event(now, Get(key))).0
      ensures value == match Step(old(entries), maxEntries, Event(now, Get(key))).1
                       case Hit(v) => Some(v)
                       case _ => None
    {
      StepKeepsBound(entries, maxEntries, Event(now, Get(key)));
      var entry := Find(entries, key);
      if entry.None? { return None; }
      var expiresAt := entry.value.expiresAt;
      if expiresAt <= now {
        entries := Without(entries, key);
        return None;
      }
      entries := Without(entries, key) + [entry.value];
      value := Some(entry.value.value);
    }

    method Store(key: string, value: Payload, ttlSeconds: int, now: real) returns (stored: bool)
      requires Valid()
      modifies this
      ensures Valid()
      ensures stored <==> 1 <= ttlSeconds
      ensures entries == Step(old(entries), maxEntries, Event(now, Set(key, value, ttlSeconds))).0
    {
      StepKeepsBound(entries, maxEntries, Event(now, Set(key, value, ttlSeconds)));
      if ttlSeconds < 1 { return false; }
      entries := Without(entries, key) + [Entry(key, now + ttlSeconds as real, value)];
      ghost var grown := entries;
      while |entries| > maxEntries
        invariant |entries| <= |grown|
        invariant entries == grown[|grown| - |entries|..]
        invariant |entries| < |grown| ==> |entries| >= maxEntries
      {
        entries := entries[1..];
      }
      stored := true;
    }

    method Clear()
      requires Valid()
      modifies this
      ensures Valid()
      ensures entries == Step(old(entries), maxEntries, Event(0.0, Close)).0
    {
      entries := [];
    }
  }

  lemma {:induction false} AfterKeepsBound(capacity: nat, script: seq<Event>)
    ensures DistinctKeys(After(capacity, script)) && |After(capacity, script)| <= capacity
  {
    if script != [] {
      AfterKeepsBound(capacity, script[..|script| - 1]);
      StepKeepsBound(After(capacity, script[..|script| - 1]), capacity, script[|script| - 1]);
    }
  }

  // ---------------------------------------------------------------- a hit is the latest value

  /** The last valid store of a key since the last close, read off the script alone. */
  function LastStore(script: seq<Event>, key: string): Option<Entry> {
    if script == [] then None
    else
      var last := script[|script| - 1];
      match last.op
      case Close => None
      case Set(k, value, ttl) =>
        if k == key && 1 <= ttl then Some(Entry(key, last.now + ttl as real, value))
        else LastStore(script[..|script| - 1], key)
      case Get(_) => LastStore(script[..|script| - 1], key)
  }

  lemma {:induction false} EntriesAreLastStores(capacity: nat, script: seq<Event>)
    ensures forall e :: e in After(capacity, script) ==> LastStore(script, e.key) == Some(e)
  {
    if script != [] {
      var before, last := script[..|script| - 1], script[|script| - 1];
      EntriesAreLastStores(capacity, before);
      if !last.op.Close? { WithoutMembers(After(capacity, before), last.op.key); }
    }
  }

  /** A hit returns exactly the last value stored for the key, and that value has not expired. */
  lemma HitIsLatestStore(capacity: nat, script: seq<Event>, now: real, key: string)
    requires Answer(capacity, script, Event(now, Get(key))).Hit?
    ensures LastStore(script, key).Some?
    ensures LastStore(script, key).value.value == Answer(capacity, script, Event(now, Get(key))).value
    ensures now < LastStore(script, key).value.expiresAt
  {
    EntriesAreLastStores(capacity, script);
  }

  // ---------------------------------------------------------------- the LRU guarantee

  ghost predicate Monotone(script: seq<Event>) {
    forall i, j :: 0 <= i < j < |script| ==> script[i].now <= script[j].now
  }

  /** Does the event store or hit the key? */
  ghost predicate Uses(capacity: nat, before: seq<Event>, event: Event, key: string) {
    match event.op
    case Set(k, _, ttl) => k == key && 1 <= ttl
    case Get(k) => k == key && Answer(capacity, before, event).Hit?
    case Close => false
  }

  /** The other keys stored or hit since the key was last stored or hit (or since a close). */
  ghost function OthersSince(capacity: nat, script: seq<Event>, key: string): set<string> {
    if script == [] then {}
    else
      var before, last := script[..|script| - 1], script[|script| - 1];
      if last.op.Close? || Uses(capacity, before, last, key) then {}
      else if Uses(capacity, before, last, last.op.key) then OthersSince(capacity, before, key) + {last.op.key}
      else OthersSince(capacity, before, key)
  }

  /** The keys more recently used than the given one. */
  ghost function KeysAfter(entries: seq<Entry>, key: string): set<string> {
    if entries == [] then {}
    else if entries[0].key == key then Keys(entries[1..])
    else KeysAfter(entries[1..], key)
  }

  /** Either the key is present with only such keys behind it, or enough of them were used. */
  ghost predicate Guarded(capacity: nat, script: seq<Event>, key: string) {
    var entries := After(capacity, script);
    if key in Keys(entries) then KeysAfter(entries, key) <= OthersSince(capacity, script, key)
    else capacity <= |OthersSince(capacity, script, key)|
  }

  lemma {:induction false} KeysAfterWithout(entries: seq<Entry>, key: string, other: string)
    requires key != other
    ensures KeysAfter(Without(entries, other), key) <= KeysAfter(entries, key)
    ensures key in Keys(entries) <==> key in Keys(Without(entries, other))
  {
    WithoutMembers(entries, other);
    if entries != [] {
      KeysAfterWithout(entries[1..], key, other);
      WithoutMembers(entries[1..], other);
      assert entries == [entries[0]] + entries[1..];
      assert entries[0].key != other ==> Without(entries, other)[1..] == Without(entries[1..], other);
      if key in Keys(entries) {
        var e :| e in entries && e.key == key;
        assert e in Without(entries, other);
      }
    }
  }

  lemma {:induction false} KeysAfterAppend(entries: seq<Entry>, key: string, e: Entry)
    requires e.key != key
    ensures KeysAfter(entries + [e], key) <= KeysAfter(entries, key) + {e.key}
    ensures key in Keys(entries) <==> key in Keys(entries + [e])
  {
    assert key in Keys(entries + [e]) ==> key in Keys(entries);
    if entries != [] {
      KeysAfterAppend(entries[1..], key, e);
      assert (entries + [e])[1..] == entries[1..] + [e];
      assert entries == [entries[0]] + entries[1..];
    } else {
      assert (entries + [e])[1..] == [];
    }
    if key in Keys(entries) {
      var x :| x in entries && x.key == key;
      assert x in entries + [e];
    }
  }

  lemma {:induction false} DistinctKeyCount(entries: seq<Entry>)
    requires DistinctKeys(entries)
    ensures |Keys(entries)| == |entries|
  {
    if entries != [] {
      DistinctKeyCount(entries[1..]);
      assert entries == [entries[0]] + entries[1..];
      assert Keys(entries) == {entries[0].key} + Keys(entries[1..]);
    }
  }

  /** Using the key itself puts it last. */
  lemma {:induction false} LastHasNothingAfter(entries: seq<Entry>, e: Entry)
    requires e.key !in Keys(entries)
    ensures KeysAfter(entries + [e], e.key) == {}
  {
    if entries != [] {
      assert (entries + [e])[1..] == entries[1..] + [e];
      assert entries[0] in entries;
      assert e.key !in Keys(entries[1..]) by {
        assert forall x :: x in entries[1..] ==> x in entries;
      }
      LastHasNothingAfter(entries[1..], e);
    } else {
      assert (entries + [e])[1..] == [];
    }
  }

  /** Eviction either leaves the key, or shows that `capacity` other keys were used after it. */
  lemma TrimGuard(entries: seq<Entry>, capacity: nat, key: string, others: set<string>)
    requires DistinctKeys(entries) && |entries| <= capacity + 1
    requires key in Keys(entries) && KeysAfter(entries, key) <= others
    ensures if key in Keys(Trim(entries, capacity)) then KeysAfter(Trim(entries, capacity), key) <= others
            else capacity <= |others|
  {
    if |entries| > capacity {
      assert Trim(entries, capacity) == entries[1..];
      if entries[0].key == key {
        DistinctKeyCount(entries[1..]);
        SubsetCardinality(KeysAfter(entries, key), others);
        assert key !in Keys(entries[1..]);
      } else {
        var e :| e in entries && e.key == key;
        assert entries == [entries[0]] + entries[1..];
        assert e in entries[1..];
      }
    }
  }

  lemma GuardedByOwnUse(entries: seq<Entry>, capacity: nat, e: Entry)
    requires 1 <= capacity && DistinctKeys(entries)
    ensures var kept := Trim(Recent(entries, e), capacity);
            e.key in Keys(kept) && KeysAfter(kept, e.key) == {}
  {
    var rest := Without(entries, e.key);
    WithoutMembers(entries, e.key);
    var drop := |rest| + 1 - Min(|rest| + 1, capacity);
    assert Trim(rest + [e], capacity) == rest[drop..] + [e];
    assert forall x :: x in rest[drop..] ==> x in rest;
    assert (rest[drop..] + [e])[|rest[drop..]|] == e;
    LastHasNothingAfter(rest[drop..], e);
  }

  lemma GuardedByOtherUse(entries: seq<Entry>, capacity: nat, key: string, e: Entry, others: set<string>)
    requires key != e.key && DistinctKeys(entries) && |entries| <= capacity
    requires if key in Keys(entries) then KeysAfter(entries, key) <= others else capacity <= |others|
    ensures var kept := Trim(Recent(entries, e), capacity);
            if key in Keys(kept) then KeysAfter(kept, key) <= others + {e.key} else capacity <= |others + {e.key}|
  {
    var rest := Without(entries, e.key);
    KeysAfterWithout(entries, key, e.key);
    KeysAfterAppend(rest, key, e);
    if key in Keys(entries) {
      WithoutKeepsDistinct(entries, e.key);
      WithoutMembers(entries, e.key);
      TrimGuard(rest + [e], capacity, key, others + {e.key});
    } else {
      assert forall x :: x in Trim(rest + [e], capacity) ==> x in rest + [e];
      SubsetCardinality(others, others + {e.key});
    }
  }

  lemma GuardAfterStore(capacity: nat, before: seq<Event>, last: Event, key: string)
    requires 1 <= capacity && last.op.Set? && Uses(capacity, before, last, key)
    ensures Guarded(capacity, before + [last], key)
  {
    var script, entries := before + [last], After(capacity, before);
    var e := Entry(key, last.now + last.op.ttlSeconds as real, last.op.value);
    assert script[..|script| - 1] == before;
    AfterKeepsBound(capacity, before);
    GuardedByOwnUse(entries, capacity, e);
    assert After(capacity, script) == Trim(Recent(entries, e), capacity);
    assert OthersSince(capacity, script, key) == {};
  }

  lemma GuardAfterHit(capacity: nat, before: seq<Event>, last: Event, key: string)
    requires 1 <= capacity && last.op.Get? && Uses(capacity, before, last, key)
    ensures Guarded(capacity, before + [last], key)
  {
    var script, entries := before + [last], After(capacity, before);
    var e := Find(entries, key).value;
    assert script[..|script| - 1] == before;
    AfterKeepsBound(capacity, before);
    HitKeepsSize(entries, capacity, key);
    GuardedByOwnUse(entries, capacity, e);
    assert After(capacity, script) == Trim(Recent(entries, e), capacity);
    assert OthersSince(capacity, script, key) == {};
  }

  lemma HitKeepsSize(entries: seq<Entry>, capacity: nat, key: string)
    requires DistinctKeys(entries) && |entries| <= capacity && Find(entries, key).Some?
    ensures var e := Find(entries, key).value; Trim(Recent(entries, e), capacity) == Recent(entries, e)
  {
    assert Find(entries, key).value.key in Keys(entries);
    RecentKeepsDistinct(entries, Find(entries, key).value);
  }

  lemma GuardAfterOtherEvent(capacity: nat, before: seq<Event>, last: Event, key: string)
    requires !last.op.Close? && last.op.key != key && Guarded(capacity, before, key)
    ensures Guarded(capacity, before + [last], key)
  {
    hide KeysAfter, DistinctKeys, Without, Keys, Trim;
    var script, entries, k := before + [last], After(capacity, before), last.op.key;
    var others := OthersSince(capacity, before, key);
    assert script[..|script| - 1] == before;
    AfterKeepsBound(capacity, before);
    if Uses(capacity, before, last, k) {
      var e := if last.op.Set? then Entry(k, last.now + last.op.ttlSeconds as real, last.op.value)
               else Find(entries, k).value;
      if last.op.Get? { HitKeepsSize(entries, capacity, k); }
      GuardedByOtherUse(entries, capacity, key, e, others);
      assert After(capacity, script) == Trim(Recent(entries, e), capacity);
      assert OthersSince(capacity, script, key) == others + {k};
    } else {
      KeysAfterWithout(entries, key, k);
      assert OthersSince(capacity, script, key) == others;
    }
  }

  lemma {:induction false} GuardHolds(capacity: nat, script: seq<Event>, key: string)
    requires 1 <= capacity && Monotone(script) && script != []
    requires LastStore(script, key).Some?
    requires script[|script| - 1].now < LastStore(script, key).value.expiresAt
    ensures Guarded(capacity, script, key)
  {
    var before, last := script[..|script| - 1], script[|script| - 1];
    assert script == before + [last];
    if Uses(capacity, before, last, key) {
      if last.op.Set? {
        GuardAfterStore(capacity, before, last, key);
      } else {
        GuardAfterHit(capacity, before, last, key);
      }
    } else {
      assert LastStore(before, key) == LastStore(script, key);
      GuardHolds(capacity, before, key);
      if last.op.key == key {
        EntriesAreLastStores(capacity, before);
        assert After(capacity, script) == After(capacity, before);
      } else {
        GuardAfterOtherEvent(capacity, before, last, key);
      }
    }
  }

  /**
   * The LRU guarantee. A key stored since the last close and not yet expired must hit if fewer
   * than `capacity` distinct other keys were stored or hit since it was last stored or hit.
   */
  lemma RecentKeyHits(capacity: nat, script: seq<Event>, now: real, key: string)
    requires 1 <= capacity && Monotone(script + [Event(now, Get(key))])
    requires LastStore(script, key).Some? && now < LastStore(script, key).value.expiresAt
    requires |OthersSince(capacity, script, key)| < capacity
    ensures Answer(capacity, script, Event(now, Get(key))) == Hit(LastStore(script, key).value.value)
  {
    var longer := script + [Event(now, Get(key))];
    assert longer[..|script|] == script;
    forall i, j | 0 <= i < j < |script| ensures script[i].now <= script[j].now {
      assert longer[i].now <= longer[j].now;
    }
    assert longer[|script| - 1].now <= longer[|script|].now;
    GuardHolds(capacity, script, key);
    EntriesAreLastStores(capacity, script);
  }

  // ---------------------------------------------------------------- inclusion across capacities

  /** `small` can be obtained from `large` by deleting entries (greedy matching). */
  ghost predicate Subsequence(small: seq<Entry>, large: seq<Entry>) {
    if small == [] then true
    else if large == [] then false
    else if small[0] == large[0] then Subsequence(small[1..], large[1..])
    else Subsequence(small, large[1..])
  }

  lemma {:induction false} SubsequenceTail(small: seq<Entry>, large: seq<Entry>)
    requires small != [] && Subsequence(small, large)
    ensures large != [] && Subsequence(small[1..], large[1..])
    decreases |large|, 0
  {
    if small[0] != large[0] {
      SubsequenceTail(small, large[1..]);
      SubsequenceGrow(small[1..], large[2..], large[1]);
      assert large[1..] == [large[1]] + large[2..];
    }
  }

  lemma {:induction false} SubsequenceGrow(small: seq<Entry>, large: seq<Entry>, e: Entry)
    requires Subsequence(small, large)
    ensures Subsequence(small, [e] + large)
    decreases |large|, 1
  {
    if small != [] && small[0] == e {
      SubsequenceTail(small, large);
      SubsequenceGrow(small[1..], large[1..], large[0]);
      assert large == [large[0]] + large[1..];
    }
    assert ([e] + large)[1..] == large;
  }

  lemma {:induction false} SubsequenceMembers(small: seq<Entry>, large: seq<Entry>)
    requires Subsequence(small, large)
    ensures forall e :: e in small ==> e in large
    ensures |small| <= |large|
  {
    if small != [] {
      SubsequenceMembers(if small[0] == large[0] then small[1..] else small, large[1..]);
      assert small == [small[0]] + small[1..];
      assert large == [large[0]] + large[1..];
    }
  }

  lemma {:induction false} SubsequenceWithout(small: seq<Entry>, large: seq<Entry>, key: string)
    requires Subsequence(small, large)
    ensures Subsequence(Without(small, key), Without(large, key))
  {
    if small != [] {
      if small[0] == large[0] {
        SubsequenceWithout(small[1..], large[1..], key);
      } else {
        SubsequenceWithout(small, large[1..], key);
        if large[0].key != key {
          SubsequenceGrow(Without(small, key), Without(large[1..], key), large[0]);
        }
      }
    }
  }

  lemma {:induction false} SubsequenceAppend(small: seq<Entry>, large: seq<Entry>, e: Entry)
    requires Subsequence(small, large)
    ensures Subsequence(small + [e], large + [e])
  {
    if large == [] {
      assert small + [e] == [e] && large + [e] == [e];
    } else if small == [] {
      SubsequenceAppend(small, large[1..], e);
      assert large + [e] == [large[0]] + (large[1..] + [e]);
      SubsequenceGrow([] + [e], large[1..] + [e], large[0]);
    } else {
      assert (large + [e])[1..] == large[1..] + [e];
      assert (small + [e])[1..] == small[1..] + [e];
      SubsequenceAppend(if small[0] == large[0] then small[1..] else small, large[1..], e);
    }
  }

  /** How a cache of capacity `n` compares with one of capacity `m` after the same script. */
  ghost predicate Included(small: seq<Entry>, n: nat, large: seq<Entry>, m: nat) {
    && DistinctKeys(small) && |small| <= n
    && DistinctKeys(large) && |large| <= m
    && Subsequence(small, large)
    && |large| - |small| <= m - n
  }

  lemma StoreKeepsIncluded(small: seq<Entry>, n: nat, large: seq<Entry>, m: nat, e: Entry)
    requires n <= m && Included(small, n, large, m)
    ensures Subsequence(Trim(Recent(small, e), n), Trim(Recent(large, e), m))
    ensures |Trim(Recent(large, e), m)| - |Trim(Recent(small, e), n)| <= m - n
  {
    var s, l := Recent(small, e), Recent(large, e);
    SubsequenceWithout(small, large, e.key);
    SubsequenceAppend(Without(small, e.key), Without(large, e.key), e);
    RecentKeepsDistinct(small, e);
    RecentKeepsDistinct(large, e);
    SubsequenceMembers(small, large);
    if e.key in Keys(small) {
      var x :| x in small && x.key == e.key;
      assert x in large;
    }
    if |s| > n {
      assert Trim(s, n) == s[1..];
      SubsequenceTail(s, l);
      if |l| > m {
        assert Trim(l, m) == l[1..];
      } else {
        SubsequenceGrow(s[1..], l[1..], l[0]);
        assert l == [l[0]] + l[1..];
      }
    }
  }

  lemma LookupKeepsIncluded(small: seq<Entry>, n: nat, large: seq<Entry>, m: nat, key: string, now: real)
    requires n <= m && Included(small, n, large, m)
    ensures var event := Event(now, Get(key));
            && Subsequence(Step(small, n, event).0, Step(large, m, event).0)
            && |Step(large, m, event).0| - |Step(small, n, event).0| <= m - n
            && (Step(small, n, event).1.Hit? ==> Step(large, m, event).1 == Step(small, n, event).1)
  {
    SubsequenceMembers(small, large);
    SubsequenceWithout(small, large, key);
    WithoutLength(small, key);
    WithoutLength(large, key);
    var inSmall, inLarge := Find(small, key), Find(large, key);
    if inSmall.Some? {
      assert inSmall.value in large && inSmall.value.key in Keys(small);
      assert inLarge == inSmall;
      assert inLarge.value.key in Keys(large);
      SubsequenceAppend(Without(small, key), Without(large, key), inSmall.value);
    } else if inLarge.Some? {
      assert key !in Keys(small);
      assert inLarge.value.key in Keys(large);
      SubsequenceGrowBack(small, Without(large, key), inLarge.value);
    }
  }

  lemma StepKeepsIncluded(small: seq<Entry>, n: nat, large: seq<Entry>, m: nat, event: Event)
    requires n <= m && Included(small, n, large, m)
    ensures Included(Step(small, n, event).0, n, Step(large, m, event).0, m)
    ensures Step(small, n, event).1.Hit? ==> Step(large, m, event).1 == Step(small, n, event).1
  {
    StepKeepsBound(small, n, event);
    StepKeepsBound(large, m, event);
    match event.op
    case Close =>
    case Set(key, value, ttl) =>
      if 1 <= ttl {
        StoreKeepsIncluded(small, n, large, m, Entry(key, event.now + ttl as real, value));
      }
    case Get(key) =>
      LookupKeepsIncluded(small, n, large, m, key, event.now);
  }

  lemma {:induction false} SubsequenceGrowBack(small: seq<Entry>, large: seq<Entry>, e: Entry)
    requires Subsequence(small, large)
    ensures Subsequence(small, large + [e])
  {
    if small != [] {
      assert (large + [e])[1..] == large[1..] + [e];
      SubsequenceGrowBack(if small[0] == large[0] then small[1..] else small, large[1..], e);
    }
  }

  /**
   * Inclusion. Driven by the same script, whatever the clock readings, the smaller cache's entries
   * are a subsequence of the larger cache's and the sizes differ by at most the capacity difference.
   */
  lemma {:induction false} Inclusion(n: nat, m: nat, script: seq<Event>)
    requires n <= m
    ensures Included(After(n, script), n, After(m, script), m)
  {
    if script != [] {
      Inclusion(n, m, script[..|script| - 1]);
      StepKeepsIncluded(After(n, script[..|script| - 1]), n, After(m, script[..|script| - 1]), m, script[|script| - 1]);
    }
  }

  /** So a larger cache answers every hit of a smaller one with the same value. */
  lemma LargerCacheAnswersEveryHit(n: nat, m: nat, script: seq<Event>, event: Event)
    requires n <= m && Answer(n, script, event).Hit?
    ensures Answer(m, script, event) == Answer(n, script, event)
  {
    Inclusion(n, m, script);
    StepKeepsIncluded(After(n, script), n, After(m, script), m, event);
  }
}
