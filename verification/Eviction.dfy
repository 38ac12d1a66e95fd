/**
 Exactly which keys the bounded cache holds. While a key is there, the entries behind it are the other
 keys used since its own last use, except those that a get has since found expired; it is evicted at the
 moment these fill the cache.
 */
module Eviction {
  import opened Basics
  import opened KVCache

  /** Right after a get the key is there exactly if it hit: an expired entry gives up its slot. */
  lemma {:induction false} GetLeavesOnlyHits(capacity: nat, script: seq<Event>, now: real, key: string)
    ensures key in Keys(After(capacity, script + [Event(now, Get(key))])) <==>
            Answer(capacity, script, Event(now, Get(key))).Hit?
  {
    var longer, entries := script + [Event(now, Get(key))], After(capacity, script);
    assert longer[..|longer| - 1] == script;
    WithoutMembers(entries, key);
    if Find(entries, key).Some? {
      var e := Find(entries, key).value;
      assert Recent(entries, e)[|Recent(entries, e)| - 1] == e;
    }
  }

  /** A get that finds nothing, or something expired. */
  ghost predicate Misses(capacity: nat, before: seq<Event>, event: Event, key: string) {
    event.op == Get(key) && Answer(capacity, before, event).Miss?
  }

  /** The other keys stored or hit since the key's own last use, and not missed by a get since. */
  ghost function LiveSince(capacity: nat, script: seq<Event>, key: string): set<string> {
    if script == [] then {}
    else
      var before, last := script[..|script| - 1], script[|script| - 1];
      if last.op.Close? || Uses(capacity, before, last, key) then {}
      else if Uses(capacity, before, last, last.op.key) then LiveSince(capacity, before, key) + {last.op.key}
      else if Misses(capacity, before, last, last.op.key) then LiveSince(capacity, before, key) - {last.op.key}
      else LiveSince(capacity, before, key)
  }

  /** The most there were at any moment since the key's own last use. */
  ghost function Peak(capacity: nat, script: seq<Event>, key: string): nat {
    if script == [] then 0
    else
      var before, last := script[..|script| - 1], script[|script| - 1];
      if last.op.Close? || Uses(capacity, before, last, key) then 0
      else if Peak(capacity, before, key) < |LiveSince(capacity, script, key)| then |LiveSince(capacity, script, key)|
      else Peak(capacity, before, key)
  }

  /** The key is there, with exactly the live keys behind it, or was evicted when they filled the cache. */
  ghost predicate Exact(entries: seq<Entry>, capacity: nat, key: string, live: set<string>, peak: nat) {
    if peak < capacity then key in Keys(entries) && KeysAfter(entries, key) == live else key !in Keys(entries)
  }

  // ---------------------------------------------------------------- the entries behind a key

  lemma {:induction false} BehindWithout(entries: seq<Entry>, key: string, other: string)
    requires key != other && key in Keys(entries) && DistinctKeys(entries)
    ensures KeysAfter(Without(entries, other), key) == KeysAfter(entries, key) - {other}
  {
    WithoutMembers(entries[1..], other);
    assert entries == [entries[0]] + entries[1..];
    if entries[0].key != key {
      BehindWithout(entries[1..], key, other);
      assert entries[0].key != other ==> Without(entries, other)[1..] == Without(entries[1..], other);
    } else {
      assert Without(entries, other)[1..] == Without(entries[1..], other);
    }
  }

  lemma {:induction false} BehindAppend(entries: seq<Entry>, key: string, e: Entry)
    requires e.key != key && key in Keys(entries)
    ensures KeysAfter(entries + [e], key) == KeysAfter(entries, key) + {e.key}
  {
    assert (entries + [e])[1..] == entries[1..] + [e];
    assert entries == [entries[0]] + entries[1..];
    if entries[0].key != key { BehindAppend(entries[1..], key, e); }
  }

  /** How many entries can be behind a key. */
  lemma {:induction false} BehindCount(entries: seq<Entry>, key: string)
    requires DistinctKeys(entries) && key in Keys(entries)
    ensures |KeysAfter(entries, key)| < |entries|
    ensures entries[0].key == key ==> |KeysAfter(entries, key)| == |entries| - 1
    ensures entries[0].key != key ==> |KeysAfter(entries, key)| < |entries| - 1
    ensures KeysAfter(entries, key) <= Keys(entries)
  {
    assert entries == [entries[0]] + entries[1..];
    if entries[0].key == key { DistinctKeyCount(entries[1..]); } else { BehindCount(entries[1..], key); }
  }

  lemma TrimIsExact(entries: seq<Entry>, capacity: nat, key: string)
    requires 1 <= capacity && DistinctKeys(entries) && |entries| <= capacity + 1 && key in Keys(entries)
    ensures key in Keys(Trim(entries, capacity)) <==> |KeysAfter(entries, key)| < capacity
    ensures |KeysAfter(entries, key)| < capacity ==> KeysAfter(Trim(entries, capacity), key) == KeysAfter(entries, key)
  {
    BehindCount(entries, key);
    if |entries| > capacity {
      assert Trim(entries, capacity) == entries[1..];
      assert entries == [entries[0]] + entries[1..];
      assert entries[0].key !in Keys(entries[1..]);
    }
  }

  // ---------------------------------------------------------------- what every event keeps

  lemma OtherUseKeepsExact(entries: seq<Entry>, capacity: nat, key: string, e: Entry, live: set<string>, peak: nat)
    requires 1 <= capacity && key != e.key && DistinctKeys(entries) && |entries| <= capacity
    requires Exact(entries, capacity, key, live, peak)
    ensures Exact(Trim(Recent(entries, e), capacity), capacity, key, live + {e.key}, Max(peak, |live + {e.key}|))
  {
    var recent := Recent(entries, e);
    RecentKeepsDistinct(entries, e);
    KeysAfterWithout(entries, key, e.key);
    KeysAfterAppend(Without(entries, e.key), key, e);
    if peak < capacity {
      BehindWithout(entries, key, e.key);
      BehindAppend(Without(entries, e.key), key, e);
      assert KeysAfter(recent, key) == live + {e.key};
      TrimIsExact(recent, capacity, key);
    } else {
      assert forall x :: x in Trim(recent, capacity) ==> x in recent;
    }
  }

  lemma OtherMissKeepsExact(entries: seq<Entry>, capacity: nat, key: string, other: string, live: set<string>, peak: nat)
    requires key != other && DistinctKeys(entries) && Exact(entries, capacity, key, live, peak)
    ensures Exact(Without(entries, other), capacity, key, live - {other}, peak)
    ensures other !in Keys(entries) ==> Exact(entries, capacity, key, live - {other}, peak)
  {
    KeysAfterWithout(entries, key, other);
    WithoutLength(entries, other);
    if peak < capacity { BehindWithout(entries, key, other); }
  }

  lemma SmallerIsNoPeak(live: set<string>, other: string)
    ensures |live - {other}| <= |live|
  {
    SubsetCardinality(live - {other}, live);
  }

  lemma {:induction false} PeakIsAbove(capacity: nat, script: seq<Event>, key: string)
    ensures |LiveSince(capacity, script, key)| <= Peak(capacity, script, key)
  {}

  lemma {:induction false} NeverLiveItself(capacity: nat, script: seq<Event>, key: string)
    ensures key !in LiveSince(capacity, script, key)
  {
    if script != [] { NeverLiveItself(capacity, script[..|script| - 1], key); }
  }

  lemma OtherEventKeepsExact(capacity: nat, before: seq<Event>, last: Event, key: string)
    requires 1 <= capacity && !last.op.Close? && last.op.key != key
    requires Exact(After(capacity, before), capacity, key, LiveSince(capacity, before, key), Peak(capacity, before, key))
    ensures var script := before + [last];
            Exact(After(capacity, script), capacity, key, LiveSince(capacity, script, key), Peak(capacity, script, key))
  {
    hide KeysAfter, DistinctKeys, Without, Keys, Trim, Exact;
    var script, entries, k := before + [last], After(capacity, before), last.op.key;
    var live, peak := LiveSince(capacity, before, key), Peak(capacity, before, key);
    assert script[..|script| - 1] == before;
    AfterKeepsBound(capacity, before);
    PeakIsAbove(capacity, before, key);
    if Uses(capacity, before, last, k) {
      var e := if last.op.Set? then Entry(k, last.now + last.op.ttlSeconds as real, last.op.value)
               else Find(entries, k).value;
      if last.op.Get? { HitKeepsSize(entries, capacity, k); }
      OtherUseKeepsExact(entries, capacity, key, e, live, peak);
      assert After(capacity, script) == Trim(Recent(entries, e), capacity);
    } else if Misses(capacity, before, last, k) {
      OtherMissKeepsExact(entries, capacity, key, k, live, peak);
      SmallerIsNoPeak(live, k);
    }
  }

  lemma OwnUseIsExact(capacity: nat, before: seq<Event>, last: Event, key: string)
    requires 1 <= capacity && Uses(capacity, before, last, key)
    ensures var script := before + [last];
            Exact(After(capacity, script), capacity, key, LiveSince(capacity, script, key), Peak(capacity, script, key))
  {
    hide KeysAfter, DistinctKeys, Without, Keys, Trim;
    var script, entries := before + [last], After(capacity, before);
    assert script[..|script| - 1] == before;
    AfterKeepsBound(capacity, before);
    var e := if last.op.Set? then Entry(key, last.now + last.op.ttlSeconds as real, last.op.value)
             else Find(entries, key).value;
    if last.op.Get? { HitKeepsSize(entries, capacity, key); }
    GuardedByOwnUse(entries, capacity, e);
    assert After(capacity, script) == Trim(Recent(entries, e), capacity);
  }

  lemma {:induction false} AlwaysExact(capacity: nat, script: seq<Event>, key: string)
    requires 1 <= capacity && Monotone(script) && script != []
    requires LastStore(script, key).Some? && script[|script| - 1].now < LastStore(script, key).value.expiresAt
    ensures Exact(After(capacity, script), capacity, key, LiveSince(capacity, script, key), Peak(capacity, script, key))
  {
    hide Exact, KeysAfter, Step, LiveSince, Peak;
    var before, last := script[..|script| - 1], script[|script| - 1];
    assert script == before + [last];
    if Uses(capacity, before, last, key) {
      OwnUseIsExact(capacity, before, last, key);
    } else {
      assert LastStore(before, key) == LastStore(script, key);
      AlwaysExact(capacity, before, key);
      if last.op.key == key {
        UselessEvent(capacity, before, last, key);
      } else {
        OtherEventKeepsExact(capacity, before, last, key);
      }
    }
  }

  /** An event of the unexpired key itself that is no use of it changes nothing. */
  lemma UselessEvent(capacity: nat, before: seq<Event>, last: Event, key: string)
    requires !last.op.Close? && last.op.key == key && !Uses(capacity, before, last, key)
    requires LastStore(before, key).Some? && last.now < LastStore(before, key).value.expiresAt
    ensures var script := before + [last];
            && After(capacity, script) == After(capacity, before)
            && LiveSince(capacity, script, key) == LiveSince(capacity, before, key)
            && Peak(capacity, script, key) == Peak(capacity, before, key)
  {
    var script := before + [last];
    assert script[..|script| - 1] == before;
    EntriesAreLastStores(capacity, before);
    NeverLiveItself(capacity, before, key);
    assert LiveSince(capacity, before, key) - {key} == LiveSince(capacity, before, key);
    PeakIsAbove(capacity, before, key);
  }

  /**
   * The exact guarantee. A key stored since the last close hits exactly when it has not expired and,
   * at every moment since it was last stored or hit, fewer than `capacity` other keys had been stored
   * or hit since then without a later get missing them.
   */
  lemma {:induction false} HitsExactlyWhenRoomWasLeft(capacity: nat, script: seq<Event>, now: real, key: string)
    requires 1 <= capacity && Monotone(script + [Event(now, Get(key))]) && LastStore(script, key).Some?
    ensures Answer(capacity, script, Event(now, Get(key))).Hit? <==>
            now < LastStore(script, key).value.expiresAt && Peak(capacity, script, key) < capacity
  {
    hide LiveSince, Peak, KeysAfter;
    var longer := script + [Event(now, Get(key))];
    assert longer[..|script|] == script;
    forall i, j | 0 <= i < j < |script| ensures script[i].now <= script[j].now {
      assert longer[i].now <= longer[j].now;
    }
    assert longer[|script| - 1].now <= longer[|script|].now;
    EntriesAreLastStores(capacity, script);
    if now < LastStore(script, key).value.expiresAt { AlwaysExact(capacity, script, key); }
  }
}
