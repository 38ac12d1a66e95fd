/**
 The sliding-window limiter for expensive routes, and the walk that picks the client address.

 Two descriptions of the limiter meet here. `Check` is the code: a bounded table of queues of
 admitted timestamps, pruned as it goes. `Decide` is what the limiter means: it remembers every
 admitted hit forever. Over every serialized script of calls the two make the same decisions.
 */
module RateLimit {
  import opened Basics
  import opened Text

  const WINDOW_SECONDS: real := 60.0
  const MAX_BUCKETS: nat := 8192

  datatype Decision = Admitted | OverLimit | OverCapacity

  /** One serialized call: the clock reading, the bucket key and the route's limit. */
  datatype Call = Call(now: real, key: string, limit: int)

  datatype Hit = Hit(key: string, time: real)

  // ---------------------------------------------------------------- the meaning

  /** How many admitted hits of a key lie in the closed interval. */
  ghost function HitsIn(history: seq<Hit>, key: string, from: real, to: real): nat {
    if history == [] then 0
    else
      var last := history[|history| - 1];
      HitsIn(history[..|history| - 1], key, from, to)
      + if last.key == key && from <= last.time <= to then 1 else 0
  }

  ghost function ActiveKeys(history: seq<Hit>, now: real): set<string> {
    set h | h in history && now - WINDOW_SECONDS <= h.time :: h.key
  }

  ghost function Decide(history: seq<Hit>, call: Call): Decision {
    if call.key !in ActiveKeys(history, call.now) && |ActiveKeys(history, call.now)| >= MAX_BUCKETS then OverCapacity
    else if HitsIn(history, call.key, call.now - WINDOW_SECONDS, call.now) >= call.limit then OverLimit
    else Admitted
  }

  ghost function Next(history: seq<Hit>, call: Call): seq<Hit> {
    if Decide(history, call) == Admitted then history + [Hit(call.key, call.now)] else history
  }

  /** Every hit admitted during a script, oldest first. */
  ghost function History(script: seq<Call>): seq<Hit> {
    if script == [] then []
    else Next(History(script[..|script| - 1]), script[|script| - 1])
  }

  // ---------------------------------------------------------------- the code

  type Buckets = map<string, seq<real>>

  predicate Stale(hits: seq<real>, windowStart: real) {
    hits == [] || hits[|hits| - 1] < windowStart
  }

  function Prune(buckets: Buckets, windowStart: real): Buckets {
    map key | key in buckets && !Stale(buckets[key], windowStart) :: buckets[key]
  }

  function DropStale(hits: seq<real>, windowStart: real): seq<real> {
    if hits != [] && hits[0] < windowStart then DropStale(hits[1..], windowStart) else hits
  }

  function Check(buckets: Buckets, call: Call): (Buckets, Decision) {
    var windowStart := call.now - WINDOW_SECONDS;
    var kept := Prune(buckets, windowStart);
    if call.key !in kept && |kept| >= MAX_BUCKETS then (kept, OverCapacity)
    else
      var hits := if call.key in kept then DropStale(kept[call.key], windowStart) else [];
      if |hits| >= call.limit then (kept[call.key := hits], OverLimit)
      else (kept[call.key := hits + [call.now]], Admitted)
  }

  class Limiter {
    var buckets: Buckets

    constructor ()
      ensures buckets == map[]
    {
      buckets := map[];
    }

    method CheckLimit(key: string, limit: int, now: real) returns (decision: Decision)
      modifies this
      ensures (buckets, decision) == Check(old(buckets), Call(now, key, limit))
    {
      var windowStart := now - WINDOW_SECONDS;
      ghost var kept := Prune(buckets, windowStart);
      var expired := set k | k in buckets && Stale(buckets[k], windowStart);
      while expired != {}
        invariant expired == set k | k in buckets && Stale(buckets[k], windowStart)
        invariant Prune(buckets, windowStart) == kept
      {
        var k :| k in expired;
        buckets := buckets - {k};
        expired := expired - {k};
      }
      assert forall k :: k in buckets ==> k !in expired;
      assert buckets == kept;
      var hits := [];
      if key !in buckets {
        if |buckets| >= MAX_BUCKETS { return OverCapacity; }
      } else {
        hits := buckets[key];
      }
      ghost var wanted := DropStale(hits, windowStart);
      while hits != [] && hits[0] < windowStart
        invariant DropStale(hits, windowStart) == wanted
      {
        hits := hits[1..];
      }
      if |hits| >= limit {
        buckets := buckets[key := hits];
        return OverLimit;
      }
      buckets := buckets[key := hits + [now]];
      decision := Admitted;
    }
  }

  /** The table after a script, starting from an empty process. */
  ghost function After(script: seq<Call>): Buckets {
    if script == [] then map[] else Check(After(script[..|script| - 1]), script[|script| - 1]).0
  }

  // ---------------------------------------------------------------- queues are suffixes of history

  ghost function TimesOf(history: seq<Hit>, key: string): seq<real> {
    if history == [] then []
    else
      var last := history[|history| - 1];
      TimesOf(history[..|history| - 1], key) + if last.key == key then [last.time] else []
  }

  ghost function CountIn(times: seq<real>, from: real, to: real): nat {
    if times == [] then 0
    else CountIn(times[..|times| - 1], from, to) + if from <= times[|times| - 1] <= to then 1 else 0
  }

  ghost predicate Sorted(times: seq<real>) {
    forall i, j :: 0 <= i < j < |times| ==> times[i] <= times[j]
  }

  lemma TimesOfAppend(history: seq<Hit>, hit: Hit, key: string)
    ensures TimesOf(history + [hit], key) == TimesOf(history, key) + if key == hit.key then [hit.time] else []
  {
    assert (history + [hit])[..|history|] == history;
  }

  lemma {:induction false} TimesOfMembers(history: seq<Hit>, key: string)
    ensures forall t :: t in TimesOf(history, key) <==> Hit(key, t) in history
  {
    if history != [] {
      var init, last := history[..|history| - 1], history[|history| - 1];
      TimesOfMembers(init, key);
      assert history == init + [last];
      TimesOfAppend(init, last, key);
    }
  }

  lemma {:induction false} TimesOfCount(history: seq<Hit>, key: string, from: real, to: real)
    ensures HitsIn(history, key, from, to) == CountIn(TimesOf(history, key), from, to)
  {
    if history != [] {
      var init, last := history[..|history| - 1], history[|history| - 1];
      TimesOfCount(init, key, from, to);
      if last.key == key {
        assert (TimesOf(init, key) + [last.time])[..|TimesOf(init, key)|] == TimesOf(init, key);
      } else {
        assert TimesOf(history, key) == TimesOf(init, key);
      }
    }
  }

  /** In a sorted list the recent elements form a suffix, which is what dropping from the left leaves. */
  lemma {:induction false} CountSuffix(times: seq<real>, cut: nat, from: real, to: real)
    requires cut <= |times|
    requires forall i :: 0 <= i < cut ==> times[i] < from
    requires forall i :: cut <= i < |times| ==> from <= times[i] <= to
    ensures CountIn(times, from, to) == |times| - cut
  {
    if cut < |times| {
      CountSuffix(times[..|times| - 1], cut, from, to);
    } else if times != [] {
      CountSuffix(times[..|times| - 1], cut - 1, from, to);
    }
  }

  lemma {:induction false} DropStaleIsSuffix(hits: seq<real>, windowStart: real)
    requires Sorted(hits)
    ensures var kept := DropStale(hits, windowStart);
            && |kept| <= |hits| && kept == hits[|hits| - |kept|..]
            && (forall i :: 0 <= i < |hits| - |kept| ==> hits[i] < windowStart)
            && (forall i :: |hits| - |kept| <= i < |hits| ==> windowStart <= hits[i])
  {
    if hits != [] && hits[0] < windowStart {
      DropStaleIsSuffix(hits[1..], windowStart);
    }
  }

  /** A queue holds the admitted times of its key, minus a prefix that had left the window by `now`. */
  ghost predicate Remembers(hits: seq<real>, times: seq<real>, now: real) {
    && Sorted(times) && (forall i :: 0 <= i < |times| ==> times[i] <= now)
    && |hits| <= |times|
    && hits == times[|times| - |hits|..]
    && (forall i :: 0 <= i < |times| - |hits| ==> times[i] < now - WINDOW_SECONDS)
  }

  ghost function Queue(buckets: Buckets, key: string): seq<real> {
    if key in buckets then buckets[key] else []
  }

  ghost predicate Tracks(buckets: Buckets, history: seq<Hit>, now: real) {
    && |buckets| <= MAX_BUCKETS
    && (forall key :: Remembers(Queue(buckets, key), TimesOf(history, key), now))
  }

  lemma ActiveKeysAreLive(buckets: Buckets, history: seq<Hit>, now: real, key: string)
    requires Tracks(buckets, history, now) && key in ActiveKeys(history, now)
    ensures key in Prune(buckets, now - WINDOW_SECONDS)
  {
    var times, hits := TimesOf(history, key), Queue(buckets, key);
    TimesOfMembers(history, key);
    var h :| h in history && now - WINDOW_SECONDS <= h.time && h.key == key;
    assert h == Hit(key, h.time) && h.time in times;
    var i :| 0 <= i < |times| && times[i] == h.time;
    assert Remembers(hits, times, now) && Sorted(times);
    assert |times| - |hits| <= i;
    assert hits[|hits| - 1] == times[|times| - 1];
  }

  lemma LiveKeysAreActive(buckets: Buckets, history: seq<Hit>, now: real, key: string)
    requires Tracks(buckets, history, now) && key in Prune(buckets, now - WINDOW_SECONDS)
    ensures key in ActiveKeys(history, now)
  {
    var times, hits := TimesOf(history, key), Queue(buckets, key);
    TimesOfMembers(history, key);
    assert Remembers(hits, times, now);
    assert hits[|hits| - 1] == times[|times| - 1];
    assert Hit(key, times[|times| - 1]) in history;
  }

  lemma PruneKeepsActiveKeys(buckets: Buckets, history: seq<Hit>, now: real)
    requires Tracks(buckets, history, now)
    ensures Prune(buckets, now - WINDOW_SECONDS).Keys == ActiveKeys(history, now)
  {
    forall key | key in Prune(buckets, now - WINDOW_SECONDS) ensures key in ActiveKeys(history, now) {
      LiveKeysAreActive(buckets, history, now, key);
    }
    forall key | key in ActiveKeys(history, now) ensures key in Prune(buckets, now - WINDOW_SECONDS) {
      ActiveKeysAreLive(buckets, history, now, key);
    }
  }

  /** Cutting a queue to the window leaves as many times as the full list has in the window. */
  lemma CutQueueCounts(hits: seq<real>, times: seq<real>, now: real)
    requires Remembers(hits, times, now)
    ensures |DropStale(hits, now - WINDOW_SECONDS)| == CountIn(times, now - WINDOW_SECONDS, now)
    ensures Remembers(DropStale(hits, now - WINDOW_SECONDS), times, now)
  {
    var windowStart := now - WINDOW_SECONDS;
    var offset := |times| - |hits|;
    assert forall i :: 0 <= i < |hits| ==> hits[i] == times[offset + i];
    DropStaleIsSuffix(hits, windowStart);
    var cut := |times| - |DropStale(hits, windowStart)|;
    forall i | cut <= i < |times| ensures windowStart <= times[i] {
      assert times[i] == hits[i - offset];
    }
    forall i | offset <= i < cut ensures times[i] < windowStart {
      assert times[i] == hits[i - offset];
    }
    CountSuffix(times, cut, windowStart, now);
  }

  lemma EmptiedRemembers(hits: seq<real>, times: seq<real>, now: real)
    requires Remembers(hits, times, now) && Stale(hits, now - WINDOW_SECONDS)
    ensures Remembers([], times, now)
  {
    if hits != [] { assert hits[|hits| - 1] == times[|times| - 1]; }
  }

  lemma PrunedQueue(buckets: Buckets, windowStart: real, key: string)
    ensures Queue(Prune(buckets, windowStart), key) ==
            if Stale(Queue(buckets, key), windowStart) then [] else Queue(buckets, key)
  {}

  lemma PrunedQueueRemembers(buckets: Buckets, history: seq<Hit>, now: real, key: string)
    requires Remembers(Queue(buckets, key), TimesOf(history, key), now)
    ensures Remembers(Queue(Prune(buckets, now - WINDOW_SECONDS), key), TimesOf(history, key), now)
  {
    PrunedQueue(buckets, now - WINDOW_SECONDS, key);
    if Stale(Queue(buckets, key), now - WINDOW_SECONDS) {
      EmptiedRemembers(Queue(buckets, key), TimesOf(history, key), now);
    }
  }

  /** The queue that the limit is tested against. */
  ghost function Window(buckets: Buckets, call: Call): seq<real> {
    DropStale(Queue(Prune(buckets, call.now - WINDOW_SECONDS), call.key), call.now - WINDOW_SECONDS)
  }

  lemma WindowIsExact(buckets: Buckets, history: seq<Hit>, call: Call)
    requires Remembers(Queue(buckets, call.key), TimesOf(history, call.key), call.now)
    ensures |Window(buckets, call)| == HitsIn(history, call.key, call.now - WINDOW_SECONDS, call.now)
    ensures Remembers(Window(buckets, call), TimesOf(history, call.key), call.now)
  {
    hide DropStale, TimesOf, HitsIn, CountIn;
    PrunedQueueRemembers(buckets, history, call.now, call.key);
    TimesOfCount(history, call.key, call.now - WINDOW_SECONDS, call.now);
    CutQueueCounts(Queue(Prune(buckets, call.now - WINDOW_SECONDS), call.key), TimesOf(history, call.key), call.now);
  }

  lemma DecisionFromTable(buckets: Buckets, call: Call)
    ensures var live := Prune(buckets, call.now - WINDOW_SECONDS).Keys;
            Check(buckets, call).1 ==
              if call.key !in live && |live| >= MAX_BUCKETS then OverCapacity
              else if |Window(buckets, call)| >= call.limit then OverLimit
              else Admitted
  {
    var kept := Prune(buckets, call.now - WINDOW_SECONDS);
    assert |kept| == |kept.Keys|;
  }

  /** One call: the table and the full history decide alike. */
  lemma SameDecision(buckets: Buckets, history: seq<Hit>, call: Call)
    requires Tracks(buckets, history, call.now)
    ensures Check(buckets, call).1 == Decide(history, call)
  {
    DecisionFromTable(buckets, call);
    PruneKeepsActiveKeys(buckets, history, call.now);
    WindowIsExact(buckets, history, call);
  }

  ghost predicate Serialized(script: seq<Call>) {
    forall i, j :: 0 <= i < j < |script| ==> script[i].now <= script[j].now
  }

  lemma TracksLater(buckets: Buckets, history: seq<Hit>, now: real, later: real)
    requires Tracks(buckets, history, now) && now <= later
    ensures Tracks(buckets, history, later)
  {
    forall key ensures Remembers(Queue(buckets, key), TimesOf(history, key), later) {
      assert Remembers(Queue(buckets, key), TimesOf(history, key), now);
    }
  }

  lemma CheckKeepsBound(buckets: Buckets, call: Call)
    requires |buckets| <= MAX_BUCKETS
    ensures |Check(buckets, call).0| <= MAX_BUCKETS
  {
    var kept, after := Prune(buckets, call.now - WINDOW_SECONDS), Check(buckets, call).0;
    assert |kept.Keys| == |kept| && |buckets.Keys| == |buckets| && |after.Keys| == |after|;
    SubsetCardinality(kept.Keys, buckets.Keys);
    if call.key in kept {
      assert after.Keys == kept.Keys;
    } else {
      SubsetCardinality(after.Keys, kept.Keys + {call.key});
    }
  }

  /** What one call leaves in the queue of each key. */
  lemma CheckQueue(buckets: Buckets, call: Call, key: string)
    ensures var (after, decision) := Check(buckets, call);
            var kept := Queue(Prune(buckets, call.now - WINDOW_SECONDS), key);
            Queue(after, key) ==
              if key != call.key || decision == OverCapacity then kept
              else DropStale(kept, call.now - WINDOW_SECONDS) + if decision == Admitted then [call.now] else []
  {}

  lemma AppendRemembers(hits: seq<real>, times: seq<real>, now: real)
    requires Remembers(hits, times, now)
    ensures Remembers(hits + [now], times + [now], now)
  {}

  lemma CheckKeepsQueue(buckets: Buckets, history: seq<Hit>, call: Call, key: string)
    requires Tracks(buckets, history, call.now)
    ensures Remembers(Queue(Check(buckets, call).0, key), TimesOf(Next(history, call), key), call.now)
  {
    hide DropStale, TimesOf, Check, Prune, Decide, Remembers, Queue;
    SameDecision(buckets, history, call);
    WindowIsExact(buckets, history, call);
    CheckQueue(buckets, call, key);
    PrunedQueueRemembers(buckets, history, call.now, key);
    TimesOfAppend(history, Hit(call.key, call.now), key);
    assert TimesOf(history, key) + [] == TimesOf(history, key);
    if key == call.key {
      AppendRemembers(Window(buckets, call), TimesOf(history, key), call.now);
      assert Window(buckets, call) + [] == Window(buckets, call);
    }
  }

  lemma CheckKeepsTracks(buckets: Buckets, history: seq<Hit>, call: Call)
    requires Tracks(buckets, history, call.now)
    ensures Tracks(Check(buckets, call).0, Next(history, call), call.now)
  {
    CheckKeepsBound(buckets, call);
    forall key ensures Remembers(Queue(Check(buckets, call).0, key), TimesOf(Next(history, call), key), call.now) {
      CheckKeepsQueue(buckets, history, call, key);
    }
  }

  lemma {:induction false} TracksAlways(script: seq<Call>, now: real)
    requires Serialized(script) && (script != [] ==> script[|script| - 1].now <= now)
    ensures Tracks(After(script), History(script), now)
  {
    if script != [] {
      var before, last := script[..|script| - 1], script[|script| - 1];
      TracksAlways(before, last.now);
      SameDecision(After(before), History(before), last);
      CheckKeepsTracks(After(before), History(before), last);
      TracksLater(After(script), History(script), last.now, now);
    } else {
      assert forall key :: TimesOf([], key) == [];
    }
  }

  // ---------------------------------------------------------------- theorems

  /**
   * Exactness. After any serialized script, the pruned queues decide the next call as the full
   * history does; once expired buckets are dropped, the tracked keys are exactly the keys with an
   * admitted hit in the window, none of which is dropped; and the table stays bounded.
   */
  lemma {:induction false} LimiterIsExact(script: seq<Call>, call: Call)
    requires Serialized(script + [call])
    ensures Check(After(script), call).1 == Decide(History(script), call)
    ensures Prune(After(script), call.now - WINDOW_SECONDS).Keys == ActiveKeys(History(script), call.now)
    ensures ActiveKeys(History(script), call.now) <= Check(After(script), call).0.Keys
    ensures |After(script)| <= MAX_BUCKETS
    ensures Check(After(script), call).1 == OverCapacity <==>
              call.key !in ActiveKeys(History(script), call.now) && |ActiveKeys(History(script), call.now)| == 8192
  {
    var longer := script + [call];
    forall i, j | 0 <= i < j < |script| ensures script[i].now <= script[j].now {
      assert longer[i].now <= longer[j].now;
    }
    if script != [] { assert longer[|script| - 1].now <= longer[|script|].now; }
    TracksAlways(script, call.now);
    SameDecision(After(script), History(script), call);
    PruneKeepsActiveKeys(After(script), History(script), call.now);
    var kept := Prune(After(script), call.now - WINDOW_SECONDS);
    SubsetCardinality(kept.Keys, After(script).Keys);
    assert |kept.Keys| <= |After(script)|;
  }

  lemma {:induction false} HitsInWider(history: seq<Hit>, key: string, from: real, to: real, from': real, to': real)
    requires from' <= from
    requires forall h :: h in history ==> h.time <= to'
    ensures HitsIn(history, key, from, to) <= HitsIn(history, key, from', to')
  {
    if history != [] {
      HitsInWider(history[..|history| - 1], key, from, to, from', to');
    }
  }

  lemma {:induction false} HistoryIsPast(script: seq<Call>, now: real)
    requires Serialized(script) && (script != [] ==> script[|script| - 1].now <= now)
    ensures forall h :: h in History(script) ==> h.time <= now
  {
    if script != [] {
      HistoryIsPast(script[..|script| - 1], script[|script| - 1].now);
    }
  }

  lemma AdmissionIsSafe(history: seq<Hit>, call: Call, start: real)
    requires Decide(history, call) == Admitted
    requires forall h :: h in history ==> h.time <= call.now
    requires start <= call.now <= start + WINDOW_SECONDS
    ensures HitsIn(Next(history, call), call.key, start, start + WINDOW_SECONDS) <= call.limit
  {
    var longer := Next(history, call);
    assert longer[..|longer| - 1] == history;
    HitsInWider(history, call.key, start, start + WINDOW_SECONDS, call.now - WINDOW_SECONDS, call.now);
  }

  /**
   * Safety. With a fixed limit per key, no closed interval as long as the window, wherever it lies,
   * contains more admitted hits of a key than the limit allows.
   */
  lemma {:induction false} WindowSafety(script: seq<Call>, limit: string -> int, key: string, start: real)
    requires Serialized(script)
    requires forall i :: 0 <= i < |script| ==> script[i].limit == limit(script[i].key)
    ensures HitsIn(History(script), key, start, start + 60.0) <= Max(limit(key), 0)
  {
    hide Decide;
    if script != [] {
      var before, last := script[..|script| - 1], script[|script| - 1];
      WindowSafety(before, limit, key, start);
      HistoryIsPast(before, last.now);
      var longer := History(script);
      if longer != History(before) {
        assert longer[..|longer| - 1] == History(before);
        if last.key == key && start <= last.now <= start + WINDOW_SECONDS {
          AdmissionIsSafe(History(before), last, start);
        }
      }
    }
  }

  // ---------------------------------------------------------------- whose bucket

  /**
   * What the request carries: `peer` is the transport peer's address if its host parses, `trusted`
   * the membership test for the configured proxy networks if they parse, and `forwarded` the text of
   * the forwarding header, if there is one.
   */
  datatype Request<!A> = Request(host: Option<string>, peer: Option<A>, trusted: Option<A -> bool>, forwarded: Option<string>)

  /** Reading one item of the header, white space included, and printing an address. */
  datatype Addresses<!A> = Addresses(parse: string -> Option<A>, render: A -> string)

  function FirstComma(text: string): (i: nat)
    ensures i <= |text| && (i < |text| ==> text[i] == ',') && ',' !in text[..i]
  {
    if text == "" || text[0] == ',' then 0
    else
      var i := FirstComma(text[1..]);
      assert text[..1 + i] == [text[0]] + text[1..][..i];
      1 + i
  }

  /** `str.split(",")`: never empty. */
  function Split(text: string): (items: seq<string>)
    ensures items != []
  {
    var i := FirstComma(text);
    if i == |text| then [text] else [text[..i]] + Split(text[i + 1..])
  }

  /** Every item read, unless one of them is no address. */
  function ReadAll<A>(items: seq<string>, parse: string -> Option<A>): Option<seq<A>> {
    if items == [] then Some([])
    else
      var (init, last) := (ReadAll(items[..|items| - 1], parse), parse(items[|items| - 1]));
      if init.None? || last.None? then None else Some(init.value + [last.value])
  }

  /** The nearest hop, walking from the peer towards the client, that is no configured proxy. */
  function NearestUntrusted<A>(hops: seq<A>, trusted: A -> bool): Option<A> {
    if hops == [] then None
    else if !trusted(hops[|hops| - 1]) then Some(hops[|hops| - 1])
    else NearestUntrusted(hops[..|hops| - 1], trusted)
  }

  /** Does the peer's word about forwarding count? */
  predicate ListensTo<A>(request: Request<A>) {
    && request.host.Some? && request.host.value != ""
    && request.peer.Some? && request.trusted.Some? && request.trusted.value(request.peer.value)
  }

  function KeyFor<A>(request: Request<A>, addresses: Addresses<A>): string {
    if request.host.None? || request.host.value == "" then "unknown"
    else if !ListensTo(request) || request.forwarded.None? || request.forwarded.value == "" then request.host.value
    else match ReadAll(Split(request.forwarded.value), addresses.parse)
      case None => request.host.value
      case Some(hops) =>
        match NearestUntrusted(hops, request.trusted.value)
        case None => request.host.value
        case Some(hop) => addresses.render(hop)
  }

  method ClientKey<A>(request: Request<A>, addresses: Addresses<A>) returns (key: string)
    ensures key == KeyFor(request, addresses)
  {
    hide Split, ReadAll;
    if request.host.None? || request.host.value == "" { return "unknown"; }
    var peerText := request.host.value;
    if request.peer.None? || request.trusted.None? { return peerText; }
    var isTrusted := request.trusted.value;
    if !isTrusted(request.peer.value) { return peerText; }
    if request.forwarded.None? || request.forwarded.value == "" { return peerText; }
    var hops := ReadAll(Split(request.forwarded.value), addresses.parse);
    if hops.None? { return peerText; }
    var chain := hops.value + [request.peer.value];
    var index := |chain| - 1;
    assert NearestUntrusted(chain[..index + 1], isTrusted) == NearestUntrusted(hops.value, isTrusted) by {
      assert chain[..index + 1] == chain && chain[..|chain| - 1] == hops.value;
    }
    while index > 0 && isTrusted(chain[index])
      invariant 0 <= index < |chain|
      invariant NearestUntrusted(chain[..index + 1], isTrusted) == NearestUntrusted(hops.value, isTrusted)
    {
      assert chain[..index + 1][..index] == chain[..index];
      index := index - 1;
    }
    var selected := chain[index];
    assert chain[..index + 1][..index] == chain[..index];
    if isTrusted(selected) { return peerText; }
    key := addresses.render(selected);
  }

  /** The chosen hop is in the chain, is no proxy, and every hop nearer to the server is a proxy. */
  lemma {:induction false} NearestUntrustedIs<A>(hops: seq<A>, trusted: A -> bool)
    ensures NearestUntrusted(hops, trusted).None? <==> forall i :: 0 <= i < |hops| ==> trusted(hops[i])
    ensures NearestUntrusted(hops, trusted).Some? ==>
              exists i :: 0 <= i < |hops| && hops[i] == NearestUntrusted(hops, trusted).value && !trusted(hops[i])
                          && forall j :: i < j < |hops| ==> trusted(hops[j])
  {
    if hops != [] { NearestUntrustedIs(hops[..|hops| - 1], trusted); }
  }

  lemma {:induction false} NearestOfConcat<A>(prefix: seq<A>, hops: seq<A>, trusted: A -> bool)
    ensures NearestUntrusted(prefix + hops, trusted) ==
            if NearestUntrusted(hops, trusted).Some? then NearestUntrusted(hops, trusted) else NearestUntrusted(prefix, trusted)
  {
    if hops == [] {
      assert prefix + hops == prefix;
    } else {
      var init, last := hops[..|hops| - 1], hops[|hops| - 1];
      assert (prefix + hops)[|prefix + hops| - 1] == last;
      assert (prefix + hops)[..|prefix + hops| - 1] == prefix + init;
      NearestOfConcat(prefix, init, trusted);
    }
  }

  lemma {:induction false} FirstCommaOfJoin(a: string, b: string)
    ensures FirstComma(a + ("," + b)) == FirstComma(a)
  {
    var text := a + ("," + b);
    if a != "" && a[0] != ',' {
      FirstCommaOfJoin(a[1..], b);
      assert text[1..] == a[1..] + ("," + b);
    }
  }

  /** Joining headers with a comma lists the items of both. */
  lemma {:induction false} SplitOfJoin(a: string, b: string)
    ensures Split(a + ("," + b)) == Split(a) + Split(b)
    decreases |a|
  {
    var text, i := a + ("," + b), FirstComma(a);
    FirstCommaOfJoin(a, b);
    assert text[..i] == a[..i];
    if i == |a| {
      assert text[i + 1..] == b && a[..i] == a;
    } else {
      assert text[i + 1..] == a[i + 1..] + ("," + b);
      SplitOfJoin(a[i + 1..], b);
      Associate([a[..i]], Split(a[i + 1..]), Split(b));
    }
  }

  lemma {:induction false} ReadAllOfConcat<A>(a: seq<string>, b: seq<string>, parse: string -> Option<A>)
    ensures ReadAll(a + b, parse) ==
            if ReadAll(a, parse).None? || ReadAll(b, parse).None? then None
            else Some(ReadAll(a, parse).value + ReadAll(b, parse).value)
  {
    if b == [] {
      assert a + b == a;
      assert ReadAll(a, parse).Some? ==> ReadAll(a, parse).value + [] == ReadAll(a, parse).value;
    } else {
      var init, last := b[..|b| - 1], b[|b| - 1];
      assert (a + b)[..|a + b| - 1] == a + init && (a + b)[|a + b| - 1] == last;
      ReadAllOfConcat(a, init, parse);
      if ReadAll(a, parse).Some? && ReadAll(init, parse).Some? && parse(last).Some? {
        Associate(ReadAll(a, parse).value, ReadAll(init, parse).value, [parse(last).value]);
      }
    }
  }

  /**
   * A client writes `prefix`, its proxies append `appended`. Its key is the same as without the prefix
   * exactly when nothing forwarded counts, or the appended items cannot be read, or - the nearest
   * untrusted appended hop being chosen - the prefix can be read or that hop prints as the peer itself,
   * or - all appended hops being proxies - the prefix cannot be read, names only proxies, or its nearest
   * untrusted hop prints as the peer itself.
   */
  lemma {:induction false} PrefixKeepsKeyIff<A>(prefix: string, appended: string, request: Request<A>, addresses: Addresses<A>)
    requires request.forwarded == Some(appended) && appended != ""
    ensures KeyFor(request.(forwarded := Some(prefix + ("," + appended))), addresses) == KeyFor(request, addresses) <==>
            var written, hops := ReadAll(Split(prefix), addresses.parse), ReadAll(Split(appended), addresses.parse);
            || !ListensTo(request) || hops.None?
            || (match NearestUntrusted(hops.value, request.trusted.value)
                case Some(hop) => written.Some? || addresses.render(hop) == request.host.value
                case None =>
                  written.None? || NearestUntrusted(written.value, request.trusted.value).None?
                  || addresses.render(NearestUntrusted(written.value, request.trusted.value).value) == request.host.value)
  {
    hide Split, ReadAll, NearestUntrusted;
    SplitOfJoin(prefix, appended);
    ReadAllOfConcat(Split(prefix), Split(appended), addresses.parse);
    var written, hops := ReadAll(Split(prefix), addresses.parse), ReadAll(Split(appended), addresses.parse);
    if ListensTo(request) && written.Some? && hops.Some? { NearestOfConcat(written.value, hops.value, request.trusted.value); }
  }

  lemma ReadOne<A>(item: string, parse: string -> Option<A>)
    requires ',' !in item
    ensures ReadAll(Split(item), parse) == match parse(item) case None => None case Some(a) => Some([a])
  {
    assert FirstComma(item) == |item|;
    var items := [item];
    assert items[..0] == [] && ReadAll<A>([], parse) == Some([]);
    if parse(item).Some? { assert [] + [parse(item).value] == [parse(item).value]; }
  }

  /** One item written, one appended, by a proxy the server trusts. */
  lemma KeyOfPair<A>(written: string, appended: string, request: Request<A>, addresses: Addresses<A>)
    requires ListensTo(request) && ',' !in written && ',' !in appended && appended != "" && addresses.parse(appended).Some?
    ensures var (hop, first, trusted) := (addresses.parse(appended).value, addresses.parse(written), request.trusted.value);
            && KeyFor(request.(forwarded := Some(appended)), addresses)
               == (if trusted(hop) then request.host.value else addresses.render(hop))
            && KeyFor(request.(forwarded := Some(written + ("," + appended))), addresses)
               == (if first.None? then request.host.value
                   else if !trusted(hop) then addresses.render(hop)
                   else if !trusted(first.value) then addresses.render(first.value)
                   else request.host.value)
  {
    hide Split, ReadAll;
    SplitOfJoin(written, appended);
    ReadOne(written, addresses.parse);
    ReadOne(appended, addresses.parse);
    ReadAllOfConcat(Split(written), Split(appended), addresses.parse);
    NearestOfOne(addresses.parse(appended).value, request.trusted.value);
    if addresses.parse(written).Some? {
      NearestOfOne(addresses.parse(written).value, request.trusted.value);
      NearestOfConcat([addresses.parse(written).value], [addresses.parse(appended).value], request.trusted.value);
    }
  }

  lemma NearestOfOne<A>(hop: A, trusted: A -> bool)
    ensures NearestUntrusted([hop], trusted) == if trusted(hop) then None else Some(hop)
  {
    assert [hop][..0] == [];
  }

  /**
   * Two inputs on which a prefix does change the key. An item that is no address sends the client to
   * the peer's bucket; and in front of proxies alone, any address the client writes is taken for its own.
   */
  lemma PrefixCanChangeKey()
    ensures var (proxy, client) := ("10.0.0.8", "198.51.100.23");
            var addresses := Addresses((text: string) => if text == "garbage" then None else Some(text), (a: string) => a);
            var request := Request(Some(proxy), Some(proxy), Some((a: string) => a == proxy), None);
            && KeyFor(request.(forwarded := Some(client)), addresses) == client
            && KeyFor(request.(forwarded := Some("garbage" + ("," + client))), addresses) == proxy
            && KeyFor(request.(forwarded := Some(proxy)), addresses) == proxy
            && KeyFor(request.(forwarded := Some(client + ("," + proxy))), addresses) == client
  {
    hide KeyFor, Split, ReadAll, NearestUntrusted;
    var (proxy, client) := ("10.0.0.8", "198.51.100.23");
    var addresses := Addresses((text: string) => if text == "garbage" then None else Some(text), (a: string) => a);
    var request := Request(Some(proxy), Some(proxy), Some((a: string) => a == proxy), None);
    assert |client| != |proxy| && |client| != |"garbage"| && |proxy| != |"garbage"|;
    KeyOfPair("garbage", client, request, addresses);
    KeyOfPair(client, proxy, request, addresses);
  }
}
