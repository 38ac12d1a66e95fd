/**
 The in-memory reference vector store. Its two dictionaries are maps; the order of a dictionary is
 never observable through its methods, because every listing they return is sorted.

 Scores are exact real dot products. Each method of the class is proved against a function of the
 store's value; the lemmas after the class say what those functions keep, undo and conserve.
 */
module VectorStore {
  import opened Basics
  import opened Text

  datatype Record = Record(id: string, text: string, vector: seq<real>, metadata: string, source: Option<string>)

  datatype Match = Match(id: string, score: real, text: string, metadata: string, source: Option<string>)

  datatype Query = Query(collection: string, dense: Option<seq<real>>, filtered: bool, limit: nat)

  type Records = map<string, Record>

  datatype Store = Store(collections: map<string, Records>, dimensions: map<string, int>)

  datatype StoreError = NonPositiveDimensions | DimensionsDiffer | NoSuchCollection | WidthDiffers | UnsupportedQuery

  const EMPTY := Store(map[], map[])

  /** Each record sits under its own identifier and has the collection's width. */
  ghost predicate Shaped(records: Records, width: int) {
    forall id :: id in records ==> records[id].id == id && |records[id].vector| == width
  }

  /** What holds between any two operations. */
  ghost predicate WellFormed(store: Store) {
    && store.collections.Keys == store.dimensions.Keys
    && (forall name :: name in store.dimensions ==> 1 <= store.dimensions[name])
    && (forall name :: name in store.collections ==> Shaped(store.collections[name], store.dimensions[name]))
  }

  // ---------------------------------------------------------------- operations as functions

  function Ensure(store: Store, name: string, dimensions: int): (Store, Option<StoreError>) {
    if dimensions < 1 then (store, Some(NonPositiveDimensions))
    else if name in store.dimensions && store.dimensions[name] != dimensions then (store, Some(DimensionsDiffer))
    else
      (Store(if name in store.collections then store.collections else store.collections[name := map[]],
             if name in store.dimensions then store.dimensions else store.dimensions[name := dimensions]), None)
  }

  /** Writes records in order until one has the wrong width. */
  function PutWhileFits(records: Records, width: int, batch: seq<Record>): (Records, bool)
    decreases |batch|
  {
    if batch == [] then (records, true)
    else if |batch[0].vector| != width then (records, false)
    else PutWhileFits(records[batch[0].id := batch[0]], width, batch[1..])
  }

  function Upsert(store: Store, name: string, batch: seq<Record>): (Store, Result<nat, StoreError>) {
    if name !in store.collections || name !in store.dimensions then (store, Err(NoSuchCollection))
    else
      var (records, complete) := PutWhileFits(store.collections[name], store.dimensions[name], batch);
      (store.(collections := store.collections[name := records]), if complete then Ok(|batch|) else Err(WidthDiffers))
  }

  function Drop(store: Store, name: string): Store {
    Store(store.collections - {name}, store.dimensions - {name})
  }

  function RecordsOf(store: Store, name: string): Records {
    if name in store.collections then store.collections[name] else map[]
  }

  function IdsFrom(records: Records, source: string): set<string> {
    set id | id in records && records[id].source == Some(source)
  }

  function DropSource(store: Store, name: string, source: string): Store {
    if name !in store.collections then store
    else store.(collections := store.collections[name := store.collections[name] - IdsFrom(store.collections[name], source)])
  }

  // ---------------------------------------------------------------- ranking

  /** Higher score first; equal scores by identifier. */
  predicate Before(a: Match, b: Match) {
    a.score > b.score || (a.score == b.score && Less(a.id, b.id))
  }

  function Dot(a: seq<real>, b: seq<real>): real
    requires |a| == |b|
  {
    if a == [] then 0.0 else a[0] * b[0] + Dot(a[1..], b[1..])
  }

  function Scored(r: Record, query: seq<real>): Match
    requires |r.vector| == |query|
  {
    Match(r.id, Dot(r.vector, query), r.text, r.metadata, r.source)
  }

  ghost predicate Ranked(matches: seq<Match>) {
    forall i, j :: 0 <= i < j < |matches| ==> Before(matches[i], matches[j])
  }

  ghost predicate Fits(records: Records, query: seq<real>) {
    forall id :: id in records ==> |records[id].vector| == |query|
  }

  ghost function Matches(records: Records, query: seq<real>): set<Match>
    requires Fits(records, query)
  {
    set id | id in records :: Scored(records[id], query)
  }

  /** The complete answer: every record's match, in rank order. */
  ghost predicate IsRanking(records: Records, query: seq<real>, all: seq<Match>)
    requires Fits(records, query)
  {
    Ranked(all) && Elements(all) == Matches(records, query)
  }

  function Prefix<T>(xs: seq<T>, limit: nat): seq<T> {
    if limit < |xs| then xs[..limit] else xs
  }

  /** What a search finds for a limit, told from the records, their scores and their identifiers. */
  ghost predicate IsAnswer(records: Records, query: seq<real>, limit: nat, found: seq<Match>)
    requires Fits(records, query)
  {
    && |found| == Min(|records|, limit)
    && (forall i, j :: 0 <= i < j < |found| ==>
          found[i].id != found[j].id
          && (found[i].score > found[j].score || (found[i].score == found[j].score && Less(found[i].id, found[j].id))))
    && (forall m :: m in found ==> IsMatchOf(records, query, m))
    && (forall id, m :: id in records && m in found && !Lists(found, records[id].id) ==>
          var score := Dot(records[id].vector, query);
          m.score > score || (m.score == score && Less(m.id, records[id].id)))
  }

  ghost predicate Lists(found: seq<Match>, id: string) {
    exists m :: m in found && m.id == id
  }

  /** The match tells its own record's data and score. */
  ghost predicate IsMatchOf(records: Records, query: seq<real>, m: Match)
    requires Fits(records, query)
  {
    exists id :: id in records && m.id == records[id].id && m.text == records[id].text && m.metadata == records[id].metadata
                 && m.source == records[id].source && m.score == Dot(records[id].vector, query)
  }

  lemma BeforeOrders(a: Match, b: Match, c: Match)
    ensures a.id != b.id ==> Before(a, b) || Before(b, a)
    ensures !(Before(a, b) && Before(b, a)) && !Before(a, a)
    ensures Before(a, b) && Before(b, c) ==> Before(a, c)
  {
    LessTotal(a.id, b.id);
    if Less(a.id, b.id) && Less(b.id, c.id) { LessTransitive(a.id, b.id, c.id); }
  }

  lemma ElementsAppend<T>(a: seq<T>, b: seq<T>)
    ensures Elements(a + b) == Elements(a) + Elements(b)
  {}

  method Insert(sorted: seq<Match>, m: Match) returns (longer: seq<Match>)
    requires Ranked(sorted) && forall x :: x in sorted ==> x.id != m.id
    ensures Ranked(longer) && Elements(longer) == Elements(sorted) + {m}
  {
    hide Before;
    var i := 0;
    while i < |sorted| && Before(sorted[i], m)
      invariant 0 <= i <= |sorted|
      invariant forall j :: 0 <= j < i ==> Before(sorted[j], m)
    {
      i := i + 1;
    }
    if i < |sorted| {
      assert sorted[i] in sorted;
      forall j | i <= j < |sorted| ensures Before(m, sorted[j]) {
        BeforeOrders(sorted[i], m, m);
        BeforeOrders(m, sorted[i], sorted[j]);
      }
    }
    longer := sorted[..i] + [m] + sorted[i..];
    InsertedElements(sorted, i, m);
  }

  lemma InsertedElements(sorted: seq<Match>, i: nat, m: Match)
    requires i <= |sorted|
    ensures Elements(sorted[..i] + [m] + sorted[i..]) == Elements(sorted) + {m}
  {
    assert sorted == sorted[..i] + sorted[i..];
    ElementsAppend(sorted[..i], sorted[i..]);
    ElementsAppend(sorted[..i], [m]);
    ElementsAppend(sorted[..i] + [m], sorted[i..]);
  }

  /** Only one sequence can list a given set in rank order. */
  lemma {:induction false} RankingIsUnique(a: seq<Match>, b: seq<Match>)
    requires Ranked(a) && Ranked(b) && Elements(a) == Elements(b)
    ensures a == b
  {
    if a != [] {
      assert a[0] in Elements(b);
      assert b[0] in Elements(a);
      BeforeOrders(a[0], b[0], b[0]);
      forall m ensures m in Elements(a[1..]) <==> m in Elements(b[1..]) {
        assert a == [a[0]] + a[1..] && b == [b[0]] + b[1..];
        BeforeOrders(m, m, m);
        assert m in Elements(a) <==> m in Elements(b);
      }
      RankingIsUnique(a[1..], b[1..]);
    }
    assert b != [] ==> b[0] in Elements(b);
  }

  ghost predicate SelfKeyed(records: Records) {
    forall id :: id in records ==> records[id].id == id
  }

  lemma {:induction false} RankedLength(records: Records, query: seq<real>, all: seq<Match>)
    requires Fits(records, query) && SelfKeyed(records) && IsRanking(records, query, all)
    ensures |all| == |records|
  {
    hide Dot;
    var ids := seq(|all|, i requires 0 <= i < |all| => all[i].id);
    forall i, j | 0 <= i < j < |all| ensures all[i].id != all[j].id {
      assert all[i] in Elements(all) && all[j] in Elements(all);
      BeforeOrders(all[i], all[j], all[j]);
    }
    DistinctCardinality(ids);
    forall id ensures id in Elements(ids) <==> id in records {
      if id in records {
        assert Scored(records[id], query) in Elements(all);
        var i :| 0 <= i < |all| && all[i] == Scored(records[id], query);
        assert ids[i] == id;
      }
      if i :| 0 <= i < |ids| && ids[i] == id { assert all[i] in Elements(all); }
    }
    assert Elements(ids) == records.Keys;
    assert |records.Keys| == |records|;
  }

  /** A prefix of a ranking is an answer. */
  lemma {:induction false} RankingAnswers(records: Records, query: seq<real>, all: seq<Match>, limit: nat)
    requires Fits(records, query) && SelfKeyed(records) && IsRanking(records, query, all)
    ensures IsAnswer(records, query, limit, Prefix(all, limit))
  {
    hide Dot;
    RankedLength(records, query, all);
    var found := Prefix(all, limit);
    forall m | m in all ensures IsMatchOf(records, query, m) {
      assert m in Elements(all);
      var id :| id in records && m == Scored(records[id], query);
    }
    forall i, j | 0 <= i < j < |found| ensures found[i].id != found[j].id {
      assert Before(all[i], all[j]);
      assert all[i] in Elements(all) && all[j] in Elements(all);
      BeforeOrders(all[i], all[j], all[j]);
    }
    forall k | 0 <= k < |found| ensures Lists(found, found[k].id) { assert found[k] in found; }
    forall id, m | id in records && m in found && !Lists(found, records[id].id) ensures Before(m, Scored(records[id], query)) {
      assert Scored(records[id], query) in Elements(all);
      var j :| 0 <= j < |all| && all[j] == Scored(records[id], query);
      var i :| 0 <= i < |found| && found[i] == m;
      assert Before(all[i], all[j]);
    }
  }

  // ---------------------------------------------------------------- the class

  class MemoryVectorPlugin {
    var collections: map<string, Records>
    var dimensions: map<string, int>

    ghost function State(): Store reads this {
      Store(collections, dimensions)
    }

    constructor ()
      ensures State() == EMPTY
    {
      collections, dimensions := map[], map[];
    }

    method EnsureCollection(name: string, width: int) returns (error: Option<StoreError>)
      modifies this
      ensures (State(), error) == Ensure(old(State()), name, width)
    {
      if width < 1 { return Some(NonPositiveDimensions); }
      if name !in dimensions { dimensions := dimensions[name := width]; }
      if dimensions[name] != width { return Some(DimensionsDiffer); }
      if name !in collections { collections := collections[name := map[]]; }
      error := None;
    }

    method DeleteCollection(name: string)
      modifies this
      ensures State() == Drop(old(State()), name)
    {
      collections := collections - {name};
      dimensions := dimensions - {name};
    }

    method UpsertBatch(name: string, batch: seq<Record>) returns (accepted: Result<nat, StoreError>)
      modifies this
      ensures (State(), accepted) == Upsert(old(State()), name, batch)
    {
      if name !in collections || name !in dimensions { return Err(NoSuchCollection); }
      var width := dimensions[name];
      ghost var outcome := PutWhileFits(collections[name], width, batch);
      for i := 0 to |batch|
        invariant name in collections
        invariant collections == old(collections)[name := collections[name]]
        invariant dimensions == old(dimensions)
        invariant PutWhileFits(collections[name], width, batch[i..]) == outcome
      {
        if |batch[i].vector| != width { return Err(WidthDiffers); }
        collections := collections[name := collections[name][batch[i].id := batch[i]]];
      }
      accepted := Ok(|batch|);
    }

    method Search(query: Query) returns (found: Result<seq<Match>, StoreError>)
      requires WellFormed(State())
      ensures found == Err(UnsupportedQuery) <==> query.dense.None? || query.filtered
      ensures found == Err(WidthDiffers) <==>
                query.dense.Some? && !query.filtered && !Fits(RecordsOf(State(), query.collection), query.dense.value)
      ensures found.Ok? || found == Err(UnsupportedQuery) || found == Err(WidthDiffers)
      ensures found.Ok? ==>
                exists all :: IsRanking(RecordsOf(State(), query.collection), query.dense.value, all)
                              && found.value == Prefix(all, query.limit)
      ensures found.Ok? ==> IsAnswer(RecordsOf(State(), query.collection), query.dense.value, query.limit, found.value)
    {
      if query.dense.None? || query.filtered { return Err(UnsupportedQuery); }
      var records := if query.collection in collections then collections[query.collection] else map[];
      var pending, ordered := records.Keys, [];
      while pending != {}
        invariant pending <= records.Keys && Ranked(ordered)
        invariant forall id :: id in records && id !in pending ==> |records[id].vector| == |query.dense.value|
        invariant Elements(ordered) == set id | id in records && id !in pending :: Scored(records[id], query.dense.value)
      {
        var id :| id in pending;
        if |records[id].vector| != |query.dense.value| { return Err(WidthDiffers); }
        var m := Scored(records[id], query.dense.value);
        forall x | x in ordered ensures x.id != m.id {
          assert x in Elements(ordered);
        }
        ordered := Insert(ordered, m);
        pending := pending - {id};
      }
      assert IsRanking(records, query.dense.value, ordered);
      RankingAnswers(records, query.dense.value, ordered, query.limit);
      found := Ok(Prefix(ordered, query.limit));
    }

    method AggregateSources(name: string) returns (counts: seq<(string, nat)>)
      ensures forall i, j :: 0 <= i < j < |counts| ==> Less(counts[i].0, counts[j].0)
      ensures forall source, n :: (source, n) in counts <==>
                source != "" && n == |IdsFrom(RecordsOf(State(), name), source)| && n > 0
    {
      var records := if name in collections then collections[name] else map[];
      var pending: set<string> := records.Keys;
      var tally: map<string, nat> := map[];
      ghost var done: set<string> := {};
      while pending != {}
        invariant pending + done == records.Keys && pending !! done
        invariant TallyOf(tally, records, done)
      {
        var id :| id in pending;
        var source := records[id].source;
        TallyGrows(tally, records, done, id);
        if source.Some? && source.value != "" {
          tally := tally[source.value := (if source.value in tally then tally[source.value] else 0) + 1];
        }
        pending, done := pending - {id}, done + {id};
      }
      forall s ensures TallyOfSource(tally, IdsFrom(records, s), s) {
        assert Tallied(records, done, s) == IdsFrom(records, s);
        assert TallyOfSource(tally, Tallied(records, done, s), s);
      }
      counts := SortedItems(tally);
      forall source, n ensures (source, n) in counts <==>
                source != "" && n == |IdsFrom(records, source)| && n > 0
      {
        assert TallyOfSource(tally, IdsFrom(records, source), source);
      }
    }

    method DeleteBySource(name: string, source: string) returns (removed: nat)
      modifies this
      ensures State() == DropSource(old(State()), name, source)
      ensures removed == |IdsFrom(RecordsOf(old(State()), name), source)|
    {
      if name !in collections {
        assert IdsFrom(map[], source) == {};
        return 0;
      }
      var records := collections[name];
      var identifiers := set id | id in records && records[id].source == Some(source);
      var pending := identifiers;
      while pending != {}
        invariant pending <= identifiers
        invariant name in collections && collections == old(collections)[name := collections[name]]
        invariant collections[name] == records - (identifiers - pending)
        invariant dimensions == old(dimensions)
      {
        var id :| id in pending;
        collections := collections[name := collections[name] - {id}];
        pending := pending - {id};
      }
      assert identifiers - pending == identifiers;
      assert identifiers == IdsFrom(records, source);
      removed := |identifiers|;
    }
  }

  ghost function Tallied(records: Records, ids: set<string>, source: string): set<string> {
    set id | id in ids && id in records && records[id].source == Some(source)
  }

  ghost predicate TallyOfSource(tally: map<string, nat>, ids: set<string>, source: string) {
    if source == "" || ids == {} then source !in tally else source in tally && tally[source] == |ids|
  }

  ghost predicate TallyOf(tally: map<string, nat>, records: Records, ids: set<string>) {
    forall s :: TallyOfSource(tally, Tallied(records, ids, s), s)
  }

  lemma TallyGrows(tally: map<string, nat>, records: Records, ids: set<string>, id: string)
    requires TallyOf(tally, records, ids) && id in records && id !in ids
    ensures var source := records[id].source;
            TallyOf(if source.Some? && source.value != "" then
                      tally[source.value := (if source.value in tally then tally[source.value] else 0) + 1]
                    else tally, records, ids + {id})
  {
    var source := records[id].source;
    var after := if source.Some? && source.value != "" then
                   tally[source.value := (if source.value in tally then tally[source.value] else 0) + 1]
                 else tally;
    forall s ensures TallyOfSource(after, Tallied(records, ids + {id}, s), s) {
      var had := Tallied(records, ids, s);
      assert TallyOfSource(tally, had, s);
      if source == Some(s) {
        assert Tallied(records, ids + {id}, s) == had + {id};
      } else {
        assert Tallied(records, ids + {id}, s) == had;
      }
    }
  }

  method SortedItems(tally: map<string, nat>) returns (items: seq<(string, nat)>)
    ensures forall i, j :: 0 <= i < j < |items| ==> Less(items[i].0, items[j].0)
    ensures forall s, n :: (s, n) in items <==> s in tally && tally[s] == n
  {
    items := [];
    var pending := tally.Keys;
    while pending != {}
      invariant pending <= tally.Keys
      invariant forall i, j :: 0 <= i < j < |items| ==> Less(items[i].0, items[j].0)
      invariant forall s, n :: (s, n) in items <==> s in tally && s !in pending && tally[s] == n
    {
      var key :| key in pending;
      var i := 0;
      while i < |items| && Less(items[i].0, key)
        invariant 0 <= i <= |items|
        invariant forall j :: 0 <= j < i ==> Less(items[j].0, key)
      {
        i := i + 1;
      }
      if i < |items| {
        assert (items[i].0, items[i].1) in items;
        LessTotal(items[i].0, key);
        forall j | i < j < |items| ensures Less(key, items[j].0) {
          LessTransitive(key, items[i].0, items[j].0);
        }
      }
      assert items == items[..i] + items[i..];
      items := items[..i] + [(key, tally[key])] + items[i..];
      pending := pending - {key};
    }
  }

  // ---------------------------------------------------------------- invariants over all runs

  datatype Command =
    | EnsureCommand(name: string, dimensions: int)
    | DropCommand(name: string)
    | UpsertCommand(name: string, batch: seq<Record>)
    | DropSourceCommand(name: string, source: string)

  function Apply(store: Store, command: Command): Store {
    match command
    case EnsureCommand(name, dimensions) => Ensure(store, name, dimensions).0
    case DropCommand(name) => Drop(store, name)
    case UpsertCommand(name, batch) => Upsert(store, name, batch).0
    case DropSourceCommand(name, source) => DropSource(store, name, source)
  }

  function Run(commands: seq<Command>): Store {
    if commands == [] then EMPTY else Apply(Run(commands[..|commands| - 1]), commands[|commands| - 1])
  }

  /** Even a batch that fails halfway leaves only well-placed records of the right width. */
  lemma {:induction false} PutKeepsShape(records: Records, width: int, batch: seq<Record>)
    requires Shaped(records, width)
    ensures Shaped(PutWhileFits(records, width, batch).0, width)
    decreases |batch|
  {
    if batch != [] && |batch[0].vector| == width {
      PutKeepsShape(records[batch[0].id := batch[0]], width, batch[1..]);
    }
  }

  lemma ApplyKeepsWellFormed(store: Store, command: Command)
    requires WellFormed(store)
    ensures WellFormed(Apply(store, command))
  {
    match command
    case EnsureCommand(_, _) =>
    case DropCommand(_) =>
    case DropSourceCommand(_, _) =>
    case UpsertCommand(name, batch) =>
      if name in store.collections {
        PutKeepsShape(store.collections[name], store.dimensions[name], batch);
        var after := PutWhileFits(store.collections[name], store.dimensions[name], batch).0;
        assert Apply(store, command) == store.(collections := store.collections[name := after]);
      }
  }

  lemma {:induction false} AlwaysWellFormed(commands: seq<Command>)
    ensures WellFormed(Run(commands))
  {
    if commands != [] {
      AlwaysWellFormed(commands[..|commands| - 1]);
      ApplyKeepsWellFormed(Run(commands[..|commands| - 1]), commands[|commands| - 1]);
    }
  }

  /** The answer for a smaller limit is a prefix of the answer for a larger one. */
  lemma SmallerLimitIsPrefix(records: Records, query: seq<real>, all: seq<Match>, all': seq<Match>, limit: nat, larger: nat)
    requires Fits(records, query) && IsRanking(records, query, all) && IsRanking(records, query, all')
    requires limit <= larger
    ensures Prefix(all, limit) == Prefix(Prefix(all', larger), limit)
  {
    RankingIsUnique(all, all');
  }

  lemma RemovedCount(records: Records, ids: set<string>)
    requires ids <= records.Keys
    ensures |records - ids| + |ids| == |records|
  {
    assert (records - ids).Keys == records.Keys - ids;
    assert |(records - ids).Keys| == |records - ids| && |records.Keys| == |records|;
  }

  /** Deleting a source removes exactly its records, as many as were counted, and no others. */
  lemma DeletionIsExact(store: Store, name: string, source: string, other: string)
    requires source != other
    ensures var before, after := RecordsOf(store, name), RecordsOf(DropSource(store, name, source), name);
            && |after| + |IdsFrom(before, source)| == |before|
            && IdsFrom(after, source) == {}
            && IdsFrom(after, other) == IdsFrom(before, other)
            && (forall id :: id in before && before[id].source != Some(source) ==> id in after && after[id] == before[id])
  {
    var before := RecordsOf(store, name);
    var gone := IdsFrom(before, source);
    RemovedCount(before, gone);
    assert RecordsOf(DropSource(store, name, source), name) == before - gone;
    assert IdsFrom(before - gone, source) == {};
    assert IdsFrom(before - gone, other) == IdsFrom(before, other);
  }
}
