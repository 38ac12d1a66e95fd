/**
 Fusing the results of several searches, and capping what one source may contribute.

 The `merged` dictionary of the strategies is a sequence of chunks with distinct keys in insertion
 order. What the loops build is specified without reference to them: one best chunk per key, in the
 order given by score and then first appearance.
 */
module Retrieval {
  import opened Basics

  datatype Chunk = Chunk(source: string, content: string, score: real, page: Option<int>)

  type Key = (string, string)

  function KeyOf(c: Chunk): Key {
    (c.source, c.content)
  }

  // ---------------------------------------------------------------- what a fusion is

  /** `c` is the first among the chunks of its key that reach the key's highest score. */
  ghost predicate IsBest(all: seq<Chunk>, c: Chunk) {
    exists i :: 0 <= i < |all| && all[i] == c && BestAt(all, i)
  }

  ghost predicate BestAt(all: seq<Chunk>, i: nat)
    requires i < |all|
  {
    forall j :: 0 <= j < |all| && KeyOf(all[j]) == KeyOf(all[i]) ==>
      all[j].score <= all[i].score && (j < i ==> all[j].score < all[i].score)
  }

  /** The position where a key first appears, or the length if it does not. */
  function FirstSeen(all: seq<Chunk>, key: Key): (position: nat)
    ensures position <= |all|
    ensures position < |all| ==> KeyOf(all[position]) == key
    ensures forall i :: 0 <= i < position ==> KeyOf(all[i]) != key
  {
    if all == [] then 0
    else
      var before := FirstSeen(all[..|all| - 1], key);
      if before < |all| - 1 then before else if KeyOf(all[|all| - 1]) == key then |all| - 1 else |all|
  }

  ghost predicate Precedes(all: seq<Chunk>, a: Chunk, b: Chunk) {
    a.score > b.score || (a.score == b.score && FirstSeen(all, KeyOf(a)) < FirstSeen(all, KeyOf(b)))
  }

  ghost predicate Covers(out: seq<Chunk>, key: Key) {
    exists o :: o in out && KeyOf(o) == key
  }

  ghost predicate IsFusion(all: seq<Chunk>, out: seq<Chunk>) {
    && (forall i, j :: 0 <= i < j < |out| ==> Precedes(all, out[i], out[j]))
    && (forall c :: c in out ==> IsBest(all, c))
    && (forall c :: c in all ==> Covers(out, KeyOf(c)))
  }

  // ---------------------------------------------------------------- the merged dictionary

  /** The position of a key in the dictionary, or its size. */
  function Slot(merged: seq<Chunk>, key: Key): (slot: nat)
    ensures slot <= |merged|
    ensures slot < |merged| ==> KeyOf(merged[slot]) == key
    ensures forall i :: 0 <= i < slot ==> KeyOf(merged[i]) != key
  {
    if merged == [] then 0
    else if KeyOf(merged[0]) == key then 0
    else 1 + Slot(merged[1..], key)
  }

  /** Keep the higher score; an equal one does not replace. */
  function MergeOne(merged: seq<Chunk>, c: Chunk): seq<Chunk> {
    var slot := Slot(merged, KeyOf(c));
    if slot == |merged| then merged + [c]
    else if c.score > merged[slot].score then merged[slot := c]
    else merged
  }

  function MergeAll(merged: seq<Chunk>, chunks: seq<Chunk>): seq<Chunk> {
    if chunks == [] then merged else MergeOne(MergeAll(merged, chunks[..|chunks| - 1]), chunks[|chunks| - 1])
  }

  ghost predicate DistinctKeys(chunks: seq<Chunk>) {
    forall i, j :: 0 <= i < j < |chunks| ==> KeyOf(chunks[i]) != KeyOf(chunks[j])
  }

  /** The dictionary after the chunks of `all`: best chunks, in order of first appearance. */
  ghost predicate Merged(all: seq<Chunk>, merged: seq<Chunk>) {
    && (forall i, j :: 0 <= i < j < |merged| ==> FirstSeen(all, KeyOf(merged[i])) < FirstSeen(all, KeyOf(merged[j])))
    && (forall c :: c in merged ==> IsBest(all, c))
    && (forall c :: c in all ==> Covers(merged, KeyOf(c)))
  }

  lemma FirstSeenAppend(all: seq<Chunk>, c: Chunk, key: Key)
    ensures FirstSeen(all + [c], key) == if FirstSeen(all, key) < |all| then FirstSeen(all, key)
                                          else if KeyOf(c) == key then |all| else |all| + 1
  {
    assert (all + [c])[..|all|] == all;
  }

  lemma BestAppend(all: seq<Chunk>, c: Chunk, best: Chunk)
    requires IsBest(all, best) && (KeyOf(c) == KeyOf(best) ==> c.score <= best.score)
    ensures IsBest(all + [c], best)
  {
    var i :| 0 <= i < |all| && all[i] == best && BestAt(all, i);
    var longer := all + [c];
    forall j | 0 <= j < |longer| && KeyOf(longer[j]) == KeyOf(longer[i])
      ensures longer[j].score <= longer[i].score && (j < i ==> longer[j].score < longer[i].score)
    {
      if j < |all| { assert longer[j] == all[j]; }
    }
    assert longer[i] == best && BestAt(longer, i);
  }

  lemma NewBest(all: seq<Chunk>, c: Chunk)
    requires forall j :: 0 <= j < |all| && KeyOf(all[j]) == KeyOf(c) ==> all[j].score < c.score
    ensures IsBest(all + [c], c)
  {
    var longer := all + [c];
    assert longer[|all|] == c && BestAt(longer, |all|);
  }

  /** Merging never moves a key: a new one goes last. */
  lemma MergeKeepsKeys(merged: seq<Chunk>, c: Chunk)
    ensures var after := MergeOne(merged, c);
            && |after| == (if Slot(merged, KeyOf(c)) == |merged| then |merged| + 1 else |merged|)
            && (forall i :: 0 <= i < |merged| ==> KeyOf(after[i]) == KeyOf(merged[i]))
            && (|merged| < |after| ==> after[|merged|] == c)
  {}

  lemma MergeKeepsOrder(all: seq<Chunk>, merged: seq<Chunk>, c: Chunk, i: nat, j: nat)
    requires Merged(all, merged) && i < j < |MergeOne(merged, c)|
    ensures FirstSeen(all + [c], KeyOf(MergeOne(merged, c)[i])) < FirstSeen(all + [c], KeyOf(MergeOne(merged, c)[j]))
  {
    hide FirstSeen, MergeOne, Slot, KeyOf;
    MergeKeepsKeys(merged, c);
    FirstSeenAppend(all, c, KeyOf(merged[i]));
    SeenBefore(all, merged, i);
    if j < |merged| {
      FirstSeenAppend(all, c, KeyOf(merged[j]));
      SeenBefore(all, merged, j);
    } else {
      NotSeenBefore(all, merged, c);
      FirstSeenAppend(all, c, KeyOf(c));
    }
  }

  lemma SeenBefore(all: seq<Chunk>, merged: seq<Chunk>, i: nat)
    requires Merged(all, merged) && i < |merged|
    ensures FirstSeen(all, KeyOf(merged[i])) < |all|
  {
    assert merged[i] in merged && IsBest(all, merged[i]);
  }

  lemma NotSeenBefore(all: seq<Chunk>, merged: seq<Chunk>, c: Chunk)
    requires Merged(all, merged) && Slot(merged, KeyOf(c)) == |merged|
    ensures forall x :: x in all ==> KeyOf(x) != KeyOf(c)
  {
    forall x | x in all ensures KeyOf(x) != KeyOf(c) {
      assert Covers(merged, KeyOf(x));
    }
  }

  lemma MergeKeepsBest(all: seq<Chunk>, merged: seq<Chunk>, c: Chunk, x: Chunk)
    requires Merged(all, merged) && x in MergeOne(merged, c)
    ensures IsBest(all + [c], x)
  {
    var slot := Slot(merged, KeyOf(c));
    if slot == |merged| {
      NotSeenBefore(all, merged, c);
      if x in merged {
        assert IsBest(all, x);
        BestAppend(all, c, x);
      } else {
        NewBest(all, c);
      }
    } else {
      var best := merged[slot];
      assert best in merged && IsBest(all, best);
      var i :| 0 <= i < |all| && all[i] == best && BestAt(all, i);
      if x == c && c.score > best.score {
        NewBest(all, c);
      } else {
        assert x in merged;
        OnlySlot(all, merged, c, x);
        BestAppend(all, c, x);
      }
    }
  }

  lemma OnlySlot(all: seq<Chunk>, merged: seq<Chunk>, c: Chunk, x: Chunk)
    requires Merged(all, merged) && Slot(merged, KeyOf(c)) < |merged| && x in merged
    requires x in MergeOne(merged, c) && !(x == c && c.score > merged[Slot(merged, KeyOf(c))].score)
    ensures IsBest(all, x) && (KeyOf(x) == KeyOf(c) ==> c.score <= x.score)
  {
    var slot, after := Slot(merged, KeyOf(c)), MergeOne(merged, c);
    if KeyOf(x) == KeyOf(c) {
      var k :| 0 <= k < |after| && after[k] == x;
      if k != slot {
        assert FirstSeen(all, KeyOf(merged[k])) == FirstSeen(all, KeyOf(merged[slot]));
      }
    }
  }

  lemma MergeKeepsCover(all: seq<Chunk>, merged: seq<Chunk>, c: Chunk, x: Chunk)
    requires Merged(all, merged) && x in all + [c]
    ensures Covers(MergeOne(merged, c), KeyOf(x))
  {
    hide MergeOne, FirstSeen, IsBest, KeyOf;
    var after, slot := MergeOne(merged, c), Slot(merged, KeyOf(c));
    MergeKeepsKeys(merged, c);
    if KeyOf(x) == KeyOf(c) {
      assert after[slot] in after && KeyOf(after[slot]) == KeyOf(c);
    } else {
      assert x in all && Covers(merged, KeyOf(x));
      var o :| o in merged && KeyOf(o) == KeyOf(x);
      var k :| 0 <= k < |merged| && merged[k] == o;
      assert after[k] in after && KeyOf(after[k]) == KeyOf(x);
    }
  }

  lemma MergeKeepsMerged(all: seq<Chunk>, merged: seq<Chunk>, c: Chunk)
    requires Merged(all, merged)
    ensures Merged(all + [c], MergeOne(merged, c))
  {
    hide FirstSeen, MergeOne, IsBest;
    forall i, j | 0 <= i < j < |MergeOne(merged, c)|
      ensures FirstSeen(all + [c], KeyOf(MergeOne(merged, c)[i])) < FirstSeen(all + [c], KeyOf(MergeOne(merged, c)[j]))
    {
      MergeKeepsOrder(all, merged, c, i, j);
    }
    forall x | x in MergeOne(merged, c) ensures IsBest(all + [c], x) { MergeKeepsBest(all, merged, c, x); }
    forall x | x in all + [c] ensures Covers(MergeOne(merged, c), KeyOf(x)) { MergeKeepsCover(all, merged, c, x); }
  }

  lemma {:induction false} MergeAllIsMerged(all: seq<Chunk>)
    ensures Merged(all, MergeAll([], all))
  {
    hide Merged, MergeOne;
    if all != [] {
      var init, last := all[..|all| - 1], all[|all| - 1];
      MergeAllIsMerged(init);
      MergeKeepsMerged(init, MergeAll([], init), last);
      assert all == init + [last];
    } else {
      EmptyMerged();
    }
  }

  lemma EmptyMerged()
    ensures Merged([], [])
  {}

  lemma {:induction false} MergeAllConcat(merged: seq<Chunk>, a: seq<Chunk>, b: seq<Chunk>)
    ensures MergeAll(merged, a + b) == MergeAll(MergeAll(merged, a), b)
  {
    if b == [] {
      assert a + b == a;
    } else {
      MergeAllConcat(merged, a, b[..|b| - 1]);
      assert (a + b)[..|a + b| - 1] == a + b[..|b| - 1];
    }
  }

  // ---------------------------------------------------------------- the stable sort

  /** Insert after every chunk of at least its score. */
  function Insert(sorted: seq<Chunk>, c: Chunk): seq<Chunk> {
    if sorted == [] then [c]
    else if sorted[0].score >= c.score then [sorted[0]] + Insert(sorted[1..], c)
    else [c] + sorted
  }

  /** A stable descending sort by score. */
  function SortDescending(chunks: seq<Chunk>): seq<Chunk> {
    if chunks == [] then [] else Insert(SortDescending(chunks[..|chunks| - 1]), chunks[|chunks| - 1])
  }

  ghost predicate Ordered(all: seq<Chunk>, out: seq<Chunk>) {
    forall i, j :: 0 <= i < j < |out| ==> Precedes(all, out[i], out[j])
  }

  lemma {:induction false} InsertMembers(sorted: seq<Chunk>, c: Chunk)
    ensures forall x :: x in Insert(sorted, c) <==> x == c || x in sorted
  {
    if sorted != [] {
      InsertMembers(sorted[1..], c);
      assert sorted == [sorted[0]] + sorted[1..];
    }
  }

  lemma {:induction false} InsertKeepsOrder(all: seq<Chunk>, sorted: seq<Chunk>, c: Chunk)
    requires Ordered(all, sorted)
    requires forall x :: x in sorted ==> FirstSeen(all, KeyOf(x)) < FirstSeen(all, KeyOf(c))
    ensures Ordered(all, Insert(sorted, c))
  {
    hide FirstSeen, KeyOf;
    if sorted != [] {
      assert sorted[0] in sorted;
      if sorted[0].score >= c.score {
        InsertKeepsOrder(all, sorted[1..], c);
        InsertMembers(sorted[1..], c);
        var rest := Insert(sorted[1..], c);
        forall j | 0 <= j < |rest| ensures Precedes(all, sorted[0], rest[j]) {
          assert rest[j] in rest;
          if rest[j] != c {
            var k :| 0 <= k < |sorted[1..]| && sorted[1..][k] == rest[j];
            assert Precedes(all, sorted[0], sorted[k + 1]);
          }
        }
      } else {
        forall j | 0 <= j < |sorted| ensures Precedes(all, c, sorted[j]) {
          if j > 0 { assert Precedes(all, sorted[0], sorted[j]); }
        }
      }
    }
  }

  lemma {:induction false} SortIsOrdered(all: seq<Chunk>, chunks: seq<Chunk>)
    requires forall i, j :: 0 <= i < j < |chunks| ==> FirstSeen(all, KeyOf(chunks[i])) < FirstSeen(all, KeyOf(chunks[j]))
    ensures Ordered(all, SortDescending(chunks))
    ensures forall x :: x in SortDescending(chunks) <==> x in chunks
  {
    hide FirstSeen, KeyOf, Insert, Ordered;
    if chunks == [] {
      EmptyOrdered(all);
    } else {
      var init, last := chunks[..|chunks| - 1], chunks[|chunks| - 1];
      SortIsOrdered(all, init);
      InsertMembers(SortDescending(init), last);
      assert chunks == init + [last];
      InsertKeepsOrder(all, SortDescending(init), last);
    }
  }

  lemma EmptyOrdered(all: seq<Chunk>)
    ensures Ordered(all, [])
  {}

  lemma FusionIsCorrect(all: seq<Chunk>)
    ensures IsFusion(all, SortDescending(MergeAll([], all)))
  {
    hide IsBest, FirstSeen, MergeAll, SortDescending;
    var merged := MergeAll([], all);
    MergeAllIsMerged(all);
    SortIsOrdered(all, merged);
    forall c | c in all ensures Covers(SortDescending(merged), KeyOf(c)) {
      assert Covers(merged, KeyOf(c));
    }
  }

  /** The same passage: one content from one source. */
  predicate SamePassage(a: Chunk, b: Chunk) {
    a.source == b.source && a.content == b.content
  }

  /** Some chunk of `a`'s passage comes before every one of `b`'s. */
  ghost predicate SeenFirst(all: seq<Chunk>, a: Chunk, b: Chunk) {
    exists p :: 0 <= p < |all| && SamePassage(all[p], a) && forall q :: 0 <= q < |all| && SamePassage(all[q], b) ==> p < q
  }

  /** The first of the best chunks of its passage. */
  ghost predicate IsFirstBest(all: seq<Chunk>, o: Chunk) {
    exists p :: 0 <= p < |all| && all[p] == o
                && forall q :: 0 <= q < |all| && SamePassage(all[q], o) ==>
                     all[q].score <= o.score && (q < p ==> all[q].score < o.score)
  }

  /**
   * What a fusion is, told by source and content: every passage found is there once, as the first of its
   * best chunks, by descending score, and ties in the order in which the passages were first found.
   */
  lemma {:induction false} FusionKeepsPassages(all: seq<Chunk>, out: seq<Chunk>)
    requires IsFusion(all, out)
    ensures forall i, j :: 0 <= i < j < |out| ==> !SamePassage(out[i], out[j])
    ensures forall i, j :: 0 <= i < j < |out| ==>
              out[i].score > out[j].score || (out[i].score == out[j].score && SeenFirst(all, out[i], out[j]))
    ensures forall o :: o in out ==> IsFirstBest(all, o)
    ensures forall c :: c in all ==> exists o :: o in out && SamePassage(o, c)
  {
    hide FirstSeen;
    forall o | o in out ensures IsFirstBest(all, o) {
      assert IsBest(all, o);
      var p :| 0 <= p < |all| && all[p] == o && BestAt(all, p);
      assert forall q :: 0 <= q < |all| && SamePassage(all[q], o) ==> KeyOf(all[q]) == KeyOf(all[p]);
    }
    forall i, j | 0 <= i < j < |out|
      ensures !SamePassage(out[i], out[j])
      ensures out[i].score > out[j].score || (out[i].score == out[j].score && SeenFirst(all, out[i], out[j]))
    {
      assert Precedes(all, out[i], out[j]) && IsBest(all, out[i]) && IsBest(all, out[j]);
      if out[i].score == out[j].score { SeenInOrder(all, out[i], out[j]); }
    }
    forall c | c in all ensures exists o :: o in out && SamePassage(o, c) {
      assert Covers(out, KeyOf(c));
    }
  }

  lemma SeenInOrder(all: seq<Chunk>, a: Chunk, b: Chunk)
    requires FirstSeen(all, KeyOf(a)) < FirstSeen(all, KeyOf(b))
    ensures SeenFirst(all, a, b) && !SamePassage(a, b)
  {
    var p := FirstSeen(all, KeyOf(a));
    hide FirstSeen;
    assert SamePassage(all[p], a);
    forall q | 0 <= q < |all| && SamePassage(all[q], b) ensures p < q { assert KeyOf(all[q]) == KeyOf(b); }
  }

  // ---------------------------------------------------------------- fusion is determined

  lemma {:induction false} SameElementsSameOrder(all: seq<Chunk>, a: seq<Chunk>, b: seq<Chunk>)
    requires Ordered(all, a) && Ordered(all, b) && forall c :: c in a <==> c in b
    ensures a == b
  {
    hide FirstSeen, KeyOf;
    assert b != [] ==> b[0] in b;
    if a != [] {
      assert a[0] in b && b != [];
      assert b[0] in a;
      FirstOfBoth(all, a, b);
      assert a == [a[0]] + a[1..] && b == [b[0]] + b[1..];
      forall c | c in a[1..] ensures c in b[1..] {
        NotFirst(all, a, c);
        assert c in a && c in b;
      }
      forall c | c in b[1..] ensures c in a[1..] {
        NotFirst(all, b, c);
        assert c in b && c in a;
      }
      SameElementsSameOrder(all, a[1..], b[1..]);
    }
  }

  lemma NotFirst(all: seq<Chunk>, a: seq<Chunk>, c: Chunk)
    requires Ordered(all, a) && a != [] && c in a[1..]
    ensures c != a[0]
  {
    var i :| 0 <= i < |a[1..]| && a[1..][i] == c;
    assert Precedes(all, a[0], a[i + 1]);
  }

  lemma FirstOfBoth(all: seq<Chunk>, a: seq<Chunk>, b: seq<Chunk>)
    requires Ordered(all, a) && Ordered(all, b) && a != [] && b != [] && a[0] in b && b[0] in a
    ensures a[0] == b[0]
  {
    var i :| 0 <= i < |b| && b[i] == a[0];
    var j :| 0 <= j < |a| && a[j] == b[0];
    if i > 0 { assert Precedes(all, b[0], b[i]); }
    if j > 0 { assert Precedes(all, a[0], a[j]); }
  }

  lemma BestIsUnique(all: seq<Chunk>, a: Chunk, b: Chunk)
    requires IsBest(all, a) && IsBest(all, b) && KeyOf(a) == KeyOf(b)
    ensures a == b
  {
    var i :| 0 <= i < |all| && all[i] == a && BestAt(all, i);
    var j :| 0 <= j < |all| && all[j] == b && BestAt(all, j);
  }

  /** There is only one fusion of the same search results. */
  lemma FusionIsUnique(all: seq<Chunk>, a: seq<Chunk>, b: seq<Chunk>)
    requires IsFusion(all, a) && IsFusion(all, b)
    ensures a == b
  {
    forall c ensures c in a <==> c in b {
      if c in a { SharedByBoth(all, a, b, c); }
      if c in b { SharedByBoth(all, b, a, c); }
    }
    SameElementsSameOrder(all, a, b);
  }

  lemma SharedByBoth(all: seq<Chunk>, a: seq<Chunk>, b: seq<Chunk>, c: Chunk)
    requires IsFusion(all, a) && IsFusion(all, b) && c in a
    ensures c in b
  {
    assert IsBest(all, c);
    assert c in all;
    assert Covers(b, KeyOf(c));
    var o :| o in b && KeyOf(o) == KeyOf(c);
    BestIsUnique(all, c, o);
  }

  // ---------------------------------------------------------------- the strategies

  /** Multi-query: `results` are the search results of the question and of each variant, in turn. */
  method MultiQuery(results: seq<seq<Chunk>>) returns (chunks: seq<Chunk>)
    ensures IsFusion(Flatten(results), chunks)
  {
    var merged := [];
    for q := 0 to |results|
      invariant merged == MergeAll([], Flatten(results[..q]))
    {
      merged := MergeResults(merged, results[q]);
      MergeAllConcat([], Flatten(results[..q]), results[q]);
      assert results[..q + 1][..q] == results[..q];
    }
    assert results[..|results|] == results;
    FusionIsCorrect(Flatten(results));
    chunks := SortDescending(merged);
  }

  /** The inner loop of both strategies. */
  method MergeResults(before: seq<Chunk>, found: seq<Chunk>) returns (merged: seq<Chunk>)
    ensures merged == MergeAll(before, found)
  {
    merged := before;
    for i := 0 to |found|
      invariant merged == MergeAll(before, found[..i])
    {
      assert found[..i + 1][..i] == found[..i];
      var slot := Slot(merged, KeyOf(found[i]));
      if slot == |merged| {
        merged := merged + [found[i]];
      } else if found[i].score > merged[slot].score {
        merged := merged[slot := found[i]];
      }
    }
    assert found[..|found|] == found;
  }

  /** A dictionary comprehension: a later duplicate replaces the value but keeps the position. */
  function SeedDict(seeds: seq<Chunk>): seq<Chunk> {
    if seeds == [] then []
    else
      var before, last := SeedDict(seeds[..|seeds| - 1]), seeds[|seeds| - 1];
      var slot := Slot(before, KeyOf(last));
      if slot == |before| then before + [last] else before[slot := last]
  }

  /** Distinct values in order of first appearance, as `dict.fromkeys` lists them. */
  function Dedup<T(==)>(xs: seq<T>): seq<T> {
    if xs == [] then []
    else
      var before := Dedup(xs[..|xs| - 1]);
      if xs[|xs| - 1] in before then before else before + [xs[|xs| - 1]]
  }

  function SourcesOf(chunks: seq<Chunk>): seq<string> {
    seq(|chunks|, i requires 0 <= i < |chunks| => chunks[i].source)
  }

  function Expansions(sources: seq<string>, expand: string -> seq<Chunk>): seq<Chunk> {
    if sources == [] then [] else Expansions(sources[..|sources| - 1], expand) + expand(sources[|sources| - 1])
  }

  /** Parent-document: one expansion search per distinct seed source. */
  method ParentDocument(seeds: seq<Chunk>, expand: string -> seq<Chunk>) returns (chunks: seq<Chunk>)
    ensures var expanded := Expansions(Dedup(SourcesOf(seeds)), expand);
            && chunks == SortDescending(MergeAll(SeedDict(seeds), expanded))
            && IsFusion(SeedDict(seeds) + expanded, chunks)
            && (DistinctKeys(seeds) ==> IsFusion(seeds + expanded, chunks))
  {
    var merged := SeedDict(seeds);
    var sources := Dedup(SourcesOf(seeds));
    for k := 0 to |sources|
      invariant merged == MergeAll(SeedDict(seeds), Expansions(sources[..k], expand))
    {
      merged := MergeResults(merged, expand(sources[k]));
      MergeAllConcat(SeedDict(seeds), Expansions(sources[..k], expand), expand(sources[k]));
      assert sources[..k + 1][..k] == sources[..k];
    }
    assert sources[..|sources|] == sources;
    chunks := SortDescending(merged);
    var dict := SeedDict(seeds);
    SeedDictIsLast(seeds);
    SeedDictOfDistinct(dict);
    MergeAllConcat([], dict, Expansions(sources, expand));
    FusionIsCorrect(dict + Expansions(sources, expand));
    if DistinctKeys(seeds) { SeedDictOfDistinct(seeds); }
  }

  lemma SeenKeyHasSlot(init: seq<Chunk>, before: seq<Chunk>, key: Key)
    requires forall c :: c in init ==> Covers(before, KeyOf(c))
    requires FirstSeen(init, key) < |init|
    ensures Slot(before, key) < |before|
  {
    hide Slot, KeyOf;
    var c := init[FirstSeen(init, key)];
    assert c in init && Covers(before, KeyOf(c));
    var o :| o in before && KeyOf(o) == key;
    var k :| 0 <= k < |before| && before[k] == o;
  }

  /** The keys of the seed dictionary are in the order in which the seeds first show them. */
  lemma {:induction false} SeedDictKeepsOrder(seeds: seq<Chunk>)
    ensures forall i :: 0 <= i < |SeedDict(seeds)| ==> FirstSeen(seeds, KeyOf(SeedDict(seeds)[i])) < |seeds|
    ensures forall i, j :: 0 <= i < j < |SeedDict(seeds)| ==>
              FirstSeen(seeds, KeyOf(SeedDict(seeds)[i])) < FirstSeen(seeds, KeyOf(SeedDict(seeds)[j]))
  {
    hide KeyOf, FirstSeen, Slot, Covers, IsLast, LastIn, DistinctKeys;
    if seeds != [] {
      var init, last := seeds[..|seeds| - 1], seeds[|seeds| - 1];
      SeedDictKeepsOrder(init);
      SeedDictIsLast(init);
      assert seeds == init + [last];
      var before, dict := SeedDict(init), SeedDict(seeds);
      forall i | 0 <= i < |before|
        ensures KeyOf(dict[i]) == KeyOf(before[i]) && FirstSeen(seeds, KeyOf(dict[i])) == FirstSeen(init, KeyOf(before[i]))
      {
        FirstSeenAppend(init, last, KeyOf(before[i]));
      }
      if Slot(before, KeyOf(last)) == |before| {
        FirstSeenAppend(init, last, KeyOf(last));
        if FirstSeen(init, KeyOf(last)) < |init| { SeenKeyHasSlot(init, before, KeyOf(last)); }
      }
    }
  }

  /** The expansions are the results for each source, one after the other. */
  lemma {:induction false} ExpansionsAreInOrder(sources: seq<string>, expand: string -> seq<Chunk>)
    ensures Expansions(sources, expand) == Flatten(seq(|sources|, i requires 0 <= i < |sources| => expand(sources[i])))
  {
    var results := seq(|sources|, i requires 0 <= i < |sources| => expand(sources[i]));
    if sources != [] {
      var init := sources[..|sources| - 1];
      ExpansionsAreInOrder(init, expand);
      assert results[..|results| - 1] == seq(|init|, i requires 0 <= i < |init| => expand(init[i]));
    }
  }

  lemma NewKeyHasNoSlot(init: seq<Chunk>, last: Chunk)
    requires DistinctKeys(init + [last])
    ensures Slot(init, KeyOf(last)) == |init|
  {
    hide KeyOf, Slot;
    var all := init + [last];
    forall i | 0 <= i < |init| ensures KeyOf(init[i]) != KeyOf(last) {
      assert all[i] == init[i] && all[|init|] == last;
    }
  }

  lemma {:induction false} SeedDictOfDistinct(seeds: seq<Chunk>)
    requires DistinctKeys(seeds)
    ensures SeedDict(seeds) == seeds == MergeAll([], seeds)
  {
    hide KeyOf, Slot;
    if seeds != [] {
      var init, last := seeds[..|seeds| - 1], seeds[|seeds| - 1];
      SeedDictOfDistinct(init);
      assert seeds == init + [last];
      NewKeyHasNoSlot(init, last);
    }
  }

  // ---------------------------------------------------------------- when duplicate seeds matter

  /** No chunk of `all` beats the one that `out` lists for its key. */
  ghost predicate KeepsHighest(all: seq<Chunk>, out: seq<Chunk>) {
    forall c, o :: c in all && o in out && KeyOf(o) == KeyOf(c) ==> c.score <= o.score
  }

  ghost predicate IsLast(seeds: seq<Chunk>, j: nat)
    requires j < |seeds|
  {
    forall k :: j < k < |seeds| ==> KeyOf(seeds[k]) != KeyOf(seeds[j])
  }

  /** Among seeds of one key, the last is one of the highest. */
  ghost predicate LastSeedIsHighest(seeds: seq<Chunk>) {
    forall i, j :: 0 <= i < |seeds| && 0 <= j < |seeds| && KeyOf(seeds[i]) == KeyOf(seeds[j]) && IsLast(seeds, j) ==>
      seeds[i].score <= seeds[j].score
  }

  ghost predicate LastIn(seeds: seq<Chunk>, o: Chunk) {
    exists j :: 0 <= j < |seeds| && seeds[j] == o && IsLast(seeds, j)
  }

  lemma LastInAppend(init: seq<Chunk>, last: Chunk, o: Chunk)
    ensures LastIn(init + [last], o) <==> o == last || (LastIn(init, o) && KeyOf(o) != KeyOf(last))
  {
    var seeds := init + [last];
    if o == last { assert seeds[|init|] == o && IsLast(seeds, |init|); }
    if LastIn(seeds, o) && o != last {
      var j :| 0 <= j < |seeds| && seeds[j] == o && IsLast(seeds, j);
      assert KeyOf(seeds[|init|]) != KeyOf(seeds[j]);
      forall k | j < k < |init| ensures KeyOf(init[k]) != KeyOf(init[j]) {
        assert KeyOf(seeds[k]) != KeyOf(seeds[j]);
      }
      assert init[j] == o && IsLast(init, j);
    }
    if LastIn(init, o) && KeyOf(o) != KeyOf(last) {
      var j :| 0 <= j < |init| && init[j] == o && IsLast(init, j);
      forall k | j < k < |seeds| ensures KeyOf(seeds[k]) != KeyOf(seeds[j]) {
        if k < |init| { assert KeyOf(init[k]) != KeyOf(init[j]); }
      }
      assert seeds[j] == o && IsLast(seeds, j);
    }
  }

  /** The seed dictionary lists, for each key, the last seed with it. */
  lemma {:induction false} SeedDictIsLast(seeds: seq<Chunk>)
    ensures DistinctKeys(SeedDict(seeds))
    ensures forall o :: o in SeedDict(seeds) <==> LastIn(seeds, o)
    ensures forall c :: c in seeds ==> Covers(SeedDict(seeds), KeyOf(c))
  {
    if seeds != [] {
      var init, last := seeds[..|seeds| - 1], seeds[|seeds| - 1];
      hide KeyOf, IsLast, Slot, LastIn, DistinctKeys;
      SeedDictIsLast(init);
      assert seeds == init + [last];
      ReplaceMembers(SeedDict(init), last);
      forall o ensures o in SeedDict(seeds) <==> LastIn(seeds, o) { LastInAppend(init, last, o); }
      forall c | c in seeds ensures Covers(SeedDict(seeds), KeyOf(c)) {
        if KeyOf(c) == KeyOf(last) {
          assert last in SeedDict(seeds);
        } else {
          assert Covers(SeedDict(init), KeyOf(c));
        }
      }
    }
  }

  lemma ReplaceMembers(before: seq<Chunk>, last: Chunk)
    requires DistinctKeys(before)
    ensures var slot := Slot(before, KeyOf(last));
            var after := if slot == |before| then before + [last] else before[slot := last];
            DistinctKeys(after) && forall o :: o in after <==> o == last || (o in before && KeyOf(o) != KeyOf(last))
  {
    var slot := Slot(before, KeyOf(last));
    var after := if slot == |before| then before + [last] else before[slot := last];
    forall o ensures o in after <==> o == last || (o in before && KeyOf(o) != KeyOf(last)) {
      if o in before && KeyOf(o) != KeyOf(last) {
        var k :| 0 <= k < |before| && before[k] == o;
        assert after[k] == o;
      }
      if o in after && o != last {
        var k :| 0 <= k < |after| && after[k] == o;
        assert before[k] == o && k != slot;
      }
      assert after[slot] == last;
    }
  }

  /**
   * The documented "duplicates keep the highest score" fails when a seed repeats with a lower
   * score. It holds for every outcome of the expansion searches exactly when the last seed of each
   * key is one of the highest of that key.
   */
  lemma HighestScoreKeptIff(seeds: seq<Chunk>)
    ensures LastSeedIsHighest(seeds) <==>
            forall expanded :: KeepsHighest(seeds + expanded, MergeAll(SeedDict(seeds), expanded))
  {
    if LastSeedIsHighest(seeds) {
      forall expanded ensures KeepsHighest(seeds + expanded, MergeAll(SeedDict(seeds), expanded)) {
        HighestScoreKept(seeds, expanded);
      }
    } else {
      HighestScoreLost(seeds);
      assert seeds + [] == seeds && MergeAll(SeedDict(seeds), []) == SeedDict(seeds);
      assert !KeepsHighest(seeds + [], MergeAll(SeedDict(seeds), []));
    }
  }

  const DUPLICATES := [Chunk("s", "t", 2.0, None), Chunk("s", "t", 1.0, None)]

  /** Of two seeds with one key the second is kept, though the first scores higher. */
  lemma {:induction false} LowerDuplicateIsKept()
    ensures !LastSeedIsHighest(DUPLICATES)
    ensures SeedDict(DUPLICATES) == [DUPLICATES[1]] && !KeepsHighest(DUPLICATES, SeedDict(DUPLICATES))
  {
    assert DUPLICATES[..1] == [DUPLICATES[0]] && DUPLICATES[..1][..0] == [];
    assert SeedDict(DUPLICATES[..1]) == [DUPLICATES[0]];
    assert IsLast(DUPLICATES, 1);
    assert DUPLICATES[0] in DUPLICATES;
  }

  lemma HighestScoreLost(seeds: seq<Chunk>)
    requires !LastSeedIsHighest(seeds)
    ensures !KeepsHighest(seeds, SeedDict(seeds))
  {
    SeedDictIsLast(seeds);
    var i, j :| 0 <= i < |seeds| && 0 <= j < |seeds| && KeyOf(seeds[i]) == KeyOf(seeds[j]) && IsLast(seeds, j)
                && seeds[i].score > seeds[j].score;
    assert LastIn(seeds, seeds[j]);
    assert seeds[i] in seeds && seeds[j] in SeedDict(seeds);
  }

  lemma HighestScoreKept(seeds: seq<Chunk>, expanded: seq<Chunk>)
    requires LastSeedIsHighest(seeds)
    ensures KeepsHighest(seeds + expanded, MergeAll(SeedDict(seeds), expanded))
  {
    SeedDictIsLast(seeds);
    forall c, o | c in seeds && o in SeedDict(seeds) && KeyOf(o) == KeyOf(c) ensures c.score <= o.score {
      assert LastIn(seeds, o);
    }
    MergingKeepsHighest(seeds, SeedDict(seeds), expanded);
  }

  lemma {:induction false} MergingKeepsHighest(seeds: seq<Chunk>, dict: seq<Chunk>, expanded: seq<Chunk>)
    requires DistinctKeys(dict) && KeepsHighest(seeds, dict)
    requires forall c :: c in seeds ==> Covers(dict, KeyOf(c))
    ensures DistinctKeys(MergeAll(dict, expanded)) && KeepsHighest(seeds + expanded, MergeAll(dict, expanded))
    ensures forall c :: c in seeds + expanded ==> Covers(MergeAll(dict, expanded), KeyOf(c))
  {
    if expanded != [] {
      var init, last := expanded[..|expanded| - 1], expanded[|expanded| - 1];
      MergingKeepsHighest(seeds, dict, init);
      assert seeds + expanded == (seeds + init) + [last];
      MergeOneKeepsHighest(seeds + init, MergeAll(dict, init), last);
    } else {
      assert seeds + expanded == seeds;
    }
  }

  /** Merging leaves every key covered, at its position, with a score at least as high. */
  lemma MergeOneRaises(dict: seq<Chunk>, c: Chunk)
    ensures var after, slot := MergeOne(dict, c), Slot(dict, KeyOf(c));
            && slot < |after| && KeyOf(after[slot]) == KeyOf(c) && c.score <= after[slot].score
            && |dict| <= |after|
            && forall m :: 0 <= m < |dict| ==> KeyOf(after[m]) == KeyOf(dict[m]) && dict[m].score <= after[m].score
    ensures DistinctKeys(dict) ==> DistinctKeys(MergeOne(dict, c))
  {
    MergeKeepsKeys(dict, c);
  }

  lemma MergeOneKeepsHighest(all: seq<Chunk>, dict: seq<Chunk>, c: Chunk)
    requires DistinctKeys(dict) && KeepsHighest(all, dict) && forall x :: x in all ==> Covers(dict, KeyOf(x))
    ensures DistinctKeys(MergeOne(dict, c)) && KeepsHighest(all + [c], MergeOne(dict, c))
    ensures forall x :: x in all + [c] ==> Covers(MergeOne(dict, c), KeyOf(x))
  {
    hide MergeOne, KeyOf, Slot;
    var slot, after := Slot(dict, KeyOf(c)), MergeOne(dict, c);
    MergeOneRaises(dict, c);
    forall x | x in all + [c]
      ensures Covers(after, KeyOf(x))
      ensures forall o :: o in after && KeyOf(o) == KeyOf(x) ==> x.score <= o.score
    {
      var m := slot;
      if x in all {
        assert Covers(dict, KeyOf(x));
        var p :| p in dict && KeyOf(p) == KeyOf(x);
        m :| 0 <= m < |dict| && dict[m] == p;
      }
      assert after[m] in after && KeyOf(after[m]) == KeyOf(x) && x.score <= after[m].score;
      forall o | o in after && KeyOf(o) == KeyOf(x) ensures x.score <= o.score {
        var k :| 0 <= k < |after| && after[k] == o;
        assert k == m;
      }
    }
  }

  // ---------------------------------------------------------------- capping

  ghost function CountOf(chunks: seq<Chunk>, source: string): nat {
    if chunks == [] then 0
    else CountOf(chunks[..|chunks| - 1], source) + if chunks[|chunks| - 1].source == source then 1 else 0
  }

  /** Keep a chunk if fewer than `cap` chunks before it have its source. */
  ghost function Capped(chunks: seq<Chunk>, cap: nat): seq<Chunk> {
    if chunks == [] then []
    else
      var init, last := chunks[..|chunks| - 1], chunks[|chunks| - 1];
      Capped(init, cap) + if CountOf(init, last.source) < cap then [last] else []
  }

  method CapBySource(chunks: seq<Chunk>, cap: nat) returns (kept: seq<Chunk>)
    ensures kept == if cap == 0 then chunks else Capped(chunks, cap)
  {
    if cap == 0 { return chunks; }
    kept := [];
    var counts: map<string, nat> := map[];
    for i := 0 to |chunks|
      invariant kept == Capped(chunks[..i], cap)
      invariant forall s :: (if s in counts then counts[s] else 0) == Min(CountOf(chunks[..i], s), cap)
    {
      assert chunks[..i + 1][..i] == chunks[..i];
      var source := chunks[i].source;
      var count := if source in counts then counts[source] else 0;
      assert count == Min(CountOf(chunks[..i], source), cap);
      forall s ensures CountOf(chunks[..i + 1], s) == CountOf(chunks[..i], s) + if s == source then 1 else 0 {}
      if count < cap {
        kept := kept + [chunks[i]];
        counts := counts[source := count + 1];
      }
    }
    assert chunks[..|chunks|] == chunks;
  }

  ghost function OfSource(chunks: seq<Chunk>, source: string): seq<Chunk> {
    if chunks == [] then []
    else
      OfSource(chunks[..|chunks| - 1], source)
      + if chunks[|chunks| - 1].source == source then [chunks[|chunks| - 1]] else []
  }

  lemma {:induction false} CountIsLength(chunks: seq<Chunk>, source: string)
    ensures |OfSource(chunks, source)| == CountOf(chunks, source)
  {
    if chunks != [] { CountIsLength(chunks[..|chunks| - 1], source); }
  }

  lemma OfSourceAppend(chunks: seq<Chunk>, c: Chunk, source: string)
    ensures OfSource(chunks + [c], source) == OfSource(chunks, source) + if c.source == source then [c] else []
  {
    assert (chunks + [c])[..|chunks|] == chunks;
  }

  lemma PrefixStep<T>(xs: seq<T>, x: T, cap: nat)
    ensures (xs + [x])[..Min(|xs| + 1, cap)] == xs[..Min(|xs|, cap)] + if |xs| < cap then [x] else []
  {}

  /** Each source keeps exactly its first `cap` chunks, in their order. */
  lemma {:induction false} CapKeepsFirst(chunks: seq<Chunk>, cap: nat, source: string)
    ensures OfSource(Capped(chunks, cap), source) ==
            OfSource(chunks, source)[..Min(|OfSource(chunks, source)|, cap)]
  {
    if chunks != [] {
      var init, last := chunks[..|chunks| - 1], chunks[|chunks| - 1];
      CapKeepsFirst(init, cap, source);
      CountIsLength(init, last.source);
      assert chunks == init + [last];
      hide OfSource, CountOf;
      OfSourceAppend(init, last, source);
      OfSourceAppend(Capped(init, cap), last, source);
      PrefixStep(OfSource(init, source), last, cap);
      assert Capped(init, cap) + [] == Capped(init, cap);
      assert OfSource(init, source) + [] == OfSource(init, source);
    }
  }

  /** The kept chunks appear in the order of the input: their positions increase. */
  lemma {:induction false} CapKeepsOrder(chunks: seq<Chunk>, cap: nat) returns (positions: seq<nat>)
    ensures |positions| == |Capped(chunks, cap)|
    ensures forall i :: 0 <= i < |positions| ==> positions[i] < |chunks| && chunks[positions[i]] == Capped(chunks, cap)[i]
    ensures forall i, j :: 0 <= i < j < |positions| ==> positions[i] < positions[j]
  {
    if chunks == [] { return []; }
    var init, last := chunks[..|chunks| - 1], chunks[|chunks| - 1];
    positions := CapKeepsOrder(init, cap);
    if CountOf(init, last.source) < cap { positions := positions + [|chunks| - 1]; }
  }

  ghost function SumOfCapped(sources: seq<string>, chunks: seq<Chunk>, cap: nat): nat {
    if sources == [] then 0
    else SumOfCapped(sources[..|sources| - 1], chunks, cap) + Min(CountOf(chunks, sources[|sources| - 1]), cap)
  }

  lemma {:induction false} DedupFacts<T>(xs: seq<T>)
    ensures Distinct(Dedup(xs))
    ensures forall x :: x in Dedup(xs) <==> x in xs
  {
    if xs != [] {
      DedupFacts(xs[..|xs| - 1]);
      assert xs == xs[..|xs| - 1] + [xs[|xs| - 1]];
    }
  }

  /** One more chunk changes the sum only through the term of its source. */
  lemma {:induction false} SumStep(sources: seq<string>, init: seq<Chunk>, last: Chunk, cap: nat)
    requires Distinct(sources)
    ensures SumOfCapped(sources, init + [last], cap) == SumOfCapped(sources, init, cap)
            + if last.source in sources && CountOf(init, last.source) < cap then 1 else 0
  {
    assert (init + [last])[..|init|] == init;
    if sources != [] {
      var rest, s := sources[..|sources| - 1], sources[|sources| - 1];
      SumStep(rest, init, last, cap);
      assert sources == rest + [s];
    }
  }

  lemma {:induction false} NoChunkNoCount(chunks: seq<Chunk>, source: string)
    requires source !in SourcesOf(chunks)
    ensures CountOf(chunks, source) == 0
  {
    if chunks != [] {
      var init := chunks[..|chunks| - 1];
      assert SourcesOf(chunks)[|chunks| - 1] == chunks[|chunks| - 1].source;
      assert SourcesOf(chunks) == SourcesOf(init) + [chunks[|chunks| - 1].source];
      NoChunkNoCount(init, source);
    }
  }

  lemma SourcesAppend(init: seq<Chunk>, last: Chunk)
    ensures var before := Dedup(SourcesOf(init));
            Dedup(SourcesOf(init + [last])) == if last.source in before then before else before + [last.source]
  {
    assert SourcesOf(init + [last]) == SourcesOf(init) + [last.source];
    assert (SourcesOf(init) + [last.source])[..|init|] == SourcesOf(init);
  }

  lemma SumOfNewSource(sources: seq<string>, init: seq<Chunk>, last: Chunk, cap: nat)
    requires cap > 0 && last.source !in SourcesOf(init)
    ensures SumOfCapped(sources + [last.source], init + [last], cap) == SumOfCapped(sources, init + [last], cap) + 1
  {
    NoChunkNoCount(init, last.source);
    assert (init + [last])[..|init|] == init;
    assert (sources + [last.source])[..|sources|] == sources;
  }

  /** The number of chunks left is the sum over the sources of what each may contribute. */
  lemma {:induction false} CapLength(chunks: seq<Chunk>, cap: nat)
    requires cap > 0
    ensures |Capped(chunks, cap)| == SumOfCapped(Dedup(SourcesOf(chunks)), chunks, cap)
  {
    if chunks != [] {
      var init, last := chunks[..|chunks| - 1], chunks[|chunks| - 1];
      CapLength(init, cap);
      assert chunks == init + [last];
      hide CountOf, SumOfCapped, Dedup, SourcesOf;
      var before := Dedup(SourcesOf(init));
      DedupFacts(SourcesOf(init));
      SourcesAppend(init, last);
      SumStep(before, init, last, cap);
      if last.source !in before {
        NoChunkNoCount(init, last.source);
        SumOfNewSource(before, init, last, cap);
      }
    }
  }

  // ---------------------------------------------------------------- the coordinator

  /** `rerank` is the configured reranker, already asked for its number of results. */
  method Prepare(retrieved: seq<Chunk>, rerank: Option<seq<Chunk> -> seq<Chunk>>, maxPerSource: nat, topK: nat)
    returns (chunks: seq<Chunk>)
    ensures var ranked := if rerank.Some? then rerank.value(retrieved) else retrieved;
            var capped := if maxPerSource == 0 then ranked else Capped(ranked, maxPerSource);
            && chunks == capped[..Min(|capped|, topK)]
            && (maxPerSource > 0 ==>
                  |chunks| == Min(topK, SumOfCapped(Dedup(SourcesOf(ranked)), ranked, maxPerSource)))
  {
    chunks := retrieved;
    if rerank.Some? { chunks := rerank.value(chunks); }
    if maxPerSource > 0 { CapLength(chunks, maxPerSource); }
    chunks := CapBySource(chunks, maxPerSource);
    chunks := chunks[..Min(|chunks|, topK)];
  }

  /** The reported sources: each once, in the order in which they first appear. */
  lemma {:induction false} DedupKeepsFirstOrder<T>(xs: seq<T>) returns (positions: seq<nat>)
    ensures |positions| == |Dedup(xs)|
    ensures forall i :: 0 <= i < |positions| ==>
              positions[i] < |xs| && xs[positions[i]] == Dedup(xs)[i] && xs[positions[i]] !in xs[..positions[i]]
    ensures forall i, j :: 0 <= i < j < |positions| ==> positions[i] < positions[j]
  {
    if xs == [] { return []; }
    var init := xs[..|xs| - 1];
    positions := DedupKeepsFirstOrder(init);
    DedupFacts(init);
    forall i | 0 <= i < |positions| ensures xs[..positions[i]] == init[..positions[i]] {}
    if xs[|xs| - 1] !in Dedup(init) { positions := positions + [|xs| - 1]; }
  }
}
