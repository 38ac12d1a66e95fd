/**
 What upserting records leaves under each identifier: the last record put under it, and otherwise
 what was there before.
 */
module Upserts {
  import opened Basics
  import opened VectorStore

  /** Puts records one after the other. */
  function Put(records: Records, batch: seq<Record>): Records
    decreases |batch|
  {
    if batch == [] then records else Put(records[batch[0].id := batch[0]], batch[1..])
  }

  /** The last of the records with an identifier. */
  function LastOf(batch: seq<Record>, id: string): Option<Record> {
    if batch == [] then None
    else if batch[|batch| - 1].id == id then Some(batch[|batch| - 1])
    else LastOf(batch[..|batch| - 1], id)
  }

  /** The records an upsert puts before it meets one of the wrong width. */
  function FittingPrefix(batch: seq<Record>, width: int): seq<Record> {
    if batch == [] || |batch[0].vector| != width then [] else [batch[0]] + FittingPrefix(batch[1..], width)
  }

  function Written(store: Store, name: string, batch: seq<Record>): seq<Record> {
    if name in store.collections && name in store.dimensions then FittingPrefix(batch, store.dimensions[name]) else []
  }

  ghost predicate AllWide(records: seq<Record>, width: int) {
    forall r :: r in records ==> |r.vector| == width
  }

  lemma {:induction false} PutConcat(records: Records, a: seq<Record>, b: seq<Record>)
    ensures Put(records, a + b) == Put(Put(records, a), b)
    decreases |a|
  {
    if a == [] {
      assert a + b == b;
    } else {
      assert (a + b)[1..] == a[1..] + b;
      PutConcat(records[a[0].id := a[0]], a[1..], b);
    }
  }

  lemma {:induction false} UpsertPutsPrefix(records: Records, width: int, batch: seq<Record>)
    ensures PutWhileFits(records, width, batch).0 == Put(records, FittingPrefix(batch, width))
    ensures PutWhileFits(records, width, batch).1 ==> FittingPrefix(batch, width) == batch
    ensures PutWhileFits(records, width, batch).1 <==> AllWide(batch, width)
    ensures AllWide(FittingPrefix(batch, width), width) && forall r :: r in FittingPrefix(batch, width) ==> r in batch
    decreases |batch|
  {
    if batch != [] && |batch[0].vector| == width {
      UpsertPutsPrefix(records[batch[0].id := batch[0]], width, batch[1..]);
      assert ([batch[0]] + FittingPrefix(batch[1..], width))[1..] == FittingPrefix(batch[1..], width);
      assert batch == [batch[0]] + batch[1..];
    }
  }

  lemma {:induction false} LastOfIn(batch: seq<Record>, id: string)
    ensures LastOf(batch, id).Some? ==> LastOf(batch, id).value in batch && LastOf(batch, id).value.id == id
    ensures LastOf(batch, id).None? ==> forall r :: r in batch ==> r.id != id
  {
    if batch != [] {
      LastOfIn(batch[..|batch| - 1], id);
      assert batch == batch[..|batch| - 1] + [batch[|batch| - 1]];
    }
  }

  lemma {:induction false} LastOfConcat(a: seq<Record>, b: seq<Record>, id: string)
    ensures LastOf(a + b, id) == if LastOf(b, id).Some? then LastOf(b, id) else LastOf(a, id)
  {
    if b == [] {
      assert a + b == a;
    } else {
      assert (a + b)[..|a + b| - 1] == a + b[..|b| - 1];
      LastOfConcat(a, b[..|b| - 1], id);
    }
  }

  /** Each identifier holds the last record put under it, and what it held before if there is none. */
  lemma {:induction false} PutIsLast(records: Records, batch: seq<Record>, id: string)
    ensures id in Put(records, batch) <==> id in records || LastOf(batch, id).Some?
    ensures id in Put(records, batch) ==>
              Put(records, batch)[id] == if LastOf(batch, id).Some? then LastOf(batch, id).value else records[id]
  {
    if batch != [] {
      var init, last := batch[..|batch| - 1], batch[|batch| - 1];
      PutIsLast(records, init, id);
      PutConcat(records, init, [last]);
      assert batch == init + [last];
      assert Put(Put(records, init), [last]) == Put(records, init)[last.id := last];
    }
  }

  /** Only the last record under each identifier matters. */
  lemma PutByLast(records: Records, a: seq<Record>, b: seq<Record>)
    requires forall id :: LastOf(a, id) == LastOf(b, id)
    ensures Put(records, a) == Put(records, b)
  {
    forall id ensures id in Put(records, a) <==> id in Put(records, b)
              ensures id in Put(records, a) ==> Put(records, a)[id] == Put(records, b)[id]
    {
      PutIsLast(records, a, id);
      PutIsLast(records, b, id);
    }
  }

  /** Records put before others under the same identifiers leave nothing behind. */
  lemma PutCovered(records: Records, covered: seq<Record>, batch: seq<Record>)
    requires forall id :: LastOf(covered, id).Some? ==> LastOf(batch, id).Some?
    ensures Put(Put(records, covered), batch) == Put(records, batch)
  {
    PutConcat(records, covered, batch);
    forall id ensures LastOf(covered + batch, id) == LastOf(batch, id) { LastOfConcat(covered, batch, id); }
    PutByLast(records, covered + batch, batch);
  }

  /** Whatever was put, each record present is an old one or one of those put. */
  lemma PutOrigin(records: Records, batch: seq<Record>)
    ensures forall id :: id in records ==> id in Put(records, batch)
    ensures forall id :: id in Put(records, batch) ==>
              Put(records, batch)[id] in batch || (id in records && Put(records, batch)[id] == records[id])
  {
    forall id
      ensures id in records ==> id in Put(records, batch)
      ensures id in Put(records, batch) ==>
                Put(records, batch)[id] in batch || (id in records && Put(records, batch)[id] == records[id])
    {
      PutIsLast(records, batch, id);
      LastOfIn(batch, id);
    }
  }

  /** No two different records under one identifier. */
  ghost predicate Consistent(batch: seq<Record>) {
    forall r, q :: r in batch && q in batch && r.id == q.id ==> r == q
  }

  ghost predicate SameMembers(a: seq<Record>, b: seq<Record>) {
    forall r :: r in a <==> r in b
  }

  /** Without rivals the result depends only on which records were put, not on order or repetition. */
  lemma PutIgnoresOrder(records: Records, a: seq<Record>, b: seq<Record>)
    requires Consistent(a) && SameMembers(a, b)
    ensures Put(records, a) == Put(records, b)
  {
    hide Put, LastOf;
    forall id ensures LastOf(a, id) == LastOf(b, id) {
      LastOfIn(a, id);
      LastOfIn(b, id);
    }
    PutByLast(records, a, b);
  }
}
