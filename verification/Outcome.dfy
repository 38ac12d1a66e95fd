/**
 What ingestion runs leave in the store: confluence of the successful ones, recovery from the failed
 ones, exact counts, and the safety of every state on the way.
 */
module Outcome {
  import opened Basics
  import opened Ingestion
  import opened Linearization
  import opened Text
  import opened Upserts
  import opened VectorStore

  // ---------------------------------------------------------------- identifiers

  /** The identifiers the chunks are stored under: "x" and "x " are one. */
  ghost function Names(chunks: seq<Chunk>): seq<string> {
    seq(|chunks|, i requires 0 <= i < |chunks| => Strip(chunks[i].id))
  }

  ghost predicate DistinctIds(chunks: seq<Chunk>) {
    Distinct(Names(chunks))
  }

  ghost function Ids(records: seq<Record>): seq<string> {
    seq(|records|, i requires 0 <= i < |records| => records[i].id)
  }

  ghost predicate AllEncoded(plan: Plan)
    requires plan.Valid()
  {
    forall i :: 0 <= i < BatchCount(plan) ==> Encoded(plan, i).Some?
  }

  lemma LastOfNamed(records: seq<Record>, id: string)
    ensures LastOf(records, id).Some? <==> id in Ids(records)
  {
    LastOfIn(records, id);
    if LastOf(records, id).Some? {
      var i :| 0 <= i < |records| && records[i] == LastOf(records, id).value;
      assert Ids(records)[i] == id;
    }
    if i :| 0 <= i < |records| && Ids(records)[i] == id { assert records[i] in records; }
  }

  lemma RecordsMatchBatch(plan: Plan, i: nat)
    requires plan.Valid() && i < BatchCount(plan) && Encoded(plan, i).Some?
    ensures Ids(RecordsOfBatch(plan, i)) == Names(Batch(plan, i))
  {
    hide Batches, Texts;
  }

  lemma {:induction false} AllRecordsMatch(plan: Plan, count: nat)
    requires plan.Valid() && count <= BatchCount(plan) && AllEncoded(plan)
    ensures Ids(AllRecords(plan, count)) == Names(Flatten(Batches(plan.chunks, plan.batchSize)[..count]))
  {
    if count > 0 {
      hide Batches, Names;
      AllRecordsMatch(plan, count - 1);
      var batches := Batches(plan.chunks, plan.batchSize);
      assert batches[..count][..count - 1] == batches[..count - 1];
      RecordsMatchBatch(plan, count - 1);
      NamesConcat(Flatten(batches[..count - 1]), batches[count - 1]);
    }
  }

  lemma NamesConcat(a: seq<Chunk>, b: seq<Chunk>)
    ensures Names(a + b) == Names(a) + Names(b)
  {}

  /** The plan's records carry its chunks' identifiers, in chunk order. */
  lemma RecordsAreNamed(plan: Plan)
    requires plan.Valid() && AllEncoded(plan)
    ensures Ids(AllRecords(plan, BatchCount(plan))) == Names(plan.chunks)
  {
    hide AllRecords, Batches;
    AllRecordsMatch(plan, BatchCount(plan));
    BatchesAreFull(plan.chunks, plan.batchSize);
    assert Batches(plan.chunks, plan.batchSize)[..BatchCount(plan)] == Batches(plan.chunks, plan.batchSize);
  }

  lemma {:induction false} AllRecordsMembers(plan: Plan, count: nat, r: Record)
    requires plan.Valid() && count <= BatchCount(plan)
    ensures r in AllRecords(plan, count) <==> exists i :: 0 <= i < count && r in RecordsOfBatch(plan, i)
  {
    hide Batches, RecordsOfBatch;
    if count > 0 { AllRecordsMembers(plan, count - 1, r); }
  }

  lemma {:induction false} FlattenMembers<T>(parts: seq<seq<T>>, x: T)
    ensures x in Flatten(parts) <==> exists i :: 0 <= i < |parts| && x in parts[i]
  {
    if parts != [] {
      var init := parts[..|parts| - 1];
      FlattenMembers(init, x);
      assert forall i :: 0 <= i < |init| ==> parts[i] == init[i];
    }
  }

  /** Every record, whichever batch it belongs to, is named after one of the chunks. */
  lemma IntendedIsNamed(plan: Plan, r: Record)
    requires plan.Valid() && Intended(plan, r)
    ensures r.id in Names(plan.chunks)
  {
    hide Batches;
    var i :| 0 <= i < BatchCount(plan) && r in RecordsOfBatch(plan, i);
    RecordsMatchBatch(plan, i);
    var k :| 0 <= k < |RecordsOfBatch(plan, i)| && RecordsOfBatch(plan, i)[k] == r;
    assert Ids(RecordsOfBatch(plan, i))[k] == r.id;
    var chunk := Batch(plan, i)[k];
    BatchesAreFull(plan.chunks, plan.batchSize);
    FlattenMembers(Batches(plan.chunks, plan.batchSize), chunk);
    var j :| 0 <= j < |plan.chunks| && plan.chunks[j] == chunk;
    assert Names(plan.chunks)[j] == r.id;
  }

  /** Distinct identifiers leave no record a rival. */
  lemma DistinctIdsConsistent(plan: Plan)
    requires plan.Valid() && AllEncoded(plan) && DistinctIds(plan.chunks)
    ensures Consistent(AllRecords(plan, BatchCount(plan)))
  {
    hide AllRecords, Batches, Encoded, Names;
    RecordsAreNamed(plan);
    var all := AllRecords(plan, BatchCount(plan));
    forall r, q | r in all && q in all && r.id == q.id ensures r == q {
      var i :| 0 <= i < |all| && all[i] == r;
      var j :| 0 <= j < |all| && all[j] == q;
      assert Ids(all)[i] == Ids(all)[j];
    }
  }

  // ---------------------------------------------------------------- what success means

  lemma {:induction false} AcceptedCountsChunks(plan: Plan, s: State, count: nat)
    requires plan.Valid() && count <= |s.tasks| && |s.tasks| == BatchCount(plan) - 1 && AllFinished(s.tasks)
    requires s.firstAccepted == |Batch(plan, 0)|
    requires forall i :: 0 <= i < |s.tasks| ==> TaskOk(plan, s.log, s.tasks, i)
    ensures s.firstAccepted + Accepted(s.tasks[..count]) == |Flatten(Batches(plan.chunks, plan.batchSize)[..count + 1])|
  {
    var batches := Batches(plan.chunks, plan.batchSize);
    assert batches[..count + 1][..count] == batches[..count];
    if count > 0 {
      AcceptedCountsChunks(plan, s, count - 1);
      assert s.tasks[..count][..count - 1] == s.tasks[..count - 1];
      assert TaskOk(plan, s.log, s.tasks, count - 1);
    }
  }

  lemma SuccessTotal(plan: Plan, base: Store, s: State)
    requires plan.Valid() && Inv(plan, base, s) && s.stage.Succeeded?
    ensures s.stage.total == |plan.chunks|
  {
    BatchesAreFull(plan.chunks, plan.batchSize);
    AcceptedCountsChunks(plan, s, |s.tasks|);
    assert s.tasks[..|s.tasks|] == s.tasks;
    assert Batches(plan.chunks, plan.batchSize)[..BatchCount(plan)] == Batches(plan.chunks, plan.batchSize);
  }

  lemma LogIsComplete(plan: Plan, base: Store, s: State)
    requires plan.Valid() && Inv(plan, base, s) && s.stage.Succeeded?
    ensures AllEncoded(plan)
    ensures forall r :: Intended(plan, r) <==> r in s.log
  {
    hide Encoded, Batches, Put;
    forall i | 0 <= i < BatchCount(plan) ensures Stored(plan, s.log, i) && Encoded(plan, i).Some? {
      if i > 0 { assert TaskOk(plan, s.log, s.tasks, i - 1); }
    }
    forall r | Intended(plan, r) ensures r in s.log {
      var i :| 0 <= i < BatchCount(plan) && r in RecordsOfBatch(plan, i);
      assert Stored(plan, s.log, i);
    }
  }

  /** A successful state put exactly the intended records, all of the ensured width. */
  lemma SuccessStoresAll(plan: Plan, base: Store, s: State)
    requires plan.Valid() && Inv(plan, base, s) && s.stage.Succeeded?
    ensures AllEncoded(plan) && IsEnsured(plan, s.store)
    ensures var all := AllRecords(plan, BatchCount(plan));
            && SameMembers(all, s.log) && all != [] && AllWide(all, |all[0].vector|)
            && s.store.dimensions[plan.collection] == |all[0].vector|
  {
    hide Put, Flatten, Batches, Holders, Accepted, AllRecords, Ids, Names, Encoded;
    LogIsComplete(plan, base, s);
    var all := AllRecords(plan, BatchCount(plan));
    forall r ensures r in all <==> r in s.log { AllRecordsMembers(plan, BatchCount(plan), r); }
    var first := Encoded(plan, 0).value[0];
    assert first in RecordsOfBatch(plan, 0);
    assert Intended(plan, first);
    assert all[0] in s.log;
  }

  // ---------------------------------------------------------------- when the order does not matter

  /** Distinct identifiers leave nothing to disagree about. */
  lemma DistinctIdsAgree(plan: Plan)
    requires plan.Valid() && AllEncoded(plan) && DistinctIds(plan.chunks)
    ensures AllAgree(plan) && OrderFree(plan)
  {
    hide LastOf, RecordsOfBatch, AllRecords, Batches, DistinctIds, Encoded;
    DistinctIdsConsistent(plan);
    forall b, c | 0 <= b < c < BatchCount(plan) ensures Agree(RecordsOfBatch(plan, b), RecordsOfBatch(plan, c)) {
      forall id | LastOf(RecordsOfBatch(plan, b), id).Some? && LastOf(RecordsOfBatch(plan, c), id).Some?
        ensures LastOf(RecordsOfBatch(plan, b), id) == LastOf(RecordsOfBatch(plan, c), id)
      {
        LastOfIn(RecordsOfBatch(plan, b), id);
        LastOfIn(RecordsOfBatch(plan, c), id);
        AllRecordsMembers(plan, BatchCount(plan), LastOf(RecordsOfBatch(plan, b), id).value);
        AllRecordsMembers(plan, BatchCount(plan), LastOf(RecordsOfBatch(plan, c), id).value);
      }
    }
  }

  lemma SuccessAgrees(plan: Plan, base: Store, run: seq<State>)
    requires plan.Valid() && WellFormed(base) && DistinctIds(plan.chunks)
    requires IsRun(plan, base, run) && run[|run| - 1].stage.Succeeded?
    ensures AllAgree(plan) && OrderFree(plan)
  {
    hide Inv, DistinctIds, OrderFree, AllAgree;
    RunKeepsInv(plan, base, run);
    LogIsComplete(plan, base, run[|run| - 1]);
    DistinctIdsAgree(plan);
  }

  lemma SuccessWinners(plan: Plan, base: Store, run: seq<State>, id: string)
    requires plan.Valid() && WellFormed(base) && (OrderFree(plan) || OneAtATime(plan))
    requires IsRun(plan, base, run) && run[|run| - 1].stage.Succeeded?
    ensures LastOf(run[|run| - 1].log, id) == LastOf(AllRecords(plan, BatchCount(plan)), id)
  {
    hide LastOf, Concatenated, AllRecords, Batches, Encoded, RecordsOfBatch, OrderFree, StoreOk, Init, StepAt;
    var s, count := run[|run| - 1], BatchCount(plan);
    RunKeepsInv(plan, base, run);
    var order := RunIsLinear(plan, base, run);
    ConcatenatedUpto(plan, count);
    assert forall k :: k in order <==> 0 <= k < count;
    UptoMembers(count);
    if OneAtATime(plan) {
      UptoMembers(|order|);
      assert |order| - 1 in order && |order| !in order;
    } else {
      SameWinner(plan, order, Upto(count), id);
    }
  }

  // ---------------------------------------------------------------- the final store

  /** The store that ensuring the collection and upserting every chunk in order would leave. */
  ghost function InOrder(plan: Plan, base: Store): Store
    requires plan.Valid()
  {
    var all := AllRecords(plan, BatchCount(plan));
    var width := if all == [] then 0 else |all[0].vector|;
    Upsert(Ensure(base, plan.collection, width).0, plan.collection, all).0
  }

  lemma RestoreKey<V>(m: map<string, V>, n: map<string, V>, key: string)
    requires m - {key} == n - {key} && key in m
    ensures m == n[key := m[key]]
  {
    forall k | k != key ensures k in m <==> k in n
                        ensures k in m ==> m[k] == n[k]
    {
      assert k in m <==> k in m - {key};
      assert k in n <==> k in n - {key};
      if k in m { assert m[k] == (m - {key})[k] == (n - {key})[k] == n[k]; }
    }
  }

  /** What a store must look like to be the result of writing everything in order. */
  lemma StoreIsInOrder(base: Store, store: Store, name: string, all: seq<Record>)
    requires WellFormed(base) && all != [] && AllWide(all, |all[0].vector|)
    requires RecordsOf(store, name) == Put(RecordsOf(base, name), all)
    requires name in store.collections && store.collections - {name} == base.collections - {name}
    requires name in store.dimensions && store.dimensions - {name} == base.dimensions - {name}
    requires 1 <= store.dimensions[name] == |all[0].vector|
    requires name in base.dimensions ==> base.dimensions[name] == |all[0].vector|
    ensures store == Upsert(Ensure(base, name, |all[0].vector|).0, name, all).0
  {
    hide Put, PutWhileFits;
    RestoreKey(store.collections, base.collections, name);
    RestoreKey(store.dimensions, base.dimensions, name);
    UpsertPutsPrefix(RecordsOf(base, name), |all[0].vector|, all);
    var width := |all[0].vector|;
    var ensured := Ensure(base, name, width).0;
    assert RecordsOf(ensured, name) == RecordsOf(base, name);
    assert ensured.dimensions == base.dimensions[name := width];
  }

  /** Whatever a first run of some plan over the same names left, success leaves the in-order store. */
  lemma SuccessCovers(before: Plan, plan: Plan, base: Store, s: State, second: seq<State>)
    requires before.Valid() && plan.Valid() && WellFormed(base) && Inv(before, base, s)
    requires before.collection == plan.collection && Elements(Names(before.chunks)) <= Elements(Names(plan.chunks))
    requires OrderFree(plan) || OneAtATime(plan)
    requires IsRun(plan, s.store, second) && second[|second| - 1].stage.Succeeded?
    ensures RecordsOf(second[|second| - 1].store, plan.collection) ==
            Put(RecordsOf(base, plan.collection), AllRecords(plan, BatchCount(plan)))
  {
    hide Put, LastOf, AllRecords, Batches, Encoded, OrderFree, Names, Ids, Init, StepAt, StageOk, TasksOk;
    var t, all, records := second[|second| - 1], AllRecords(plan, BatchCount(plan)), RecordsOf(base, plan.collection);
    RunKeepsInv(plan, s.store, second);
    forall id ensures LastOf(t.log, id) == LastOf(all, id) { SuccessWinners(plan, s.store, second, id); }
    PutByLast(Put(records, s.log), t.log, all);
    LogIsComplete(plan, s.store, t);
    RecordsAreNamed(plan);
    forall id | LastOf(s.log, id).Some? ensures LastOf(all, id).Some? {
      LastOfIn(s.log, id);
      LastOfNamed(all, id);
      IntendedIsNamed(before, LastOf(s.log, id).value);
      assert id in Elements(Names(before.chunks));
    }
    PutCovered(records, s.log, all);
  }

  /**
   * Confluence. When no two later batches disagree, or a fair semaphore has one permit, every
   * interleaving that ends in success leaves the store equal to upserting all chunks in order.
   */
  lemma {:induction false} Confluence(plan: Plan, base: Store, run: seq<State>)
    requires plan.Valid() && WellFormed(base) && (OrderFree(plan) || OneAtATime(plan))
    requires IsRun(plan, base, run) && run[|run| - 1].stage.Succeeded?
    ensures run[|run| - 1].store == InOrder(plan, base)
    ensures run[|run| - 1].stage.total == |plan.chunks|
  {
    hide OrderFree, Inv, StepAt, WellFormed, InOrder;
    var start := [run[0]];
    assert IsRun(plan, base, start);
    RecoveryIsComplete(plan, plan, base, start, run);
  }

  /**
   * Recovery. Whatever a run left behind, failed, cancelled or unfinished, and whatever its encoder
   * answered, a later run over at least its names that succeeds leaves the store as if its own chunks
   * had been written in order to the original one.
   */
  lemma {:induction false} RecoveryIsComplete(before: Plan, plan: Plan, base: Store, first: seq<State>, second: seq<State>)
    requires before.Valid() && plan.Valid() && WellFormed(base) && (OrderFree(plan) || OneAtATime(plan))
    requires before.collection == plan.collection && Elements(Names(before.chunks)) <= Elements(Names(plan.chunks))
    requires IsRun(before, base, first)
    requires IsRun(plan, first[|first| - 1].store, second) && second[|second| - 1].stage.Succeeded?
    ensures second[|second| - 1].store == InOrder(plan, base)
    ensures second[|second| - 1].stage.total == |plan.chunks|
  {
    hide Put, AllRecords, Holders, Accepted, Batches, Upsert, Ensure, Encoded, Init, StepAt, OrderFree, Names;
    var s, t := first[|first| - 1], second[|second| - 1];
    RunKeepsInv(before, base, first);
    RunKeepsInv(plan, s.store, second);
    SuccessTotal(plan, s.store, t);
    SuccessStoresAll(plan, s.store, t);
    SuccessCovers(before, plan, base, s, second);
    StoreIsInOrder(base, t.store, plan.collection, AllRecords(plan, BatchCount(plan)));
  }

  /**
   * Success stores one record per name and counts chunks. The count is the number of records in a new
   * collection exactly when the names are distinct.
   */
  lemma {:induction false} CountIsExactIff(plan: Plan, base: Store, run: seq<State>)
    requires plan.Valid() && WellFormed(base) && IsRun(plan, base, run) && run[|run| - 1].stage.Succeeded?
    ensures var s, name := run[|run| - 1], plan.collection;
            && RecordsOf(s.store, name).Keys == RecordsOf(base, name).Keys + Elements(Names(plan.chunks))
            && (name !in base.collections ==>
                  (|RecordsOf(s.store, name)| == s.stage.total <==> DistinctIds(plan.chunks)))
  {
    hide Put, Names, Init, StepAt, Inv, WellFormed;
    var s := run[|run| - 1];
    RunKeepsInv(plan, base, run);
    SuccessTotal(plan, base, s);
    SuccessKeys(plan, base, s);
    DistinctCardinality(Names(plan.chunks));
    NamesLength(plan.chunks);
    if plan.collection !in base.collections {
      assert RecordsOf(s.store, plan.collection).Keys == Elements(Names(plan.chunks));
    }
  }

  lemma SuccessKeys(plan: Plan, base: Store, s: State)
    requires plan.Valid() && Inv(plan, base, s) && s.stage.Succeeded?
    ensures RecordsOf(s.store, plan.collection).Keys == RecordsOf(base, plan.collection).Keys + Elements(Names(plan.chunks))
  {
    hide Put, LastOf, AllRecords, Batches, Encoded, Names, Ids, StageOk, TasksOk;
    var all, records := AllRecords(plan, BatchCount(plan)), RecordsOf(base, plan.collection);
    SuccessStoresAll(plan, base, s);
    RecordsAreNamed(plan);
    forall id ensures id in Put(records, s.log) <==> id in records || id in Names(plan.chunks) {
      PutIsLast(records, s.log, id);
      LastOfIn(s.log, id);
      LastOfIn(all, id);
      LastOfNamed(all, id);
    }
  }

  lemma NamesLength(chunks: seq<Chunk>)
    ensures |Names(chunks)| == |chunks|
  {}

  /**
   * Safety of every reachable state, including those of failing and cancelled runs: permits bound
   * the batches in flight; nothing is stored before the collection is ensured with the first batch's
   * width; other batches only exist once the first is stored and counted in full; the run ends only
   * when every task is over; every stored record is an old or an intended one, no old identifier is
   * lost, and no other collection is touched.
   */
  lemma {:induction false} EveryStateIsSafe(plan: Plan, base: Store, run: seq<State>)
    requires plan.Valid() && WellFormed(base) && IsRun(plan, base, run)
    ensures var s, name := run[|run| - 1], plan.collection;
            && Holders(s.tasks) <= plan.maxInFlight
            && WellFormed(s.store)
            && (s.log != [] || s.tasks != [] ==> IsEnsured(plan, s.store))
            && (s.tasks != [] ==> Stored(plan, s.log, 0) && s.firstAccepted == |Batch(plan, 0)|)
            && (s.stage.Failed? || s.stage.Succeeded? ==> AllOver(s.tasks))
            && (forall id :: id in RecordsOf(base, name) ==> id in RecordsOf(s.store, name))
            && (forall id :: id in RecordsOf(s.store, name) ==>
                  || Intended(plan, RecordsOf(s.store, name)[id])
                  || (id in RecordsOf(base, name) && RecordsOf(s.store, name)[id] == RecordsOf(base, name)[id]))
            && s.store.collections - {name} == base.collections - {name}
            && s.store.dimensions - {name} == base.dimensions - {name}
  {
    hide Put, Holders, Accepted, Batches, RecordsOfBatch, Encoded;
    RunKeepsInv(plan, base, run);
    PutOrigin(RecordsOf(base, plan.collection), run[|run| - 1].log);
  }

  /** What the first batch can fail with, and what became of it. */
  ghost predicate FirstFailed(plan: Plan, error: Failure)
    requires plan.Valid()
  {
    match error
    case EncoderRaised => true
    case RecordsRefused => Encoded(plan, 0).None?
    case StoreRefused(_) => Encoded(plan, 0).Some?
    case CallerCancelled => true
  }

  ghost predicate HasCause(plan: Plan, s: State)
    requires plan.Valid()
  {
    match s.stage
    case Draining(error) => error.CallerCancelled? || Broken(error) in s.tasks
    case Failed(error) => error.CallerCancelled? || Broken(error) in s.tasks || (s.tasks == [] && FirstFailed(plan, error))
    case Succeeded(_) => NoneBroken(s.tasks)
    case _ => true
  }

  lemma StepKeepsCause(plan: Plan, base: Store, s: State, t: State)
    requires plan.Valid() && Inv(plan, base, s) && HasCause(plan, s) && Next(plan, s, t)
    ensures HasCause(plan, t)
  {
    hide Upsert, Ensure, Written, StoreOk, TasksOk, Batches, Put;
    if !FirstBatchStep(plan, s, t) && !GatherStep(s, t) {
      var i: nat :| TaskStep(plan, s, t, i);
      if s.stage.Draining? && Broken(s.stage.error) in s.tasks {
        var j :| 0 <= j < |s.tasks| && s.tasks[j] == Broken(s.stage.error);
        assert t.tasks[j] == s.tasks[j];
      }
    }
  }

  /**
   * What a run fails with happened: the caller cancelled it, one of its batches failed that way, or its
   * first batch did; and a run that succeeds has no failed batch.
   */
  lemma {:induction false} FailuresHaveCauses(plan: Plan, base: Store, run: seq<State>)
    requires plan.Valid() && WellFormed(base) && IsRun(plan, base, run)
    ensures HasCause(plan, run[|run| - 1])
  {
    hide Next, Inv, StepAt;
    if |run| > 1 {
      hide HasCause, Init;
      RunsShrink(plan, base, run);
      FailuresHaveCauses(plan, base, run[..|run| - 1]);
      RunKeepsInv(plan, base, run[..|run| - 1]);
      StepKeepsCause(plan, base, run[|run| - 2], run[|run| - 1]);
    }
  }
}
