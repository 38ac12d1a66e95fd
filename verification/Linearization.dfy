/**
 Ingestion runs read as batches written whole, one after the other. The first batch comes first; the
 others may overtake each other, unless a fair semaphore has one permit. What is stored under an
 identifier is decided by the last batch that holds it, so the order matters exactly where batches
 that may overtake each other disagree.
 */
module Linearization {
  import opened Basics
  import opened Ingestion
  import opened Upserts
  import opened VectorStore

  // ---------------------------------------------------------------- one batch after the other

  ghost predicate InRange(plan: Plan, order: seq<nat>)
    requires plan.Valid()
  {
    forall p :: 0 <= p < |order| ==> order[p] < BatchCount(plan)
  }

  /** The records of some batches, one batch after the other. */
  ghost function Concatenated(plan: Plan, order: seq<nat>): seq<Record>
    requires plan.Valid() && InRange(plan, order)
  {
    if order == [] then []
    else Concatenated(plan, order[..|order| - 1]) + RecordsOfBatch(plan, order[|order| - 1])
  }

  ghost function Upto(count: nat): seq<nat> {
    seq(count, i requires 0 <= i < count => i)
  }

  lemma UptoMembers(count: nat)
    ensures forall k: nat :: k in Upto(count) <==> k < count
    ensures Distinct(Upto(count))
  {
    forall k: nat ensures k in Upto(count) <==> k < count {
      if k < count { assert Upto(count)[k] == k; }
    }
  }

  lemma {:induction false} ConcatenatedUpto(plan: Plan, count: nat)
    requires plan.Valid() && count <= BatchCount(plan)
    ensures InRange(plan, Upto(count)) && Concatenated(plan, Upto(count)) == AllRecords(plan, count)
  {
    hide RecordsOfBatch, Batches;
    if count > 0 {
      ConcatenatedUpto(plan, count - 1);
      assert Upto(count)[..count - 1] == Upto(count - 1);
    }
  }

  /** A fair semaphore with one permit lets the batches through in order. */
  ghost predicate OneAtATime(plan: Plan) {
    plan.fair && plan.maxInFlight == 1
  }

  ghost predicate InTurn(tasks: seq<Task>) {
    forall i, j :: 0 <= i < j < |tasks| && !tasks[j].Waiting? ==> tasks[i].Finished?
  }

  ghost predicate NoneBroken(tasks: seq<Task>) {
    forall i :: 0 <= i < |tasks| ==> !tasks[i].Broken?
  }

  ghost predicate IsSerial(plan: Plan, order: seq<nat>)
    requires plan.Valid()
  {
    order != [] && order[0] == 0 && Distinct(order) && InRange(plan, order)
  }

  /** The log is the finished batches, each whole, in some order that begins with the first. */
  ghost predicate Linear(plan: Plan, s: State, order: seq<nat>)
    requires plan.Valid()
  {
    && IsSerial(plan, order)
    && (forall k :: k in order <==> k == 0 || (1 <= k <= |s.tasks| && s.tasks[k - 1].Finished?))
    && s.log == Concatenated(plan, order)
    && (OneAtATime(plan) ==> InTurn(s.tasks) && order == Upto(|order|))
  }

  lemma {:induction false} NoHoldersNoneHolding(tasks: seq<Task>)
    ensures Holders(tasks) == 0 <==> forall i :: 0 <= i < |tasks| ==> !Holding(tasks[i])
  {
    if tasks != [] {
      NoHoldersNoneHolding(tasks[..|tasks| - 1]);
      assert tasks == tasks[..|tasks| - 1] + [tasks[|tasks| - 1]];
    }
  }

  /** A batch that is written comes next in the order. */
  lemma WriteIsLinear(plan: Plan, base: Store, s: State, t: State, i: nat, order: seq<nat>)
    requires plan.Valid() && Inv(plan, base, s) && s.stage.Running?
    requires TaskStep(plan, s, t, i) && s.tasks[i].Writing? && t.tasks[i].Finished?
    requires Linear(plan, s, order)
    ensures Linear(plan, t, order + [i + 1])
  {
    hide StoreOk, Upsert, Written, Encoded, RecordsOfBatch, Batches, Holders;
    var longer := order + [i + 1];
    assert longer[..|order|] == order;
    assert i + 1 !in order && forall k :: k in longer <==> k in order || k == i + 1;
    assert TaskOk(plan, s.log, s.tasks, i);
    UpsertStep(plan, base, s, i + 1);
    assert t.log == s.log + RecordsOfBatch(plan, i + 1) by { WrittenIsBatch(plan, i + 1); }
    if OneAtATime(plan) {
      UptoMembers(|order|);
      assert i in order;
      assert longer == Upto(|longer|);
    }
  }

  lemma WrittenIsBatch(plan: Plan, i: nat)
    requires plan.Valid() && i < BatchCount(plan) && Encoded(plan, i).Some?
    ensures Encoded(plan, i) == Some(RecordsOfBatch(plan, i))
  {}

  /** Any other step of a task leaves the log alone, and the turn is kept. */
  lemma OtherStepIsLinear(plan: Plan, base: Store, s: State, t: State, i: nat, order: seq<nat>)
    requires plan.Valid() && Inv(plan, base, s) && s.stage.Running? && NoneBroken(s.tasks) && NoneBroken(t.tasks)
    requires TaskStep(plan, s, t, i) && !s.tasks[i].Writing?
    requires Linear(plan, s, order)
    ensures Linear(plan, t, order)
  {
    hide StoreOk, Upsert, Written, Encoded, RecordsOfBatch, Batches, Holders;
    if OneAtATime(plan) && s.tasks[i].Waiting? { NoHoldersNoneHolding(s.tasks); }
  }

  lemma FirstWriteIsLinear(plan: Plan, base: Store, s: State, t: State)
    requires plan.Valid() && Inv(plan, base, s) && s.stage.WritingFirst? && FirstBatchStep(plan, s, t) && !t.stage.Failed?
    ensures Linear(plan, t, [0])
  {
    hide Inv, FirstBatchStep, RecordsOfBatch, Batches;
    FirstWriteStep(plan, base, s, t);
    var order: seq<nat> := [0];
    assert order[..0] == [] && forall k :: k in order <==> k == 0;
    assert Concatenated(plan, [0]) == RecordsOfBatch(plan, 0);
  }

  lemma FirstWriteStep(plan: Plan, base: Store, s: State, t: State)
    requires plan.Valid() && Inv(plan, base, s) && s.stage.WritingFirst? && FirstBatchStep(plan, s, t) && !t.stage.Failed?
    ensures t.log == RecordsOfBatch(plan, 0) && forall i :: 0 <= i < |t.tasks| ==> t.tasks[i].Waiting?
  {
    hide Upsert, Written, Encoded, Batches, IsEnsured, Put, RecordsOf, RecordsOfBatch, Stored;
    WrittenIsBatch(plan, 0);
    UpsertStep(plan, base, s, 0);
  }

  /**
   * While nothing has gone wrong, what was written is whole batches one after the other, the first one
   * first; with a fair semaphore of one permit, in order.
   */
  lemma {:induction false} RunIsLinear(plan: Plan, base: Store, run: seq<State>) returns (order: seq<nat>)
    requires plan.Valid() && WellFormed(base) && IsRun(plan, base, run)
    requires (run[|run| - 1].stage.Running? || run[|run| - 1].stage.Succeeded?) && NoneBroken(run[|run| - 1].tasks)
    ensures Linear(plan, run[|run| - 1], order)
  {
    hide Inv, Linear, Upsert, Ensure, Written, Encoded, Batches, Accepted, IsServed;
    order := [0];
    if |run| > 1 {
      var before, s, t := run[..|run| - 1], run[|run| - 2], run[|run| - 1];
      RunsShrink(plan, base, run);
      RunKeepsInv(plan, base, before);
      if FirstBatchStep(plan, s, t) {
        FirstWriteIsLinear(plan, base, s, t);
      } else if GatherStep(s, t) {
        order := RunIsLinear(plan, base, before);
        assert Linear(plan, t, order) by { GatherIsLinear(plan, s, t, order); }
      } else {
        var i: nat :| TaskStep(plan, s, t, i);
        assert NoneBroken(s.tasks) by { assert forall j :: 0 <= j < |s.tasks| && j != i ==> s.tasks[j] == t.tasks[j]; }
        order := RunIsLinear(plan, base, before);
        if s.tasks[i].Writing? {
          WriteIsLinear(plan, base, s, t, i, order);
          order := order + [i + 1];
        } else {
          OtherStepIsLinear(plan, base, s, t, i, order);
        }
      }
    }
  }

  lemma GatherIsLinear(plan: Plan, s: State, t: State, order: seq<nat>)
    requires plan.Valid() && t.tasks == s.tasks && t.log == s.log && Linear(plan, s, order)
    ensures Linear(plan, t, order)
  {}

  // ---------------------------------------------------------------- when the order matters

  /** Where both hold a record under one identifier, the last ones are the same. */
  ghost predicate Agree(a: seq<Record>, b: seq<Record>) {
    forall id :: LastOf(a, id).Some? && LastOf(b, id).Some? ==> LastOf(a, id) == LastOf(b, id)
  }

  /** No two batches that may overtake each other disagree; the first batch overtakes none. */
  ghost predicate OrderFree(plan: Plan)
    requires plan.Valid()
  {
    forall b, c :: 1 <= b < c < BatchCount(plan) ==> Agree(RecordsOfBatch(plan, b), RecordsOfBatch(plan, c))
  }

  /** No two batches disagree, the first included. */
  ghost predicate AllAgree(plan: Plan)
    requires plan.Valid()
  {
    forall b, c :: 0 <= b < c < BatchCount(plan) ==> Agree(RecordsOfBatch(plan, b), RecordsOfBatch(plan, c))
  }

  /** The last batch in an order that holds an identifier decides it. */
  lemma {:induction false} Latest(plan: Plan, order: seq<nat>, id: string) returns (p: nat)
    requires plan.Valid() && InRange(plan, order)
    ensures LastOf(Concatenated(plan, order), id).Some? ==>
              && p < |order|
              && LastOf(RecordsOfBatch(plan, order[p]), id) == LastOf(Concatenated(plan, order), id)
              && forall q :: p < q < |order| ==> LastOf(RecordsOfBatch(plan, order[q]), id).None?
    ensures LastOf(Concatenated(plan, order), id).None? ==>
              forall q :: 0 <= q < |order| ==> LastOf(RecordsOfBatch(plan, order[q]), id).None?
  {
    p := 0;
    if order != [] {
      hide LastOf, RecordsOfBatch;
      var init, last := order[..|order| - 1], order[|order| - 1];
      assert order == init + [last];
      p := Latest(plan, init, id);
      LastOfConcat(Concatenated(plan, init), RecordsOfBatch(plan, last), id);
      if LastOf(RecordsOfBatch(plan, last), id).Some? { p := |init|; }
    } else {
      assert Concatenated(plan, order) == [];
    }
  }

  lemma SameWinner(plan: Plan, a: seq<nat>, b: seq<nat>, id: string)
    requires plan.Valid() && OrderFree(plan) && IsSerial(plan, a) && IsSerial(plan, b) && forall k :: k in a <==> k in b
    ensures LastOf(Concatenated(plan, a), id) == LastOf(Concatenated(plan, b), id)
  {
    hide LastOf, RecordsOfBatch, Concatenated, OrderFree;
    var p := Latest(plan, a, id);
    var q := Latest(plan, b, id);
    var wonA, wonB := LastOf(Concatenated(plan, a), id), LastOf(Concatenated(plan, b), id);
    if wonA.Some? { assert a[p] in b; }
    if wonB.Some? { assert b[q] in a; }
    if wonA.Some? && wonB.Some? {
      var i :| 0 <= i < |a| && a[i] == b[q];
      var j :| 0 <= j < |b| && b[j] == a[p];
      assert i <= p && j <= q;
      OrderFreePair(plan, a[p], b[q], id);
    }
  }

  lemma OrderFreePair(plan: Plan, b: nat, c: nat, id: string)
    requires plan.Valid() && OrderFree(plan) && b < BatchCount(plan) && c < BatchCount(plan) && (b == 0 <==> c == 0)
    requires LastOf(RecordsOfBatch(plan, b), id).Some? && LastOf(RecordsOfBatch(plan, c), id).Some?
    ensures LastOf(RecordsOfBatch(plan, b), id) == LastOf(RecordsOfBatch(plan, c), id)
  {
    hide LastOf, RecordsOfBatch;
    if b < c {
      assert Agree(RecordsOfBatch(plan, b), RecordsOfBatch(plan, c));
    } else if c < b {
      assert Agree(RecordsOfBatch(plan, c), RecordsOfBatch(plan, b));
    }
  }
}
