/**
 Ingesting the same chunks again. When the encoder answers alike, a repeat writes over records with the
 records of its own batches; whether that can ever be seen, in any state of a repeat that fails, is
 cancelled or succeeds, is known exactly.
 */
module Repetition {
  import opened Basics
  import opened Ingestion
  import opened Linearization
  import opened Outcome
  import opened Progress
  import opened Upserts
  import opened VectorStore

  // ---------------------------------------------------------------- whole batches

  /** A batch that fits the collection is written whole. */
  lemma WritesBatch(plan: Plan, base: Store, store: Store, i: nat)
    requires plan.Valid() && Writable(plan, base) && i < BatchCount(plan) && IsEnsured(plan, store)
    ensures Encoded(plan, i) == Some(RecordsOfBatch(plan, i))
    ensures Written(store, plan.collection, RecordsOfBatch(plan, i)) == RecordsOfBatch(plan, i)
  {
    UpsertPutsPrefix(map[], store.dimensions[plan.collection], RecordsOfBatch(plan, i));
  }

  ghost predicate IsWhole(plan: Plan, log: seq<Record>, order: seq<nat>)
    requires plan.Valid()
  {
    InRange(plan, order) && log == Concatenated(plan, order)
  }

  lemma AppendWhole(plan: Plan, log: seq<Record>, order: seq<nat>, i: nat)
    requires plan.Valid() && IsWhole(plan, log, order) && i < BatchCount(plan)
    ensures IsWhole(plan, log + RecordsOfBatch(plan, i), order + [i])
  {
    assert (order + [i])[..|order|] == order;
  }

  /** A step leaves the log alone, or writes one batch whole. */
  lemma StepIsWhole(plan: Plan, base: Store, origin: Store, s: State, t: State) returns (batch: Option<nat>)
    requires plan.Valid() && Inv(plan, base, s) && Writable(plan, origin) && Next(plan, s, t)
    ensures batch.None? ==> t.log == s.log
    ensures batch.Some? ==> batch.value < BatchCount(plan) && t.log == s.log + RecordsOfBatch(plan, batch.value)
    ensures forall x: nat :: x < BatchCount(plan) && HasWritten(t, x) && !HasWritten(s, x) ==> batch == Some(x)
  {
    hide Upsert, Ensure, Put, Encoded, RecordsOfBatch, Batches, Writable, IsEnsured, Written, StoreOk, Stored;
    batch := None;
    if FirstBatchStep(plan, s, t) {
      if s.stage.WritingFirst? {
        WritesBatch(plan, origin, s.store, 0);
        batch := Some(0);
      }
    } else if !GatherStep(s, t) {
      var i: nat :| TaskStep(plan, s, t, i);
      if s.tasks[i].Writing? && !t.tasks[i].Cancelled? {
        assert TaskOk(plan, s.log, s.tasks, i);
        WritesBatch(plan, origin, s.store, i + 1);
        batch := Some(i + 1);
      }
    }
  }

  /** The batch has been written. */
  ghost predicate HasWritten(s: State, x: nat) {
    if x == 0 then s.tasks != [] || s.stage.Succeeded? else x <= |s.tasks| && s.tasks[x - 1].Finished?
  }

  /** Where every batch fits, runs write whole batches only, even those that fail. */
  lemma {:induction false} LogIsWhole(plan: Plan, base: Store, run: seq<State>) returns (order: seq<nat>)
    requires plan.Valid() && WellFormed(base) && Writable(plan, base) && IsRun(plan, base, run)
    ensures IsWhole(plan, run[|run| - 1].log, order)
  {
    order := [];
    if |run| > 1 {
      hide Next, Inv, Writable, IsWhole, RecordsOfBatch, HasWritten;
      RunsShrink(plan, base, run);
      order := LogIsWhole(plan, base, run[..|run| - 1]);
      RunKeepsInv(plan, base, run[..|run| - 1]);
      var batch := StepIsWhole(plan, base, base, run[|run| - 2], run[|run| - 1]);
      if batch.Some? {
        AppendWhole(plan, run[|run| - 2].log, order, batch.value);
        order := order + [batch.value];
      }
    }
  }

  /** A run that has written a batch was once in a state in which that batch came last. */
  lemma {:induction false} WrittenLast(plan: Plan, base: Store, run: seq<State>, x: nat, id: string) returns (early: seq<State>)
    requires plan.Valid() && WellFormed(base) && Writable(plan, base) && IsRun(plan, base, run)
    requires x < BatchCount(plan) && LastOf(RecordsOfBatch(plan, x), id).Some? && HasWritten(run[|run| - 1], x)
    ensures IsRun(plan, base, early) && LastOf(early[|early| - 1].log, id) == LastOf(RecordsOfBatch(plan, x), id)
  {
    hide Next, Inv, Writable, RecordsOfBatch, LastOf, HasWritten, Init, StepAt, Batches, WellFormed;
    StartHasNotWritten(plan, base, run, x);
    var s := run[|run| - 2];
    RunsShrink(plan, base, run);
    if HasWritten(s, x) {
      early := WrittenLast(plan, base, run[..|run| - 1], x, id);
    } else {
      RunKeepsInv(plan, base, run[..|run| - 1]);
      var batch := StepIsWhole(plan, base, base, s, run[|run| - 1]);
      LastOfConcat(s.log, RecordsOfBatch(plan, x), id);
      early := run;
    }
  }

  lemma StartHasNotWritten(plan: Plan, base: Store, run: seq<State>, x: nat)
    requires plan.Valid() && IsRun(plan, base, run) && HasWritten(run[|run| - 1], x)
    ensures |run| > 1
  {
    hide StepAt;
  }

  // ---------------------------------------------------------------- repeats

  /** After a success, each identifier some batch holds is held as some batch holds it last. */
  lemma SuccessHolds(plan: Plan, base: Store, run: seq<State>, b: nat, id: string) returns (c: nat)
    requires plan.Valid() && WellFormed(base) && IsRun(plan, base, run) && run[|run| - 1].stage.Succeeded?
    requires b < BatchCount(plan) && LastOf(RecordsOfBatch(plan, b), id).Some?
    ensures c < BatchCount(plan) && LastOf(run[|run| - 1].log, id) == LastOf(RecordsOfBatch(plan, c), id)
    ensures LastOf(run[|run| - 1].log, id).Some?
  {
    hide Inv, LastOf, RecordsOfBatch, Concatenated, StepAt, Writable;
    SuccessNeedsWritable(plan, base, run);
    var order := LogIsWhole(plan, base, run);
    RunKeepsInv(plan, base, run);
    LogIsComplete(plan, base, run[|run| - 1]);
    LastOfIn(RecordsOfBatch(plan, b), id);
    assert Intended(plan, LastOf(RecordsOfBatch(plan, b), id).value);
    LastOfIn(run[|run| - 1].log, id);
    var p := Latest(plan, order, id);
    c := order[p];
  }

  lemma AgreePair(plan: Plan, b: nat, c: nat, id: string)
    requires plan.Valid() && AllAgree(plan) && b < BatchCount(plan) && c < BatchCount(plan)
    requires LastOf(RecordsOfBatch(plan, b), id).Some? && LastOf(RecordsOfBatch(plan, c), id).Some?
    ensures LastOf(RecordsOfBatch(plan, b), id) == LastOf(RecordsOfBatch(plan, c), id)
  {
    hide LastOf, RecordsOfBatch;
    if b < c {
      assert Agree(RecordsOfBatch(plan, b), RecordsOfBatch(plan, c));
    } else if c < b {
      assert Agree(RecordsOfBatch(plan, c), RecordsOfBatch(plan, b));
    }
  }

  /** After a success the plan fits the store it left. */
  lemma StillWritable(plan: Plan, base: Store, run: seq<State>)
    requires plan.Valid() && WellFormed(base) && IsRun(plan, base, run) && run[|run| - 1].stage.Succeeded?
    ensures WellFormed(run[|run| - 1].store) && Writable(plan, run[|run| - 1].store)
  {
    hide Encoded, Batches, Put, StepAt;
    SuccessNeedsWritable(plan, base, run);
    RunKeepsInv(plan, base, run);
    assert Encoded(plan, 0) == Some(RecordsOfBatch(plan, 0));
  }

  lemma RepeatWinners(plan: Plan, base: Store, first: seq<State>, second: seq<State>, id: string)
    requires plan.Valid() && WellFormed(base) && AllAgree(plan)
    requires IsRun(plan, base, first) && first[|first| - 1].stage.Succeeded?
    requires IsRun(plan, first[|first| - 1].store, second)
    ensures LastOf(first[|first| - 1].log + second[|second| - 1].log, id) == LastOf(first[|first| - 1].log, id)
  {
    hide Inv, LastOf, RecordsOfBatch, Concatenated, StepAt, Writable, AllAgree, WellFormed;
    var s, t := first[|first| - 1], second[|second| - 1];
    LastOfConcat(s.log, t.log, id);
    if LastOf(t.log, id).Some? {
      StillWritable(plan, base, first);
      var order := LogIsWhole(plan, s.store, second);
      var p := Latest(plan, order, id);
      var c := SuccessHolds(plan, base, first, order[p], id);
      AgreePair(plan, order[p], c, id);
    }
  }

  /**
   * When no two batches disagree, ingesting the same chunks again changes nothing: not at the end, and
   * not in any state of the second run, whether it fails, is cancelled or succeeds.
   */
  lemma {:induction false} RepeatChangesNothing(plan: Plan, base: Store, first: seq<State>, second: seq<State>)
    requires plan.Valid() && WellFormed(base) && AllAgree(plan)
    requires IsRun(plan, base, first) && first[|first| - 1].stage.Succeeded?
    requires IsRun(plan, first[|first| - 1].store, second)
    ensures second[|second| - 1].store == first[|first| - 1].store
    ensures second[|second| - 1].stage.Succeeded? ==> second[|second| - 1].stage == first[|first| - 1].stage
  {
    hide Put, LastOf, AllRecords, Holders, Accepted, Batches, AllAgree, Encoded, Intended, Init, StepAt;
    var s, t, records := first[|first| - 1], second[|second| - 1], RecordsOf(base, plan.collection);
    RunKeepsInv(plan, base, first);
    RunKeepsInv(plan, s.store, second);
    SuccessTotal(plan, base, s);
    if t.stage.Succeeded? { SuccessTotal(plan, s.store, t); }
    PutConcat(records, s.log, t.log);
    forall id ensures LastOf(s.log, id) == LastOf(s.log + t.log, id) { RepeatWinners(plan, base, first, second, id); }
    PutByLast(records, s.log, s.log + t.log);
    RestoreKey(t.store.collections, s.store.collections, plan.collection);
    RestoreKey(t.store.dimensions, s.store.dimensions, plan.collection);
  }

  /** A repeat that shows two batches that disagree, in some state of it. */
  lemma RepeatShows(plan: Plan, base: Store, first: seq<State>, b: nat, c: nat, id: string) returns (second: seq<State>)
    requires plan.Valid() && WellFormed(base) && IsRun(plan, base, first) && first[|first| - 1].stage.Succeeded?
    requires b < BatchCount(plan) && c < BatchCount(plan)
    requires LastOf(RecordsOfBatch(plan, b), id).Some? && LastOf(RecordsOfBatch(plan, c), id).Some?
    requires LastOf(RecordsOfBatch(plan, b), id) != LastOf(RecordsOfBatch(plan, c), id)
    ensures IsRun(plan, first[|first| - 1].store, second) && second[|second| - 1].store != first[|first| - 1].store
  {
    hide Put, LastOf, Batches, Encoded, RecordsOfBatch, Writable, Concatenated, StepAt, TasksOk, WellFormed;
    var s, records := first[|first| - 1], RecordsOf(base, plan.collection);
    StillWritable(plan, base, first);
    var _ := SuccessHolds(plan, base, first, b, id);
    var x := if LastOf(RecordsOfBatch(plan, b), id) != LastOf(s.log, id) then b else c;
    var start := State(EncodingFirst, s.store, [], plan.maxInFlight, 0, []);
    assert IsRun(plan, s.store, [start]);
    var full := CanSucceed(plan, s.store, [start]);
    assert HasWritten(full[|full| - 1], x) by { SuccessHasWritten(plan, s.store, full, x); }
    second := WrittenLast(plan, s.store, full, x, id);
    RunKeepsInv(plan, base, first);
    RunKeepsInv(plan, s.store, second);
    PutIsLast(records, s.log, id);
    PutIsLast(Put(records, s.log), second[|second| - 1].log, id);
  }

  lemma SuccessHasWritten(plan: Plan, base: Store, run: seq<State>, x: nat)
    requires plan.Valid() && WellFormed(base) && IsRun(plan, base, run) && run[|run| - 1].stage.Succeeded?
    requires x < BatchCount(plan)
    ensures HasWritten(run[|run| - 1], x)
  {
    hide StoreOk, Batches, Encoded, StepAt, Init;
    RunKeepsInv(plan, base, run);
  }

  /** After a success, no state of any repeat differs exactly when no two batches disagree. */
  lemma {:induction false} RepeatChangesNothingIff(plan: Plan, base: Store, first: seq<State>)
    requires plan.Valid() && WellFormed(base) && IsRun(plan, base, first) && first[|first| - 1].stage.Succeeded?
    ensures (forall second: seq<State> :: IsRun(plan, first[|first| - 1].store, second) ==>
               second[|second| - 1].store == first[|first| - 1].store)
            <==> AllAgree(plan)
  {
    hide LastOf, Batches, RecordsOfBatch, StepAt, Init, WellFormed;
    if !AllAgree(plan) {
      var b: nat, c: nat :| b < c < BatchCount(plan) && !Agree(RecordsOfBatch(plan, b), RecordsOfBatch(plan, c));
      var id :| LastOf(RecordsOfBatch(plan, b), id).Some? && LastOf(RecordsOfBatch(plan, c), id).Some?
                && LastOf(RecordsOfBatch(plan, b), id) != LastOf(RecordsOfBatch(plan, c), id);
      var second := RepeatShows(plan, base, first, b, c, id);
    } else {
      forall second: seq<State> | IsRun(plan, first[|first| - 1].store, second)
        ensures second[|second| - 1].store == first[|first| - 1].store
      {
        RepeatChangesNothing(plan, base, first, second);
      }
    }
  }
}
