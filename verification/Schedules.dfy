/**
 Any later batch can be the last one written, unless a fair semaphore has one permit. So what makes
 ingestion confluent is known exactly, and concrete chunks show what spaces at the end of an identifier
 can do.
 */
module Schedules {
  import opened Basics
  import opened Ingestion
  import opened Linearization
  import opened Outcome
  import opened Progress
  import opened Text
  import opened Upserts
  import opened VectorStore

  // ---------------------------------------------------------------- holding one batch back

  ghost predicate OthersFinished(tasks: seq<Task>, x: nat) {
    forall i :: 0 <= i < |tasks| && i != x ==> tasks[i].Finished?
  }

  /** Task `x` does not get ahead of any other; once it has written, its batch decides the identifier. */
  ghost predicate HeldBack(plan: Plan, s: State, x: nat, id: string)
    requires plan.Valid() && x + 1 < BatchCount(plan)
  {
    && x < |s.tasks|
    && (s.tasks[x].Writing? || s.tasks[x].Finished? || (plan.maxInFlight == 1 && s.tasks[x].Embedding?) ==> OthersFinished(s.tasks, x))
    && (s.tasks[x].Finished? ==> LastOf(s.log, id) == LastOf(RecordsOfBatch(plan, x + 1), id))
  }

  lemma {:induction false} HoldersAtMostOne(tasks: seq<Task>, x: nat)
    requires forall i :: 0 <= i < |tasks| && i != x ==> !Holding(tasks[i])
    ensures Holders(tasks) <= 1
  {
    if tasks != [] {
      var init := tasks[..|tasks| - 1];
      if x == |init| { NoHoldersNoneHolding(init); } else { HoldersAtMostOne(init, x); }
    }
  }

  /** Some task can move without `x` getting ahead. */
  lemma OtherCanMove(plan: Plan, base: Store, s: State, x: nat, id: string) returns (i: nat)
    requires plan.Valid() && Inv(plan, base, s) && s.stage.Running? && NoneBroken(s.tasks) && !AllFinished(s.tasks)
    requires x + 1 < BatchCount(plan) && HeldBack(plan, s, x, id) && !OneAtATime(plan)
    ensures CanMove(plan, s, i)
    ensures i == x && !OthersFinished(s.tasks, x) ==> s.tasks[x].Waiting? && plan.maxInFlight > 1
  {
    hide StoreOk, Encoded, Batches, Stored, IsEnsured, Holders, LastOf, RecordsOfBatch;
    if OthersFinished(s.tasks, x) {
      i := SomeCanMove(plan, base, s);
    } else if j: nat :| j < |s.tasks| && j != x && Holding(s.tasks[j]) {
      i := j;
    } else {
      var j: nat :| j < |s.tasks| && j != x && !s.tasks[j].Finished?;
      assert s.tasks[j].Waiting?;
      HoldersAtMostOne(s.tasks, x);
      NoHoldersNoneHolding(s.tasks);
      if plan.maxInFlight == 1 { i := j; } else { i := FirstWaiting(s.tasks); }
    }
  }

  lemma HeldStep(plan: Plan, base: Store, s: State, x: nat, id: string) returns (t: State)
    requires plan.Valid() && Inv(plan, base, s) && Writable(plan, base) && Healthy(base, s) && s.stage.Running?
    requires x + 1 < BatchCount(plan) && HeldBack(plan, s, x, id) && !OneAtATime(plan)
    requires LastOf(RecordsOfBatch(plan, x + 1), id).Some?
    ensures Next(plan, s, t) && Healthy(base, t) && HeldBack(plan, t, x, id)
  {
    hide StoreOk, TaskStep, Writable, FirstBatchStep, TasksOk, LastOf, RecordsOfBatch, OneAtATime, IsServed;
    if AllFinished(s.tasks) {
      t := s.(stage := Succeeded(s.firstAccepted + Accepted(s.tasks)));
    } else {
      var i := OtherCanMove(plan, base, s, x, id);
      t := MoveOn(plan, base, s, i);
      if i == x { LastOfConcat(s.log, RecordsOfBatch(plan, x + 1), id); }
    }
  }

  /** A healthy run can succeed with one batch written after all others. */
  lemma {:induction false} HoldBack(plan: Plan, base: Store, run: seq<State>, x: nat, id: string) returns (full: seq<State>)
    requires plan.Valid() && WellFormed(base) && Writable(plan, base) && !OneAtATime(plan)
    requires x + 1 < BatchCount(plan) && LastOf(RecordsOfBatch(plan, x + 1), id).Some?
    requires IsRun(plan, base, run) && Healthy(base, run[|run| - 1])
    requires run[|run| - 1].stage.Running? || run[|run| - 1].stage.Succeeded? ==> HeldBack(plan, run[|run| - 1], x, id)
    ensures IsRun(plan, base, full) && full[|full| - 1].stage.Succeeded?
    ensures LastOf(full[|full| - 1].log, id) == LastOf(RecordsOfBatch(plan, x + 1), id)
    decreases Fuel(plan, run[|run| - 1])
  {
    hide Next, Writable, Init, Fuel, LastOf, RecordsOfBatch, OneAtATime, StepAt, StoreOk, TaskOk, Healthy, HeldBack;
    var s := run[|run| - 1];
    full := run;
    RunKeepsInv(plan, base, run);
    if !s.stage.Succeeded? {
      var t: State;
      if s.stage.Running? {
        t := HeldStep(plan, base, s, x, id);
      } else {
        assert !s.stage.Draining? && !s.stage.Failed? by { HealthyIsNoFailure(base, s); }
        t := FirstBatchGoesWell(plan, base, s);
      }
      RunsGrow(plan, base, run, t);
      assert (run + [t])[|run|] == t;
      RunKeepsInv(plan, base, run + [t]);
      FewTasks(plan, base, t);
      StepUsesFuel(plan, base, s, t);
      if !s.stage.Running? && (t.stage.Running? || t.stage.Succeeded?) { WaitingIsHeldBack(plan, base, t, x, id); }
      full := HoldBack(plan, base, run + [t], x, id);
    } else {
      FinishedIsDecided(plan, base, s, x, id);
    }
  }

  lemma HealthyIsNoFailure(base: Store, s: State)
    requires Healthy(base, s)
    ensures !s.stage.Draining? && !s.stage.Failed?
  {}

  lemma WaitingIsHeldBack(plan: Plan, base: Store, t: State, x: nat, id: string)
    requires plan.Valid() && Inv(plan, base, t) && (t.stage.Running? || t.stage.Succeeded?) && x + 1 < BatchCount(plan)
    requires forall i :: 0 <= i < |t.tasks| ==> t.tasks[i].Waiting?
    ensures HeldBack(plan, t, x, id)
  {
    hide StoreOk, Encoded, Batches, LastOf;
  }

  lemma FinishedIsDecided(plan: Plan, base: Store, s: State, x: nat, id: string)
    requires plan.Valid() && x + 1 < BatchCount(plan) && Inv(plan, base, s) && s.stage.Succeeded? && HeldBack(plan, s, x, id)
    ensures LastOf(s.log, id) == LastOf(RecordsOfBatch(plan, x + 1), id)
  {
    hide StoreOk, Encoded, Batches, LastOf;
  }

  // ---------------------------------------------------------------- the exact condition of confluence

  /** Writing everything in order puts all records. */
  lemma InOrderRecords(plan: Plan, base: Store)
    requires plan.Valid() && WellFormed(base) && Writable(plan, base)
    ensures RecordsOf(InOrder(plan, base), plan.collection) ==
            Put(RecordsOf(base, plan.collection), AllRecords(plan, BatchCount(plan)))
  {
    hide Put, AllRecords, Batches, Encoded, RecordsOfBatch, PutWhileFits, Names, Ids, FirstWidth;
    var all := AllRecords(plan, BatchCount(plan));
    RecordsAreNamed(plan);
    assert |Ids(all)| == |all| && |Names(plan.chunks)| == |plan.chunks| by { NamesLength(plan.chunks); IdsLength(all); }
    assert AllWide(all, FirstWidth(plan)) by {
      forall r | r in all ensures |r.vector| == FirstWidth(plan) { AllRecordsMembers(plan, BatchCount(plan), r); }
    }
    assert |all[0].vector| == FirstWidth(plan);
    UpsertPutsPrefix(RecordsOf(base, plan.collection), FirstWidth(plan), all);
  }

  lemma IdsLength(records: seq<Record>)
    ensures |Ids(records)| == |records|
  {}

  /** A schedule that shows the order of two later batches that disagree. */
  lemma OrderShows(plan: Plan, base: Store, b: nat, c: nat, id: string) returns (run: seq<State>)
    requires plan.Valid() && WellFormed(base) && Writable(plan, base) && !OneAtATime(plan)
    requires 1 <= b < c < BatchCount(plan)
    requires LastOf(RecordsOfBatch(plan, b), id).Some? && LastOf(RecordsOfBatch(plan, c), id).Some?
    requires LastOf(RecordsOfBatch(plan, b), id) != LastOf(RecordsOfBatch(plan, c), id)
    ensures IsRun(plan, base, run) && run[|run| - 1].stage.Succeeded?
    ensures run[|run| - 1].store != InOrder(plan, base)
  {
    hide Put, LastOf, AllRecords, Batches, Encoded, RecordsOfBatch, Writable, InOrder, OneAtATime, StepAt, StageOk, TasksOk;
    var all := AllRecords(plan, BatchCount(plan));
    var x := if LastOf(RecordsOfBatch(plan, b), id) != LastOf(all, id) then b else c;
    var start := State(EncodingFirst, base, [], plan.maxInFlight, 0, []);
    assert IsRun(plan, base, [start]);
    run := HoldBack(plan, base, [start], x - 1, id);
    var t, records := run[|run| - 1], RecordsOf(base, plan.collection);
    RunKeepsInv(plan, base, run);
    PutIsLast(records, t.log, id);
    InOrderRecords(plan, base);
    PutIsLast(records, all, id);
    LastOfIn(RecordsOfBatch(plan, x), id);
    AllRecordsMembers(plan, BatchCount(plan), LastOf(RecordsOfBatch(plan, x), id).value);
    LastOfIn(all, id);
  }

  /**
   * Every successful schedule leaves the in-order store exactly when the chunks cannot be stored at all,
   * no two later batches disagree, or a fair semaphore has one permit.
   */
  lemma {:induction false} ConfluentIff(plan: Plan, base: Store)
    requires plan.Valid() && WellFormed(base)
    ensures (forall run: seq<State> :: IsRun(plan, base, run) && run[|run| - 1].stage.Succeeded? ==>
               run[|run| - 1].store == InOrder(plan, base))
            <==> (Acceptable(plan, base) ==> OrderFree(plan) || OneAtATime(plan))
  {
    hide LastOf, Batches, RecordsOfBatch, Writable, Acceptable, InOrder, OneAtATime, StepAt, Init;
    WritableIffAcceptable(plan, base);
    if Writable(plan, base) && !OrderFree(plan) && !OneAtATime(plan) {
      var b: nat, c: nat :| 1 <= b < c < BatchCount(plan) && !Agree(RecordsOfBatch(plan, b), RecordsOfBatch(plan, c));
      var id :| LastOf(RecordsOfBatch(plan, b), id).Some? && LastOf(RecordsOfBatch(plan, c), id).Some?
                && LastOf(RecordsOfBatch(plan, b), id) != LastOf(RecordsOfBatch(plan, c), id);
      var run := OrderShows(plan, base, b, c, id);
    } else {
      forall run: seq<State> | IsRun(plan, base, run) && run[|run| - 1].stage.Succeeded?
        ensures run[|run| - 1].store == InOrder(plan, base)
      {
        SuccessNeedsWritable(plan, base, run);
        Confluence(plan, base, run);
      }
    }
  }

  // ---------------------------------------------------------------- identifiers that differ by a space

  /** A plan whose encoder gives every text the same vector. */
  function Uniform(chunks: seq<Chunk>, batchSize: nat): Plan {
    Plan("c", batchSize, 2, chunks, true, (_, texts: seq<string>) => seq(|texts|, _ => [1.0]))
  }

  const SPACED := [Chunk("x", "a", "", "s"), Chunk("x ", "b", "", "s")]

  const RACING := [Chunk("y", "c", "", "s"), Chunk("x", "a", "", "s"), Chunk("x ", "b", "", "s")]

  lemma UniformIsAcceptable(chunks: seq<Chunk>, batchSize: nat)
    requires chunks != [] && 1 <= batchSize
    requires forall chunk :: chunk in chunks ==> chunk.id in ["x", "x ", "y"] && chunk.source == "s"
    ensures Acceptable(Uniform(chunks, batchSize), EMPTY)
  {
    hide Batches;
    var plan := Uniform(chunks, batchSize);
    forall chunk | chunk in chunks ensures !IsBlank(chunk.id) && !IsBlank(chunk.source) {
      assert !IsSpace(chunk.id[0]);
      assert !IsSpace(chunk.source[0]);
    }
    BatchesAreFull(plan.chunks, plan.batchSize);
    forall i | 0 <= i < BatchCount(plan) ensures Vectors(plan, i) == seq(|Batch(plan, i)|, _ => [1.0]) {}
  }

  lemma WordIsStripped(letter: string)
    requires |letter| == 1 && !IsSpace(letter[0])
    ensures Strip(letter) == letter
  {}

  lemma SpacedNames()
    ensures Strip("x") == "x" && Strip("x ") == "x"
    ensures Elements(Names(SPACED)) == {"x"}
  {
    assert "x "[..1] == "x";
    assert Names(SPACED) == ["x", "x"];
    assert forall name :: name in ["x", "x"] <==> name == "x";
  }

  /** "x" and "x " are two chunks, counted as two, and one record. */
  lemma {:induction false} SpacedIdsMerge()
    ensures exists run: seq<State> ::
              && IsRun(Uniform(SPACED, 2), EMPTY, run) && run[|run| - 1].stage == Succeeded(2)
              && |RecordsOf(run[|run| - 1].store, "c")| == 1
  {
    hide Acceptable, StepAt, Init, Names, Strip, Inv, RecordsOf;
    var plan := Uniform(SPACED, 2);
    UniformIsAcceptable(SPACED, 2);
    SuccessIsPossibleIff(plan, EMPTY);
    var run: seq<State> :| IsRun(plan, EMPTY, run) && run[|run| - 1].stage.Succeeded?;
    RunKeepsInv(plan, EMPTY, run);
    SuccessTotal(plan, EMPTY, run[|run| - 1]);
    SuccessKeys(plan, EMPTY, run[|run| - 1]);
    SpacedNames();
    var records := RecordsOf(run[|run| - 1].store, "c");
    assert records.Keys == {"x"} by { EmptyHasNoRecords("c"); }
    assert |records| == |records.Keys|;
  }

  lemma EmptyHasNoRecords(name: string)
    ensures RecordsOf(EMPTY, name) == map[]
  {}

  lemma RacingBatches()
    ensures Batches(RACING, 1) == [RACING[..1], RACING[1..2], RACING[2..]]
  {
    var rest := RACING[1..];
    assert rest[1..] == RACING[2..] && rest[..1] == RACING[1..2];
    assert Batches(RACING[2..], 1) == [RACING[2..]];
    assert Batches(rest, 1) == [RACING[1..2]] + [RACING[2..]];
  }

  lemma SingleRecord(plan: Plan, i: nat, chunk: Chunk)
    requires plan.Valid() && i < BatchCount(plan) && Batch(plan, i) == [chunk] && Vectors(plan, i) == [[1.0]] && IsNamed(chunk)
    ensures RecordsOfBatch(plan, i) == [ToRecord(chunk, [1.0])]
  {
    hide Batches, Strip, Vectors;
  }

  lemma RacingDisagree()
    ensures Uniform(RACING, 1).Valid() && !OrderFree(Uniform(RACING, 1))
  {
    hide Batches, Strip;
    var plan := Uniform(RACING, 1);
    RacingBatches();
    SpacedNames();
    assert Strip("s") == "s" by { WordIsStripped("s"); }
    SingleRecord(plan, 1, RACING[1]);
    SingleRecord(plan, 2, RACING[2]);
    assert LastOf(RecordsOfBatch(plan, 1), "x") != LastOf(RecordsOfBatch(plan, 2), "x");
    assert !Agree(RecordsOfBatch(plan, 1), RecordsOfBatch(plan, 2));
  }

  /** In two later batches, they race: which one is kept depends on the schedule. */
  lemma {:induction false} SpacedIdsRace()
    ensures exists run: seq<State> ::
              && IsRun(Uniform(RACING, 1), EMPTY, run) && run[|run| - 1].stage.Succeeded?
              && run[|run| - 1].store != InOrder(Uniform(RACING, 1), EMPTY)
  {
    hide Acceptable, StepAt, Init, InOrder, OrderFree;
    UniformIsAcceptable(RACING, 1);
    ConfluentIff(Uniform(RACING, 1), EMPTY);
    RacingDisagree();
  }
}
