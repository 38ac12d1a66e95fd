/**
 Every ingestion run is finite, none gets stuck, and the plans that can succeed are known exactly.

 The measure counts the stages still to come and the steps each task has left. A healthy run, in which
 nothing has gone wrong yet, can always be continued by a step after which nothing has.
 */
module Progress {
  import opened Basics
  import opened Ingestion
  import opened Linearization
  import opened Outcome
  import opened Text
  import opened Upserts
  import opened VectorStore

  // ---------------------------------------------------------------- termination and progress

  function TaskWork(task: Task): nat {
    match task
    case Waiting => 3
    case Embedding => 2
    case Writing(_) => 1
    case _ => 0
  }

  function Work(tasks: seq<Task>): nat {
    if tasks == [] then 0 else Work(tasks[..|tasks| - 1]) + TaskWork(tasks[|tasks| - 1])
  }

  /** The stages still to come, each priced at `unit` steps. */
  function StageWork(stage: Stage, unit: nat): nat {
    match stage
    case EncodingFirst => 5 * unit
    case Ensuring(_) => 4 * unit
    case WritingFirst(_) => 3 * unit
    case Running => 2 * unit
    case Draining(_) => unit
    case _ => 0
  }

  lemma {:induction false} WorkUpdate(tasks: seq<Task>, i: nat, task: Task)
    requires i < |tasks|
    ensures Work(tasks[i := task]) == Work(tasks) - TaskWork(tasks[i]) + TaskWork(task)
  {
    var init := tasks[..|tasks| - 1];
    if i < |init| {
      WorkUpdate(init, i, task);
      assert tasks[i := task][..|tasks| - 1] == init[i := task];
    } else {
      assert tasks[i := task][..|tasks| - 1] == init;
    }
  }

  lemma {:induction false} WorkBound(tasks: seq<Task>)
    ensures Work(tasks) <= 3 * |tasks|
  {
    if tasks != [] { WorkBound(tasks[..|tasks| - 1]); }
  }

  /** The steps a run may still take from a state. */
  ghost function Fuel(plan: Plan, s: State): nat
    requires plan.Valid()
  {
    StageWork(s.stage, 3 * BatchCount(plan) + 1) + Work(s.tasks)
  }

  lemma StageStepUsesFuel(plan: Plan, s: State, t: State)
    requires plan.Valid() && StageOk(plan, s) && |t.tasks| < BatchCount(plan)
    requires FirstBatchStep(plan, s, t) || GatherStep(s, t)
    ensures Fuel(plan, t) < Fuel(plan, s)
  {
    hide Encoded, Batches, Ensure, Upsert, Written;
    WorkBound(t.tasks);
    assert s.tasks == [] || t.tasks == s.tasks;
  }

  lemma TaskStepUsesFuel(plan: Plan, s: State, t: State, i: nat)
    requires plan.Valid() && TaskStep(plan, s, t, i)
    ensures Fuel(plan, t) < Fuel(plan, s)
  {
    hide Encoded, Batches, Upsert, Written;
    WorkUpdate(s.tasks, i, t.tasks[i]);
  }

  lemma StepUsesFuel(plan: Plan, base: Store, s: State, t: State)
    requires plan.Valid() && Inv(plan, base, s) && Next(plan, s, t) && |t.tasks| < BatchCount(plan)
    ensures Fuel(plan, t) < Fuel(plan, s)
  {
    if FirstBatchStep(plan, s, t) || GatherStep(s, t) {
      StageStepUsesFuel(plan, s, t);
    } else {
      var i: nat :| TaskStep(plan, s, t, i);
      TaskStepUsesFuel(plan, s, t, i);
    }
  }

  /** No run, whatever the scheduler does, is longer than the plan allows. */
  lemma {:induction false} RunsAreBounded(plan: Plan, base: Store, run: seq<State>)
    requires plan.Valid() && WellFormed(base) && IsRun(plan, base, run)
    ensures |run| - 1 + Fuel(plan, run[|run| - 1]) <= 5 * (3 * BatchCount(plan) + 1)
  {
    hide FirstBatchStep, GatherStep, TaskStep, StoreOk, StageOk;
    if |run| > 1 {
      hide Fuel, Init;
      var before := run[..|run| - 1];
      RunsShrink(plan, base, run);
      RunsAreBounded(plan, base, before);
      RunKeepsInv(plan, base, before);
      RunKeepsInv(plan, base, run);
      StepUsesFuel(plan, base, run[|run| - 2], run[|run| - 1]);
    }
  }

  ghost predicate Interrupted(stage: Stage) {
    stage in {Draining(CallerCancelled), Failed(CallerCancelled), Draining(EncoderRaised), Failed(EncoderRaised)}
  }

  ghost predicate EncoderFaults(s: State, t: State) {
    exists i :: 0 <= i < |t.tasks| && t.tasks[i] == Broken(EncoderRaised) && !(i < |s.tasks| && s.tasks[i] == t.tasks[i])
  }

  /**
   * No reachable state is stuck: the run can always go on by itself, with no cancellation and no encoder
   * fault.
   */
  lemma {:induction false} NeverStuck(plan: Plan, base: Store, s: State) returns (t: State)
    requires plan.Valid() && Inv(plan, base, s) && !s.stage.Succeeded? && !s.stage.Failed?
    ensures Next(plan, s, t) && !EncoderFaults(s, t)
    ensures !Interrupted(s.stage) && NoneBroken(s.tasks) ==> !Interrupted(t.stage)
  {
    hide StoreOk, Put, Upsert, Ensure, Written;
    if s.stage.Running? {
      t := RunningGoesOn(plan, base, s);
    } else if s.stage.Draining? {
      t := DrainGoesOn(plan, s);
    } else if s.stage.EncodingFirst? {
      t := s.(stage := if Encoded(plan, 0).Some? then Ensuring(Encoded(plan, 0).value) else Failed(RecordsRefused));
      assert FirstBatchStep(plan, s, t);
    } else if s.stage.Ensuring? {
      BatchesAreFull(plan.chunks, plan.batchSize);
      var (store, error) := Ensure(s.store, plan.collection, |s.stage.first[0].vector|);
      t := s.(store := store, stage := if error.None? then WritingFirst(s.stage.first) else Failed(StoreRefused(error.value)));
      assert FirstBatchStep(plan, s, t);
    } else {
      var (store, accepted) := Upsert(s.store, plan.collection, s.stage.first);
      var log := s.log + Written(s.store, plan.collection, s.stage.first);
      t := if accepted.Err? then s.(store := store, log := log, stage := Failed(StoreRefused(accepted.error)))
           else if BatchCount(plan) == 1 then
             s.(store := store, log := log, firstAccepted := accepted.value, stage := Succeeded(accepted.value))
           else s.(store := store, log := log, firstAccepted := accepted.value, stage := Running,
                   tasks := seq(BatchCount(plan) - 1, _ => Waiting));
      assert FirstBatchStep(plan, s, t);
    }
  }

  lemma DrainGoesOn(plan: Plan, s: State) returns (t: State)
    requires plan.Valid() && s.stage.Draining? && |s.tasks| == BatchCount(plan) - 1
    ensures Next(plan, s, t) && !EncoderFaults(s, t)
  {
    if AllOver(s.tasks) {
      t := s.(stage := Failed(s.stage.error));
    } else {
      var i: nat :| i < |s.tasks| && !Over(s.tasks[i]);
      t := if s.tasks[i].Waiting? then s.(tasks := s.tasks[i := Cancelled])
           else s.(tasks := s.tasks[i := Cancelled], permits := s.permits + 1);
      assert TaskStep(plan, s, t, i);
    }
  }

  /** The task can take its next step by itself. */
  ghost predicate CanMove(plan: Plan, s: State, i: nat) {
    && i < |s.tasks|
    && (s.tasks[i].Embedding? || s.tasks[i].Writing? || (s.tasks[i].Waiting? && s.permits > 0 && IsServed(plan, s.tasks, i)))
  }

  lemma {:induction false} FirstWaiting(tasks: seq<Task>) returns (i: nat)
    requires exists j :: 0 <= j < |tasks| && tasks[j].Waiting?
    ensures i < |tasks| && tasks[i].Waiting? && forall j :: 0 <= j < i ==> !tasks[j].Waiting?
  {
    i := 0;
    while !tasks[i].Waiting?
      invariant i < |tasks| && forall j :: 0 <= j < i ==> !tasks[j].Waiting?
      decreases |tasks| - i
    {
      i := i + 1;
    }
  }

  lemma SomeCanMove(plan: Plan, base: Store, s: State) returns (i: nat)
    requires plan.Valid() && Inv(plan, base, s) && s.stage.Running? && NoneBroken(s.tasks) && !AllFinished(s.tasks)
    ensures CanMove(plan, s, i)
  {
    hide StoreOk, Encoded, Batches, Stored, IsEnsured, Holders;
    if j: nat :| j < |s.tasks| && Holding(s.tasks[j]) {
      i := j;
    } else {
      NoHoldersNoneHolding(s.tasks);
      var j: nat :| j < |s.tasks| && !s.tasks[j].Finished?;
      assert s.tasks[j].Waiting?;
      i := FirstWaiting(s.tasks);
    }
  }

  /** The step a task takes unless its encoding raises. */
  lemma MoveOn(plan: Plan, base: Store, s: State, i: nat) returns (t: State)
    requires plan.Valid() && Inv(plan, base, s) && s.stage.Running? && CanMove(plan, s, i)
    ensures TaskStep(plan, s, t, i) && t.stage == s.stage && |t.tasks| == |s.tasks| && t.tasks == s.tasks[i := t.tasks[i]]
    ensures t.tasks[i] != Broken(EncoderRaised)
    ensures Writable(plan, base) ==>
              match s.tasks[i]
              case Waiting => t.tasks[i].Embedding?
              case Embedding => t.tasks[i].Writing?
              case Writing(_) => t.tasks[i].Finished? && t.log == s.log + RecordsOfBatch(plan, i + 1)
              case _ => true
    ensures !s.tasks[i].Writing? ==> t.log == s.log
  {
    hide Put, Batches, RecordsOfBatch, Encoded, Upsert, Written;
    match s.tasks[i]
    case Waiting =>
      t := s.(tasks := s.tasks[i := Embedding], permits := s.permits - 1);
    case Embedding =>
      var encoded := Encoded(plan, i + 1);
      t := if encoded.Some? then s.(tasks := s.tasks[i := Writing(encoded.value)])
           else s.(tasks := s.tasks[i := Broken(RecordsRefused)], permits := s.permits + 1);
    case Writing(records) =>
      var (store, accepted) := Upsert(s.store, plan.collection, records);
      var outcome := if accepted.Ok? then Finished(accepted.value) else Broken(StoreRefused(accepted.error));
      t := s.(store := store, log := s.log + Written(s.store, plan.collection, records),
              tasks := s.tasks[i := outcome], permits := s.permits + 1);
      assert TaskOk(plan, s.log, s.tasks, i);
      WrittenIsBatch(plan, i + 1);
      UpsertStep(plan, base, s, i + 1);
      if Writable(plan, base) { BatchIsAccepted(plan, base, s.store, i + 1); }
  }

  lemma RunningGoesOn(plan: Plan, base: Store, s: State) returns (t: State)
    requires plan.Valid() && Inv(plan, base, s) && s.stage.Running?
    ensures Next(plan, s, t) && !EncoderFaults(s, t)
    ensures NoneBroken(s.tasks) ==> !Interrupted(t.stage)
  {
    hide StoreOk, TaskStep, Writable, FirstBatchStep, TasksOk;
    if AllFinished(s.tasks) {
      t := s.(stage := Succeeded(s.firstAccepted + Accepted(s.tasks)));
    } else if i: nat :| i < |s.tasks| && s.tasks[i].Broken? {
      t := s.(stage := Draining(s.tasks[i].error));
    } else {
      var i := SomeCanMove(plan, base, s);
      t := MoveOn(plan, base, s, i);
    }
  }

  // ---------------------------------------------------------------- when a run can succeed

  ghost function FirstWidth(plan: Plan): nat
    requires plan.Valid()
  {
    var records := RecordsOfBatch(plan, 0);
    if records == [] then 0 else |records[0].vector|
  }

  /** Every batch becomes records, all as wide as the first and as the collection, if it exists. */
  ghost predicate Writable(plan: Plan, base: Store)
    requires plan.Valid()
  {
    && AllEncoded(plan)
    && (forall i :: 0 <= i < BatchCount(plan) ==> AllWide(RecordsOfBatch(plan, i), FirstWidth(plan)))
    && 1 <= FirstWidth(plan)
    && (plan.collection in base.dimensions ==> base.dimensions[plan.collection] == FirstWidth(plan))
  }

  /** Nothing has gone wrong so far. */
  ghost predicate Healthy(base: Store, s: State) {
    && !s.stage.Draining? && !s.stage.Failed?
    && (s.stage.EncodingFirst? || s.stage.Ensuring? ==> s.store == base)
    && NoneBroken(s.tasks)
  }

  lemma BatchIsAccepted(plan: Plan, base: Store, store: Store, i: nat)
    requires plan.Valid() && Writable(plan, base) && i < BatchCount(plan)
    requires IsEnsured(plan, store)
    ensures Upsert(store, plan.collection, RecordsOfBatch(plan, i)).1.Ok?
  {
    hide Put;
    UpsertPutsPrefix(store.collections[plan.collection], store.dimensions[plan.collection], RecordsOfBatch(plan, i));
  }

  lemma FirstBatchGoesWell(plan: Plan, base: Store, s: State) returns (t: State)
    requires plan.Valid() && Inv(plan, base, s) && Writable(plan, base) && Healthy(base, s)
    requires s.stage.EncodingFirst? || s.stage.Ensuring? || s.stage.WritingFirst?
    ensures Next(plan, s, t) && Healthy(base, t) && forall i :: 0 <= i < |t.tasks| ==> t.tasks[i].Waiting?
  {
    hide Put, Holders, Encoded, Batches, AllWide, StoreOk;
    assert Encoded(plan, 0) == Some(RecordsOfBatch(plan, 0));
    if s.stage.EncodingFirst? {
      t := s.(stage := Ensuring(Encoded(plan, 0).value));
      assert FirstBatchStep(plan, s, t);
    } else if s.stage.Ensuring? {
      var (store, error) := Ensure(s.store, plan.collection, FirstWidth(plan));
      t := s.(store := store, stage := WritingFirst(s.stage.first));
      assert FirstBatchStep(plan, s, t);
    } else {
      var (store, accepted) := Upsert(s.store, plan.collection, s.stage.first);
      BatchIsAccepted(plan, base, s.store, 0);
      var log := s.log + Written(s.store, plan.collection, s.stage.first);
      t := if BatchCount(plan) == 1 then
             s.(store := store, log := log, firstAccepted := accepted.value, stage := Succeeded(accepted.value))
           else s.(store := store, log := log, firstAccepted := accepted.value, stage := Running,
                   tasks := seq(BatchCount(plan) - 1, _ => Waiting));
      assert FirstBatchStep(plan, s, t);
    }
  }

  lemma RunningGoesWell(plan: Plan, base: Store, s: State) returns (t: State)
    requires plan.Valid() && Inv(plan, base, s) && Writable(plan, base) && Healthy(base, s) && s.stage.Running?
    ensures Next(plan, s, t) && Healthy(base, t)
  {
    hide StoreOk, TaskStep, Writable, FirstBatchStep, TasksOk;
    if AllFinished(s.tasks) {
      t := s.(stage := Succeeded(s.firstAccepted + Accepted(s.tasks)));
    } else {
      var i := SomeCanMove(plan, base, s);
      t := MoveOn(plan, base, s, i);
    }
  }

  /** A healthy run can be continued to success. */
  lemma {:induction false} CanSucceed(plan: Plan, base: Store, run: seq<State>) returns (full: seq<State>)
    requires plan.Valid() && WellFormed(base) && Writable(plan, base)
    requires IsRun(plan, base, run) && Healthy(base, run[|run| - 1])
    ensures IsRun(plan, base, full) && full[|full| - 1].stage.Succeeded?
    decreases Fuel(plan, run[|run| - 1])
  {
    hide Next, Inv, Writable, Init, Fuel;
    var s := run[|run| - 1];
    full := run;
    if !s.stage.Succeeded? {
      RunKeepsInv(plan, base, run);
      var t: State;
      if s.stage.Running? { t := RunningGoesWell(plan, base, s); } else { t := FirstBatchGoesWell(plan, base, s); }
      RunsGrow(plan, base, run, t);
      assert (run + [t])[|run|] == t;
      RunKeepsInv(plan, base, run + [t]);
      FewTasks(plan, base, t);
      StepUsesFuel(plan, base, s, t);
      full := CanSucceed(plan, base, run + [t]);
    }
  }

  lemma FewTasks(plan: Plan, base: Store, s: State)
    requires plan.Valid() && Inv(plan, base, s)
    ensures |s.tasks| < BatchCount(plan)
  {}

  /** Success needs what `Writable` says. */
  lemma SuccessNeedsWritable(plan: Plan, base: Store, run: seq<State>)
    requires plan.Valid() && WellFormed(base)
    requires IsRun(plan, base, run) && run[|run| - 1].stage.Succeeded?
    ensures Writable(plan, base)
  {
    hide Put, Flatten, Batches, Holders, Accepted, Init, Next, AllRecords;
    var s := run[|run| - 1];
    RunKeepsInv(plan, base, run);
    LogIsComplete(plan, base, s);
    forall i | 0 <= i < BatchCount(plan) ensures AllWide(RecordsOfBatch(plan, i), s.store.dimensions[plan.collection]) {
      forall r | r in RecordsOfBatch(plan, i) ensures r in s.log { assert Intended(plan, r); }
    }
  }

  // ---------------------------------------------------------------- in terms of chunks and vectors

  /** The width of the vector of the first chunk. */
  ghost function Width(plan: Plan): nat
    requires plan.Valid()
  {
    if Vectors(plan, 0) == [] then 0 else |Vectors(plan, 0)[0]|
  }

  /** One vector of a width for each chunk of the batch. */
  ghost predicate Fitting(plan: Plan, i: nat, width: nat)
    requires plan.Valid() && i < BatchCount(plan)
  {
    |Vectors(plan, i)| == |Batch(plan, i)| && forall v :: v in Vectors(plan, i) ==> |v| == width
  }

  /**
   * No chunk has a blank identifier or source, and each gets a vector, all of one positive width that an
   * existing collection shares.
   */
  ghost predicate Acceptable(plan: Plan, base: Store)
    requires plan.Valid()
  {
    && (forall chunk :: chunk in plan.chunks ==> !IsBlank(chunk.id) && !IsBlank(chunk.source))
    && (forall i :: 0 <= i < BatchCount(plan) ==> Fitting(plan, i, Width(plan)))
    && 1 <= Width(plan)
    && (plan.collection in base.dimensions ==> base.dimensions[plan.collection] == Width(plan))
  }

  lemma BatchIsFitting(plan: Plan, i: nat, width: nat)
    requires plan.Valid() && i < BatchCount(plan) && 1 <= width
    ensures Encoded(plan, i).Some? && AllWide(RecordsOfBatch(plan, i), width) <==>
            Fitting(plan, i, width) && forall chunk :: chunk in Batch(plan, i) ==> IsNamed(chunk)
  {
    hide Batches, Texts, IsNamed, Strip;
    var batch, vectors := Batch(plan, i), Vectors(plan, i);
    if Encoded(plan, i).Some? {
      assert forall j :: 0 <= j < |batch| ==> |RecordsOfBatch(plan, i)[j].vector| == |vectors[j]|;
      assert forall j :: 0 <= j < |batch| ==> RecordsOfBatch(plan, i)[j] in RecordsOfBatch(plan, i);
    }
  }

  lemma FirstWidthIsWidth(plan: Plan)
    requires plan.Valid() && Encoded(plan, 0).Some?
    ensures FirstWidth(plan) == Width(plan)
  {
    hide Batches, Texts;
  }

  lemma ChunksAreBatched(plan: Plan, chunk: Chunk)
    requires plan.Valid()
    ensures chunk in plan.chunks <==> exists i :: 0 <= i < BatchCount(plan) && chunk in Batch(plan, i)
  {
    hide Batches;
    var batches := Batches(plan.chunks, plan.batchSize);
    BatchesAreFull(plan.chunks, plan.batchSize);
    FlattenMembers(batches, chunk);
    assert forall i :: 0 <= i < |batches| ==> Batch(plan, i) == batches[i];
  }

  lemma WritableIffAcceptable(plan: Plan, base: Store)
    requires plan.Valid()
    ensures Writable(plan, base) <==> Acceptable(plan, base)
  {
    hide Batches, Encoded, RecordsOfBatch, Vectors, IsNamed, IsBlank, FirstWidth, Width, AllWide, Fitting;
    forall chunk ensures chunk in plan.chunks <==> exists i :: 0 <= i < BatchCount(plan) && chunk in Batch(plan, i) {
      ChunksAreBatched(plan, chunk);
    }
    forall chunk ensures IsNamed(chunk) <==> !IsBlank(chunk.id) && !IsBlank(chunk.source) { NamedIffNotBlank(chunk); }
    if Writable(plan, base) || Acceptable(plan, base) {
      var width := if Writable(plan, base) then FirstWidth(plan) else Width(plan);
      forall i | 0 <= i < BatchCount(plan)
        ensures Encoded(plan, i).Some? && AllWide(RecordsOfBatch(plan, i), width) <==>
                Fitting(plan, i, width) && forall chunk :: chunk in Batch(plan, i) ==> IsNamed(chunk)
      {
        BatchIsFitting(plan, i, width);
      }
      FirstWidthIsWidth(plan);
    }
  }

  /**
   * An ingestion can succeed exactly when no chunk has a blank identifier or source and each gets a
   * vector, all of one positive width that an existing collection shares.
   */
  lemma {:induction false} SuccessIsPossibleIff(plan: Plan, base: Store)
    requires plan.Valid() && WellFormed(base)
    ensures (exists run: seq<State> :: IsRun(plan, base, run) && run[|run| - 1].stage.Succeeded?) <==> Acceptable(plan, base)
  {
    hide Writable, Acceptable, Next;
    WritableIffAcceptable(plan, base);
    if Writable(plan, base) {
      var start := State(EncodingFirst, base, [], plan.maxInFlight, 0, []);
      assert IsRun(plan, base, [start]);
      var full := CanSucceed(plan, base, [start]);
    }
    if run: seq<State> :| IsRun(plan, base, run) && run[|run| - 1].stage.Succeeded? { SuccessNeedsWritable(plan, base, run); }
  }

  // ---------------------------------------------------------------- what may go wrong, at any time

  /** A run that neither ended nor is draining may be cancelled: what is stored stays, and tasks are drained first. */
  lemma {:induction false} RunsCanBeCancelled(plan: Plan, base: Store, run: seq<State>) returns (t: State)
    requires plan.Valid() && IsRun(plan, base, run)
    requires var stage := run[|run| - 1].stage; !stage.Succeeded? && !stage.Failed? && !stage.Draining?
    ensures IsRun(plan, base, run + [t])
    ensures var s := run[|run| - 1];
            t == s.(stage := if s.stage.Running? then Draining(CallerCancelled) else Failed(CallerCancelled))
  {
    hide FirstBatchStep, TaskStep;
    var s := run[|run| - 1];
    t := s.(stage := if s.stage.Running? then Draining(CallerCancelled) else Failed(CallerCancelled));
    assert GatherStep(s, t);
    RunsGrow(plan, base, run, t);
  }

  /** Every encoding may raise: the first ends the run, a later one breaks its task and gives its permit back. */
  lemma {:induction false} EncodersCanRaise(plan: Plan, base: Store, run: seq<State>, i: nat) returns (t: State)
    requires plan.Valid() && WellFormed(base) && IsRun(plan, base, run)
    requires var s := run[|run| - 1]; s.stage.EncodingFirst? || (!s.stage.Failed? && i < |s.tasks| && s.tasks[i].Embedding?)
    ensures IsRun(plan, base, run + [t])
    ensures var s := run[|run| - 1];
            if s.stage.EncodingFirst? then t == s.(stage := Failed(EncoderRaised))
            else i < |s.tasks| && t == s.(tasks := s.tasks[i := Broken(EncoderRaised)], permits := s.permits + 1)
  {
    hide GatherStep, StoreOk, TaskOk, Stored, IsEnsured;
    var s := run[|run| - 1];
    RunKeepsInv(plan, base, run);
    if s.stage.EncodingFirst? {
      t := s.(stage := Failed(EncoderRaised));
      assert FirstBatchStep(plan, s, t);
    } else {
      t := s.(tasks := s.tasks[i := Broken(EncoderRaised)], permits := s.permits + 1);
      assert TaskStep(plan, s, t, i);
    }
    RunsGrow(plan, base, run, t);
  }

  /** While draining, every task that is not over may be cancelled where it stands. */
  lemma {:induction false} DrainedTasksCanBeCancelled(plan: Plan, base: Store, run: seq<State>, i: nat) returns (t: State)
    requires plan.Valid() && WellFormed(base) && IsRun(plan, base, run)
    requires var s := run[|run| - 1]; s.stage.Draining? && i < |s.tasks| && !Over(s.tasks[i])
    ensures IsRun(plan, base, run + [t])
    ensures var s := run[|run| - 1];
            && i < |s.tasks|
            && t == s.(tasks := s.tasks[i := Cancelled], permits := s.permits + if Holding(s.tasks[i]) then 1 else 0)
  {
    hide GatherStep, FirstBatchStep, StoreOk, TaskOk, Stored, IsEnsured;
    var s := run[|run| - 1];
    RunKeepsInv(plan, base, run);
    t := s.(tasks := s.tasks[i := Cancelled], permits := s.permits + if Holding(s.tasks[i]) then 1 else 0);
    assert TaskStep(plan, s, t, i);
    RunsGrow(plan, base, run, t);
  }
}
