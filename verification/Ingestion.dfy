/**
 The ingestion coordinator writing into the reference store, as a step system.

 A run encodes the first batch, ensures the collection, writes the first batch, and then lets one
 task per remaining batch acquire a permit, encode and write, in any order the scheduler likes; a fair
 semaphore gives its permits in turn.
 Encoders and the caller are adversaries: any encoding may raise, and the caller may cancel at any
 time. A failure starts a drain, in which tasks may still finish or be cancelled. A store call is
 one step, because the reference store never suspends inside one.
 */
module Ingestion {
  import opened Basics
  import opened Text
  import opened Upserts
  import opened VectorStore

  datatype Chunk = Chunk(id: string, text: string, metadata: string, source: string)

  /**
   * What one ingestion is given. `fair` says whether the semaphore serves waiting tasks in turn; `encode`
   * is what the encoder answers for each batch, unless it raises.
   */
  datatype Plan = Plan(
    collection: string,
    batchSize: nat,
    maxInFlight: nat,
    chunks: seq<Chunk>,
    fair: bool,
    encode: (nat, seq<string>) -> seq<seq<real>>)
  {
    ghost predicate Valid() {
      1 <= batchSize && 1 <= maxInFlight && chunks != []
    }
  }

  // ---------------------------------------------------------------- batches and records

  function Batches(chunks: seq<Chunk>, size: nat): seq<seq<Chunk>>
    requires 1 <= size
    decreases |chunks|
  {
    if chunks == [] then []
    else if |chunks| <= size then [chunks]
    else [chunks[..size]] + Batches(chunks[size..], size)
  }

  function Texts(batch: seq<Chunk>): seq<string> {
    seq(|batch|, i requires 0 <= i < |batch| => batch[i].text)
  }

  /** A record strips the identifier and the source of its chunk. */
  function ToRecord(chunk: Chunk, vector: seq<real>): Record {
    Record(Strip(chunk.id), chunk.text, vector, chunk.metadata, Some(Strip(chunk.source)))
  }

  /** Something of the chunk is left to name its record by. */
  predicate IsNamed(chunk: Chunk) {
    Strip(chunk.id) != "" && Strip(chunk.source) != ""
  }

  lemma NamedIffNotBlank(chunk: Chunk)
    ensures IsNamed(chunk) <==> !IsBlank(chunk.id) && !IsBlank(chunk.source)
  {
    var _, _ := StripIsBetween(chunk.id);
    var _, _ := StripIsBetween(chunk.source);
  }

  /** One record per chunk, unless the encoder returned the wrong number of vectors, or a record is refused. */
  function EncodeBatch(batch: seq<Chunk>, vectors: seq<seq<real>>): Option<seq<Record>> {
    if |vectors| != |batch| || [] in vectors || (exists chunk :: chunk in batch && !IsNamed(chunk)) then None
    else Some(seq(|batch|, i requires 0 <= i < |batch| => ToRecord(batch[i], vectors[i])))
  }

  ghost function Batch(plan: Plan, i: nat): seq<Chunk>
    requires plan.Valid() && i < |Batches(plan.chunks, plan.batchSize)|
  {
    Batches(plan.chunks, plan.batchSize)[i]
  }

  ghost function BatchCount(plan: Plan): (count: nat)
    requires plan.Valid()
    ensures count > 0
  {
    |Batches(plan.chunks, plan.batchSize)|
  }

  ghost function Vectors(plan: Plan, i: nat): seq<seq<real>>
    requires plan.Valid() && i < BatchCount(plan)
  {
    plan.encode(i, Texts(Batch(plan, i)))
  }

  ghost function Encoded(plan: Plan, i: nat): Option<seq<Record>>
    requires plan.Valid() && i < BatchCount(plan)
  {
    EncodeBatch(Batch(plan, i), Vectors(plan, i))
  }

  ghost function RecordsOfBatch(plan: Plan, i: nat): seq<Record>
    requires plan.Valid() && i < BatchCount(plan)
  {
    match Encoded(plan, i)
    case Some(records) => records
    case None => []
  }

  /** Every record the plan means to store, in chunk order. */
  ghost function AllRecords(plan: Plan, count: nat): seq<Record>
    requires plan.Valid() && count <= BatchCount(plan)
  {
    if count == 0 then [] else AllRecords(plan, count - 1) + RecordsOfBatch(plan, count - 1)
  }

  ghost predicate Intended(plan: Plan, r: Record)
    requires plan.Valid()
  {
    exists i :: 0 <= i < BatchCount(plan) && r in RecordsOfBatch(plan, i)
  }

  // ---------------------------------------------------------------- the step system

  datatype Failure = EncoderRaised | RecordsRefused | StoreRefused(StoreError) | CallerCancelled

  datatype Task = Waiting | Embedding | Writing(records: seq<Record>) | Finished(accepted: nat) | Broken(error: Failure) | Cancelled

  datatype Stage =
    | EncodingFirst
    | Ensuring(first: seq<Record>)
    | WritingFirst(first: seq<Record>)
    | Running
    | Draining(error: Failure)
    | Succeeded(total: nat)
    | Failed(error: Failure)

  /** `log` lists the records put into the store so far, in the order they were put. */
  datatype State = State(stage: Stage, store: Store, tasks: seq<Task>, permits: nat, firstAccepted: nat, log: seq<Record>)

  predicate Over(task: Task) {
    task.Finished? || task.Broken? || task.Cancelled?
  }

  predicate Holding(task: Task) {
    task.Embedding? || task.Writing?
  }

  ghost predicate AllOver(tasks: seq<Task>) {
    forall i :: 0 <= i < |tasks| ==> Over(tasks[i])
  }

  ghost predicate AllFinished(tasks: seq<Task>) {
    forall i :: 0 <= i < |tasks| ==> tasks[i].Finished?
  }

  function Holders(tasks: seq<Task>): nat {
    if tasks == [] then 0 else Holders(tasks[..|tasks| - 1]) + if Holding(tasks[|tasks| - 1]) then 1 else 0
  }

  function Accepted(tasks: seq<Task>): nat {
    if tasks == [] then 0
    else Accepted(tasks[..|tasks| - 1])
         + if tasks[|tasks| - 1].Finished? then tasks[|tasks| - 1].accepted else 0
  }

  ghost predicate Init(plan: Plan, base: Store, s: State) {
    s == State(EncodingFirst, base, [], plan.maxInFlight, 0, [])
  }

  ghost predicate FirstBatchStep(plan: Plan, s: State, t: State)
    requires plan.Valid()
  {
    match s.stage
    case EncodingFirst =>
      || t == s.(stage := Failed(EncoderRaised))
      || t == s.(stage := if Encoded(plan, 0).Some? then Ensuring(Encoded(plan, 0).value) else Failed(RecordsRefused))
    case Ensuring(first) =>
      first != [] &&
      var (store, error) := Ensure(s.store, plan.collection, |first[0].vector|);
      t == s.(store := store, stage := if error.None? then WritingFirst(first) else Failed(StoreRefused(error.value)))
    case WritingFirst(first) =>
      var (store, accepted) := Upsert(s.store, plan.collection, first);
      var log := s.log + Written(s.store, plan.collection, first);
      (match accepted
       case Err(error) => t == s.(store := store, log := log, stage := Failed(StoreRefused(error)))
       case Ok(n) =>
         if BatchCount(plan) == 1 then t == s.(store := store, log := log, firstAccepted := n, stage := Succeeded(n))
         else t == s.(store := store, log := log, firstAccepted := n, stage := Running,
                      tasks := seq(BatchCount(plan) - 1, _ => Waiting)))
    case _ => false
  }

  /** Whether a free permit can go to a waiting task: a fair semaphore has served all earlier ones. */
  ghost predicate IsServed(plan: Plan, tasks: seq<Task>, i: nat) {
    plan.fair ==> forall j :: 0 <= j < i < |tasks| ==> !tasks[j].Waiting?
  }

  ghost predicate TaskStep(plan: Plan, s: State, t: State, i: nat)
    requires plan.Valid()
  {
    && (s.stage.Running? || s.stage.Draining?) && i < |s.tasks| && i + 1 < BatchCount(plan)
    && match s.tasks[i]
       case Waiting =>
         || (s.permits > 0 && IsServed(plan, s.tasks, i) && t == s.(tasks := s.tasks[i := Embedding], permits := s.permits - 1))
         || (s.stage.Draining? && t == s.(tasks := s.tasks[i := Cancelled]))
       case Embedding =>
         || t == s.(tasks := s.tasks[i := Broken(EncoderRaised)], permits := s.permits + 1)
         || (s.stage.Draining? && t == s.(tasks := s.tasks[i := Cancelled], permits := s.permits + 1))
         || (match Encoded(plan, i + 1)
             case Some(records) => t == s.(tasks := s.tasks[i := Writing(records)])
             case None => t == s.(tasks := s.tasks[i := Broken(RecordsRefused)], permits := s.permits + 1))
       case Writing(records) =>
         || (s.stage.Draining? && t == s.(tasks := s.tasks[i := Cancelled], permits := s.permits + 1))
         || (var (store, accepted) := Upsert(s.store, plan.collection, records);
             var outcome := if accepted.Ok? then Finished(accepted.value) else Broken(StoreRefused(accepted.error));
             t == s.(store := store, log := s.log + Written(s.store, plan.collection, records),
                     tasks := s.tasks[i := outcome], permits := s.permits + 1))
       case _ => false
  }

  /** The gathering task notices a broken task, is cancelled, or has seen every task end. */
  ghost predicate GatherStep(s: State, t: State) {
    match s.stage
    case Running =>
      || t == s.(stage := Draining(CallerCancelled))
      || (exists i :: 0 <= i < |s.tasks| && s.tasks[i].Broken? && t == s.(stage := Draining(s.tasks[i].error)))
      || (AllFinished(s.tasks) && t == s.(stage := Succeeded(s.firstAccepted + Accepted(s.tasks))))
    case Draining(error) => AllOver(s.tasks) && t == s.(stage := Failed(error))
    case Succeeded(_) => false
    case Failed(_) => false
    case _ => t == s.(stage := Failed(CallerCancelled))
  }

  ghost predicate Next(plan: Plan, s: State, t: State)
    requires plan.Valid()
  {
    FirstBatchStep(plan, s, t) || GatherStep(s, t) || exists i: nat :: TaskStep(plan, s, t, i)
  }

  ghost predicate StepAt(plan: Plan, run: seq<State>, i: nat)
    requires plan.Valid() && i + 1 < |run|
  {
    Next(plan, run[i], run[i + 1])
  }

  ghost predicate IsRun(plan: Plan, base: Store, run: seq<State>)
    requires plan.Valid()
  {
    && run != [] && Init(plan, base, run[0])
    && forall i :: 0 <= i < |run| - 1 ==> StepAt(plan, run, i)
  }

  /** A run without its last state is a run, and ends in a state before the last. */
  lemma RunsShrink(plan: Plan, base: Store, run: seq<State>)
    requires plan.Valid() && IsRun(plan, base, run) && |run| > 1
    ensures IsRun(plan, base, run[..|run| - 1]) && Next(plan, run[|run| - 2], run[|run| - 1])
  {
    hide Next, Init;
    assert StepAt(plan, run, |run| - 2);
    var before := run[..|run| - 1];
    forall i | 0 <= i < |before| - 1 ensures StepAt(plan, before, i) { assert StepAt(plan, run, i); }
  }

  lemma RunsGrow(plan: Plan, base: Store, run: seq<State>, t: State)
    requires plan.Valid() && IsRun(plan, base, run) && Next(plan, run[|run| - 1], t)
    ensures IsRun(plan, base, run + [t])
  {
    hide Next, Init;
    var after := run + [t];
    forall i | 0 <= i < |after| - 1 ensures StepAt(plan, after, i) {
      if i < |run| - 1 { assert StepAt(plan, run, i); }
    }
  }

  // ---------------------------------------------------------------- what every step keeps

  ghost predicate TaskOk(plan: Plan, log: seq<Record>, tasks: seq<Task>, i: nat)
    requires plan.Valid() && i < |tasks| && i + 1 < BatchCount(plan)
  {
    match tasks[i]
    case Writing(records) => Encoded(plan, i + 1) == Some(records)
    case Finished(n) => Stored(plan, log, i + 1) && n == |Batch(plan, i + 1)|
    case _ => true
  }

  /** The batch was encoded and every one of its records has been put. */
  ghost predicate Stored(plan: Plan, log: seq<Record>, i: nat)
    requires plan.Valid() && i < BatchCount(plan)
  {
    && Encoded(plan, i).Some?
    && forall r :: r in RecordsOfBatch(plan, i) ==> r in log
  }

  /** The collection exists and is as wide as the first batch. */
  ghost predicate IsEnsured(plan: Plan, store: Store)
    requires plan.Valid()
  {
    && Encoded(plan, 0).Some? && Encoded(plan, 0).value != []
    && plan.collection in store.collections && plan.collection in store.dimensions
    && store.dimensions[plan.collection] == |Encoded(plan, 0).value[0].vector|
  }

  /** The store is the old one with the logged records put, in an ensured collection. */
  ghost predicate StoreOk(plan: Plan, base: Store, s: State)
    requires plan.Valid()
  {
    var name := plan.collection;
    && WellFormed(s.store)
    && s.store.collections - {name} == base.collections - {name}
    && s.store.dimensions - {name} == base.dimensions - {name}
    && (name in base.dimensions ==> name in s.store.dimensions && s.store.dimensions[name] == base.dimensions[name])
    && RecordsOf(s.store, name) == Put(RecordsOf(base, name), s.log)
    && (forall r :: r in s.log ==> Intended(plan, r))
    && (s.log != [] ==> IsEnsured(plan, s.store) && AllWide(s.log, s.store.dimensions[name]))
    && (s.stage.EncodingFirst? || s.stage.Ensuring? || s.stage.WritingFirst? ==> s.log == [])
  }

  ghost predicate StageOk(plan: Plan, s: State)
    requires plan.Valid()
  {
    match s.stage
    case EncodingFirst => s.tasks == []
    case Ensuring(first) => s.tasks == [] && Encoded(plan, 0) == Some(first)
    case WritingFirst(first) => s.tasks == [] && Encoded(plan, 0) == Some(first) && IsEnsured(plan, s.store)
    case Running => s.tasks != [] && forall i :: 0 <= i < |s.tasks| ==> !s.tasks[i].Cancelled?
    case Draining(_) => s.tasks != []
    case Succeeded(total) => AllFinished(s.tasks) && total == s.firstAccepted + Accepted(s.tasks)
                             && |s.tasks| == BatchCount(plan) - 1
    case Failed(_) => AllOver(s.tasks)
  }

  ghost predicate TasksOk(plan: Plan, s: State)
    requires plan.Valid()
  {
    && s.permits + Holders(s.tasks) == plan.maxInFlight
    && (s.tasks != [] ==> |s.tasks| == BatchCount(plan) - 1)
    && (forall i :: 0 <= i < |s.tasks| && i + 1 < BatchCount(plan) ==> TaskOk(plan, s.log, s.tasks, i))
    && (s.tasks != [] || s.stage.Succeeded? ==>
          Stored(plan, s.log, 0) && s.firstAccepted == |Batch(plan, 0)| && IsEnsured(plan, s.store))
  }

  ghost predicate Inv(plan: Plan, base: Store, s: State)
    requires plan.Valid()
  {
    StoreOk(plan, base, s) && StageOk(plan, s) && TasksOk(plan, s)
  }

  lemma {:induction false} BatchesAreFull(chunks: seq<Chunk>, size: nat)
    requires 1 <= size
    ensures Flatten(Batches(chunks, size)) == chunks
    ensures forall i :: 0 <= i < |Batches(chunks, size)| ==> 1 <= |Batches(chunks, size)[i]| <= size
    ensures chunks != [] ==> |Batches(chunks, size)| > 0
    decreases |chunks|
  {
    if |chunks| > size {
      BatchesAreFull(chunks[size..], size);
      FlattenCons(chunks[..size], Batches(chunks[size..], size));
      assert chunks == chunks[..size] + chunks[size..];
    } else if chunks != [] {
      assert [chunks][..0] == [];
    }
  }

  lemma {:induction false} FlattenCons<T>(head: seq<T>, parts: seq<seq<T>>)
    ensures Flatten([head] + parts) == head + Flatten(parts)
  {
    if parts == [] {
      assert [head] + parts == [head] && [head][..0] == [];
    } else {
      var init := parts[..|parts| - 1];
      FlattenCons(head, init);
      assert ([head] + parts)[..|parts|] == [head] + init;
    }
  }

  lemma {:induction false} HoldersUpdate(tasks: seq<Task>, i: nat, task: Task)
    requires i < |tasks|
    ensures Holders(tasks[i := task]) ==
            Holders(tasks) - (if Holding(tasks[i]) then 1 else 0) + if Holding(task) then 1 else 0
  {
    var init := tasks[..|tasks| - 1];
    if i < |init| {
      HoldersUpdate(init, i, task);
      assert tasks[i := task][..|tasks| - 1] == init[i := task];
    } else {
      assert tasks[i := task][..|tasks| - 1] == init;
    }
  }

  lemma {:induction false} WaitingHoldNothing(n: nat)
    ensures Holders(seq(n, _ => Waiting)) == 0
  {
    if n > 0 {
      assert seq(n, _ => Waiting)[..n - 1] == seq(n - 1, _ => Waiting);
      WaitingHoldNothing(n - 1);
    }
  }

  /** What one upsert of an encoded batch does to the collection and the log. */
  lemma UpsertStep(plan: Plan, base: Store, s: State, i: nat)
    requires plan.Valid() && StoreOk(plan, base, s) && i < BatchCount(plan) && Encoded(plan, i).Some?
    requires IsEnsured(plan, s.store)
    ensures var records := Encoded(plan, i).value;
            var (store, accepted) := Upsert(s.store, plan.collection, records);
            var log := s.log + Written(s.store, plan.collection, records);
            && RecordsOf(store, plan.collection) == Put(RecordsOf(base, plan.collection), log)
            && (forall r :: r in log ==> Intended(plan, r)) && AllWide(log, s.store.dimensions[plan.collection])
            && WellFormed(store) && store.dimensions == s.store.dimensions
            && store.collections - {plan.collection} == s.store.collections - {plan.collection}
            && IsEnsured(plan, store)
            && (accepted.Ok? ==> accepted.value == |Batch(plan, i)| && Stored(plan, log, i) && log == s.log + records)
  {
    var records, name := Encoded(plan, i).value, plan.collection;
    UpsertPutsPrefix(s.store.collections[name], s.store.dimensions[name], records);
    var written := Written(s.store, name, records);
    PutConcat(RecordsOf(base, name), s.log, written);
    ApplyKeepsWellFormed(s.store, UpsertCommand(name, records));
    forall r | r in written ensures Intended(plan, r) {
      assert r in RecordsOfBatch(plan, i);
    }
  }

  lemma FirstBatchKeepsInv(plan: Plan, base: Store, s: State, t: State)
    requires plan.Valid() && WellFormed(base) && Inv(plan, base, s)
    requires FirstBatchStep(plan, s, t)
    ensures Inv(plan, base, t)
  {
    BatchesAreFull(plan.chunks, plan.batchSize);
    match s.stage
    case EncodingFirst =>
    case Ensuring(first) => EnsureKeepsInv(plan, base, s, t);
    case WritingFirst(first) => WriteFirstKeepsInv(plan, base, s, t);
  }

  lemma EnsureKeepsInv(plan: Plan, base: Store, s: State, t: State)
    requires plan.Valid() && Inv(plan, base, s)
    requires s.stage.Ensuring? && FirstBatchStep(plan, s, t)
    ensures Inv(plan, base, t)
  {
    ApplyKeepsWellFormed(s.store, EnsureCommand(plan.collection, |s.stage.first[0].vector|));
  }

  lemma WriteFirstKeepsInv(plan: Plan, base: Store, s: State, t: State)
    requires plan.Valid() && Inv(plan, base, s)
    requires s.stage.WritingFirst? && FirstBatchStep(plan, s, t)
    ensures Inv(plan, base, t)
  {
    hide Upsert, Written, StoreOk, IsEnsured, Encoded, Intended, Batches;
    WriteFirstKeepsStore(plan, base, s, t);
    UpsertStep(plan, base, s, 0);
    WaitingHoldNothing(BatchCount(plan) - 1);
  }

  lemma WriteFirstKeepsStore(plan: Plan, base: Store, s: State, t: State)
    requires plan.Valid() && Inv(plan, base, s)
    requires s.stage.WritingFirst? && FirstBatchStep(plan, s, t)
    ensures StoreOk(plan, base, t)
  {
    hide Upsert, Written, Put, Batches, TasksOk;
    UpsertStep(plan, base, s, 0);
  }

  lemma TaskKeepsTasks(plan: Plan, base: Store, s: State, t: State, i: nat)
    requires plan.Valid() && Inv(plan, base, s)
    requires TaskStep(plan, s, t, i)
    ensures TasksOk(plan, t)
  {
    hide Upsert, Written, Encoded, Batch, RecordsOfBatch, BatchCount, WellFormed, Holders, Put, Intended;
    HoldersUpdate(s.tasks, i, t.tasks[i]);
    assert TaskOk(plan, s.log, s.tasks, i);
    if s.tasks[i].Writing? {
      UpsertStep(plan, base, s, i + 1);
    }
    forall j | 0 <= j < |t.tasks| && j + 1 < BatchCount(plan) ensures TaskOk(plan, t.log, t.tasks, j) {
      assert TaskOk(plan, s.log, s.tasks, j);
    }
  }

  lemma TaskKeepsStore(plan: Plan, base: Store, s: State, t: State, i: nat)
    requires plan.Valid() && Inv(plan, base, s)
    requires TaskStep(plan, s, t, i)
    ensures StoreOk(plan, base, t)
  {
    hide Upsert, Written, Put, Holders, Batches, Encoded;
    assert TaskOk(plan, s.log, s.tasks, i);
    if s.tasks[i].Writing? {
      UpsertStep(plan, base, s, i + 1);
    }
  }

  lemma TaskKeepsInv(plan: Plan, base: Store, s: State, t: State, i: nat)
    requires plan.Valid() && Inv(plan, base, s)
    requires TaskStep(plan, s, t, i)
    ensures Inv(plan, base, t)
  {
    TaskKeepsTasks(plan, base, s, t, i);
    TaskKeepsStore(plan, base, s, t, i);
  }

  lemma GatherKeepsInv(plan: Plan, base: Store, s: State, t: State)
    requires plan.Valid() && Inv(plan, base, s)
    requires GatherStep(s, t)
    ensures Inv(plan, base, t)
  {
    forall j | 0 <= j < |t.tasks| && j + 1 < BatchCount(plan) ensures TaskOk(plan, t.log, t.tasks, j) {
      assert TaskOk(plan, s.log, s.tasks, j);
    }
  }

  lemma {:induction false} RunKeepsInv(plan: Plan, base: Store, run: seq<State>)
    requires plan.Valid() && WellFormed(base) && IsRun(plan, base, run)
    ensures Inv(plan, base, run[|run| - 1])
  {
    if |run| > 1 {
      var s, t := run[|run| - 2], run[|run| - 1];
      RunsShrink(plan, base, run);
      RunKeepsInv(plan, base, run[..|run| - 1]);
      if FirstBatchStep(plan, s, t) {
        FirstBatchKeepsInv(plan, base, s, t);
      } else if GatherStep(s, t) {
        GatherKeepsInv(plan, base, s, t);
      } else {
        var i: nat :| TaskStep(plan, s, t, i);
        TaskKeepsInv(plan, base, s, t, i);
      }
    }
  }
}
