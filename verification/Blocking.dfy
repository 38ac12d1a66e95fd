/**
 The bounded runner for blocking calls, as a protocol between an event loop, a semaphore and the
 worker threads of a private executor.

 A call waits for a permit, submits its function to the executor's queue and awaits the outcome. A
 deadline or a cancellation settles the call at once and gives its permit back, even while a worker
 still runs the function. Closing empties the queue. The order of the steps is up to an adversary.
 */
module Blocking {
  import opened Basics

  datatype Outcome<V> = Returned(value: V) | ClosedError | ExpiredError | Abandoned | QueueCancelled

  /** The awaiting side of a call: only `Awaiting` holds a permit. */
  datatype Await<V> = Acquiring | Awaiting | Settled(outcome: Outcome<V>)

  /** The executing side of a call. */
  datatype Work<V> = NotSubmitted | Queued | Running | Finished(value: V) | WorkCancelled

  datatype Call<V> = Call(awaiting: Await<V>, work: Work<V>)

  /** `queue` is the executor's first-in first-out queue, `workers` what each thread is running. */
  datatype State<V> = State(closed: bool, permits: nat, calls: seq<Call<V>>, queue: seq<nat>, workers: seq<Option<nat>>)

  ghost predicate Init<V(!new)>(max: nat, s: State<V>) {
    s == State(false, max, [], [], seq(max, _ => None))
  }

  predicate Holds<V>(call: Call<V>) {
    call.awaiting.Awaiting?
  }

  function Holders<V>(calls: seq<Call<V>>): nat {
    if calls == [] then 0 else Holders(calls[..|calls| - 1]) + if Holds(calls[|calls| - 1]) then 1 else 0
  }

  ghost function RunningCalls<V>(s: State<V>): set<nat> {
    set i | 0 <= i < |s.calls| && s.calls[i].work.Running?
  }

  /** Entering `run`: refused when closed or already past the deadline. */
  ghost predicate Begin<V(!new)>(s: State<V>, t: State<V>) {
    if s.closed then t == s.(calls := s.calls + [Call(Settled(ClosedError), NotSubmitted)])
    else
      || t == s.(calls := s.calls + [Call(Settled(ExpiredError), NotSubmitted)])
      || t == s.(calls := s.calls + [Call(Acquiring, NotSubmitted)])
  }

  /** Taking a permit and submitting; a shut-down executor refuses, and the permit is released. */
  ghost predicate Acquire<V(!new)>(s: State<V>, t: State<V>, i: nat) {
    && i < |s.calls| && s.calls[i].awaiting.Acquiring? && s.permits > 0
    && t == if s.closed then s.(calls := s.calls[i := Call(Settled(ClosedError), NotSubmitted)])
            else s.(calls := s.calls[i := Call(Awaiting, Queued)], permits := s.permits - 1, queue := s.queue + [i])
  }

  /** An idle worker takes the head of the queue; a function cancelled meanwhile is skipped. */
  ghost predicate Take<V(!new)>(s: State<V>, t: State<V>, w: nat) {
    && w < |s.workers| && s.workers[w].None? && s.queue != [] && s.queue[0] < |s.calls|
    && var i := s.queue[0];
       t == if s.calls[i].work.Queued? then
              s.(queue := s.queue[1..], workers := s.workers[w := Some(i)], calls := s.calls[i := s.calls[i].(work := Running)])
            else s.(queue := s.queue[1..])
  }

  /** A function ends, whether or not anyone still waits for it. */
  ghost predicate Finish<V(!new)>(s: State<V>, t: State<V>, w: nat, value: V) {
    && w < |s.workers| && s.workers[w].Some? && s.workers[w].value < |s.calls|
    && var i := s.workers[w].value;
       t == s.(workers := s.workers[w := None], calls := s.calls[i := s.calls[i].(work := Finished(value))])
  }

  /** The event loop hands a finished or cancelled function's outcome to the call that awaits it. */
  ghost predicate Deliver<V(!new)>(s: State<V>, t: State<V>, i: nat) {
    && i < |s.calls| && s.calls[i].awaiting.Awaiting?
    && match s.calls[i].work
       case Finished(v) => t == s.(calls := s.calls[i := s.calls[i].(awaiting := Settled(Returned(v)))], permits := s.permits + 1)
       case WorkCancelled => t == s.(calls := s.calls[i := s.calls[i].(awaiting := Settled(QueueCancelled))], permits := s.permits + 1)
       case _ => false
  }

  /** A deadline or a cancellation: a queued function is cancelled, a running one is left alone. */
  ghost predicate Abandon<V(!new)>(s: State<V>, t: State<V>, i: nat) {
    && i < |s.calls|
    && match s.calls[i].awaiting
       case Acquiring => t == s.(calls := s.calls[i := Call(Settled(Abandoned), s.calls[i].work)])
       case Awaiting =>
         t == s.(calls := s.calls[i := Call(Settled(Abandoned), Cancel(s.calls[i].work))], permits := s.permits + 1)
       case Settled(_) => false
  }

  function Cancel<V>(work: Work<V>): Work<V> {
    if work.Queued? then WorkCancelled else work
  }

  ghost predicate Close<V(!new)>(s: State<V>, t: State<V>) {
    t == if s.closed then s
         else s.(closed := true, queue := [],
                 calls := seq(|s.calls|, i requires 0 <= i < |s.calls| =>
                            if i in s.queue then s.calls[i].(work := Cancel(s.calls[i].work)) else s.calls[i]))
  }

  /** A step of the event loop on behalf of one call. */
  ghost predicate CallStep<V(!new)>(s: State<V>, t: State<V>, i: nat) {
    Acquire(s, t, i) || Deliver(s, t, i) || Abandon(s, t, i)
  }

  ghost predicate WorkerStep<V(!new)>(s: State<V>, t: State<V>, w: nat) {
    Take(s, t, w) || exists v :: Finish(s, t, w, v)
  }

  ghost predicate Next<V(!new)>(s: State<V>, t: State<V>) {
    Begin(s, t) || Close(s, t) || (exists i: nat :: CallStep(s, t, i)) || (exists w: nat :: WorkerStep(s, t, w))
  }

  ghost predicate IsRun<V(!new)>(max: nat, run: seq<State<V>>) {
    && run != [] && Init(max, run[0])
    && forall k :: 0 <= k < |run| - 1 ==> Next(run[k], run[k + 1])
  }

  // ---------------------------------------------------------------- what every step keeps

  /** How the two sides of one call fit together. */
  ghost predicate CallOk<V>(call: Call<V>) {
    match call.awaiting
    case Acquiring => call.work.NotSubmitted?
    case Awaiting => !call.work.NotSubmitted?
    case Settled(Returned(v)) => call.work == Finished(v)
    case Settled(QueueCancelled) => call.work.WorkCancelled?
    case Settled(Abandoned) => !call.work.Queued?
    case Settled(_) => call.work.NotSubmitted?
  }

  ghost predicate ThreadsOk<V>(s: State<V>) {
    && (forall i :: 0 <= i < |s.calls| ==> (s.calls[i].work.Running? <==> Some(i) in s.workers))
    && (forall w :: 0 <= w < |s.workers| && s.workers[w].Some? ==> s.workers[w].value < |s.calls|)
    && (forall w, x :: 0 <= w < x < |s.workers| && s.workers[w].Some? ==> s.workers[w] != s.workers[x])
  }

  ghost predicate QueueOk<V>(s: State<V>) {
    && (forall k :: 0 <= k < |s.queue| ==> s.queue[k] < |s.calls|)
    && (forall i :: 0 <= i < |s.calls| && s.calls[i].work.Queued? ==> i in s.queue)
    && (s.closed ==> s.queue == [])
  }

  ghost predicate Inv<V>(max: nat, s: State<V>) {
    && s.permits + Holders(s.calls) == max
    && |s.workers| == max
    && (forall i :: 0 <= i < |s.calls| ==> CallOk(s.calls[i]))
    && ThreadsOk(s) && QueueOk(s)
  }

  lemma {:induction false} HoldersUpdate<V>(calls: seq<Call<V>>, i: nat, call: Call<V>)
    requires i < |calls|
    ensures Holders(calls[i := call]) == Holders(calls) - (if Holds(calls[i]) then 1 else 0) + if Holds(call) then 1 else 0
  {
    var init := calls[..|calls| - 1];
    if i < |init| {
      HoldersUpdate(init, i, call);
      assert calls[i := call][..|calls| - 1] == init[i := call];
    } else {
      assert calls[i := call][..|calls| - 1] == init;
    }
  }

  lemma {:induction false} HoldersSame<V>(calls: seq<Call<V>>, other: seq<Call<V>>)
    requires |calls| == |other| && forall i :: 0 <= i < |calls| ==> calls[i].awaiting == other[i].awaiting
    ensures Holders(calls) == Holders(other)
  {
    if calls != [] { HoldersSame(calls[..|calls| - 1], other[..|calls| - 1]); }
  }

  lemma BeginKeepsInv<V(!new)>(max: nat, s: State<V>, t: State<V>)
    requires Inv(max, s) && Begin(s, t)
    ensures Inv(max, t)
  {
    assert t.calls[..|t.calls| - 1] == s.calls;
    assert forall i :: 0 <= i < |s.calls| ==> t.calls[i] == s.calls[i];
  }

  lemma AcquireKeepsInv<V(!new)>(max: nat, s: State<V>, t: State<V>, i: nat)
    requires Inv(max, s) && Acquire(s, t, i)
    ensures Inv(max, t)
  {
    HoldersUpdate(s.calls, i, t.calls[i]);
    assert CallOk(s.calls[i]);
    if !s.closed { assert t.queue[|s.queue|] == i; }
    assert forall k :: 0 <= k < |s.queue| ==> t.queue[k] == s.queue[k];
  }

  lemma TakeKeepsInv<V(!new)>(max: nat, s: State<V>, t: State<V>, w: nat)
    requires Inv(max, s) && Take(s, t, w)
    ensures Inv(max, t)
  {
    var i := s.queue[0];
    assert CallOk(s.calls[i]);
    assert s.queue == [i] + t.queue;
    if s.calls[i].work.Queued? {
      HoldersUpdate(s.calls, i, t.calls[i]);
      assert t.workers[w] == Some(i);
      forall j | 0 <= j < |t.calls| ensures t.calls[j].work.Running? <==> Some(j) in t.workers {
        if j != i && Some(j) in s.workers {
          var x :| 0 <= x < |s.workers| && s.workers[x] == Some(j);
          assert t.workers[x] == Some(j);
        }
      }
    }
  }

  lemma FinishKeepsInv<V(!new)>(max: nat, s: State<V>, t: State<V>, w: nat, value: V)
    requires Inv(max, s) && Finish(s, t, w, value)
    ensures Inv(max, t)
  {
    var i := s.workers[w].value;
    assert s.workers[w] in s.workers;
    assert CallOk(s.calls[i]);
    HoldersUpdate(s.calls, i, t.calls[i]);
    forall j | 0 <= j < |t.calls| ensures t.calls[j].work.Running? <==> Some(j) in t.workers {
      if j != i && Some(j) in s.workers {
        var x :| 0 <= x < |s.workers| && s.workers[x] == Some(j);
        assert t.workers[x] == Some(j);
      }
    }
  }

  lemma DeliverKeepsInv<V(!new)>(max: nat, s: State<V>, t: State<V>, i: nat)
    requires Inv(max, s) && Deliver(s, t, i)
    ensures Inv(max, t)
  {
    HoldersUpdate(s.calls, i, t.calls[i]);
  }

  lemma AbandonKeepsInv<V(!new)>(max: nat, s: State<V>, t: State<V>, i: nat)
    requires Inv(max, s) && Abandon(s, t, i)
    ensures Inv(max, t)
  {
    assert CallOk(s.calls[i]);
    HoldersUpdate(s.calls, i, t.calls[i]);
  }

  lemma CloseKeepsInv<V(!new)>(max: nat, s: State<V>, t: State<V>)
    requires Inv(max, s) && Close(s, t)
    ensures Inv(max, t)
  {
    HoldersSame(s.calls, t.calls);
    forall i | 0 <= i < |t.calls| ensures CallOk(t.calls[i]) {
      assert CallOk(s.calls[i]);
    }
  }

  lemma NextKeepsInv<V(!new)>(max: nat, s: State<V>, t: State<V>)
    requires Inv(max, s) && Next(s, t)
    ensures Inv(max, t)
  {
    if Begin(s, t) {
      BeginKeepsInv(max, s, t);
    } else if Close(s, t) {
      CloseKeepsInv(max, s, t);
    } else if i: nat :| CallStep(s, t, i) {
      if Acquire(s, t, i) { AcquireKeepsInv(max, s, t, i); }
      else if Deliver(s, t, i) { DeliverKeepsInv(max, s, t, i); }
      else { AbandonKeepsInv(max, s, t, i); }
    } else {
      var w: nat :| WorkerStep(s, t, w);
      if Take(s, t, w) {
        TakeKeepsInv(max, s, t, w);
      } else {
        var v :| Finish(s, t, w, v);
        FinishKeepsInv(max, s, t, w, v);
      }
    }
  }

  lemma {:induction false} RunKeepsInv<V(!new)>(max: nat, run: seq<State<V>>)
    requires IsRun(max, run)
    ensures Inv(max, run[|run| - 1])
  {
    if |run| > 1 {
      hide Next, Inv, Init;
      RunKeepsInv(max, run[..|run| - 1]);
      assert Next(run[|run| - 2], run[|run| - 2 + 1]);
      NextKeepsInv(max, run[|run| - 2], run[|run| - 1]);
    }
  }

  // ---------------------------------------------------------------- bounds

  ghost function Busy(workers: seq<Option<nat>>): set<nat> {
    if workers == [] then {}
    else Busy(workers[..|workers| - 1]) + match workers[|workers| - 1] case Some(i) => {i} case None => {}
  }

  lemma {:induction false} BusyBound(workers: seq<Option<nat>>)
    ensures |Busy(workers)| <= |workers|
    ensures forall i :: Some(i) in workers ==> i in Busy(workers)
  {
    if workers != [] {
      BusyBound(workers[..|workers| - 1]);
      assert workers == workers[..|workers| - 1] + [workers[|workers| - 1]];
    }
  }

  /**
   * In every reachable state the functions running are at most `max`, permits and holders add up to
   * `max`, and each call that has returned a value returned the value of its own function.
   */
  lemma ConcurrencyIsBounded<V(!new)>(max: nat, run: seq<State<V>>)
    requires IsRun(max, run)
    ensures |RunningCalls(run[|run| - 1])| <= max
    ensures run[|run| - 1].permits + Holders(run[|run| - 1].calls) == max
    ensures forall call :: call in run[|run| - 1].calls && call.awaiting.Settled? && call.awaiting.outcome.Returned? ==>
              call.work == Finished(call.awaiting.outcome.value)
  {
    var s := run[|run| - 1];
    RunKeepsInv(max, run);
    BusyBound(s.workers);
    SubsetCardinality(RunningCalls(s), Busy(s.workers));
    forall call | call in s.calls ensures CallOk(call) {
      var i :| 0 <= i < |s.calls| && s.calls[i] == call;
    }
  }

  /** Once every call is settled, every permit is back. */
  lemma {:induction false} NoPermitIsLost<V(!new)>(max: nat, run: seq<State<V>>)
    requires IsRun(max, run)
    requires forall call :: call in run[|run| - 1].calls ==> call.awaiting.Settled?
    ensures run[|run| - 1].permits == max
  {
    RunKeepsInv(max, run);
    SettledHoldNothing(run[|run| - 1].calls);
  }

  lemma {:induction false} SettledHoldNothing<V>(calls: seq<Call<V>>)
    requires forall call :: call in calls ==> call.awaiting.Settled?
    ensures Holders(calls) == 0
  {
    if calls != [] {
      SettledHoldNothing(calls[..|calls| - 1]);
    }
  }

  // ---------------------------------------------------------------- what cannot change any more

  predicate Started<V>(work: Work<V>) {
    work.Running? || work.Finished?
  }

  /** One call before and after any number of steps. */
  ghost predicate Later<V>(closed: bool, before: Call<V>, after: Call<V>) {
    && (before.awaiting.Settled? ==> after.awaiting == before.awaiting)
    && (before.work.Finished? ==> after.work == before.work)
    && (before.work.WorkCancelled? ==> after.work == before.work)
    && (closed && !Started(before.work) ==> !Started(after.work))
  }

  lemma CallStepIsLater<V(!new)>(max: nat, s: State<V>, t: State<V>, j: nat, i: nat)
    requires Inv(max, s) && CallStep(s, t, j) && i < |s.calls|
    ensures |s.calls| == |t.calls| && s.closed == t.closed && Later(s.closed, s.calls[i], t.calls[i])
  {
    assert CallOk(s.calls[j]);
  }

  lemma WorkerStepIsLater<V(!new)>(max: nat, s: State<V>, t: State<V>, w: nat, i: nat)
    requires Inv(max, s) && WorkerStep(s, t, w) && i < |s.calls|
    ensures |s.calls| == |t.calls| && s.closed == t.closed && Later(s.closed, s.calls[i], t.calls[i])
  {
    if !Take(s, t, w) {
      var v :| Finish(s, t, w, v);
      assert s.workers[w] in s.workers;
    }
  }

  lemma StepIsLater<V(!new)>(max: nat, s: State<V>, t: State<V>, i: nat)
    requires Inv(max, s) && Next(s, t) && i < |s.calls|
    ensures |s.calls| <= |t.calls| && (s.closed ==> t.closed)
    ensures Later(s.closed, s.calls[i], t.calls[i])
  {
    hide Inv;
    if Begin(s, t) || Close(s, t) {
    } else if j: nat :| CallStep(s, t, j) {
      CallStepIsLater(max, s, t, j, i);
    } else {
      var w: nat :| WorkerStep(s, t, w);
      WorkerStepIsLater(max, s, t, w, i);
    }
  }

  /**
   * Over every run: a settled call keeps its one outcome, so no late result reaches a call that
   * timed out; a finished or cancelled function stays so; and no function starts after close.
   */
  lemma {:induction false} OutcomesAreFinal<V(!new)>(max: nat, run: seq<State<V>>, m: nat, n: nat, i: nat)
    requires IsRun(max, run) && m <= n < |run| && i < |run[m].calls|
    ensures |run[m].calls| <= |run[n].calls| && (run[m].closed ==> run[n].closed)
    ensures Later(run[m].closed, run[m].calls[i], run[n].calls[i])
    decreases n
  {
    hide Next, Inv, Init;
    if m < n {
      OutcomesAreFinal(max, run, m, n - 1, i);
      assert IsRun(max, run[..n]);
      RunKeepsInv(max, run[..n]);
      assert Next(run[n - 1], run[n - 1 + 1]);
      StepIsLater(max, run[n - 1], run[n], i);
    }
  }

  /** Not even a call made after close runs its function. */
  lemma {:induction false} NothingStartsAfterClose<V(!new)>(max: nat, run: seq<State<V>>, m: nat, n: nat, i: nat)
    requires IsRun(max, run) && m <= n < |run| && run[m].closed && |run[m].calls| <= i < |run[n].calls|
    ensures !Started(run[n].calls[i].work)
    decreases n
  {
    hide Next, Inv, Init;
    if m < n {
      assert IsRun(max, run[..n]);
      RunKeepsInv(max, run[..n]);
      assert Next(run[n - 1], run[n - 1 + 1]);
      if i < |run[n - 1].calls| {
        NothingStartsAfterClose(max, run, m, n - 1, i);
        OutcomesAreFinal(max, run, n - 1, n, i);
        ClosedStays(max, run, m, n - 1);
      } else {
        NewCallsHaveNotStarted(run[n - 1], run[n], i);
      }
    }
  }

  lemma NewCallsHaveNotStarted<V(!new)>(s: State<V>, t: State<V>, i: nat)
    requires Next(s, t) && |s.calls| <= i < |t.calls|
    ensures !Started(t.calls[i].work)
  {
    OnlyBeginAdds(s, t);
  }

  lemma OnlyBeginAdds<V(!new)>(s: State<V>, t: State<V>)
    requires Next(s, t)
    ensures |t.calls| == |s.calls| || Begin(s, t)
    ensures s.closed ==> t.closed
  {
    if !Begin(s, t) && !Close(s, t) {
      if j: nat :| CallStep(s, t, j) {
      } else {
        var w: nat :| WorkerStep(s, t, w);
        if !Take(s, t, w) {
          var v :| Finish(s, t, w, v);
        }
      }
    }
  }

  lemma {:induction false} ClosedStays<V(!new)>(max: nat, run: seq<State<V>>, m: nat, n: nat)
    requires IsRun(max, run) && m <= n < |run| && run[m].closed
    ensures run[n].closed
    decreases n
  {
    if m < n {
      ClosedStays(max, run, m, n - 1);
      assert Next(run[n - 1], run[n - 1 + 1]);
      OnlyBeginAdds(run[n - 1], run[n]);
    }
  }

  // ---------------------------------------------------------------- progress

  /** The steps still to come for a call when nobody gives up. */
  function CallWork<V>(call: Call<V>): nat {
    (if call.awaiting.Acquiring? then 5 else if call.awaiting.Awaiting? then 1 else 0) + if call.work.Running? then 1 else 0
  }

  function Load<V>(calls: seq<Call<V>>): nat {
    if calls == [] then 0 else Load(calls[..|calls| - 1]) + CallWork(calls[|calls| - 1])
  }

  function Remaining<V>(s: State<V>): nat {
    Load(s.calls) + 2 * |s.queue|
  }

  lemma {:induction false} LoadUpdate<V>(calls: seq<Call<V>>, i: nat, call: Call<V>)
    requires i < |calls|
    ensures Load(calls[i := call]) == Load(calls) - CallWork(calls[i]) + CallWork(call)
  {
    var init := calls[..|calls| - 1];
    if i < |init| {
      LoadUpdate(init, i, call);
      assert calls[i := call][..|calls| - 1] == init[i := call];
    } else {
      assert calls[i := call][..|calls| - 1] == init;
    }
  }

  lemma {:induction false} HolderExists<V>(calls: seq<Call<V>>) returns (i: nat)
    requires Holders(calls) > 0
    ensures i < |calls| && Holds(calls[i])
  {
    i := |calls| - 1;
    if !Holds(calls[i]) { i := HolderExists(calls[..|calls| - 1]); }
  }

  /** A step that no caller, deadline or close brought about. */
  ghost predicate OwnStep<V(!new)>(s: State<V>, t: State<V>) {
    (exists i: nat :: Acquire(s, t, i) || Deliver(s, t, i)) || (exists w: nat :: WorkerStep(s, t, w))
  }

  predicate GivenUp<V>(call: Call<V>) {
    call.awaiting == Settled(Abandoned) || call.awaiting == Settled(ExpiredError)
  }

  /** No call is added or given up. */
  ghost predicate Patient<V>(s: State<V>, t: State<V>) {
    |t.calls| == |s.calls| && forall i :: 0 <= i < |s.calls| && GivenUp(t.calls[i]) ==> GivenUp(s.calls[i])
  }

  lemma {:induction false} AcquiringGoesOn<V(!new)>(max: nat, s: State<V>, i: nat) returns (t: State<V>)
    requires Inv(max, s) && i < |s.calls| && s.calls[i].awaiting.Acquiring? && s.permits > 0
    ensures OwnStep(s, t) && Patient(s, t) && Remaining(t) < Remaining(s)
  {
    var call := if s.closed then Call(Settled(ClosedError), NotSubmitted) else Call(Awaiting, Queued);
    t := if s.closed then s.(calls := s.calls[i := call])
         else s.(calls := s.calls[i := call], permits := s.permits - 1, queue := s.queue + [i]);
    assert CallOk(s.calls[i]);
    LoadUpdate(s.calls, i, call);
    assert Acquire(s, t, i);
  }

  lemma {:induction false} FinishedGoesOn<V(!new)>(max: nat, s: State<V>, i: nat) returns (t: State<V>)
    requires Inv(max, s) && i < |s.calls| && s.calls[i].awaiting.Awaiting?
    requires s.calls[i].work.Finished? || s.calls[i].work.WorkCancelled?
    ensures OwnStep(s, t) && Patient(s, t) && Remaining(t) < Remaining(s)
  {
    var outcome := if s.calls[i].work.Finished? then Returned(s.calls[i].work.value) else QueueCancelled;
    var call := s.calls[i].(awaiting := Settled(outcome));
    t := s.(calls := s.calls[i := call], permits := s.permits + 1);
    LoadUpdate(s.calls, i, call);
    assert Deliver(s, t, i);
  }

  lemma {:induction false} WorkerGoesOn<V(!new)>(max: nat, s: State<V>, w: nat, value: V) returns (t: State<V>)
    requires Inv(max, s) && w < |s.workers| && (s.workers[w].Some? || s.queue != [])
    ensures OwnStep(s, t) && Patient(s, t) && Remaining(t) < Remaining(s)
  {
    if s.workers[w].Some? {
      var i := s.workers[w].value;
      assert Some(i) in s.workers;
      var call := s.calls[i].(work := Finished(value));
      t := s.(workers := s.workers[w := None], calls := s.calls[i := call]);
      LoadUpdate(s.calls, i, call);
      assert Finish(s, t, w, value);
    } else {
      var i := s.queue[0];
      var call := s.calls[i].(work := Running);
      t := if s.calls[i].work.Queued? then s.(queue := s.queue[1..], workers := s.workers[w := Some(i)], calls := s.calls[i := call])
           else s.(queue := s.queue[1..]);
      LoadUpdate(s.calls, i, call);
      assert Take(s, t, w);
    }
    assert WorkerStep(s, t, w);
  }

  /** While a call is unsettled the runner itself has a step to take, and only finitely many. */
  lemma {:induction false} CallsGoOn<V(!new)>(max: nat, s: State<V>, value: V, i: nat) returns (t: State<V>)
    requires 1 <= max && Inv(max, s) && i < |s.calls| && !s.calls[i].awaiting.Settled?
    ensures OwnStep(s, t) && Patient(s, t) && Remaining(t) < Remaining(s)
  {
    hide OwnStep, Patient, Remaining;
    if s.calls[i].awaiting.Acquiring? && s.permits > 0 {
      t := AcquiringGoesOn(max, s, i);
    } else {
      var j := i;
      if s.calls[i].awaiting.Acquiring? { j := HolderExists(s.calls); }
      assert CallOk(s.calls[j]);
      if s.calls[j].work.Finished? || s.calls[j].work.WorkCancelled? {
        t := FinishedGoesOn(max, s, j);
      } else {
        var w := 0;
        if s.calls[j].work.Running? { w :| 0 <= w < |s.workers| && s.workers[w] == Some(j); }
        t := WorkerGoesOn(max, s, w, value);
      }
    }
  }

  /**
   * No deadlock and no livelock. From every reachable state, whatever was abandoned before and even
   * after close, the runner's own steps settle every call without giving any up.
   */
  lemma {:induction false} EveryCallCanSettle<V(!new)>(max: nat, run: seq<State<V>>, value: V) returns (full: seq<State<V>>)
    requires 1 <= max && IsRun(max, run)
    ensures IsRun(max, full) && run <= full && Patient(run[|run| - 1], full[|full| - 1])
    ensures forall call :: call in full[|full| - 1].calls ==> call.awaiting.Settled?
    decreases Remaining(run[|run| - 1])
  {
    hide Next, Inv, Init, OwnStep, Remaining;
    var s := run[|run| - 1];
    RunKeepsInv(max, run);
    full := run;
    if i: nat :| i < |s.calls| && !s.calls[i].awaiting.Settled? {
      var t := CallsGoOn(max, s, value, i);
      OwnStepIsNext(s, t);
      assert IsRun(max, run + [t]) by { RunGrows(max, run, t); }
      assert (run + [t])[|run|] == t;
      full := EveryCallCanSettle(max, run + [t], value);
      assert run <= run + [t] <= full;
    }
  }

  lemma OwnStepIsNext<V(!new)>(s: State<V>, t: State<V>)
    requires OwnStep(s, t)
    ensures Next(s, t)
  {
    hide Acquire, Deliver, WorkerStep;
    if i: nat :| Acquire(s, t, i) || Deliver(s, t, i) { assert CallStep(s, t, i); }
  }

  lemma RunGrows<V(!new)>(max: nat, run: seq<State<V>>, t: State<V>)
    requires IsRun(max, run) && Next(run[|run| - 1], t)
    ensures IsRun(max, run + [t])
  {
    hide Next, Init;
  }
}
