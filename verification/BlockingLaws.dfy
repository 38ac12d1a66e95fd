/**
 What the outcome of a blocking call means: a runner that is open returns what functions return, unless
 callers give up, and a closed one refuses at once.
 */
module BlockingLaws {
  import opened Basics
  import opened Blocking

  /** While the runner is open a call is only settled by its function, its deadline or its caller. */
  ghost predicate OpenOk<V>(s: State<V>) {
    !s.closed ==> forall i :: 0 <= i < |s.calls| ==> CallIsOpen(s.calls[i])
  }

  ghost predicate CallIsOpen<V>(call: Call<V>) {
    && (call.awaiting.Settled? ==> call.awaiting.outcome.Returned? || GivenUp(call))
    && (call.work.WorkCancelled? ==> GivenUp(call))
  }

  lemma CallStepKeepsOpen<V(!new)>(max: nat, s: State<V>, t: State<V>, i: nat)
    requires Inv(max, s) && OpenOk(s) && CallStep(s, t, i)
    ensures OpenOk(t)
  {
    if !s.closed {
      assert CallOk(s.calls[i]) && CallIsOpen(s.calls[i]);
      forall j | 0 <= j < |t.calls| ensures CallIsOpen(t.calls[j]) {
        if j != i { assert CallIsOpen(s.calls[j]); }
      }
    }
  }

  lemma WorkerStepKeepsOpen<V(!new)>(max: nat, s: State<V>, t: State<V>, w: nat)
    requires Inv(max, s) && OpenOk(s) && WorkerStep(s, t, w)
    ensures OpenOk(t)
  {
    if !s.closed {
      forall j | 0 <= j < |t.calls| ensures CallIsOpen(t.calls[j]) {
        assert CallIsOpen(s.calls[j]);
        if !Take(s, t, w) { var v :| Finish(s, t, w, v); }
      }
    }
  }

  lemma StepKeepsOpen<V(!new)>(max: nat, s: State<V>, t: State<V>)
    requires Inv(max, s) && OpenOk(s) && Next(s, t)
    ensures OpenOk(t)
  {
    hide Inv, OpenOk;
    if Begin(s, t) {
      BeginKeepsOpen(s, t);
    } else if Close(s, t) {
      CloseKeepsOpen(s, t);
    } else if i: nat :| CallStep(s, t, i) {
      CallStepKeepsOpen(max, s, t, i);
    } else {
      var w: nat :| WorkerStep(s, t, w);
      WorkerStepKeepsOpen(max, s, t, w);
    }
  }

  lemma BeginKeepsOpen<V(!new)>(s: State<V>, t: State<V>)
    requires OpenOk(s) && Begin(s, t)
    ensures OpenOk(t)
  {
    assert forall i :: 0 <= i < |s.calls| ==> t.calls[i] == s.calls[i];
  }

  lemma CloseKeepsOpen<V(!new)>(s: State<V>, t: State<V>)
    requires OpenOk(s) && Close(s, t)
    ensures OpenOk(t)
  {}

  /**
   * Over every run: as long as the runner has not been closed, each settled call returned the value of its
   * own function, was given up by its caller, or came after its deadline.
   */
  lemma {:induction false} OpenRunnersReturn<V(!new)>(max: nat, run: seq<State<V>>, i: nat)
    requires IsRun(max, run) && i < |run[|run| - 1].calls| && !run[|run| - 1].closed
    ensures var call := run[|run| - 1].calls[i];
            call.awaiting.Settled? ==>
              GivenUp(call) || (call.awaiting.outcome.Returned? && call.work == Finished(call.awaiting.outcome.value))
  {
    AlwaysOpenOk(max, run);
    RunKeepsInv(max, run);
    assert CallOk(run[|run| - 1].calls[i]) && CallIsOpen(run[|run| - 1].calls[i]);
  }

  lemma StartIsOpen<V(!new)>(max: nat, s: State<V>)
    requires Init(max, s)
    ensures OpenOk(s)
  {}

  lemma {:induction false} AlwaysOpenOk<V(!new)>(max: nat, run: seq<State<V>>)
    requires IsRun(max, run)
    ensures OpenOk(run[|run| - 1])
  {
    hide Next, Inv, Init, OpenOk;
    if |run| == 1 {
      StartIsOpen(max, run[0]);
    } else {
      AlwaysOpenOk(max, run[..|run| - 1]);
      RunKeepsInv(max, run[..|run| - 1]);
      assert Next(run[|run| - 2], run[|run| - 2 + 1]);
      StepKeepsOpen(max, run[|run| - 2], run[|run| - 1]);
    }
  }

  /** A call made after close is refused at once and for good. */
  lemma {:induction false} ClosedRunnersRefuse<V(!new)>(max: nat, run: seq<State<V>>, m: nat, n: nat, i: nat)
    requires IsRun(max, run) && m <= n < |run| && run[m].closed && |run[m].calls| <= i < |run[n].calls|
    ensures run[n].calls[i] == Call(Settled(ClosedError), NotSubmitted)
    decreases n
  {
    hide Next, Inv, Init;
    if m < n {
      assert IsRun(max, run[..n]);
      RunKeepsInv(max, run[..n]);
      assert Next(run[n - 1], run[n - 1 + 1]);
      ClosedStays(max, run, m, n - 1);
      if i < |run[n - 1].calls| {
        ClosedRunnersRefuse(max, run, m, n - 1, i);
        RefusedStays(max, run[n - 1], run[n], i);
      } else {
        RefusedAtOnce(run[n - 1], run[n], i);
      }
    }
  }

  lemma RefusedAtOnce<V(!new)>(s: State<V>, t: State<V>, i: nat)
    requires Next(s, t) && s.closed && |s.calls| <= i < |t.calls|
    ensures t.calls[i] == Call(Settled(ClosedError), NotSubmitted)
  {
    OnlyBeginAdds(s, t);
  }

  lemma RefusedStays<V(!new)>(max: nat, s: State<V>, t: State<V>, i: nat)
    requires Inv(max, s) && Next(s, t) && s.closed && i < |s.calls| && s.calls[i] == Call(Settled(ClosedError), NotSubmitted)
    ensures i < |t.calls| && t.calls[i] == s.calls[i]
  {
    StepIsLater(max, s, t, i);
    if !Begin(s, t) && !Close(s, t) {
      if j: nat :| CallStep(s, t, j) {
      } else {
        var w: nat :| WorkerStep(s, t, w);
        if !Take(s, t, w) {
          var v :| Finish(s, t, w, v);
          assert s.workers[w] in s.workers;
        }
      }
    }
  }

  /**
   * In every reachable state of an open runner a call can be made: past its deadline it is refused at once,
   * else it waits for a permit.
   */
  lemma {:induction false} CallsCanBeMade<V(!new)>(max: nat, run: seq<State<V>>) returns (waiting: State<V>, late: State<V>)
    requires IsRun(max, run) && !run[|run| - 1].closed
    ensures IsRun(max, run + [waiting]) && IsRun(max, run + [late])
    ensures waiting.calls == run[|run| - 1].calls + [Call(Acquiring, NotSubmitted)]
    ensures late.calls == run[|run| - 1].calls + [Call(Settled(ExpiredError), NotSubmitted)]
    ensures waiting.permits == late.permits == run[|run| - 1].permits
  {
    hide CallStep, WorkerStep, Close;
    var s := run[|run| - 1];
    waiting := s.(calls := s.calls + [Call(Acquiring, NotSubmitted)]);
    late := s.(calls := s.calls + [Call(Settled(ExpiredError), NotSubmitted)]);
    assert Begin(s, waiting) && Begin(s, late);
    hide Init;
    RunGrows(max, run, waiting);
    RunGrows(max, run, late);
  }

  lemma OnlyCloseCloses<V(!new)>(s: State<V>, t: State<V>)
    requires Next(s, t) && t.closed
    ensures s.closed || Close(s, t)
  {}

  /** The runner is open until it is closed. */
  lemma {:induction false} ClosedByClose<V(!new)>(max: nat, run: seq<State<V>>) returns (k: nat)
    requires IsRun(max, run) && run[|run| - 1].closed
    ensures k + 1 < |run| && !run[k].closed && Close(run[k], run[k + 1])
  {
    hide Next, Close;
    if |run| > 1 {
      assert Next(run[|run| - 2], run[|run| - 2 + 1]);
      OnlyCloseCloses(run[|run| - 2], run[|run| - 1]);
      k := |run| - 2;
      if run[k].closed {
        k := ClosedByClose(max, run[..|run| - 1]);
      }
    }
  }

  /**
   * Closing cancels exactly the functions that have not started, touches nothing else, and leaves no call
   * queued; closing again does nothing.
   */
  lemma {:induction false} ClosingCancelsQueued<V(!new)>(max: nat, run: seq<State<V>>, t: State<V>)
    requires IsRun(max, run) && Close(run[|run| - 1], t)
    ensures var s := run[|run| - 1];
            && t.closed && (s.closed ==> t == s)
            && |t.calls| == |s.calls| && t.permits == s.permits && t.workers == s.workers
            && forall i :: 0 <= i < |t.calls| ==>
                 && t.calls[i].awaiting == s.calls[i].awaiting && !t.calls[i].work.Queued?
                 && t.calls[i].work == if s.calls[i].work.Queued? then WorkCancelled else s.calls[i].work
  {
    hide Next, Init;
    var s := run[|run| - 1];
    RunKeepsInv(max, run);
    forall i | 0 <= i < |s.calls| ensures s.closed ==> !s.calls[i].work.Queued? { assert CallOk(s.calls[i]); }
  }

  /** And a runner can be closed at any time. */
  lemma {:induction false} RunnersCanClose<V(!new)>(max: nat, run: seq<State<V>>) returns (t: State<V>)
    requires IsRun(max, run)
    ensures IsRun(max, run + [t]) && t.closed && Close(run[|run| - 1], t)
  {
    hide CallStep, WorkerStep, Begin, Init;
    var s := run[|run| - 1];
    t := if s.closed then s
         else s.(closed := true, queue := [],
                 calls := seq(|s.calls|, i requires 0 <= i < |s.calls| =>
                            if i in s.queue then s.calls[i].(work := Cancel(s.calls[i].work)) else s.calls[i]));
    RunGrows(max, run, t);
  }
}
