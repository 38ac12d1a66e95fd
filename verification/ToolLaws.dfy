/**
 What the agent graph's decisions mean, told from the policy, the rules, the guard and the transcript:
 which calls need approval, when a response is not followed, and what an answer is checked against.
 */
module ToolLaws {
  import opened Basics
  import opened ToolAgent

  // ---------------------------------------------------------------- which calls need approval

  predicate PolicyObjects(agent: Agent, call: ToolCall) {
    agent.policy.Some? && agent.policy.value(call.name, call.args).Some? && agent.policy.value(call.name, call.args) != Some("")
  }

  predicate RuleObjects(agent: Agent, call: ToolCall) {
    && call.name in agent.rules
    && match agent.rules[call.name]
       case Switch(on) => on
       case Reason(text) => text != ""
       case Compute(rule) => rule(call.args).Some? && rule(call.args) != Some("")
  }

  predicate NeedsApproval(agent: Agent, call: ToolCall) {
    PolicyObjects(agent, call) || RuleObjects(agent, call)
  }

  /** The reviewer is shown the policy's reason if it has one, else the rule's. */
  lemma {:induction false} ReasonsAreTheirs(agent: Agent, call: ToolCall)
    ensures Flagged(agent, call) <==> NeedsApproval(agent, call)
    ensures PolicyObjects(agent, call) ==> ApprovalReason(agent, call) == agent.policy.value(call.name, call.args)
    ensures !PolicyObjects(agent, call) && RuleObjects(agent, call) ==>
              match agent.rules[call.name]
              case Switch(_) =>
                ApprovalReason(agent, call) == Some("The '" + call.name + "' action requires human approval before it runs.")
              case Reason(text) => ApprovalReason(agent, call) == Some(text)
              case Compute(rule) => ApprovalReason(agent, call) == rule(call.args)
  {}

  ghost predicate Lists(event: Event) {
    event.Requested? || event.Approved? || event.Rejected?
  }

  ghost predicate OnlyNeedyListed(agent: Agent, events: seq<Event>) {
    forall k :: 0 <= k < |events| && Lists(events[k]) ==> forall call :: call in events[k].calls ==> NeedsApproval(agent, call)
  }

  lemma FlaggedAreNeedy(agent: Agent, calls: seq<ToolCall>)
    ensures forall call :: call in FlaggedCalls(agent, calls) <==> call in calls && NeedsApproval(agent, call)
  {
    hide NeedsApproval, Flagged;
    forall call ensures call in FlaggedCalls(agent, calls) <==> call in calls && NeedsApproval(agent, call) {
      FlaggedIsListed(agent, calls, call);
      ReasonsAreTheirs(agent, call);
    }
  }

  lemma StepListsNeedy(agent: Agent, s: Session, t: Session)
    requires ApprovalInv(agent, s) && OnlyNeedyListed(agent, s.events) && Next(agent, s, t)
    ensures OnlyNeedyListed(agent, t.events)
  {
    hide NeedsApproval, FlaggedCalls, AgentUpdate, VerifyUpdate, Follow, Sanctioned, Bracketed;
    if AgentStep(agent, s, t) {
      var content, calls :| t == Follow(AgentUpdate(agent, s, content, calls));
      AgentOutcomes(agent, s, content, calls);
      FlaggedAreNeedy(agent, calls);
    } else if VerifyStep(agent, s, t) {
      var complaint :| t == VerifyUpdate(agent, s, complaint);
      VerifyAddsRetry(agent, s, complaint);
    } else if approved, notes :| DecideStep(s, t, approved, notes) {
      FlaggedAreNeedy(agent, s.messages[|s.messages| - 1].calls);
    }
  }

  lemma VerifyAddsRetry(agent: Agent, s: Session, complaint: string)
    ensures VerifyUpdate(agent, s, complaint).events == s.events
            || VerifyUpdate(agent, s, complaint).events == s.events + [Retried]
  {
    hide Ungrounded, DropScaffolding;
  }

  lemma {:induction false} AlwaysNeedy(agent: Agent, run: seq<Session>)
    requires IsRun(agent, run)
    ensures OnlyNeedyListed(agent, run[|run| - 1].events)
  {
    hide OnlyNeedyListed, Next, ApprovalInv;
    if |run| > 1 {
      AlwaysNeedy(agent, run[..|run| - 1]);
      ApprovalAlways(agent, run[..|run| - 1]);
      assert Next(agent, run[|run| - 2], run[|run| - 2 + 1]);
      StepListsNeedy(agent, run[|run| - 2], run[|run| - 1]);
    } else {
      NothingListed(agent);
    }
  }

  lemma NothingListed(agent: Agent)
    ensures OnlyNeedyListed(agent, FRESH.events)
  {}

  /**
   * Approval safety in terms of policy and rules. A batch holding a call to which the policy objects, or
   * whose tool is switched on for approval, has a reason or computes one, is executed only directly after
   * the approval of a list which was requested directly before; the list holds exactly such calls.
   */
  lemma {:induction false} GuardedCallsWait(agent: Agent, run: seq<Session>, k: nat, call: ToolCall)
    requires IsRun(agent, run)
    requires k < |run[|run| - 1].events| && run[|run| - 1].events[k].Executed?
    requires call in run[|run| - 1].events[k].calls && NeedsApproval(agent, call)
    ensures var events := run[|run| - 1].events;
            && k > 1 && events[k - 1].Approved? && events[k - 2] == Requested(events[k - 1].calls)
            && (forall c :: c in events[k - 1].calls <==> c in events[k].calls && NeedsApproval(agent, c))
  {
    hide NeedsApproval, Flagged, FlaggedCalls;
    var events := run[|run| - 1].events;
    ReasonsAreTheirs(agent, call);
    FlaggedCallsNeedApproval(agent, run, k, call);
    ApprovalAlways(agent, run);
    FlaggedAreNeedy(agent, events[k].calls);
  }

  /** No other call is ever put before the reviewer. */
  lemma {:induction false} OthersAreNeverListed(agent: Agent, run: seq<Session>, k: nat, call: ToolCall)
    requires IsRun(agent, run) && k < |run[|run| - 1].events| && Lists(run[|run| - 1].events[k])
    requires !NeedsApproval(agent, call)
    ensures call !in run[|run| - 1].events[k].calls
  {
    AlwaysNeedy(agent, run);
  }

  // ---------------------------------------------------------------- when a response is not followed

  predicate IsQuestion(m: Message) {
    m.Human? && !m.feedback
  }

  /** The current turn begins with the latest real question, if there was one. */
  lemma {:induction false} TurnBeginsAtQuestion(messages: seq<Message>)
    ensures forall i :: TurnStart(messages) < i < |messages| ==> !IsQuestion(messages[i])
    ensures TurnStart(messages) < |messages| && TurnStart(messages) > 0 ==> IsQuestion(messages[TurnStart(messages)])
    ensures (exists i :: 0 <= i < |messages| && IsQuestion(messages[i])) ==>
              TurnStart(messages) < |messages| && IsQuestion(messages[TurnStart(messages)])
  {
    if messages != [] {
      var init := messages[..|messages| - 1];
      TurnBeginsAtQuestion(init);
      if !IsQuestion(messages[|messages| - 1]) {
        assert TurnStart(messages) == TurnStart(init);
        forall i | 0 <= i < |messages| && IsQuestion(messages[i]) ensures IsQuestion(init[i]) { assert init[i] == messages[i]; }
      }
    }
  }

  /**
   * A response is dropped and the loop stopped exactly after eight responses, or when the guard sees no
   * progress in the turn, or one of the calls as repeating in it; else the response joins the transcript.
   */
  lemma {:induction false} ResponsesAreScreened(agent: Agent, s: Session, content: Content, calls: seq<ToolCall>)
    ensures var t, turn := Follow(AgentUpdate(agent, s, content, calls)), s.messages[TurnStart(s.messages)..];
            && (t.node.FallbackNode? <==>
                  s.stepCount >= 8 || agent.guard.noProgress(turn) || exists call :: call in calls && agent.guard.repeats(call, turn))
            && t.messages == (if t.node.FallbackNode? then s.messages else s.messages + [AI(content, calls)])
            && t.stepCount == s.stepCount + 1
  {
    hide TurnStart, FlaggedCalls;
  }

  /** A verification that fails once takes the answer back and asks again. */
  lemma {:induction false} RetryTakesAnswerBack(agent: Agent, run: seq<Session>, t: Session)
    requires IsRun(agent, run) && VerifyStep(agent, run[|run| - 1], t) && !t.node.End?
    ensures var s := run[|run| - 1];
            && t.node.AgentNode? && s.messages != [] && Ungrounded(agent, s.messages) != []
            && |t.messages| == |s.messages| && t.messages[..|s.messages| - 1] == s.messages[..|s.messages| - 1]
            && IsFeedback(t.messages[|t.messages| - 1]) && t.verifyAttempts == s.verifyAttempts + 1 <= 1
  {
    hide Ungrounded, DropScaffolding, Next;
  }

  // ---------------------------------------------------------------- what an answer is checked against

  predicate IsSource(m: Message) {
    m.Tool? || IsQuestion(m)
  }

  predicate Stays(m: Message) {
    !IsFeedback(m)
  }

  /** The sources are what the tool results and the real questions print as, in their order. */
  lemma {:induction false} SourcesAreToolsAndQuestions(messages: seq<Message>) returns (positions: seq<nat>)
    ensures Selects(messages, positions, IsSource)
    ensures |positions| == |Sources(messages)|
    ensures forall i :: 0 <= i < |positions| ==> Sources(messages)[i] == Printed(messages[positions[i]].content)
  {
    hide Sources, IsSource;
    if messages == [] {
      positions := [];
      NothingIsSource();
    } else {
      var init, last := messages[..|messages| - 1], messages[|messages| - 1];
      var before := SourcesAreToolsAndQuestions(init);
      positions := SelectsMore(init, last, before, IsSource);
      assert messages == init + [last];
      LastMessageIsSource(init, last);
    }
  }

  lemma NothingIsSource()
    ensures Selects([], [], IsSource) && Sources([]) == []
  {}

  lemma LastMessageIsSource(init: seq<Message>, last: Message)
    ensures Sources(init + [last]) == Sources(init) + if IsSource(last) then [Printed(last.content)] else []
  {
    assert (init + [last])[..|init|] == init;
  }

  lemma {:induction false} FeedbackIsDropped(turn: seq<Message>) returns (positions: seq<nat>)
    ensures Selects(turn, positions, Stays)
    ensures |positions| == |WithoutFeedback(turn)|
    ensures forall i :: 0 <= i < |positions| ==> WithoutFeedback(turn)[i] == turn[positions[i]]
  {
    hide WithoutFeedback, IsFeedback;
    if turn == [] {
      positions := [];
      NothingIsDropped();
    } else {
      var init, last := turn[..|turn| - 1], turn[|turn| - 1];
      var before := FeedbackIsDropped(init);
      positions := SelectsMore(init, last, before, Stays);
      assert turn == init + [last];
      LastMessageStays(init, last);
    }
  }

  lemma NothingIsDropped()
    ensures Selects([], [], Stays) && WithoutFeedback([]) == []
  {}

  lemma LastMessageStays(init: seq<Message>, last: Message)
    ensures WithoutFeedback(init + [last]) == WithoutFeedback(init) + if Stays(last) then [last] else []
  {
    assert (init + [last])[..|init|] == init;
  }

  /** Leaving drops the feedback of the current turn and keeps everything else, in order. */
  lemma {:induction false} OnlyScaffoldingIsDropped(messages: seq<Message>) returns (positions: seq<nat>, kept: seq<Message>)
    ensures DropScaffolding(messages) == messages[..TurnStart(messages)] + kept && |kept| == |positions|
    ensures Selects(messages[TurnStart(messages)..], positions, Stays)
    ensures forall i :: 0 <= i < |positions| ==> kept[i] == messages[TurnStart(messages)..][positions[i]]
  {
    var turn := messages[TurnStart(messages)..];
    kept := WithoutFeedback(turn);
    hide WithoutFeedback, TurnStart;
    positions := FeedbackIsDropped(turn);
  }

  // ---------------------------------------------------------------- the transcript

  /**
   * A question asked of a finished session joins the transcript and starts afresh; asked of another it
   * changes nothing.
   */
  lemma {:induction false} QuestionsJoinTranscript(s: Session, t: Session, query: string)
    requires AskStep(s, t, query)
    ensures !s.node.End? ==> t == s
    ensures s.node.End? ==>
              && |t.messages| == |s.messages| + 1 && s.messages <= t.messages
              && IsQuestion(t.messages[|s.messages|]) && Printed(t.messages[|s.messages|].content) == query
              && t.node.AgentNode? && t.stepCount == 0 && t.verifyAttempts == 0 && t.ungrounded == []
              && !t.loopDetected && !t.requiresApproval && t.pending.None?
  {}

  /** Only verifying takes anything out of the transcript; a stopped loop ends with one more, of plain text. */
  lemma {:induction false} TranscriptOnlyGrows(agent: Agent, s: Session, t: Session)
    requires Next(agent, s, t) && !s.node.VerifyNode?
    ensures s.messages <= t.messages
    ensures s.node.FallbackNode? && t != s ==>
              && |t.messages| == |s.messages| + 1 && t.node.End?
              && t.messages[|s.messages|].AI? && t.messages[|s.messages|].content.Plain? && t.messages[|s.messages|].calls == []
  {
    hide Halts, FlaggedCalls;
  }

  // ---------------------------------------------------------------- every call is answered

  /** Among the messages added there is an answer to each of the calls. */
  ghost predicate Answered(before: seq<Message>, after: seq<Message>, calls: seq<ToolCall>, failed: bool) {
    && |before| + |calls| <= |after| && after[..|before|] == before
    && forall i :: 0 <= i < |calls| ==>
         && after[|before| + i].Tool? && after[|before| + i].callId == calls[i].id
         && (failed ==> after[|before| + i].failed)
  }

  /** Running the tools answers every call of the response; a rejection answers every listed call as failed. */
  lemma {:induction false} EveryCallIsAnswered(agent: Agent, run: seq<Session>, t: Session)
    requires IsRun(agent, run) && NodeStep(agent, run[|run| - 1], t)
    ensures var s := run[|run| - 1];
            && (s.node.ToolsNode? ==>
                  && s.messages != [] && s.messages[|s.messages| - 1].AI?
                  && Answered(s.messages, t.messages, s.messages[|s.messages| - 1].calls, false)
                  && t.events == s.events + [Executed(s.messages[|s.messages| - 1].calls)] && t.node.AgentNode?)
            && (s.node.ApprovalGate? ==>
                  && s.pending.Some?
                  && (if t.node.ToolsNode? then t.messages == s.messages && t.events == s.events + [Approved(s.pending.value)]
                      else t.node.End? && Answered(s.messages, t.messages, s.pending.value, true)
                           && t.events == s.events + [Rejected(s.pending.value)]))
  {
    hide FlaggedCalls, Sanctioned, Bracketed, AgentUpdate, VerifyUpdate, Follow, Next;
    ApprovalAlways(agent, run);
  }

  /** A rejection quotes the reviewer's notes to each listed call, by its name, and in a closing answer without calls. */
  lemma {:induction false} RejectionsQuoteNotes(s: Session, t: Session, notes: string)
    requires DecideStep(s, t, false, notes) && s.pending.Some?
    ensures var (before, calls) := (|s.messages|, s.pending.value);
            && |t.messages| == before + |calls| + 1
            && (forall i :: 0 <= i < |calls| ==>
                  t.messages[before + i] == Tool(Plain("Action rejected by reviewer. Notes: " + notes), calls[i].id, calls[i].name, true))
            && t.messages[before + |calls|] == AI(Plain("Action cancelled by the reviewer. Notes: " + notes), [])
  {}

  // ---------------------------------------------------------------- how long a question takes

  lemma NodeStepIsVisit(agent: Agent, s: Session, t: Session)
    requires NodeStep(agent, s, t)
    ensures t.visits == s.visits + 1
  {
    hide AgentStep, ToolsStep, DecideStep, VerifyStep, AgentUpdate, VerifyUpdate, Follow;
    if AgentStep(agent, s, t) {
      AgentStepIsVisit(agent, s, t);
    } else if VerifyStep(agent, s, t) {
      VerifyStepIsVisit(agent, s, t);
    } else if approved, notes :| DecideStep(s, t, approved, notes) {
      DecideStepIsVisit(s, t, approved, notes);
    } else {
      OtherStepIsVisit(s, t);
    }
  }

  lemma AgentStepIsVisit(agent: Agent, s: Session, t: Session)
    requires AgentStep(agent, s, t)
    ensures t.visits == s.visits + 1
  {
    hide Halts, FlaggedCalls, Route;
  }

  lemma VerifyStepIsVisit(agent: Agent, s: Session, t: Session)
    requires VerifyStep(agent, s, t)
    ensures t.visits == s.visits + 1
  {
    hide Ungrounded, DropScaffolding;
  }

  lemma DecideStepIsVisit(s: Session, t: Session, approved: bool, notes: string)
    requires DecideStep(s, t, approved, notes)
    ensures t.visits == s.visits + 1
  {}

  lemma OtherStepIsVisit(s: Session, t: Session)
    requires ToolsStep(s, t) || FallbackStep(s, t)
    ensures t.visits == s.visits + 1
  {
    hide AnswersCalls;
  }

  /** Over every run: however models, tools, reviewers and verifiers behave, no question takes more than 27 node steps, of the 40 allowed. */
  lemma {:induction false} QuestionsTakeBoundedSteps(agent: Agent, run: seq<Session>, m: nat, n: nat)
    requires IsRun(agent, run) && m <= n < |run|
    requires forall k :: m <= k < n ==> NodeStep(agent, run[k], run[k + 1])
    ensures n - m <= 27 < RECURSION_LIMIT == 40
  {
    hide NodeStep, Next;
    VisitsCount(agent, run, m, n);
    assert IsRun(agent, run[..n + 1]);
    QueriesAreBounded(agent, run[..n + 1]);
  }

  lemma {:induction false} VisitsCount(agent: Agent, run: seq<Session>, m: nat, n: nat)
    requires m <= n < |run| && forall k :: m <= k < n ==> NodeStep(agent, run[k], run[k + 1])
    ensures run[n].visits == run[m].visits + (n - m)
    decreases n
  {
    hide NodeStep;
    if m < n {
      VisitsCount(agent, run, m, n - 1);
      assert NodeStep(agent, run[n - 1], run[n - 1 + 1]);
      NodeStepIsVisit(agent, run[n - 1], run[n]);
    }
  }
}
