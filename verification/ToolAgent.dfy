/**
 The tool-using agent as a state machine over its graph: agent, tools, approval gate, verify,
 fallback, end. The model's responses, the tool results, the reviewer and the caller are
 adversaries; the loop guard's two tests are arbitrary functions of the current turn. A run may stop
 anywhere, which is what a raising node or a crash looks like from outside.
 */
module ToolAgent {
  import opened Basics

  const MAX_TOTAL_STEPS: nat := 8
  const MAX_VERIFY_RETRIES: nat := 1
  const RECURSION_LIMIT: nat := 40

  datatype ToolCall = ToolCall(name: string, args: string, id: string)

  /** What a message says: a text, or a list of blocks, of which `printed` is the `str` and `texts` the texts. */
  datatype Content = Plain(text: string) | Blocks(printed: string, texts: seq<string>)

  /** What `str` makes of a content. The verifier sees this. */
  function Printed(content: Content): string {
    match content
    case Plain(text) => text
    case Blocks(printed, _) => printed
  }

  /** The plain text of a content. The caller sees this. */
  function PlainText(content: Content): string {
    match content
    case Plain(text) => text
    case Blocks(_, texts) => Flatten(texts)
  }

  datatype Message =
    | Human(content: Content, feedback: bool)
    | AI(content: Content, calls: seq<ToolCall>)
    | Tool(content: Content, callId: string, name: string, failed: bool)

  // ---------------------------------------------------------------- approval rules

  datatype Rule = Switch(on: bool) | Reason(text: string) | Compute(rule: string -> Option<string>)

  datatype Guard = Guard(noProgress: seq<Message> -> bool, repeats: (ToolCall, seq<Message>) -> bool)

  datatype Agent = Agent(
    policy: Option<(string, string) -> Option<string>>,
    rules: map<string, Rule>,
    guard: Guard,
    verifier: Option<(string, seq<string>) -> seq<string>>)

  predicate Truthy(reason: Option<string>) {
    reason.Some? && reason.value != ""
  }

  function ApprovalReason(agent: Agent, call: ToolCall): Option<string> {
    var byPolicy := if agent.policy.Some? then agent.policy.value(call.name, call.args) else None;
    if Truthy(byPolicy) then byPolicy
    else if call.name !in agent.rules then None
    else match agent.rules[call.name]
      case Switch(on) => if on then Some("The '" + call.name + "' action requires human approval before it runs.") else None
      case Reason(text) => if text == "" then None else Some(text)
      case Compute(rule) => rule(call.args)
  }

  predicate Flagged(agent: Agent, call: ToolCall) {
    Truthy(ApprovalReason(agent, call))
  }

  // ---------------------------------------------------------------- messages

  /** Messages since the latest real question. */
  function TurnStart(messages: seq<Message>): (start: nat)
    ensures start <= |messages|
  {
    if messages == [] then 0
    else
      var last := messages[|messages| - 1];
      if last.Human? && !last.feedback then |messages| - 1
      else TurnStart(messages[..|messages| - 1])
  }

  function WithoutFeedback(messages: seq<Message>): seq<Message> {
    if messages == [] then []
    else
      var last := messages[|messages| - 1];
      WithoutFeedback(messages[..|messages| - 1]) + if last.Human? && last.feedback then [] else [last]
  }

  function DropScaffolding(messages: seq<Message>): seq<Message> {
    messages[..TurnStart(messages)] + WithoutFeedback(messages[TurnStart(messages)..])
  }

  /** What an answer may be grounded in: tool results and real questions. */
  function Sources(messages: seq<Message>): seq<string> {
    if messages == [] then []
    else
      var last := messages[|messages| - 1];
      Sources(messages[..|messages| - 1]) + if last.Tool? || (last.Human? && !last.feedback) then [Printed(last.content)] else []
  }

  function FlaggedCalls(agent: Agent, calls: seq<ToolCall>): seq<ToolCall> {
    if calls == [] then []
    else
      var last := calls[|calls| - 1];
      FlaggedCalls(agent, calls[..|calls| - 1]) + if Flagged(agent, last) then [last] else []
  }

  /** The agent node's loop over a response's calls: a blocked call stops it, a flagged one is collected. */
  method ScreenCalls(agent: Agent, calls: seq<ToolCall>, turn: seq<Message>) returns (blocked: bool, reasons: seq<string>, flagged: seq<ToolCall>)
    ensures blocked <==> exists call :: call in calls && agent.guard.repeats(call, turn)
    ensures !blocked ==> flagged == FlaggedCalls(agent, calls) && |reasons| == |flagged|
    ensures !blocked ==> forall i :: 0 <= i < |reasons| ==> Some(reasons[i]) == ApprovalReason(agent, flagged[i])
  {
    blocked, reasons, flagged := false, [], [];
    for i := 0 to |calls|
      invariant forall j :: 0 <= j < i ==> !agent.guard.repeats(calls[j], turn)
      invariant flagged == FlaggedCalls(agent, calls[..i]) && |reasons| == |flagged|
      invariant forall j :: 0 <= j < |reasons| ==> Some(reasons[j]) == ApprovalReason(agent, flagged[j])
    {
      var reason := ApprovalReason(agent, calls[i]);
      if agent.guard.repeats(calls[i], turn) { return true, [], []; }
      assert calls[..i + 1][..i] == calls[..i];
      if Truthy(reason) {
        reasons, flagged := reasons + [reason.value], flagged + [calls[i]];
      }
    }
    assert calls[..|calls|] == calls;
  }

  // ---------------------------------------------------------------- the graph

  datatype Node = AgentNode | ToolsNode | ApprovalGate | VerifyNode | FallbackNode | End

  /** What an observer of one session sees, in order. */
  datatype Event =
    | Asked(query: string)
    | Requested(calls: seq<ToolCall>)
    | Approved(calls: seq<ToolCall>)
    | Rejected(calls: seq<ToolCall>)
    | Executed(calls: seq<ToolCall>)
    | Retried

  /** `visits` counts node visits since the last question; it is not part of the graph's state. */
  datatype Session = Session(
    node: Node,
    messages: seq<Message>,
    stepCount: nat,
    loopDetected: bool,
    requiresApproval: bool,
    pending: Option<seq<ToolCall>>,
    verifyAttempts: nat,
    ungrounded: seq<string>,
    visits: nat,
    events: seq<Event>)

  const FRESH := Session(End, [], 0, false, false, None, 0, [], 0, [])

  function Route(s: Session): Node {
    if s.loopDetected then FallbackNode
    else if s.requiresApproval then ApprovalGate
    else if s.messages != [] && s.messages[|s.messages| - 1].AI? && s.messages[|s.messages| - 1].calls != [] then ToolsNode
    else VerifyNode
  }

  /** Does the agent node stop the loop instead of following the model's response? */
  predicate Halts(agent: Agent, s: Session, calls: seq<ToolCall>) {
    var turn := s.messages[TurnStart(s.messages)..];
    || s.stepCount + 1 > MAX_TOTAL_STEPS
    || agent.guard.noProgress(turn)
    || exists call :: call in calls && agent.guard.repeats(call, turn)
  }

  /** The agent node's state update, given the model's response. */
  function AgentUpdate(agent: Agent, s: Session, content: Content, calls: seq<ToolCall>): Session {
    if Halts(agent, s, calls) then s.(stepCount := s.stepCount + 1, loopDetected := true)
    else
      var flagged := FlaggedCalls(agent, calls);
      s.(messages := s.messages + [AI(content, calls)], stepCount := s.stepCount + 1, loopDetected := false,
         requiresApproval := flagged != [], pending := if flagged != [] then Some(flagged) else None)
  }

  /** Following the conditional edge; entering the gate shows the pending action to the reviewer. */
  function Follow(s: Session): Session {
    var next := s.(node := Route(s), visits := s.visits + 1);
    if next.node.ApprovalGate? && s.pending.Some? then next.(events := s.events + [Requested(s.pending.value)]) else next
  }

  predicate AnswersCalls(results: seq<Message>, calls: seq<ToolCall>) {
    |results| == |calls| && forall i :: 0 <= i < |calls| ==> results[i].Tool? && results[i].callId == calls[i].id
  }

  ghost predicate AgentStep(agent: Agent, s: Session, t: Session) {
    s.node.AgentNode? && exists content, calls :: t == Follow(AgentUpdate(agent, s, content, calls))
  }

  /** The prebuilt tool node runs every call of the last message. */
  ghost predicate ToolsStep(s: Session, t: Session) {
    && s.node.ToolsNode? && s.messages != [] && s.messages[|s.messages| - 1].AI?
    && var calls := s.messages[|s.messages| - 1].calls;
       exists results :: AnswersCalls(results, calls)
         && t == s.(node := AgentNode, messages := s.messages + results, visits := s.visits + 1, events := s.events + [Executed(calls)])
  }

  ghost predicate DecideStep(s: Session, t: Session, approved: bool, notes: string) {
    && s.node.ApprovalGate?
    && var cleared := s.(requiresApproval := false, pending := None, visits := s.visits + 1);
       var calls := if s.pending.Some? then s.pending.value else [];
       if approved then t == cleared.(node := ToolsNode, events := s.events + [Approved(calls)])
       else
         var rejections := seq(|calls|, i requires 0 <= i < |calls| =>
                                 Tool(Plain("Action rejected by reviewer. Notes: " + notes), calls[i].id, calls[i].name, true));
         t == cleared.(node := End, events := s.events + [Rejected(calls)],
                       messages := s.messages + rejections + [AI(Plain("Action cancelled by the reviewer. Notes: " + notes), [])])
  }

  function Ungrounded(agent: Agent, messages: seq<Message>): seq<string> {
    if agent.verifier.None? || messages == [] then []
    else agent.verifier.value(Printed(messages[|messages| - 1].content), Sources(messages))
  }

  function VerifyUpdate(agent: Agent, s: Session, complaint: string): Session {
    var problems := Ungrounded(agent, s.messages);
    var visited := s.(visits := s.visits + 1);
    if problems == [] || s.messages == [] then visited.(node := End, messages := DropScaffolding(s.messages))
    else
      var init := s.messages[..|s.messages| - 1];
      if s.verifyAttempts < MAX_VERIFY_RETRIES then
        visited.(node := AgentNode, messages := init + [Human(Plain(complaint), true)], verifyAttempts := s.verifyAttempts + 1,
                 events := s.events + [Retried])
      else visited.(node := End, messages := DropScaffolding(init), ungrounded := problems)
  }

  ghost predicate VerifyStep(agent: Agent, s: Session, t: Session) {
    s.node.VerifyNode? && exists complaint :: t == VerifyUpdate(agent, s, complaint)
  }

  ghost predicate FallbackStep(s: Session, t: Session) {
    s.node.FallbackNode?
    && exists text :: t == s.(node := End, messages := s.messages + [AI(Plain(text), [])], loopDetected := false, visits := s.visits + 1)
  }

  /** `execute`: refused while the graph still has a next node. */
  ghost predicate AskStep(s: Session, t: Session, query: string) {
    if !s.node.End? then t == s
    else t == Session(AgentNode, s.messages + [Human(Plain(query), false)], 0, false, false, None, 0, [], 0, s.events + [Asked(query)])
  }

  ghost predicate NodeStep(agent: Agent, s: Session, t: Session) {
    || AgentStep(agent, s, t) || ToolsStep(s, t) || VerifyStep(agent, s, t) || FallbackStep(s, t)
    || exists approved, notes :: DecideStep(s, t, approved, notes)
  }

  ghost predicate Next(agent: Agent, s: Session, t: Session) {
    NodeStep(agent, s, t) || exists query :: AskStep(s, t, query)
  }

  ghost predicate IsRun(agent: Agent, run: seq<Session>) {
    && run != [] && run[0] == FRESH
    && forall k :: 0 <= k < |run| - 1 ==> Next(agent, run[k], run[k + 1])
  }

  // ---------------------------------------------------------------- approval safety

  /** Every execution with a flagged call directly follows an approval of exactly its flagged calls. */
  ghost predicate Sanctioned(agent: Agent, events: seq<Event>) {
    forall k :: 0 <= k < |events| && events[k].Executed? && FlaggedCalls(agent, events[k].calls) != [] ==>
      k > 0 && events[k - 1] == Approved(FlaggedCalls(agent, events[k].calls))
  }

  /** Every request is directly followed by its own decision; every decision answers its own request. */
  ghost predicate Bracketed(events: seq<Event>) {
    && (forall k :: 0 <= k < |events| - 1 && events[k].Requested? ==>
          events[k + 1] == Approved(events[k].calls) || events[k + 1] == Rejected(events[k].calls))
    && (forall k :: 0 <= k < |events| && (events[k].Approved? || events[k].Rejected?) ==>
          k > 0 && events[k - 1] == Requested(events[k].calls))
  }

  ghost predicate ApprovalInv(agent: Agent, s: Session) {
    && Sanctioned(agent, s.events) && Bracketed(s.events)
    && (s.events != [] && s.events[|s.events| - 1].Requested? ==> s.node.ApprovalGate?)
    && (s.node.ApprovalGate? ==> AwaitsDecision(agent, s))
    && (s.node.ToolsNode? ==> MayExecute(agent, s))
  }

  ghost predicate AwaitsDecision(agent: Agent, s: Session) {
    && s.messages != [] && s.messages[|s.messages| - 1].AI?
    && s.pending == Some(FlaggedCalls(agent, s.messages[|s.messages| - 1].calls))
    && s.events != [] && s.events[|s.events| - 1] == Requested(s.pending.value)
  }

  ghost predicate MayExecute(agent: Agent, s: Session) {
    && s.messages != [] && s.messages[|s.messages| - 1].AI?
    && var flagged := FlaggedCalls(agent, s.messages[|s.messages| - 1].calls);
       (flagged != [] ==> s.events != [] && s.events[|s.events| - 1] == Approved(flagged))
  }

  /** What may be appended to a well-formed history. */
  lemma HistoryGrows(agent: Agent, events: seq<Event>, event: Event)
    requires Sanctioned(agent, events) && Bracketed(events)
    requires events != [] && events[|events| - 1].Requested? ==>
               event == Approved(events[|events| - 1].calls) || event == Rejected(events[|events| - 1].calls)
    requires event.Approved? || event.Rejected? ==> events != [] && events[|events| - 1] == Requested(event.calls)
    requires event.Executed? && FlaggedCalls(agent, event.calls) != [] ==>
               events != [] && events[|events| - 1] == Approved(FlaggedCalls(agent, event.calls))
    ensures Sanctioned(agent, events + [event]) && Bracketed(events + [event])
  {
    var longer := events + [event];
    forall k | 0 <= k < |longer| - 1 && longer[k].Requested?
      ensures longer[k + 1] == Approved(longer[k].calls) || longer[k + 1] == Rejected(longer[k].calls)
    {
      if k == |events| - 1 { assert events[k].Requested?; }
    }
  }

  /** The ways out of the agent node. */
  lemma AgentOutcomes(agent: Agent, s: Session, content: Content, calls: seq<ToolCall>)
    ensures var t, flagged := Follow(AgentUpdate(agent, s, content, calls)), FlaggedCalls(agent, calls);
            if Halts(agent, s, calls) then t.node.FallbackNode? && t.events == s.events
            else
              && t.messages != [] && t.messages[|t.messages| - 1] == AI(content, calls)
              && (if flagged != [] then
                    t.node.ApprovalGate? && t.pending == Some(flagged) && t.events == s.events + [Requested(flagged)]
                  else t.events == s.events && t.node == if calls != [] then ToolsNode else VerifyNode)
  {
    hide Halts, FlaggedCalls;
  }

  lemma ResponseKeepsApproval(agent: Agent, s: Session, content: Content, calls: seq<ToolCall>)
    requires ApprovalInv(agent, s) && s.node.AgentNode?
    ensures ApprovalInv(agent, Follow(AgentUpdate(agent, s, content, calls)))
  {
    hide Sanctioned, Bracketed, FlaggedCalls, Halts, TurnStart, AgentUpdate, Follow, Route;
    AgentOutcomes(agent, s, content, calls);
    if !Halts(agent, s, calls) && FlaggedCalls(agent, calls) != [] {
      HistoryGrows(agent, s.events, Requested(FlaggedCalls(agent, calls)));
    }
  }

  lemma AgentKeepsApproval(agent: Agent, s: Session, t: Session)
    requires ApprovalInv(agent, s) && AgentStep(agent, s, t)
    ensures ApprovalInv(agent, t)
  {
    hide ApprovalInv, AgentUpdate, Follow;
    var content, calls :| t == Follow(AgentUpdate(agent, s, content, calls));
    ResponseKeepsApproval(agent, s, content, calls);
  }

  lemma DecisionKeepsApproval(agent: Agent, s: Session, t: Session, approved: bool, notes: string)
    requires ApprovalInv(agent, s) && DecideStep(s, t, approved, notes)
    ensures ApprovalInv(agent, t)
  {
    hide Sanctioned, Bracketed, FlaggedCalls;
    HistoryGrows(agent, s.events, if approved then Approved(s.pending.value) else Rejected(s.pending.value));
  }

  lemma OtherKeepsApproval(agent: Agent, s: Session, t: Session)
    requires ApprovalInv(agent, s)
    requires ToolsStep(s, t) || VerifyStep(agent, s, t) || FallbackStep(s, t) || exists query :: AskStep(s, t, query)
    ensures ApprovalInv(agent, t)
  {
    hide Sanctioned, Bracketed, FlaggedCalls;
    if t.events != s.events {
      HistoryGrows(agent, s.events, t.events[|t.events| - 1]);
      assert t.events == s.events + [t.events[|t.events| - 1]];
    }
  }

  lemma NodeKeepsApproval(agent: Agent, s: Session, t: Session)
    requires ApprovalInv(agent, s) && Next(agent, s, t)
    ensures ApprovalInv(agent, t)
  {
    hide ApprovalInv;
    if AgentStep(agent, s, t) {
      AgentKeepsApproval(agent, s, t);
    } else if approved, notes :| DecideStep(s, t, approved, notes) {
      DecisionKeepsApproval(agent, s, t, approved, notes);
    } else {
      OtherKeepsApproval(agent, s, t);
    }
  }

  lemma {:induction false} ApprovalAlways(agent: Agent, run: seq<Session>)
    requires IsRun(agent, run)
    ensures ApprovalInv(agent, run[|run| - 1])
  {
    if |run| > 1 {
      ApprovalAlways(agent, run[..|run| - 1]);
      assert Next(agent, run[|run| - 2], run[|run| - 2 + 1]);
      NodeKeepsApproval(agent, run[|run| - 2], run[|run| - 1]);
    }
  }

  /**
   * Approval safety, for every model, guard, reviewer and caller. A batch of calls that needs
   * approval is executed only directly after a reviewer approved exactly its flagged calls, which
   * were shown in the request directly before; and nothing, not even a new question, comes between
   * a request and its decision.
   */
  lemma FlaggedCallsNeedApproval(agent: Agent, run: seq<Session>, k: nat, call: ToolCall)
    requires IsRun(agent, run)
    requires k < |run[|run| - 1].events| && run[|run| - 1].events[k].Executed?
    requires call in run[|run| - 1].events[k].calls && Flagged(agent, call)
    ensures var events := run[|run| - 1].events;
            && k > 1 && events[k - 1].Approved? && call in events[k - 1].calls
            && events[k - 2] == Requested(events[k - 1].calls)
  {
    ApprovalAlways(agent, run);
    var events := run[|run| - 1].events;
    FlaggedIsListed(agent, events[k].calls, call);
    assert call in FlaggedCalls(agent, events[k].calls);
    assert events[k - 1] == Approved(FlaggedCalls(agent, events[k].calls));
    assert events[k - 1].Approved?;
  }

  lemma {:induction false} FlaggedIsListed(agent: Agent, calls: seq<ToolCall>, call: ToolCall)
    ensures call in FlaggedCalls(agent, calls) <==> call in calls && Flagged(agent, call)
  {
    if calls != [] {
      FlaggedIsListed(agent, calls[..|calls| - 1], call);
      assert calls == calls[..|calls| - 1] + [calls[|calls| - 1]];
    }
  }

  lemma HistoryOnlyGrows(agent: Agent, s: Session, t: Session)
    requires Next(agent, s, t)
    ensures s.events <= t.events
  {
    hide AgentUpdate, VerifyUpdate, Route;
    if AgentStep(agent, s, t) {
      var content, calls :| t == Follow(AgentUpdate(agent, s, content, calls));
      SameEvents(agent, s, content, calls);
    } else if VerifyStep(agent, s, t) {
      var complaint :| t == VerifyUpdate(agent, s, complaint);
      VerifyEvents(agent, s, complaint);
    }
  }

  lemma SameEvents(agent: Agent, s: Session, content: Content, calls: seq<ToolCall>)
    ensures AgentUpdate(agent, s, content, calls).events == s.events
  {
    hide Halts, FlaggedCalls;
  }

  lemma VerifyEvents(agent: Agent, s: Session, complaint: string)
    ensures s.events <= VerifyUpdate(agent, s, complaint).events
  {
    hide Ungrounded, DropScaffolding;
  }

  lemma {:induction false} RunPrefix(agent: Agent, run: seq<Session>, n: nat)
    requires IsRun(agent, run) && n < |run|
    ensures IsRun(agent, run[..n + 1])
  {
    hide Next;
  }

  /**
   * From the moment a request is shown, the session stays exactly as it is, whatever is asked in the
   * meantime, until a decision on that very request; and the history keeps that decision next.
   */
  lemma {:induction false} PendingCannotBeReplaced(agent: Agent, run: seq<Session>, m: nat, n: nat)
    requires IsRun(agent, run) && m <= n < |run| && run[m].node.ApprovalGate?
    ensures run[m].pending.Some?
    ensures var (before, after) := (run[m].events, run[n].events);
            || run[n] == run[m]
            || (|before| < |after| && before == after[..|before|]
                && (after[|before|] == Approved(run[m].pending.value) || after[|before|] == Rejected(run[m].pending.value)))
    decreases n
  {
    hide Next, ApprovalInv;
    RunPrefix(agent, run, m);
    ApprovalAlways(agent, run[..m + 1]);
    assert run[..m + 1][m] == run[m];
    GateHasPending(agent, run[m]);
    if m < n {
      PendingCannotBeReplaced(agent, run, m, n - 1);
      assert Next(agent, run[n - 1], run[n - 1 + 1]);
      HistoryOnlyGrows(agent, run[n - 1], run[n]);
      if run[n - 1] == run[m] { GateOutcomes(agent, run[m], run[n]); }
    }
  }

  lemma GateHasPending(agent: Agent, s: Session)
    requires ApprovalInv(agent, s) && s.node.ApprovalGate?
    ensures s.pending.Some?
  {}

  lemma GateOutcomes(agent: Agent, s: Session, t: Session)
    requires s.node.ApprovalGate? && s.pending.Some? && Next(agent, s, t)
    ensures t == s || t.events == s.events + [Approved(s.pending.value)] || t.events == s.events + [Rejected(s.pending.value)]
  {
    if approved, notes :| DecideStep(s, t, approved, notes) {
    }
  }

  // ---------------------------------------------------------------- budgets

  /** Feedback rounds since the last question. */
  ghost function Retries(events: seq<Event>): nat {
    if events == [] || events[|events| - 1].Asked? then 0
    else Retries(events[..|events| - 1]) + if events[|events| - 1].Retried? then 1 else 0
  }

  ghost function VisitBound(node: Node, stepCount: nat): int {
    match node
    case AgentNode => 3 * stepCount
    case ToolsNode => 3 * stepCount - 1
    case End => 3 * stepCount
    case _ => 3 * stepCount - 2
  }

  ghost predicate BudgetInv(s: Session) {
    && s.verifyAttempts <= MAX_VERIFY_RETRIES && Retries(s.events) == s.verifyAttempts
    && s.stepCount <= MAX_TOTAL_STEPS + 1
    && s.visits <= VisitBound(s.node, s.stepCount)
    && (s.node.AgentNode? ==> s.stepCount <= MAX_TOTAL_STEPS)
    && (s.node.ToolsNode? || s.node.ApprovalGate? || s.node.VerifyNode? ==> 1 <= s.stepCount <= MAX_TOTAL_STEPS)
    && (s.node.VerifyNode? ==> s.messages != [] && s.messages[|s.messages| - 1].AI?)
    && (!s.node.End? ==> s.ungrounded == [])
  }

  lemma RetriesAppend(events: seq<Event>, event: Event)
    ensures Retries(events + [event]) == if event.Asked? then 0 else Retries(events) + if event.Retried? then 1 else 0
  {
    assert (events + [event])[..|events|] == events;
  }

  lemma AgentKeepsBudget(agent: Agent, s: Session, t: Session)
    requires BudgetInv(s) && AgentStep(agent, s, t)
    ensures BudgetInv(t)
  {
    hide FlaggedCalls, TurnStart, Retries;
    var content, calls :| t == Follow(AgentUpdate(agent, s, content, calls));
    AgentOutcomes(agent, s, content, calls);
    RetriesAppend(s.events, Requested(FlaggedCalls(agent, calls)));
  }

  lemma VerifyKeepsBudget(agent: Agent, s: Session, t: Session)
    requires BudgetInv(s) && VerifyStep(agent, s, t)
    ensures BudgetInv(t)
  {
    hide DropScaffolding, Ungrounded;
    RetriesAppend(s.events, Retried);
  }

  lemma ToolsKeepBudget(s: Session, t: Session)
    requires BudgetInv(s) && ToolsStep(s, t)
    ensures BudgetInv(t)
  {
    RetriesAppend(s.events, Executed(s.messages[|s.messages| - 1].calls));
  }

  lemma AskKeepsBudget(s: Session, t: Session, query: string)
    requires BudgetInv(s) && AskStep(s, t, query)
    ensures BudgetInv(t)
  {
    RetriesAppend(s.events, Asked(query));
  }

  lemma DecisionKeepsBudget(s: Session, t: Session, approved: bool, notes: string)
    requires BudgetInv(s) && DecideStep(s, t, approved, notes)
    ensures BudgetInv(t)
  {
    var calls := if s.pending.Some? then s.pending.value else [];
    RetriesAppend(s.events, if approved then Approved(calls) else Rejected(calls));
  }

  lemma StepKeepsBudget(agent: Agent, s: Session, t: Session)
    requires BudgetInv(s) && Next(agent, s, t)
    ensures BudgetInv(t)
  {
    hide BudgetInv, AskStep, DecideStep, AgentStep, VerifyStep, ToolsStep;
    if AgentStep(agent, s, t) {
      AgentKeepsBudget(agent, s, t);
    } else if VerifyStep(agent, s, t) {
      VerifyKeepsBudget(agent, s, t);
    } else if ToolsStep(s, t) {
      ToolsKeepBudget(s, t);
    } else if query :| AskStep(s, t, query) {
      AskKeepsBudget(s, t, query);
    } else if approved, notes :| DecideStep(s, t, approved, notes) {
      DecisionKeepsBudget(s, t, approved, notes);
    } else {
      FallbackKeepsBudget(s, t);
    }
  }

  lemma FallbackKeepsBudget(s: Session, t: Session)
    requires BudgetInv(s) && FallbackStep(s, t)
    ensures BudgetInv(t)
  {}

  lemma FreshBudget()
    ensures BudgetInv(FRESH)
  {}

  lemma {:induction false} BudgetAlways(agent: Agent, run: seq<Session>)
    requires IsRun(agent, run)
    ensures BudgetInv(run[|run| - 1])
  {
    hide BudgetInv, Next;
    FreshBudget();
    if |run| > 1 {
      BudgetAlways(agent, run[..|run| - 1]);
      assert Next(agent, run[|run| - 2], run[|run| - 2 + 1]);
      StepKeepsBudget(agent, run[|run| - 2], run[|run| - 1]);
    }
  }

  /** Each question costs a bounded number of agent visits, node visits and feedback rounds. */
  lemma QueriesAreBounded(agent: Agent, run: seq<Session>)
    requires IsRun(agent, run)
    ensures run[|run| - 1].stepCount <= MAX_TOTAL_STEPS + 1
    ensures Retries(run[|run| - 1].events) <= MAX_VERIFY_RETRIES
    ensures run[|run| - 1].visits <= 3 * (MAX_TOTAL_STEPS + 1) < RECURSION_LIMIT
  {
    BudgetAlways(agent, run);
  }

  ghost function NodeRank(node: Node): nat {
    match node
    case End => 0
    case AgentNode => 1
    case FallbackNode => 1
    case ToolsNode => 2
    case VerifyNode => 2
    case ApprovalGate => 3
  }

  ghost predicate Descends(s: Session, t: Session) {
    var left, left' := MAX_TOTAL_STEPS + 1 - s.stepCount, MAX_TOTAL_STEPS + 1 - t.stepCount;
    0 <= left' && (left' < left || (left' == left && NodeRank(t.node) < NodeRank(s.node)))
  }

  lemma AgentStepDescends(agent: Agent, s: Session, t: Session)
    requires BudgetInv(s) && AgentStep(agent, s, t)
    ensures Descends(s, t)
  {
    hide TurnStart, FlaggedCalls, Halts;
  }

  /** Every node step lowers the remaining budget, and at equal budget the rank of the node. */
  lemma NodeStepsDescend(agent: Agent, run: seq<Session>, t: Session)
    requires IsRun(agent, run) && NodeStep(agent, run[|run| - 1], t)
    ensures Descends(run[|run| - 1], t)
  {
    hide AgentStep, Ungrounded, DropScaffolding, Retries, Next;
    BudgetAlways(agent, run);
    if AgentStep(agent, run[|run| - 1], t) { AgentStepDescends(agent, run[|run| - 1], t); }
  }

  /** Outside a finished session some node can always take its step. */
  lemma {:induction false} SessionsGoOn(agent: Agent, run: seq<Session>) returns (t: Session)
    requires IsRun(agent, run) && !run[|run| - 1].node.End?
    ensures NodeStep(agent, run[|run| - 1], t)
  {
    hide Sanctioned, Bracketed, FlaggedCalls, AgentUpdate, VerifyUpdate, Follow;
    var s := run[|run| - 1];
    ApprovalAlways(agent, run);
    match s.node
    case AgentNode =>
      t := Follow(AgentUpdate(agent, s, Plain(""), []));
      assert AgentStep(agent, s, t);
    case ToolsNode =>
      var calls := s.messages[|s.messages| - 1].calls;
      var results := seq(|calls|, i requires 0 <= i < |calls| => Tool(Plain(""), calls[i].id, calls[i].name, false));
      assert AnswersCalls(results, calls);
      t := s.(node := AgentNode, messages := s.messages + results, visits := s.visits + 1, events := s.events + [Executed(calls)]);
      assert ToolsStep(s, t);
    case ApprovalGate =>
      t := s.(requiresApproval := false, pending := None, visits := s.visits + 1, node := ToolsNode,
              events := s.events + [Approved(if s.pending.Some? then s.pending.value else [])]);
      assert DecideStep(s, t, true, "");
    case VerifyNode =>
      t := VerifyUpdate(agent, s, "");
      assert VerifyStep(agent, s, t);
    case FallbackNode =>
      t := s.(node := End, messages := s.messages + [AI(Plain(""), [])], loopDetected := false, visits := s.visits + 1);
      assert FallbackStep(s, t);
  }

  /** Only node steps, from one session of the run to the next. */
  ghost predicate Undisturbed(agent: Agent, run: seq<Session>, from: nat) {
    forall k :: from <= k < |run| - 1 ==> NodeStep(agent, run[k], run[k + 1])
  }

  lemma RunGrows(agent: Agent, run: seq<Session>, t: Session)
    requires IsRun(agent, run) && NodeStep(agent, run[|run| - 1], t)
    ensures IsRun(agent, run + [t])
  {
    hide NodeStep;
  }

  /** Every question comes to an end: from any session the nodes alone lead out of the graph. */
  lemma {:induction false} EveryQuestionCanEnd(agent: Agent, run: seq<Session>) returns (full: seq<Session>)
    requires IsRun(agent, run)
    ensures IsRun(agent, full) && run <= full && full[|full| - 1].node.End?
    ensures Undisturbed(agent, full, |run| - 1)
    decreases MAX_TOTAL_STEPS + 1 - run[|run| - 1].stepCount, NodeRank(run[|run| - 1].node)
  {
    hide Next, NodeStep, NodeRank;
    full := run;
    if !run[|run| - 1].node.End? {
      var t := SessionsGoOn(agent, run);
      NodeStepsDescend(agent, run, t);
      RunGrows(agent, run, t);
      var longer := run + [t];
      assert longer[|run|] == t && longer[|run| - 1] == run[|run| - 1];
      full := EveryQuestionCanEnd(agent, longer);
      assert full[|run| - 1] == longer[|run| - 1] && full[|run|] == longer[|run|];
      assert run <= longer <= full;
    }
  }

  // ---------------------------------------------------------------- grounded answers

  lemma {:induction false} SourcesConcat(a: seq<Message>, b: seq<Message>)
    ensures Sources(a + b) == Sources(a) + Sources(b)
  {
    if b == [] {
      assert a + b == a;
    } else {
      SourcesConcat(a, b[..|b| - 1]);
      assert (a + b)[..|a + b| - 1] == a + b[..|b| - 1];
    }
  }

  lemma {:induction false} FeedbackIsNoSource(messages: seq<Message>)
    ensures Sources(WithoutFeedback(messages)) == Sources(messages)
    ensures forall m :: m in WithoutFeedback(messages) ==> m in messages && !IsFeedback(m)
  {
    if messages != [] {
      var init, last := messages[..|messages| - 1], messages[|messages| - 1];
      FeedbackIsNoSource(init);
      assert messages == init + [last];
      if last.Human? && last.feedback {
        assert WithoutFeedback(messages) == WithoutFeedback(init);
      } else {
        assert (WithoutFeedback(init) + [last])[..|WithoutFeedback(init)|] == WithoutFeedback(init);
      }
    }
  }

  lemma ScaffoldingIsNoSource(messages: seq<Message>)
    requires messages != [] && messages[|messages| - 1].AI?
    ensures Sources(DropScaffolding(messages)) == Sources(messages)
    ensures DropScaffolding(messages) != []
    ensures DropScaffolding(messages)[|DropScaffolding(messages)| - 1] == messages[|messages| - 1]
  {
    hide Sources;
    var start := TurnStart(messages);
    var tail := messages[start..];
    assert messages == messages[..start] + tail;
    SourcesConcat(messages[..start], tail);
    SourcesConcat(messages[..start], WithoutFeedback(tail));
    FeedbackIsNoSource(tail);
    assert start == TurnStart(messages[..|messages| - 1]);
    assert tail[|tail| - 1] == messages[|messages| - 1];
  }

  lemma NoFeedbackRemains(messages: seq<Message>)
    ensures forall k :: TurnStart(messages) <= k < |DropScaffolding(messages)| ==>
              DropScaffolding(messages)[k] in messages && !IsFeedback(DropScaffolding(messages)[k])
  {
    var start := TurnStart(messages);
    FeedbackIsNoSource(messages[start..]);
    forall k | start <= k < |DropScaffolding(messages)|
      ensures DropScaffolding(messages)[k] in messages && !IsFeedback(DropScaffolding(messages)[k])
    {
      assert DropScaffolding(messages)[k] in WithoutFeedback(messages[start..]);
    }
  }

  predicate IsFeedback(m: Message) {
    m.Human? && m.feedback
  }

  /**
   * Leaving the graph through verify either returns an answer that passes the verifier, as printed,
   * against every source in the final transcript, or reports the ungrounded values and has removed the
   * answer; no feedback of the current turn remains either way. An answer that is a text is verified as
   * it is returned.
   */
  lemma VerifiedAnswersAreGrounded(agent: Agent, run: seq<Session>, t: Session)
    requires IsRun(agent, run) && VerifyStep(agent, run[|run| - 1], t) && t.node.End?
    ensures var s := run[|run| - 1];
            if t.ungrounded == [] then
              && t.messages != [] && t.messages[|t.messages| - 1] == s.messages[|s.messages| - 1]
              && Ungrounded(agent, t.messages) == []
              && (agent.verifier.Some? && t.messages[|t.messages| - 1].content.Plain? ==>
                    agent.verifier.value(PlainText(t.messages[|t.messages| - 1].content), Sources(t.messages)) == [])
            else
              && t.ungrounded == Ungrounded(agent, s.messages) && Retries(t.events) == MAX_VERIFY_RETRIES
              && t.messages == DropScaffolding(s.messages[..|s.messages| - 1])
    ensures forall k :: TurnStart(run[|run| - 1].messages) <= k < |t.messages| ==> !IsFeedback(t.messages[k])
  {
    hide DropScaffolding, Sources, Retries, Next;
    var s := run[|run| - 1];
    BudgetAlways(agent, run);
    ScaffoldingIsNoSource(s.messages);
    NoFeedbackRemains(s.messages);
    NoFeedbackRemains(s.messages[..|s.messages| - 1]);
  }

  /** Every verifier has seen the text that is returned exactly when the content prints as that text. */
  lemma {:induction false} ReturnedIsVerifiedIff(messages: seq<Message>, answer: Message)
    ensures (forall agent: Agent :: agent.verifier.Some? && Ungrounded(agent, messages + [answer]) == [] ==>
               agent.verifier.value(PlainText(answer.content), Sources(messages + [answer])) == [])
            <==> Printed(answer.content) == PlainText(answer.content)
  {
    var printed := Printed(answer.content);
    var picky := Agent(None, map[], Guard(_ => false, (_, _) => false), Some((text: string, _) => if text == printed then [] else ["?"]));
    assert Ungrounded(picky, messages + [answer]) == [];
  }

  /** An answer in blocks need not. */
  lemma {:induction false} BlocksPrintOtherwise()
    ensures Printed(Blocks("['7']", ["7"])) != PlainText(Blocks("['7']", ["7"]))
  {
    var texts: seq<string> := ["7"];
    assert texts[..0] == [] && Flatten(texts) == "7";
  }
}
