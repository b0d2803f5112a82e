/** Answers of the host application, which the orchestrator calls and never sees inside. */
module Host {
  /** What a host call may raise: the two completion errors with their own handlers, an OSError, any other exception,
      or one that `except Exception` does not catch, such as a cancellation or an interrupt. */
  datatype Failure = StaleError | SchemaError | OsError | OtherError | Fatal

  datatype Ans<+T> = Got(value: T) | Raised(error: Failure)
}

/** Completion scanning: what one detected completion makes the orchestrator do, for every answer of the host. */
module CompletionScan {
  import opened Text
  import opened Host

  // ----- host answers -----

  datatype EngineAnswer =
    | NoWorkflow
    | Workflow(applied: bool, terminal: bool, activeAgent: string)

  datatype LaunchAnswer = LaunchAnswer(pid: int, tool: string)

  /** One answer for every host call a turn can make; a turn makes each at most once. */
  datatype Answers = Answers(
    age: Option<real>,                    // age of the completion file, None where reading it raises OSError
    staleExpected: Ans<Option<string>>,   // get_expected_running_agent
    runningBefore: Ans<bool>,             // is_process_running
    repo: Ans<string>,                    // resolve_project, resolve_repo
    engine: Ans<EngineAnswer>,            // complete_step_fn
    tracker: Ans<()>,                     // load_launched_agents, save_launched_agents
    finalize: Ans<()>,                    // finalize_workflow
    openBefore: Ans<Option<bool>>,        // is_issue_open
    posted: Ans<bool>,                    // post_completion_comment
    openAfter: Ans<Option<bool>>,         // is_issue_open after a failed post
    blockedAlert: Ans<bool>,              // send_alert: chain blocked
    transitionAlert: Ans<bool>,           // send_alert: transition
    runningAfter: Ans<bool>,              // is_process_running before the launch
    launch: Ans<LaunchAnswer>,            // launch_agent
    failedAlert: Ans<bool>,               // send_alert: launch failed
    schemaAlert: Ans<bool>)               // send_alert in the schema-error handler

  /** A detected completion as the scan sees it. */
  datatype Detection = Detection(key: string, issue: string, agent: string, nextAgent: string)

  // ----- agent references -----

  const TERMINAL: set<string> := {"none", "n/a", "null", "no", "end", "done", "finish", "complete", ""}

  /** CompletionSummary.is_workflow_done and _is_terminal */
  predicate IsTerminal(agentRef: string) { Lower(Strip(agentRef)) in TERMINAL }

  predicate IsBacktick(c: char) { c == '`' }

  predicate IsParen(c: char) { c == '(' || c == ')' }

  function SuffixWithoutParens(s: string): (r: string)
    ensures |r| <= |s|
  {
    if s == "" || IsParen(s[|s| - 1]) then "" else SuffixWithoutParens(s[..|s| - 1]) + [s[|s| - 1]]
  }

  /** The text of a trailing "(...)" without inner parentheses, as the regular expression \(([^()]+)\)\s*$ finds it. */
  function TrailingAlias(s: string): Option<string> {
    var t := RStripBy(IsSpace, s);
    if t == "" || t[|t| - 1] != ')' then None
    else
      var inner := t[..|t| - 1];
      var body := SuffixWithoutParens(inner);
      if body != "" && |body| < |inner| && inner[|inner| - |body| - 1] == '(' then Some(body) else None
  }

  /** What is left of a reference without the decoration around it. */
  function Bare(agentRef: string): string { StripBy(IsBacktick, Strip(LStripBy(IsAt, Strip(agentRef)))) }

  /** _canonical_agent_ref */
  function CanonicalAgentRef(agentRef: string): string {
    var raw := Bare(agentRef);
    if raw == "" then ""
    else match TrailingAlias(raw)
      case Some(alias) => Lower(Strip(alias))
      case None => Lower(raw)
  }

  /** The replay guard's comparison of the expected agent with the completed one. */
  predicate SameAgent(expected: string, agent: string) {
    LStripBy(IsAt, Lower(Strip(expected))) == LStripBy(IsAt, Lower(Strip(agent)))
  }

  // ----- one turn -----

  /** The host calls that matter, in order. `delivered` and `returned` tell that the call succeeded. */
  datatype Effect =
    | Comment(key: string, next: string, delivered: bool)
    | TransitionAlert(key: string)
    | Launch(key: string, issue: string, agent: string)
    | Finalize(key: string, returned: bool)

  /** What a turn leaves: whether its key was added to the dedup set, its effects, and whether an exception escaped. */
  datatype Turn = Turn(closed: bool, effects: seq<Effect>, escaped: bool)

  /** The exception handlers around a turn. The schema handler's own alert is not guarded, and a fatal exception passes
      all of them. */
  function Handle(e: Failure, closed: bool, effects: seq<Effect>, a: Answers): Turn {
    match e
    case StaleError => Turn(true, effects, false)
    case SchemaError => Turn(true, effects, a.schemaAlert.Raised?)
    case OsError => Turn(closed, effects, false)
    case OtherError => Turn(closed, effects, false)
    case Fatal => Turn(closed, effects, true)
  }

  function Nothing(): Turn { Turn(false, [], false) }

  function Close(effects: seq<Effect>): Turn { Turn(true, effects, false) }

  /** Is the completion an old one that nothing expects any more? None where the question raises. */
  function IsReplay(d: Detection, a: Answers, stale: Option<int>): Ans<bool> {
    if stale.None? || stale.value <= 0 || a.age.None? || a.age.value <= stale.value as real then Got(false)
    else match a.staleExpected
      case Raised(OsError) => Got(false)
      case Raised(e) => Raised(e)
      case Got(expected) => Got(expected.None? || !SameAgent(expected.value, d.agent))
  }

  function ProcessDetection(d: Detection, a: Answers, stale: Option<int>): Turn {
    match IsReplay(d, a, stale)
    case Raised(e) => Handle(e, false, [], a)
    case Got(replay) =>
      if replay then Close([])
      else match a.runningBefore
        case Raised(e) => Handle(e, false, [], a)
        case Got(running) =>
          if running then Nothing()
          else match a.repo
            case Raised(e) => Handle(e, false, [], a)
            case Got(_) =>
              match a.engine
              case Raised(e) => Handle(e, false, [], a)
              case Got(w) => Route(d, a, w)
  }

  /** What the engine's answer leads to. */
  function Route(d: Detection, a: Answers, w: EngineAnswer): Turn {
    match w
    case NoWorkflow =>
      if IsTerminal(d.nextAgent) || IsTerminal(Strip(d.nextAgent)) then Done(d, a) else Chain(d, a, Strip(d.nextAgent))
    case Workflow(applied, terminal, active) =>
      if !applied then Close([])
      else if terminal then Done(d, a)
      else if active == "" then Nothing()
      else
        var completed, next := CanonicalAgentRef(d.agent), CanonicalAgentRef(active);
        if IsTerminal(d.nextAgent) && completed != "" && next != "" && completed == next then Done(d, a)
        else Chain(d, a, active)
  }

  /** _handle_workflow_done, then the dedup key. */
  function Done(d: Detection, a: Answers): Turn {
    match a.tracker
    case Raised(e) => Handle(e, false, [], a)
    case Got(_) =>
      match a.finalize
      case Raised(e) => Handle(e, false, [Finalize(d.key, false)], a)
      case Got(_) => Close([Finalize(d.key, true)])
  }

  /** Deliver the comment for the next agent. */
  function Chain(d: Detection, a: Answers, next: string): Turn {
    match a.openBefore
    case Raised(e) => Handle(e, false, [], a)
    case Got(open) =>
      if open == Some(false) then Close([])
      else match a.posted
        case Raised(e) => Handle(e, false, [Comment(d.key, next, false)], a)
        case Got(delivered) =>
          if delivered then Advance(d, a, next) else Blocked(d, a, [Comment(d.key, next, false)])
  }

  /** The comment was not delivered. */
  function Blocked(d: Detection, a: Answers, effects: seq<Effect>): Turn {
    match a.openAfter
    case Raised(e) => Handle(e, false, effects, a)
    case Got(open) =>
      if open == Some(false) then Close(effects)
      else match a.blockedAlert
        case Raised(e) => Handle(e, false, effects, a)
        case Got(_) => Turn(false, effects, false)
  }

  predicate QuietSkip(tool: string) {
    tool in {"duplicate-suppressed", "workflow-terminal", "launch-skipped"}
  }

  /** The comment was delivered and the key closed: announce and launch the next agent. */
  function Advance(d: Detection, a: Answers, next: string): Turn {
    var commented := [Comment(d.key, next, true)];
    match a.transitionAlert
    case Raised(e) => Handle(e, true, commented, a)
    case Got(_) =>
      var announced := commented + [TransitionAlert(d.key)];
      match a.runningAfter
      case Raised(e) => Handle(e, true, announced, a)
      case Got(running) =>
        if running then Close(announced)
        else
          var launched := announced + [Launch(d.key, d.issue, next)];
          match a.launch
          case Raised(e) => Handle(e, true, launched, a)
          case Got(answer) =>
            if answer.pid == 0 && !QuietSkip(answer.tool) && a.failedAlert.Raised? then
              Handle(a.failedAlert.error, true, launched, a)
            else Close(launched)
  }

  /** The manual route's second terminal test repeats the first, so its reason "terminal-agent-ref" never occurs. */
  lemma TerminalTestsAgree(agentRef: string)
    ensures IsTerminal(Strip(agentRef)) == IsTerminal(agentRef)
  {
    hide StripBy;
  }

  // ----- laws of one turn -----

  /** The effect that settles a key for good: a delivered comment or a finalisation that returned. */
  predicate Settles(e: Effect, key: string) {
    match e
    case Comment(k, _, delivered) => k == key && delivered
    case Finalize(k, returned) => k == key && returned
    case _ => false
  }

  /** The effects of a turn whose comment was delivered. */
  predicate AdvanceShape(d: Detection, next: string, effects: seq<Effect>) {
    || effects == [Comment(d.key, next, true)]
    || effects == [Comment(d.key, next, true), TransitionAlert(d.key)]
    || effects == [Comment(d.key, next, true), TransitionAlert(d.key), Launch(d.key, d.issue, next)]
  }

  /** The only effects a turn can have, all of its own key; the settling ones come with the key closed. */
  ghost predicate Shaped(d: Detection, t: Turn) {
    || t.effects == []
    || t.effects == [Finalize(d.key, false)]
    || (t.effects == [Finalize(d.key, true)] && t.closed)
    || (exists next :: t.effects == [Comment(d.key, next, false)])
    || (t.closed && exists next :: AdvanceShape(d, next, t.effects))
  }

  lemma AdvanceShaped(d: Detection, a: Answers, next: string)
    ensures var t := Advance(d, a, next);
            && t.closed && AdvanceShape(d, next, t.effects)
            && (|t.effects| == 3 ==> a.runningAfter == Got(false))
  {
  }

  lemma ChainShaped(d: Detection, a: Answers, next: string)
    ensures Shaped(d, Chain(d, a, next))
  {
    hide Advance;
    AdvanceShaped(d, a, next);
  }

  lemma TurnShaped(d: Detection, a: Answers, stale: Option<int>)
    ensures Shaped(d, ProcessDetection(d, a, stale))
  {
    hide CanonicalAgentRef, IsTerminal, SameAgent, Strip, Chain, IsReplay;
    if a.engine.Got? {
      match a.engine.value {
        case NoWorkflow => ChainShaped(d, a, Strip(d.nextAgent));
        case Workflow(_, _, active) => ChainShaped(d, a, active);
      }
    }
  }

  /** The agent a completion hands over to: the engine's active agent, or without a workflow the payload's own
      next agent; None where the workflow ends or waits. */
  function NextAgent(d: Detection, w: EngineAnswer): Option<string> {
    match w
    case NoWorkflow => if IsTerminal(d.nextAgent) then None else Some(Strip(d.nextAgent))
    case Workflow(applied, terminal, active) =>
      if !applied || terminal || active == "" then None
      else if IsTerminal(d.nextAgent) && CanonicalAgentRef(d.agent) == CanonicalAgentRef(active) != "" then None
      else Some(active)
  }

  /** A comment is posted, and an agent launched, only for the hand-over the engine or the payload names, for a
      process that is not running and an issue not known to be closed; a launch only after the comment was
      delivered and while still no process runs. */
  lemma HandOverJustified(d: Detection, a: Answers, stale: Option<int>, i: nat)
    requires i < |ProcessDetection(d, a, stale).effects|
    ensures var e := ProcessDetection(d, a, stale).effects[i];
            && (e.Comment? ==> a.engine.Got? && NextAgent(d, a.engine.value) == Some(e.next)
                               && a.runningBefore == Got(false)
                               && a.openBefore.Got? && a.openBefore.value != Some(false)
                               && (e.delivered <==> a.posted == Got(true)))
            && (e.Launch? ==> a.engine.Got? && NextAgent(d, a.engine.value) == Some(e.agent) && a.posted == Got(true)
                              && a.runningAfter == Got(false))
            && (e.Finalize? ==> a.engine.Got? && NextAgent(d, a.engine.value) == None && a.tracker.Got?)
  {
    hide CanonicalAgentRef, IsTerminal, SameAgent, Strip, IsReplay, Chain;
    if a.engine.Got? {
      TerminalTestsAgree(d.nextAgent);
      match a.engine.value {
        case NoWorkflow => ChainJustified(d, a, Strip(d.nextAgent));
        case Workflow(_, _, active) => ChainJustified(d, a, active);
      }
    }
  }

  lemma ChainJustified(d: Detection, a: Answers, next: string)
    ensures var fx := Chain(d, a, next).effects;
            forall i :: 0 <= i < |fx| ==>
              && !fx[i].Finalize?
              && (fx[i].Comment? ==> fx[i].next == next && a.openBefore.Got? && a.openBefore.value != Some(false) &&
                                     (fx[i].delivered <==> a.posted == Got(true)))
              && (fx[i].Launch? ==> fx[i].agent == next && a.posted == Got(true) && a.runningAfter == Got(false))
  {
    hide Advance;
    AdvanceShaped(d, a, next);
  }

  // ----- which exception ends a turn, and when the key is closed -----

  function ErrorOf<T>(x: Ans<T>): Option<Failure> { if x.Raised? then Some(x.error) else None }

  /** The engine answered and the workflow is over: terminal, or the completion itself says so. */
  predicate WorkflowOver(d: Detection, w: EngineAnswer) {
    NextAgent(d, w).None? && (w.Workflow? ==> w.applied && (w.terminal || w.activeAgent != ""))
  }

  /** The replay guard applies: the completion is older than a positive limit. */
  predicate Aged(a: Answers, stale: Option<int>) {
    stale.Some? && stale.value > 0 && a.age.Some? && a.age.value > stale.value as real
  }

  /** The guard lets a completion pass that is not old, whose expectation cannot be read, or that is still expected. */
  predicate Fresh(d: Detection, a: Answers, stale: Option<int>) {
    || !Aged(a, stale)
    || a.staleExpected == Raised(OsError)
    || (a.staleExpected.Got? && a.staleExpected.value.Some? && SameAgent(a.staleExpected.value.value, d.agent))
  }

  /** The guards before the engine's answer let the turn pass. */
  predicate Reaches(d: Detection, a: Answers, stale: Option<int>) {
    Fresh(d, a, stale) && a.runningBefore == Got(false) && a.repo.Got? && a.engine.Got?
  }

  lemma FreshIff(d: Detection, a: Answers, stale: Option<int>)
    ensures IsReplay(d, a, stale) == Got(false) <==> Fresh(d, a, stale)
    ensures IsReplay(d, a, stale) == Got(true) <==> !Fresh(d, a, stale) && a.staleExpected.Got?
  {
    hide SameAgent;
  }

  /** The launch failed loudly, so that its own alert is sent. */
  predicate LaunchFailed(a: Answers) {
    && a.launch.Got? && a.launch.value.pid == 0
    && a.launch.value.tool !in {"duplicate-suppressed", "workflow-terminal", "launch-skipped"}
  }

  /** The first host call to raise once the issue's next agent is known: the calls in order, as far as they are made. */
  function HandOverError(a: Answers): Option<Failure> {
    if a.openBefore.Raised? then Some(a.openBefore.error)
    else if a.openBefore.value == Some(false) then None
    else if a.posted.Raised? then Some(a.posted.error)
    else if !a.posted.value then
      if a.openAfter.Raised? || a.openAfter.value == Some(false) then ErrorOf(a.openAfter) else ErrorOf(a.blockedAlert)
    else if a.transitionAlert.Raised? then Some(a.transitionAlert.error)
    else if a.runningAfter.Raised? || a.runningAfter.value then ErrorOf(a.runningAfter)
    else if a.launch.Raised? then Some(a.launch.error)
    else if LaunchFailed(a) then ErrorOf(a.failedAlert)
    else None
  }

  /** The first host call of a turn to raise an exception that the turn does not ignore. */
  function FirstError(d: Detection, a: Answers, stale: Option<int>): Option<Failure> {
    if !Fresh(d, a, stale) then ErrorOf(a.staleExpected)
    else if a.runningBefore.Raised? || a.runningBefore.value then ErrorOf(a.runningBefore)
    else if a.repo.Raised? then Some(a.repo.error)
    else if a.engine.Raised? then Some(a.engine.error)
    else if WorkflowOver(d, a.engine.value) then
      if a.tracker.Raised? then Some(a.tracker.error) else ErrorOf(a.finalize)
    else if NextAgent(d, a.engine.value).Some? then HandOverError(a)
    else None
  }

  /** The issue is known to be closed, before the comment or after it failed, or the comment was delivered. */
  predicate HandOverSettled(a: Answers) {
    a.openBefore.Got? && (a.openBefore.value == Some(false) || a.posted == Got(true) ||
                          (a.posted == Got(false) && a.openAfter == Got(Some(false))))
  }

  /** An exception that ends a turn escapes it: a fatal one, or the schema error when the alert its handler sends raises
      as well. */
  predicate Uncaught(error: Option<Failure>, a: Answers) {
    error == Some(Fatal) || (error == Some(SchemaError) && a.schemaAlert.Raised?)
  }

  /** The answers let an exception escape the turn. */
  predicate Escapes(d: Detection, a: Answers, stale: Option<int>) { Uncaught(FirstError(d, a, stale), a) }

  /** The answers close the dedup key: an old completion nothing expects, one the engine calls a no-op, a
      finalisation that returned, a hand-over that is settled, or one of the two completion errors. */
  predicate Closes(d: Detection, a: Answers, stale: Option<int>) {
    || (!Fresh(d, a, stale) && a.staleExpected.Got?)
    || FirstError(d, a, stale) in {Some(StaleError), Some(SchemaError)}
    || (Reaches(d, a, stale) &&
        (|| (a.engine.value.Workflow? && !a.engine.value.applied)
         || (WorkflowOver(d, a.engine.value) && a.tracker.Got? && a.finalize.Got?)
         || (NextAgent(d, a.engine.value).Some? && HandOverSettled(a))))
  }

  /** The answers deliver a comment or let a finalisation return. */
  predicate SettlesTurn(d: Detection, a: Answers, stale: Option<int>) {
    && Reaches(d, a, stale)
    && (|| (WorkflowOver(d, a.engine.value) && a.tracker.Got? && a.finalize.Got?)
        || (NextAgent(d, a.engine.value).Some? && a.openBefore.Got? && a.openBefore.value != Some(false)
            && a.posted == Got(true)))
  }

  ghost predicate SettlesOwn(t: Turn, key: string) {
    exists i :: 0 <= i < |t.effects| && Settles(t.effects[i], key)
  }

  /** What a turn leaves, read off the host's answers: exactly when an exception escapes, exactly when the key is
      closed, and exactly when something is settled for good. */
  lemma TurnOutcome(d: Detection, a: Answers, stale: Option<int>)
    ensures var t := ProcessDetection(d, a, stale);
            && (t.escaped <==> Escapes(d, a, stale))
            && (t.closed <==> Closes(d, a, stale))
            && (SettlesOwn(t, d.key) <==> SettlesTurn(d, a, stale))
  {
    hide SameAgent, Route, IsReplay, Fresh, HandOverError, HandOverSettled, NextAgent, WorkflowOver;
    FreshIff(d, a, stale);
    ReplayError(d, a, stale);
    if Reaches(d, a, stale) {
      RouteOutcome(d, a, a.engine.value);
    }
  }

  lemma ReplayError(d: Detection, a: Answers, stale: Option<int>)
    ensures IsReplay(d, a, stale).Raised? ==> a.staleExpected == Raised(IsReplay(d, a, stale).error)
  {
    hide SameAgent;
  }

  lemma RouteOutcome(d: Detection, a: Answers, w: EngineAnswer)
    ensures var t, over, next := Route(d, a, w), WorkflowOver(d, w), NextAgent(d, w);
            var error := if over then if a.tracker.Raised? then Some(a.tracker.error) else ErrorOf(a.finalize)
                         else if next.Some? then HandOverError(a) else None;
            && (t.escaped <==> Uncaught(error, a))
            && (t.closed <==> error in {Some(StaleError), Some(SchemaError)} || (w.Workflow? && !w.applied) ||
                              (over && a.tracker.Got? && a.finalize.Got?) || (next.Some? && HandOverSettled(a)))
            && (SettlesOwn(t, d.key) <==>
                (over && a.tracker.Got? && a.finalize.Got?) ||
                (next.Some? && a.openBefore.Got? && a.openBefore.value != Some(false) && a.posted == Got(true)))
  {
    hide CanonicalAgentRef, IsTerminal, Strip, Chain, Done, HandOverError, HandOverSettled, SettlesOwn;
    TerminalTestsAgree(d.nextAgent);
    NothingSettled(d.key);
    DoneOutcome(d, a);
    match w {
      case NoWorkflow => ChainOutcome(d, a, Strip(d.nextAgent));
      case Workflow(_, _, active) => ChainOutcome(d, a, active);
    }
  }

  lemma NothingSettled(key: string)
    ensures !SettlesOwn(Nothing(), key) && !SettlesOwn(Close([]), key)
  {
  }

  lemma DoneOutcome(d: Detection, a: Answers)
    ensures var t := Done(d, a);
            var error := if a.tracker.Raised? then Some(a.tracker.error) else ErrorOf(a.finalize);
            && (t.escaped <==> Uncaught(error, a))
            && (t.closed <==> error in {Some(StaleError), Some(SchemaError)} || (a.tracker.Got? && a.finalize.Got?))
            && (SettlesOwn(t, d.key) <==> a.tracker.Got? && a.finalize.Got?)
  {
    var t := Done(d, a);
    if a.tracker.Got? && a.finalize.Got? {
      assert Settles(t.effects[0], d.key);
    }
  }

  lemma ChainOutcome(d: Detection, a: Answers, next: string)
    ensures var t := Chain(d, a, next);
            && (t.escaped <==> Uncaught(HandOverError(a), a))
            && (t.closed <==> HandOverSettled(a) || HandOverError(a) in {Some(StaleError), Some(SchemaError)})
            && (SettlesOwn(t, d.key) <==>
                a.openBefore.Got? && a.openBefore.value != Some(false) && a.posted == Got(true))
  {
    var t := Chain(d, a, next);
    if a.openBefore.Got? && a.openBefore.value != Some(false) && a.posted == Got(true) {
      assert Settles(t.effects[0], d.key);
    }
  }

  // ----- exactly which effects a turn has -----

  /** The answers make this effect part of a hand-over to `next`: the issue is not known to be closed, the comment is
      tried, and when it and the transition alert go out while no process runs, the agent is launched. */
  predicate HandOverEffect(d: Detection, a: Answers, next: string, e: Effect) {
    && a.openBefore.Got? && a.openBefore.value != Some(false)
    && match e
       case Comment(key, agent, delivered) => key == d.key && agent == next && delivered == (a.posted == Got(true))
       case TransitionAlert(key) => key == d.key && a.posted == Got(true) && a.transitionAlert.Got?
       case Launch(key, issue, agent) =>
         && key == d.key && issue == d.issue && agent == next
         && a.posted == Got(true) && a.transitionAlert.Got? && a.runningAfter == Got(false)
       case Finalize(_, _) => false
  }

  /** The answers make this effect part of the turn. */
  predicate Happens(d: Detection, a: Answers, stale: Option<int>, e: Effect) {
    && Reaches(d, a, stale)
    && var next := NextAgent(d, a.engine.value);
       || (next.Some? && HandOverEffect(d, a, next.value, e))
       || (WorkflowOver(d, a.engine.value) && a.tracker.Got? && e == Finalize(d.key, a.finalize.Got?))
  }

  /** A turn has exactly the effects the host's answers call for; in particular the next agent is launched whenever they
      do. */
  lemma EffectsExact(d: Detection, a: Answers, stale: Option<int>, e: Effect)
    ensures e in ProcessDetection(d, a, stale).effects <==> Happens(d, a, stale, e)
  {
    hide SameAgent, Route, IsReplay, Fresh, NextAgent, WorkflowOver, HandOverEffect;
    FreshIff(d, a, stale);
    if Reaches(d, a, stale) {
      RouteExact(d, a, a.engine.value, e);
    }
  }

  lemma RouteExact(d: Detection, a: Answers, w: EngineAnswer, e: Effect)
    ensures e in Route(d, a, w).effects <==>
            || (NextAgent(d, w).Some? && HandOverEffect(d, a, NextAgent(d, w).value, e))
            || (WorkflowOver(d, w) && a.tracker.Got? && e == Finalize(d.key, a.finalize.Got?))
  {
    hide CanonicalAgentRef, IsTerminal, Strip, Chain, HandOverEffect;
    TerminalTestsAgree(d.nextAgent);
    match w {
      case NoWorkflow => ChainExact(d, a, Strip(d.nextAgent), e);
      case Workflow(_, _, active) => ChainExact(d, a, active, e);
    }
  }

  lemma ChainExact(d: Detection, a: Answers, next: string, e: Effect)
    ensures e in Chain(d, a, next).effects <==> HandOverEffect(d, a, next, e)
  {
    hide QuietSkip;
  }

  // ----- what an agent reference names -----

  /** A reference with a trailing alias in parentheses names the alias, whatever stands before it. */
  lemma AliasNames(title: string, alias: string)
    requires alias != "" && '(' !in alias && ')' !in alias
    ensures CanonicalAgentRef(title + "(" + alias + ")") == Lower(Strip(alias))
  {
    hide StripBy, LStripBy, TrailingAlias, Lower, Bare;
    var tail := "(" + alias + ")";
    assert title + "(" + alias + ")" == title + tail;
    var left := BareTail(title, tail);
    assert left + tail == left + "(" + alias + ")";
    AliasFound(left, alias);
  }

  lemma BareTail(title: string, tail: string) returns (left: string)
    requires tail != "" && tail[0] == '(' && tail[|tail| - 1] == ')'
    ensures Bare(title + tail) == left + tail
  {
    hide StripBy, LStripBy;
    left := StripKeepsTail(IsSpace, title, tail);
    left := LStripKeepsTail(IsAt, left, tail);
    left := StripKeepsTail(IsSpace, left, tail);
    left := StripKeepsTail(IsBacktick, left, tail);
  }

  lemma AliasFound(left: string, alias: string)
    requires alias != "" && '(' !in alias && ')' !in alias
    ensures TrailingAlias(left + "(" + alias + ")") == Some(alias)
  {
    hide RStripBy, SuffixWithoutParens;
    var s, inner := left + "(" + alias + ")", left + "(" + alias;
    assert s[|s| - 1] == ')' && s[..|s| - 1] == inner && inner[|left|] == '(';
    RStripSame(IsSpace, s);
    SuffixAfterParen(left, alias);
  }

  lemma RStripSame(p: char -> bool, s: string)
    requires s != "" && !p(s[|s| - 1])
    ensures RStripBy(p, s) == s
  {
  }

  /** Stripping on the left leaves a tail that starts with a kept character. */
  lemma {:induction false} LStripKeepsTail(p: char -> bool, s: string, tail: string) returns (left: string)
    requires tail != "" && !p(tail[0])
    ensures LStripBy(p, s + tail) == left + tail
  {
    if s == "" {
      assert s + tail == tail;
      left := "";
      assert left + tail == tail;
    } else if p(s[0]) {
      assert (s + tail)[1..] == s[1..] + tail;
      left := LStripKeepsTail(p, s[1..], tail);
    } else {
      left := s;
    }
  }

  lemma StripKeepsTail(p: char -> bool, s: string, tail: string) returns (left: string)
    requires tail != "" && !p(tail[0]) && !p(tail[|tail| - 1])
    ensures StripBy(p, s + tail) == left + tail
  {
    hide LStripBy;
    left := LStripKeepsTail(p, s, tail);
    RStripSame(p, left + tail);
  }

  lemma {:induction false} SuffixAfterParen(before: string, alias: string)
    requires '(' !in alias && ')' !in alias
    ensures SuffixWithoutParens(before + "(" + alias) == alias
  {
    if alias == "" {
      assert (before + "(" + alias)[|before|] == '(';
      assert |before + "(" + alias| == |before| + 1;
    } else {
      var front, last := alias[..|alias| - 1], alias[|alias| - 1];
      assert alias == front + [last];
      assert (before + "(" + alias)[..|before + "(" + alias| - 1] == before + "(" + front;
      assert (before + "(" + alias)[|before + "(" + alias| - 1] == last;
      SuffixAfterParen(before, front);
    }
  }

  /** One that does not end in a parenthesis names itself in lower case, less a leading @ sign or backticks around. */
  lemma PlainNames(name: string)
    requires name != "" && name[0] !in {'@', '`'} && name[|name| - 1] !in {'`', ')'} && Stripped(name)
    ensures CanonicalAgentRef(name) == Lower(name)
    ensures CanonicalAgentRef("@" + name) == Lower(name) && CanonicalAgentRef("`" + name + "`") == Lower(name)
  {
    hide Bare, Lower, Strip, Stripped, TrailingAlias;
    BareNames(name);
    assert TrailingAlias(name) == None by { NoAlias(name); }
  }

  lemma NoAlias(name: string)
    requires Stripped(name) && name != "" && name[|name| - 1] != ')'
    ensures TrailingAlias(name) == None
  {
    RStripSame(IsSpace, name);
  }

  lemma BareNames(name: string)
    requires name != "" && name[0] !in {'@', '`'} && name[|name| - 1] != '`' && Stripped(name)
    ensures Bare(name) == name && Bare("@" + name) == name && Bare("`" + name + "`") == name
  {
    hide Strip, StripBy, LStripBy, Bare, Stripped;
    var marked, quoted := "@" + name, "`" + name + "`";
    DecoratedStripped(name);
    KeptWhole(IsAt, name);
    KeptWhole(IsBacktick, name);
    BareSteps(name, name, name);
    FirstDropped(IsAt, '@', name);
    BareSteps(marked, name, name);
    KeptWhole(IsAt, quoted);
    QuotesDropped(name);
    BareSteps(quoted, quoted, name);
  }

  lemma DecoratedStripped(name: string)
    requires name != "" && Stripped(name)
    ensures Stripped("@" + name) && Stripped("`" + name + "`")
  {
    var marked, quoted := "@" + name, "`" + name + "`";
    assert marked[0] == '@' && marked[|marked| - 1] == name[|name| - 1];
    assert quoted[0] == '`' == quoted[|quoted| - 1];
  }

  lemma BareSteps(s: string, unmarked: string, name: string)
    requires Stripped(s) && LStripBy(IsAt, s) == unmarked && Stripped(unmarked) && StripBy(IsBacktick, unmarked) == name
    ensures Bare(s) == name
  {
    hide StripBy, LStripBy, Stripped;
  }

  /** The replay guard compares names whatever their case, the whitespace around them, and their leading @ signs. */
  lemma SameAgentNames(expected: string, agent: string)
    requires Stripped(expected) && Stripped(agent)
    requires (expected == "" || expected[0] != '@') && (agent == "" || agent[0] != '@')
    ensures SameAgent(expected, agent) <==> Lower(expected) == Lower(agent)
    ensures SameAgent("@" + expected, agent) <==> SameAgent(expected, agent)
    ensures SameAgent(expected, "@" + agent) <==> SameAgent(expected, agent)
  {
    hide LStripBy, Lower, Strip, Stripped;
    Unmarked(expected);
    Unmarked(agent);
  }

  lemma Unmarked(name: string)
    requires Stripped(name) && (name == "" || name[0] != '@')
    ensures LStripBy(IsAt, Lower(Strip(name))) == Lower(name) == LStripBy(IsAt, Lower(Strip("@" + name)))
  {
    hide StripBy, LStripBy, Lower, Stripped;
    LowerMarked(name);
    assert Stripped("@" + name) by { MarkedStripped(name); }
    if name == "" {
      OnlyMark();
    } else {
      KeptWhole(IsAt, Lower(name));
      FirstDropped(IsAt, '@', Lower(name));
    }
  }

  lemma LowerMarked(name: string)
    ensures Lower("@" + name) == ['@'] + Lower(name)
    ensures |Lower(name)| == |name| && (name != "" && name[0] != '@' ==> Lower(name)[0] != '@')
  {
  }

  lemma MarkedStripped(name: string)
    requires Stripped(name)
    ensures Stripped("@" + name)
  {
    assert name != "" ==> ("@" + name)[|name|] == name[|name| - 1];
  }

  lemma OnlyMark()
    ensures LStripBy(IsAt, ['@'] + "") == "" && LStripBy(IsAt, "") == ""
  {
    assert (['@'] + "")[1..] == "";
  }

  lemma KeptWhole(p: char -> bool, s: string)
    requires s != "" && !p(s[0])
    ensures LStripBy(p, s) == s
    ensures !p(s[|s| - 1]) ==> StripBy(p, s) == s
  {
  }

  lemma FirstDropped(p: char -> bool, c: char, s: string)
    requires p(c) && s != "" && !p(s[0])
    ensures LStripBy(p, [c] + s) == s
  {
    assert ([c] + s)[1..] == s;
  }

  lemma QuotesDropped(name: string)
    requires name != "" && name[0] != '`' && name[|name| - 1] != '`'
    ensures StripBy(IsBacktick, "`" + name + "`") == name
  {
    var rest := name + "`";
    assert "`" + name + "`" == ['`'] + rest && rest[..|rest| - 1] == name;
    FirstDropped(IsBacktick, '`', rest);
    RStripSame(IsBacktick, name);
  }
}
