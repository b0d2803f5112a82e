/** Timed-out and orphaned agents: which logs a pass examines, and what handling a timeout may do. */
module StuckAgents {
  import opened Text
  import opened Host
  import opened LaunchTracker

  // ----- agent identity -----

  const PLACEHOLDERS: set<string> := {"", "unknown", "none", "n/a"}

  function NormalAgent(agent: string): string { Lower(Strip(LStripBy(IsAt, Strip(agent)))) }

  /** An agent reference that names nobody. */
  predicate Unresolved(agent: string) { NormalAgent(agent) in PLACEHOLDERS }

  predicate Named(agent: Option<string>) { agent.Some? && agent.value != "" }

  /** The two agent names the confirmation guard skips are unresolved already, so no timed-out agent escapes it. */
  lemma GuardCoversResolved(agent: string)
    ensures agent == "" || agent == "unknown" ==> Unresolved(agent)
  {
    hide LStripBy, Strip, Lower;
    if agent == "unknown" || agent == "" {
      NothingToNormalise(agent);
    }
  }

  lemma NothingToNormalise(agent: string)
    requires Stripped(agent) && (agent == "" || !IsAt(agent[0]))
    requires forall i :: 0 <= i < |agent| ==> LowerChar(agent[i]) == agent[i]
    ensures NormalAgent(agent) == agent
  {
    hide Strip, Lower;
    assert LStripBy(IsAt, agent) == agent;
    assert Lower(agent) == agent;
  }

  /** A reference names nobody exactly when it is a placeholder in any case, with or without a leading @. */
  lemma UnresolvedNames(name: string)
    requires Stripped(name) && (name == "" || name[0] != '@')
    ensures Unresolved(name) <==> Lower(name) in {"", "unknown", "none", "n/a"}
    ensures Unresolved("@" + name) <==> Unresolved(name)
  {
    hide NormalAgent, Lower, Stripped;
    NormalNames(name);
  }

  lemma NormalNames(name: string)
    requires Stripped(name) && (name == "" || name[0] != '@')
    ensures NormalAgent(name) == Lower(name) && NormalAgent("@" + name) == Lower(name)
  {
    hide Lower, StripBy, IsSpace;
    assert LStripBy(IsAt, name) == name;
    MarkDropped(name);
  }

  lemma MarkDropped(name: string)
    requires Stripped(name) && (name == "" || name[0] != '@')
    ensures Stripped("@" + name) && LStripBy(IsAt, "@" + name) == name
  {
    assert ("@" + name)[1..] == name;
    assert LStripBy(IsAt, name) == name;
  }

  // ----- handling one timeout -----

  /** One answer for every host call that handling a timeout can make. */
  datatype Answers = Answers(
    state: Ans<Option<string>>,         // get_workflow_state
    launched: Ans<Tracker>,             // load_launched_agents
    mtime: Ans<real>,                   // modification time of the log
    expected: Ans<Option<string>>,      // get_expected_running_agent, for an unresolved tracker agent
    skipAudit: Ans<()>,                 // audit_log AGENT_TIMEOUT_SKIPPED_UNKNOWN or AGENT_TIMEOUT_STALE
    save: Ans<()>,                      // save_launched_agents
    confirms: Ans<bool>,                // should_retry_dead_agent
    timeoutAudit: Ans<()>,              // audit_log STEP_TIMEOUT
    alive: Ans<bool>,                   // is_pid_alive
    expectedAgain: Ans<Option<string>>, // get_expected_running_agent, on the orphan path
    orphanConfirms: Ans<bool>,          // should_retry_dead_agent, on the orphan path
    willRetry: Ans<bool>,               // should_retry
    alert: Ans<bool>,                   // send_alert
    actionAudit: Ans<()>,               // audit_log AGENT_KILLED, AGENT_ORPHANED_RUNNING_STEP or AGENT_DEAD_STALE
    kill: Ans<bool>,                    // kill_process
    notify: Ans<()>,                    // notify_timeout
    clearGuard: Ans<()>,                // clear_launch_guard
    launch: Ans<int>)                   // launch_agent, whose ordinary exceptions are caught

  datatype Effect =
    | StateRead(state: Option<string>)
    | TrackerRead(entry: Entry)
    | LogRead(mtime: real)
    | ExpectedRead(expected: Option<string>)
    | Confirmed(agent: string, yes: bool)
    | StepTimeout(agent: string)
    | PidChecked(pid: int, alive: bool)
    | Kill(pid: int, agent: string, done: bool)
    | TimeoutLaunch(agent: string)
    | OrphanAlert(agent: string, retry: bool, delivered: bool)
    | OrphanLaunch(agent: string)
    | SaveTracker(tracker: Tracker)

  /** The orphan keys handled so far, the effects of the turn, and whether an exception ended it. */
  datatype Turn = Turn(orphaned: set<string>, effects: seq<Effect>, aborted: bool)

  function OrphanKey(issue: string, agent: string): string { issue + ":orphan:" + agent }

  /** The log was last written more than five seconds before the current launch. */
  predicate Predates(mtime: real, entry: Entry) { entry.timestamp > 0.0 && mtime + 5.0 < entry.timestamp }

  /** _handle_timeout */
  function HandleTimeout(orphaned: set<string>, issue: string, logPid: int, a: Answers): Turn {
    if a.state.Raised? then Turn(orphaned, [], true)
    else if IsInactive(a.state.value) then Turn(orphaned, [StateRead(a.state.value)], false)
    else if a.launched.Raised? then Turn(orphaned, [StateRead(a.state.value)], true)
    else
      var entry := EntryOf(a.launched.value, issue);
      if a.mtime.Raised? then Turn(orphaned, [StateRead(a.state.value), TrackerRead(entry)], true)
      else
        var seen := [StateRead(a.state.value), TrackerRead(entry), LogRead(a.mtime.value)];
        if Predates(a.mtime.value, entry) then Turn(orphaned, seen, false)
        else if !Unresolved(entry.agentType) then
          WithAgent(orphaned, issue, logPid, entry, entry.agentType, None, a, seen)
        else if a.expected.Raised? then Turn(orphaned, seen, true)
        else
          var agent := if Named(a.expected.value) then a.expected.value.value else entry.agentType;
          WithAgent(orphaned, issue, logPid, entry, agent, a.expected.value, a, seen + [ExpectedRead(a.expected.value)])
  }

  function EffectivePid(entry: Entry, logPid: int): int { if entry.pid != 0 then entry.pid else logPid }

  function WithAgent(orphaned: set<string>, issue: string, logPid: int, entry: Entry, agent: string,
                     expected: Option<string>, a: Answers, seen: seq<Effect>): Turn
    requires a.launched.Got?
  {
    var dropped := SaveTracker(a.launched.value - {issue});
    if Unresolved(agent) then
      if EffectivePid(entry, logPid) == 0 then Turn(orphaned, seen, false)
      else if a.skipAudit.Raised? then Turn(orphaned, seen, true)
      else if issue in a.launched.value then Turn(orphaned, seen + [dropped], a.save.Raised?)
      else Turn(orphaned, seen, false)
    else if agent == "" || agent == "unknown" then
      TimedOut(orphaned, issue, logPid, entry, agent, expected, a, seen)
    else if a.confirms.Raised? then Turn(orphaned, seen, true)
    else
      var asked := seen + [Confirmed(agent, a.confirms.value)];
      if a.confirms.value then TimedOut(orphaned, issue, logPid, entry, agent, expected, a, asked)
      else if a.skipAudit.Raised? then Turn(orphaned, asked, true)
      else Turn(orphaned, asked + [dropped], a.save.Raised?)
  }

  function TimedOut(orphaned: set<string>, issue: string, logPid: int, entry: Entry, agent: string,
                    expected: Option<string>, a: Answers, seen: seq<Effect>): Turn
  {
    var declared := seen + [StepTimeout(agent)];
    var pid := EffectivePid(entry, logPid);
    if a.timeoutAudit.Raised? then Turn(orphaned, declared, true)
    else if pid == 0 then Orphaned(orphaned, issue, expected, a, declared)
    else if a.alive.Raised? then Turn(orphaned, declared, true)
    else
      var checked := declared + [PidChecked(pid, a.alive.value)];
      if a.alive.value then Killing(orphaned, pid, agent, a, checked)
      else if entry.pid != 0 then Turn(orphaned, checked, false)
      else Orphaned(orphaned, issue, expected, a, checked)
  }

  function Killing(orphaned: set<string>, pid: int, agent: string, a: Answers, seen: seq<Effect>): Turn {
    if a.kill.Raised? then Turn(orphaned, seen, true)
    else
      var killed := seen + [Kill(pid, agent, a.kill.value)];
      if !a.kill.value then Turn(orphaned, killed, false)
      else if a.actionAudit.Raised? || a.willRetry.Raised? || a.notify.Raised? then Turn(orphaned, killed, true)
      else if !a.willRetry.value then Turn(orphaned, killed, false)
      else if a.clearGuard.Raised? then Turn(orphaned, killed, true)
      else Turn(orphaned, killed + [TimeoutLaunch(agent)], a.launch == Raised(Fatal))
  }

  function Orphaned(orphaned: set<string>, issue: string, expected: Option<string>, a: Answers,
                    seen: seq<Effect>): Turn {
    if Named(expected) then OrphanedAs(orphaned, issue, expected.value, a, seen)
    else if a.expectedAgain.Raised? then Turn(orphaned, seen, true)
    else
      var asked := seen + [ExpectedRead(a.expectedAgain.value)];
      if Named(a.expectedAgain.value) then OrphanedAs(orphaned, issue, a.expectedAgain.value.value, a, asked)
      else Turn(orphaned, asked, false)
  }

  function OrphanedAs(orphaned: set<string>, issue: string, agent: string, a: Answers, seen: seq<Effect>): Turn {
    var key := OrphanKey(issue, agent);
    if key in orphaned then Turn(orphaned, seen, false)
    else if a.orphanConfirms.Raised? then Turn(orphaned, seen, true)
    else
      var asked := seen + [Confirmed(agent, a.orphanConfirms.value)];
      if !a.orphanConfirms.value then
        if a.actionAudit.Raised? then Turn(orphaned, asked, true) else Turn(orphaned + {key}, asked, false)
      else if a.willRetry.Raised? || a.alert.Raised? then Turn(orphaned, asked, true)
      else
        var alerted := asked + [OrphanAlert(agent, a.willRetry.value, a.alert.value)];
        if !a.alert.value then Turn(orphaned, alerted, false)
        else if a.actionAudit.Raised? then Turn(orphaned, alerted, true)
        else if !a.willRetry.value then Turn(orphaned + {key}, alerted, false)
        else if a.clearGuard.Raised? then Turn(orphaned + {key}, alerted, true)
        else Turn(orphaned + {key}, alerted + [OrphanLaunch(agent)], a.launch == Raised(Fatal))
  }

  // ----- what a turn may do -----

  /** The readings every turn that goes past them starts with: an active workflow, and a log no older than the launch.
      */
  ghost predicate Current(fx: seq<Effect>) {
    && |fx| >= 3
    && fx[0].StateRead? && !IsInactive(fx[0].state)
    && fx[1].TrackerRead? && fx[2].LogRead? && !Predates(fx[2].mtime, fx[1].entry)
  }

  /** The agent of the turn: the tracker's, or the one the workflow expects when the tracker names nobody. */
  ghost predicate Identified(fx: seq<Effect>, agent: string)
    requires Current(fx)
  {
    && !Unresolved(agent)
    && (agent == fx[1].entry.agentType
        || (Unresolved(fx[1].entry.agentType) && |fx| >= 4 && fx[3] == ExpectedRead(Some(agent))))
  }

  /** Before a kill: current readings, an identified agent that the workflow confirmed, and a live pid. */
  ghost predicate KillJustified(fx: seq<Effect>, i: nat, logPid: int)
    requires i < |fx| && fx[i].Kill?
  {
    && i >= 6 && Current(fx) && Identified(fx, fx[i].agent)
    && fx[i].pid == EffectivePid(fx[1].entry, logPid) != 0
    && fx[i - 3] == Confirmed(fx[i].agent, true)
    && fx[i - 2] == StepTimeout(fx[i].agent)
    && fx[i - 1] == PidChecked(fx[i].pid, true)
  }

  /** Everything a turn about `issue` may have done. */
  ghost predicate TurnLawful(issue: string, logPid: int, before: set<string>, fx: seq<Effect>, after: set<string>) {
    && before <= after
    && (forall i :: 0 <= i < |fx| && fx[i].Kill? ==> KillJustified(fx, i, logPid))
    && (forall i :: 0 <= i < |fx| && fx[i].TimeoutLaunch? ==>
          i == |fx| - 1 && i >= 1 && fx[i - 1].Kill? && fx[i - 1].done && fx[i - 1].agent == fx[i].agent)
    && (forall i :: 0 <= i < |fx| && fx[i].OrphanLaunch? ==>
          && i == |fx| - 1 && i >= 2
          && fx[i - 2] == Confirmed(fx[i].agent, true) && fx[i - 1] == OrphanAlert(fx[i].agent, true, true)
          && OrphanKey(issue, fx[i].agent) in after - before
          && (forall j :: 0 <= j < |fx| ==> !fx[j].Kill?))
  }

  ghost predicate Quiet(fx: seq<Effect>) {
    forall i :: 0 <= i < |fx| ==> !fx[i].Kill? && !fx[i].TimeoutLaunch? && !fx[i].OrphanLaunch?
  }

  lemma OrphanedLawful(orphaned: set<string>, issue: string, logPid: int, expected: Option<string>, a: Answers,
                       seen: seq<Effect>)
    requires Quiet(seen)
    ensures var o := Orphaned(orphaned, issue, expected, a, seen);
            TurnLawful(issue, logPid, orphaned, o.effects, o.orphaned)
  {
    hide KillJustified, OrphanKey, OrphanedAs;
    if Named(expected) {
      OrphanedAsLawful(orphaned, issue, logPid, expected.value, a, seen);
    } else if a.expectedAgain.Got? && Named(a.expectedAgain.value) {
      OrphanedAsLawful(orphaned, issue, logPid, a.expectedAgain.value.value, a,
          seen + [ExpectedRead(a.expectedAgain.value)]);
    }
  }

  lemma OrphanedAsLawful(orphaned: set<string>, issue: string, logPid: int, agent: string, a: Answers,
                         seen: seq<Effect>)
    requires Quiet(seen)
    ensures var o := OrphanedAs(orphaned, issue, agent, a, seen);
            TurnLawful(issue, logPid, orphaned, o.effects, o.orphaned)
  {
    hide KillJustified, OrphanKey, TurnLawful;
    var o := OrphanedAs(orphaned, issue, agent, a, seen);
    var n := |seen|;
    if |o.effects| == n + 3 {
      assert o.effects == seen + [Confirmed(agent, true), OrphanAlert(agent, true, true), OrphanLaunch(agent)];
      QuietThenRelaunch(orphaned, issue, logPid, agent, seen);
    } else {
      QuietLawful(issue, logPid, orphaned, o.effects, o.orphaned);
    }
  }

  lemma QuietLawful(issue: string, logPid: int, before: set<string>, fx: seq<Effect>, after: set<string>)
    requires Quiet(fx) && before <= after
    ensures TurnLawful(issue, logPid, before, fx, after)
  {
  }

  lemma QuietThenRelaunch(before: set<string>, issue: string, logPid: int, agent: string, seen: seq<Effect>)
    requires Quiet(seen) && OrphanKey(issue, agent) !in before
    ensures TurnLawful(issue, logPid, before,
            seen + [Confirmed(agent, true), OrphanAlert(agent, true, true), OrphanLaunch(agent)],
                       before + {OrphanKey(issue, agent)})
  {
    hide KillJustified, OrphanKey;
    var fx := seen + [Confirmed(agent, true), OrphanAlert(agent, true, true), OrphanLaunch(agent)];
    assert forall i :: 0 <= i < |seen| ==> fx[i] == seen[i];
  }

  lemma KillingLawful(orphaned: set<string>, issue: string, logPid: int, pid: int, agent: string, a: Answers,
                      seen: seq<Effect>)
    requires Quiet(seen)
    requires a.kill.Got? ==> KillJustified(seen + [Kill(pid, agent, a.kill.value)], |seen|, logPid)
    ensures var o := Killing(orphaned, pid, agent, a, seen);
            TurnLawful(issue, logPid, orphaned, o.effects, o.orphaned)
  {
    hide Unresolved, Predates, IsInactive, EffectivePid;
  }

  lemma TimedOutLawful(orphaned: set<string>, issue: string, logPid: int, entry: Entry, agent: string,
                       expected: Option<string>, a: Answers, seen: seq<Effect>)
    requires Quiet(seen) && Current(seen) && seen[1].entry == entry && Identified(seen, agent)
    requires |seen| >= 4 && seen[|seen| - 1] == Confirmed(agent, true)
    ensures var o := TimedOut(orphaned, issue, logPid, entry, agent, expected, a, seen);
            TurnLawful(issue, logPid, orphaned, o.effects, o.orphaned)
  {
    hide Orphaned, Killing, Unresolved, Predates, IsInactive;
    var declared := seen + [StepTimeout(agent)];
    var pid := EffectivePid(entry, logPid);
    if a.timeoutAudit.Got? {
      if pid == 0 {
        OrphanedLawful(orphaned, issue, logPid, expected, a, declared);
      } else if a.alive.Got? {
        var checked := declared + [PidChecked(pid, a.alive.value)];
        if a.alive.value {
          KillingLawful(orphaned, issue, logPid, pid, agent, a, checked);
        } else if entry.pid == 0 {
          OrphanedLawful(orphaned, issue, logPid, expected, a, checked);
        }
      }
    }
  }

  /** Handling a timeout, whatever the host answers: a kill is justified, a timeout relaunch directly follows a
      successful kill of the same agent, and an orphan relaunch directly follows its confirmed, delivered alert, kills
      nothing, and uses up an orphan key that was unused before. */
  lemma HandleLawful(orphaned: set<string>, issue: string, logPid: int, a: Answers)
    ensures var o := HandleTimeout(orphaned, issue, logPid, a);
            TurnLawful(issue, logPid, orphaned, o.effects, o.orphaned)
  {
    hide TimedOut, Unresolved, Predates, IsInactive, KillJustified, OrphanKey;
    if a.state.Got? && !IsInactive(a.state.value) && a.launched.Got? && a.mtime.Got? {
      var entry := EntryOf(a.launched.value, issue);
      var seen := [StateRead(a.state.value), TrackerRead(entry), LogRead(a.mtime.value)];
      if !Predates(a.mtime.value, entry) {
        if !Unresolved(entry.agentType) {
          WithAgentLawful(orphaned, issue, logPid, entry, entry.agentType, None, a, seen);
        } else if a.expected.Got? {
          var agent := if Named(a.expected.value) then a.expected.value.value else entry.agentType;
          WithAgentLawful(orphaned, issue, logPid, entry, agent, a.expected.value, a,
              seen + [ExpectedRead(a.expected.value)]);
        }
      }
    }
  }

  lemma WithAgentLawful(orphaned: set<string>, issue: string, logPid: int, entry: Entry, agent: string,
                        expected: Option<string>, a: Answers, seen: seq<Effect>)
    requires a.launched.Got? && Quiet(seen) && Current(seen) && seen[1].entry == entry
    requires !Unresolved(agent) ==> Identified(seen, agent)
    ensures var o := WithAgent(orphaned, issue, logPid, entry, agent, expected, a, seen);
            TurnLawful(issue, logPid, orphaned, o.effects, o.orphaned)
  {
    hide TimedOut, Unresolved, Predates, IsInactive, KillJustified, OrphanKey;
    GuardCoversResolved(agent);
    if !Unresolved(agent) && a.confirms == Got(true) {
      TimedOutLawful(orphaned, issue, logPid, entry, agent, expected, a, seen + [Confirmed(agent, true)]);
    }
  }

  // ----- exactly which effects a turn has -----

  /** The readings let the turn go on: an active workflow, and a log no older than the launch by five seconds. */
  predicate Opens(issue: string, a: Answers) {
    && a.state.Got? && (a.state.value.None? || a.state.value.value !in INACTIVE)
    && a.launched.Got? && a.mtime.Got?
    && var launchedAt := EntryOf(a.launched.value, issue).timestamp;
       launchedAt <= 0.0 || a.mtime.value + 5.0 >= launchedAt
  }

  /** The tracker's pid, or else the log's. */
  function PidOf(entry: Entry, logPid: int): int { if entry.pid == 0 then logPid else entry.pid }

  function EntryIn(issue: string, a: Answers): Entry
    requires a.launched.Got?
  {
    EntryOf(a.launched.value, issue)
  }

  /** Whom the workflow is asked for when the tracker names nobody. */
  function Asked(issue: string, a: Answers): Option<string>
    requires a.launched.Got?
  {
    if Unresolved(EntryIn(issue, a).agentType) && a.expected.Got? then a.expected.value else None
  }

  /** The agent of the turn: the tracker's, or the one the workflow expects when the tracker names nobody. */
  function AgentOf(issue: string, a: Answers): Option<string>
    requires a.launched.Got?
  {
    var tracked := EntryIn(issue, a).agentType;
    if !Unresolved(tracked) then Some(tracked)
    else if a.expected.Got? && Named(a.expected.value) && !Unresolved(a.expected.value.value) then a.expected.value
    else None
  }

  /** The timeout is declared: somebody is named and the workflow confirms it. */
  predicate Declares(issue: string, a: Answers) {
    Opens(issue, a) && AgentOf(issue, a).Some? && a.confirms == Got(true)
  }

  /** The agent the workflow expects where no process stands for its running step: the answer already given, or a new
      one. */
  function OrphanOf(asked: Option<string>, a: Answers): Option<string> {
    if Named(asked) then asked
    else if a.expectedAgain.Got? && Named(a.expectedAgain.value) then a.expectedAgain.value
    else None
  }

  predicate Unhandled(orphaned: set<string>, issue: string, asked: Option<string>, a: Answers) {
    OrphanOf(asked, a).Some? && OrphanKey(issue, OrphanOf(asked, a).value) !in orphaned
  }

  /** What handling an orphan adds to the trace. */
  predicate OrphanEffect(orphaned: set<string>, issue: string, asked: Option<string>, a: Answers, x: Effect) {
    || (x.ExpectedRead? && !Named(asked) && a.expectedAgain == Got(x.expected))
    || (Unhandled(orphaned, issue, asked, a) && NewOrphanEffect(OrphanOf(asked, a).value, a, x))
  }

  predicate NewOrphanEffect(agent: string, a: Answers, x: Effect) {
    match x
    case Confirmed(who, yes) => who == agent && a.orphanConfirms == Got(yes)
    case OrphanAlert(who, retry, delivered) =>
      who == agent && a.orphanConfirms == Got(true) && a.willRetry == Got(retry) && a.alert == Got(delivered)
    case OrphanLaunch(who) =>
      && who == agent && a.orphanConfirms == Got(true) && a.alert == Got(true) && a.actionAudit.Got?
      && a.willRetry == Got(true) && a.clearGuard.Got?
    case _ => false
  }

  /** What killing adds. */
  predicate KillEffect(pid: int, agent: string, a: Answers, x: Effect) {
    match x
    case Kill(p, who, done) => p == pid && who == agent && a.kill == Got(done)
    case TimeoutLaunch(who) =>
      && who == agent && a.kill == Got(true) && a.actionAudit.Got? && a.willRetry == Got(true) && a.notify.Got?
      && a.clearGuard.Got?
    case _ => false
  }

  /** What a declared timeout adds. */
  predicate TimeoutEffect(orphaned: set<string>, issue: string, logPid: int, entry: Entry, agent: string,
                          asked: Option<string>, a: Answers, x: Effect)
  {
    var pid := PidOf(entry, logPid);
    || x == StepTimeout(agent)
    || (a.timeoutAudit.Got? && pid != 0 && a.alive.Got? && x == PidChecked(pid, a.alive.value))
    || (a.timeoutAudit.Got? && pid != 0 && a.alive == Got(true) && KillEffect(pid, agent, a, x))
    || (a.timeoutAudit.Got? && entry.pid == 0 && (pid == 0 || a.alive == Got(false))
        && OrphanEffect(orphaned, issue, asked, a, x))
  }

  /** The stale tracker entry is dropped: nobody is named although there is a pid, or the workflow denies the agent. */
  predicate DropsEntry(issue: string, logPid: int, a: Answers) {
    && Opens(issue, a) && a.skipAudit.Got?
    && if AgentOf(issue, a).Some? then a.confirms == Got(false)
       else a.expected.Got? && PidOf(EntryIn(issue, a), logPid) != 0 && issue in a.launched.value
  }

  /** The host's answers make this effect part of the turn. */
  predicate Happens(orphaned: set<string>, issue: string, logPid: int, a: Answers, x: Effect) {
    var active := a.state.Got? && (a.state.value.None? || a.state.value.value !in INACTIVE);
    || (a.state.Got? && x == StateRead(a.state.value))
    || (active && a.launched.Got? && x == TrackerRead(EntryIn(issue, a)))
    || (active && a.launched.Got? && a.mtime.Got? && x == LogRead(a.mtime.value))
    || (Opens(issue, a) && Unresolved(EntryIn(issue, a).agentType) && a.expected.Got?
        && x == ExpectedRead(a.expected.value))
    || (x.Confirmed? && Opens(issue, a) && AgentOf(issue, a) == Some(x.agent) && a.confirms == Got(x.yes))
    || (x.SaveTracker? && DropsEntry(issue, logPid, a) && x.tracker == a.launched.value - {issue})
    || (Declares(issue, a) && TimeoutEffect(orphaned, issue, logPid, EntryIn(issue, a), AgentOf(issue, a).value,
                                            Asked(issue, a), a, x))
  }

  /** A turn has exactly the effects the host's answers call for. */
  lemma EffectsExact(orphaned: set<string>, issue: string, logPid: int, a: Answers, x: Effect)
    ensures x in HandleTimeout(orphaned, issue, logPid, a).effects <==> Happens(orphaned, issue, logPid, a, x)
  {
    hide WithAgent, Unresolved, TimeoutEffect;
    if Opens(issue, a) {
      var entry := EntryIn(issue, a);
      var seen := [StateRead(a.state.value), TrackerRead(entry), LogRead(a.mtime.value)];
      if !Unresolved(entry.agentType) {
        WithAgentExact(orphaned, issue, logPid, entry.agentType, a, seen, x);
      } else if a.expected.Got? {
        NothingNamed();
        var agent := if Named(a.expected.value) then a.expected.value.value else entry.agentType;
        WithAgentExact(orphaned, issue, logPid, agent, a, seen + [ExpectedRead(a.expected.value)], x);
      }
    }
  }

  lemma NothingNamed()
    ensures Unresolved("")
  {
    GuardCoversResolved("");
  }

  lemma WithAgentExact(orphaned: set<string>, issue: string, logPid: int, agent: string, a: Answers, seen: seq<Effect>,
                       x: Effect)
    requires Opens(issue, a)
    requires AgentOf(issue, a) == if Unresolved(agent) then None else Some(agent)
    requires Unresolved(agent) ==> a.expected.Got?
    ensures x in WithAgent(orphaned, issue, logPid, EntryIn(issue, a), agent, Asked(issue, a), a, seen).effects <==>
            || x in seen
            || (x.Confirmed? && AgentOf(issue, a) == Some(x.agent) && a.confirms == Got(x.yes))
            || (x.SaveTracker? && DropsEntry(issue, logPid, a) && x.tracker == a.launched.value - {issue})
            || (!Unresolved(agent) && a.confirms == Got(true) &&
                TimeoutEffect(orphaned, issue, logPid, EntryIn(issue, a), agent, Asked(issue, a), a, x))
  {
    hide TimedOut, Unresolved, TimeoutEffect, Predates;
    GuardCoversResolved(agent);
    if !Unresolved(agent) && a.confirms == Got(true) {
      TimedOutExact(orphaned, issue, logPid, EntryIn(issue, a), agent, Asked(issue, a), a,
          seen + [Confirmed(agent, true)], x);
    }
  }

  lemma TimedOutExact(orphaned: set<string>, issue: string, logPid: int, entry: Entry, agent: string,
                      asked: Option<string>, a: Answers, seen: seq<Effect>, x: Effect)
    ensures x in TimedOut(orphaned, issue, logPid, entry, agent, asked, a, seen).effects <==>
            x in seen || TimeoutEffect(orphaned, issue, logPid, entry, agent, asked, a, x)
  {
    hide Orphaned, Killing, OrphanEffect, KillEffect;
    var declared := seen + [StepTimeout(agent)];
    var pid := EffectivePid(entry, logPid);
    if pid == 0 {
      OrphanedExact(orphaned, issue, asked, a, declared, x);
    } else if a.alive.Got? {
      var checked := declared + [PidChecked(pid, a.alive.value)];
      KillingExact(orphaned, pid, agent, a, checked, x);
      OrphanedExact(orphaned, issue, asked, a, checked, x);
    }
  }

  lemma KillingExact(orphaned: set<string>, pid: int, agent: string, a: Answers, seen: seq<Effect>, x: Effect)
    ensures x in Killing(orphaned, pid, agent, a, seen).effects <==> x in seen || KillEffect(pid, agent, a, x)
  {
  }

  lemma OrphanedExact(orphaned: set<string>, issue: string, asked: Option<string>, a: Answers, seen: seq<Effect>,
                      x: Effect)
    ensures x in Orphaned(orphaned, issue, asked, a, seen).effects <==>
            x in seen || OrphanEffect(orphaned, issue, asked, a, x)
  {
    hide OrphanKey, OrphanedAs;
    if Named(asked) {
      OrphanedAsExact(orphaned, issue, asked.value, a, seen, x);
    } else if a.expectedAgain.Got? && Named(a.expectedAgain.value) {
      OrphanedAsExact(orphaned, issue, a.expectedAgain.value.value, a, seen + [ExpectedRead(a.expectedAgain.value)], x);
    }
  }

  lemma OrphanedAsExact(orphaned: set<string>, issue: string, agent: string, a: Answers, seen: seq<Effect>, x: Effect)
    ensures x in OrphanedAs(orphaned, issue, agent, a, seen).effects <==>
            x in seen || (OrphanKey(issue, agent) !in orphaned && NewOrphanEffect(agent, a, x))
  {
    hide OrphanKey;
  }

  // ----- exactly what a turn leaves -----

  /** The orphan is dealt with: denied by the workflow, or alerted. */
  predicate DealsWith(a: Answers) {
    && a.actionAudit.Got?
    && (a.orphanConfirms == Got(false) || (a.orphanConfirms == Got(true) && a.willRetry.Got? && a.alert == Got(true)))
  }

  /** The first host call to raise on the way to a launch ends the turn, the launch by a fatal exception only. */
  predicate LaunchCuts(a: Answers) { a.willRetry == Got(true) && (a.clearGuard.Raised? || a.launch == Raised(Fatal)) }

  predicate OrphanCuts(a: Answers) {
    || a.orphanConfirms.Raised?
    || (a.orphanConfirms == Got(false) && a.actionAudit.Raised?)
    || (a.orphanConfirms == Got(true) && (a.willRetry.Raised? || a.alert.Raised?))
    || (a.orphanConfirms == Got(true) && a.alert == Got(true) && (a.actionAudit.Raised? || LaunchCuts(a)))
  }

  predicate KillCuts(a: Answers) {
    || a.kill.Raised?
    || (a.kill == Got(true) && (a.actionAudit.Raised? || a.willRetry.Raised? || a.notify.Raised? || LaunchCuts(a)))
  }

  /** No process stands for the running step: no pid at all, or a dead one that only the log knows. */
  predicate IsOrphan(entry: Entry, logPid: int, a: Answers) {
    a.timeoutAudit.Got? && entry.pid == 0 && (logPid == 0 || a.alive == Got(false))
  }

  predicate TimeoutCuts(orphaned: set<string>, issue: string, logPid: int, entry: Entry, asked: Option<string>,
                        a: Answers)
  {
    var pid := PidOf(entry, logPid);
    || a.timeoutAudit.Raised?
    || (pid != 0 && (a.alive.Raised? || (a.alive == Got(true) && KillCuts(a))))
    || (IsOrphan(entry, logPid, a) &&
        ((!Named(asked) && a.expectedAgain.Raised?) || (Unhandled(orphaned, issue, asked, a) && OrphanCuts(a))))
  }

  /** An exception ends the turn, and the pass, exactly: the first host call that raises among those made. */
  predicate Cuts(orphaned: set<string>, issue: string, logPid: int, a: Answers) {
    || a.state.Raised?
    || ((a.state.value.None? || a.state.value.value !in INACTIVE) && (a.launched.Raised? || a.mtime.Raised?))
    || (Opens(issue, a) &&
        if AgentOf(issue, a).None? then
          || a.expected.Raised?
          || (PidOf(EntryIn(issue, a), logPid) != 0 &&
              (a.skipAudit.Raised? || (issue in a.launched.value && a.save.Raised?)))
        else
          || a.confirms.Raised?
          || (a.confirms == Got(false) && (a.skipAudit.Raised? || a.save.Raised?))
          || (a.confirms == Got(true) &&
              TimeoutCuts(orphaned, issue, logPid, EntryIn(issue, a), Asked(issue, a), a)))
  }

  /** The turn uses up an orphan key. */
  predicate UsesKey(orphaned: set<string>, issue: string, logPid: int, a: Answers) {
    && Declares(issue, a) && IsOrphan(EntryIn(issue, a), logPid, a)
    && Unhandled(orphaned, issue, Asked(issue, a), a) && DealsWith(a)
  }

  /** What a turn leaves: exactly when it uses up an orphan key, and exactly when an exception ends it. */
  lemma TurnLeaves(orphaned: set<string>, issue: string, logPid: int, a: Answers)
    ensures var t := HandleTimeout(orphaned, issue, logPid, a);
            && (t.aborted <==> Cuts(orphaned, issue, logPid, a))
            && (if UsesKey(orphaned, issue, logPid, a) then
                  t.orphaned == orphaned + {OrphanKey(issue, OrphanOf(Asked(issue, a), a).value)}
                else t.orphaned == orphaned)
  {
    hide WithAgent, Unresolved, TimeoutCuts, Unhandled, DealsWith, IsOrphan, OrphanKey;
    if Opens(issue, a) {
      var entry := EntryIn(issue, a);
      var seen := [StateRead(a.state.value), TrackerRead(entry), LogRead(a.mtime.value)];
      if !Unresolved(entry.agentType) {
        WithAgentLeaves(orphaned, issue, logPid, entry.agentType, a, seen);
      } else if a.expected.Got? {
        NothingNamed();
        var agent := if Named(a.expected.value) then a.expected.value.value else entry.agentType;
        WithAgentLeaves(orphaned, issue, logPid, agent, a, seen + [ExpectedRead(a.expected.value)]);
      }
    }
  }

  lemma WithAgentLeaves(orphaned: set<string>, issue: string, logPid: int, agent: string, a: Answers, seen: seq<Effect>)
    requires Opens(issue, a)
    requires AgentOf(issue, a) == if Unresolved(agent) then None else Some(agent)
    requires Unresolved(agent) ==> a.expected.Got?
    ensures var t := WithAgent(orphaned, issue, logPid, EntryIn(issue, a), agent, Asked(issue, a), a, seen);
            && (t.aborted <==> Cuts(orphaned, issue, logPid, a))
            && (if UsesKey(orphaned, issue, logPid, a) then
                  t.orphaned == orphaned + {OrphanKey(issue, OrphanOf(Asked(issue, a), a).value)}
                else t.orphaned == orphaned)
  {
    hide TimedOut, Unresolved, TimeoutCuts, Unhandled, DealsWith, IsOrphan, OrphanKey, Predates;
    GuardCoversResolved(agent);
    if !Unresolved(agent) && a.confirms == Got(true) {
      TimedOutLeaves(orphaned, issue, logPid, EntryIn(issue, a), agent, Asked(issue, a), a,
          seen + [Confirmed(agent, true)]);
    }
  }

  lemma TimedOutLeaves(orphaned: set<string>, issue: string, logPid: int, entry: Entry, agent: string,
                       asked: Option<string>, a: Answers, seen: seq<Effect>)
    ensures var t := TimedOut(orphaned, issue, logPid, entry, agent, asked, a, seen);
            && (t.aborted <==> TimeoutCuts(orphaned, issue, logPid, entry, asked, a))
            && (if IsOrphan(entry, logPid, a) && Unhandled(orphaned, issue, asked, a) && DealsWith(a) then
                  t.orphaned == orphaned + {OrphanKey(issue, OrphanOf(asked, a).value)}
                else t.orphaned == orphaned)
  {
    hide Orphaned, Killing, KillCuts, OrphanCuts, DealsWith, OrphanKey, Unhandled;
    var declared := seen + [StepTimeout(agent)];
    var pid := EffectivePid(entry, logPid);
    if pid == 0 {
      OrphanedLeaves(orphaned, issue, asked, a, declared);
    } else if a.alive.Got? {
      var checked := declared + [PidChecked(pid, a.alive.value)];
      KillingLeaves(orphaned, pid, agent, a, checked);
      OrphanedLeaves(orphaned, issue, asked, a, checked);
    }
  }

  lemma KillingLeaves(orphaned: set<string>, pid: int, agent: string, a: Answers, seen: seq<Effect>)
    ensures var t := Killing(orphaned, pid, agent, a, seen);
            t.orphaned == orphaned && (t.aborted <==> KillCuts(a))
  {
  }

  lemma OrphanedLeaves(orphaned: set<string>, issue: string, asked: Option<string>, a: Answers, seen: seq<Effect>)
    ensures var t := Orphaned(orphaned, issue, asked, a, seen);
            && (t.aborted <==>
                (!Named(asked) && a.expectedAgain.Raised?) || (Unhandled(orphaned, issue, asked, a) && OrphanCuts(a)))
            && (if Unhandled(orphaned, issue, asked, a) && DealsWith(a) then
                  t.orphaned == orphaned + {OrphanKey(issue, OrphanOf(asked, a).value)}
                else t.orphaned == orphaned)
  {
    hide OrphanKey;
  }

  // ----- one pass over a log snapshot -----

  /** A log file: the issue its name is read as, all the issues its name mentions, and its modification time. */
  datatype LogFile = LogFile(path: string, issue: Option<string>, mentions: set<string>, mtime: real)

  /** The host's answers for one log file. */
  datatype LogAnswers = LogAnswers(
    state: Ans<Option<string>>,     // get_workflow_state
    expected: Ans<Option<string>>,  // get_expected_running_agent
    check: Ans<(bool, int)>,        // check_log_timeout: timed out, pid
    timeoutSeconds: int,
    age: Ans<real>,                 // age of the log
    handling: Answers)

  /** Log paths differ, and a name mentions the issue it is read as. */
  ghost predicate WellFormed(files: seq<LogFile>) {
    && (forall i, j :: 0 <= i < j < |files| ==> files[i].path != files[j].path)
    && (forall i :: 0 <= i < |files| && files[i].issue.Some? ==> files[i].issue.value in files[i].mentions)
  }

  /** Index of the newest log mentioning the issue; the first one of several equally new. */
  function Newest(files: seq<LogFile>, issue: string): (r: Option<nat>)
    ensures r.Some? ==> r.value < |files|
  {
    if files == [] then None
    else
      var n := |files| - 1;
      var before := Newest(files[..n], issue);
      if issue in files[n].mentions && (before.None? || files[before.value].mtime < files[n].mtime) then Some(n)
      else before
  }

  /** The newest log is the head of the logs mentioning the issue, stably sorted by falling modification time. */
  lemma {:induction false} NewestLeads(files: seq<LogFile>, issue: string)
    ensures Newest(files, issue).None? ==> forall i :: 0 <= i < |files| ==> issue !in files[i].mentions
    ensures Newest(files, issue).Some? ==>
              var r := Newest(files, issue).value;
              && issue in files[r].mentions
              && (forall i :: 0 <= i < |files| && issue in files[i].mentions ==>
                    files[i].mtime <= files[r].mtime && (i < r ==> files[i].mtime < files[r].mtime))
  {
    if files != [] {
      var n := |files| - 1;
      NewestLeads(files[..n], issue);
      assert forall i :: 0 <= i < n ==> files[..n][i] == files[i];
    }
  }

  /** The workflow is active and expects an agent, and the log has been quiet for too long. */
  predicate Due(x: LogAnswers) {
    && x.state.Got? && !IsInactive(x.state.value)
    && x.expected.Got? && Named(x.expected.value)
    && x.check.Got? && (x.check.value.0 || (x.age.Got? && x.age.value > x.timeoutSeconds as real))
  }

  /** The loop body of check_stuck_agents up to the call of _handle_timeout: Some(pid) to handle, None to skip. */
  function Examine(files: seq<LogFile>, i: nat, x: LogAnswers): Ans<Option<int>>
    requires i < |files|
  {
    if files[i].issue.None? then Got(None)
    else if x.state.Raised? then Raised(x.state.error)
    else if IsInactive(x.state.value) then Got(None)
    else if x.expected.Raised? then Raised(x.expected.error)
    else if !Named(x.expected.value) then Got(None)
    else
      var newest := Newest(files, files[i].issue.value);
      if newest.Some? && files[i].path != files[newest.value].path then Got(None)
      else if x.check.Raised? then Raised(x.check.error)
      else if x.check.value.0 then Got(Some(x.check.value.1))
      else if x.age.Raised? then Raised(x.age.error)
      else Got(if x.age.value > x.timeoutSeconds as real then Some(x.check.value.1) else None)
  }

  /** A handled log: its index, its turn, and the orphan keys before and after. */
  datatype Handled = Handled(index: nat, issue: string, logPid: int, before: set<string>, effects: seq<Effect>,
                             after: set<string>)

  datatype Pass = Pass(orphaned: set<string>, handled: seq<Handled>, aborted: bool)

  function AfterLog(p: Pass, files: seq<LogFile>, i: nat, x: LogAnswers): Pass
    requires i < |files|
  {
    if p.aborted then p
    else
      match Examine(files, i, x)
      case Raised(_) => p.(aborted := true)
      case Got(None) => p
      case Got(Some(pid)) =>
        if files[i].issue.None? then p
        else
          var issue := files[i].issue.value;
          var t := HandleTimeout(p.orphaned, issue, pid, x.handling);
          Pass(t.orphaned, p.handled + [Handled(i, issue, pid, p.orphaned, t.effects, t.orphaned)], t.aborted)
  }

  /** The first n logs of a pass. */
  function ScanLogs(orphaned: set<string>, files: seq<LogFile>, answers: seq<LogAnswers>, n: nat): Pass
    requires n <= |files| == |answers|
  {
    if n == 0 then Pass(orphaned, [], false)
    else AfterLog(ScanLogs(orphaned, files, answers, n - 1), files, n - 1, answers[n - 1])
  }

  /** What holds of the handled logs of the first n. */
  ghost predicate Scanned(files: seq<LogFile>, n: nat, handled: seq<Handled>) {
    && (forall k :: 0 <= k < |handled| ==> handled[k].index < n <= |files|)
    && (forall k :: 0 <= k < |handled| ==> Newest(files, handled[k].issue) == Some(handled[k].index))
    && (forall j, k :: 0 <= j < k < |handled| ==> handled[j].index < handled[k].index)
  }

  lemma {:induction false} ScannedOnce(orphaned: set<string>, files: seq<LogFile>, answers: seq<LogAnswers>, n: nat)
    requires n <= |files| == |answers| && WellFormed(files)
    ensures Scanned(files, n, ScanLogs(orphaned, files, answers, n).handled)
  {
    hide Newest, HandleTimeout, IsInactive, Named;
    if n > 0 {
      ScannedOnce(orphaned, files, answers, n - 1);
      if files[n - 1].issue.Some? {
        NewestLeads(files, files[n - 1].issue.value);
      }
    }
  }

  /** One pass over a fixed log snapshot handles each issue at most once, through its newest log. */
  lemma OncePerIssue(orphaned: set<string>, files: seq<LogFile>, answers: seq<LogAnswers>, j: nat, k: nat)
    requires |files| == |answers| && WellFormed(files)
    requires j < k < |ScanLogs(orphaned, files, answers, |files|).handled|
    ensures var handled := ScanLogs(orphaned, files, answers, |files|).handled;
            handled[j].issue != handled[k].issue
  {
    hide ScanLogs, Newest;
    ScannedOnce(orphaned, files, answers, |files|);
  }

  /** A pass that runs through handles exactly the issues whose newest log is named after them and is due: an issue
      whose newest log is named after another issue first is never handled. */
  lemma {:induction false} HandledIff(orphaned: set<string>, files: seq<LogFile>, answers: seq<LogAnswers>, n: nat,
                                      i: nat)
    requires i < n <= |files| == |answers| && WellFormed(files) && !ScanLogs(orphaned, files, answers, n).aborted
    ensures (exists k :: 0 <= k < |ScanLogs(orphaned, files, answers, n).handled| &&
                         ScanLogs(orphaned, files, answers, n).handled[k].index == i)
            <==> files[i].issue.Some? && Newest(files, files[i].issue.value) == Some(i) && Due(answers[i])
  {
    hide Newest, HandleTimeout, IsInactive, Named;
    var before, p := ScanLogs(orphaned, files, answers, n - 1), ScanLogs(orphaned, files, answers, n);
    ScannedOnce(orphaned, files, answers, n - 1);
    assert before.handled <= p.handled;
    if files[n - 1].issue.Some? {
      NewestLeads(files, files[n - 1].issue.value);
    }
    if i < n - 1 {
      HandledIff(orphaned, files, answers, n - 1, i);
      assert forall k :: 0 <= k < |before.handled| ==> p.handled[k] == before.handled[k];
    } else if |p.handled| > |before.handled| {
      assert p.handled[|before.handled|].index == i;
    }
  }

  /** The log is handled: it is named after an issue first, is the newest that mentions it, and is due. */
  predicate Handles(files: seq<LogFile>, i: nat, x: LogAnswers)
    requires i < |files|
  {
    files[i].issue.Some? && Newest(files, files[i].issue.value) == Some(i) && Due(x)
  }

  /** Looking at the log raises. */
  predicate LookRaises(files: seq<LogFile>, i: nat, x: LogAnswers)
    requires i < |files|
  {
    files[i].issue.Some? &&
    if x.state.Raised? then true
    else if x.state.value.Some? && x.state.value.value in INACTIVE then false
    else if x.expected.Raised? then true
    else
      && Named(x.expected.value) && Newest(files, files[i].issue.value) == Some(i)
      && (x.check.Raised? || (!x.check.value.0 && x.age.Raised?))
  }

  lemma ExamineExact(files: seq<LogFile>, i: nat, x: LogAnswers)
    requires i < |files| && WellFormed(files)
    ensures Examine(files, i, x).Raised? <==> LookRaises(files, i, x)
    ensures (Examine(files, i, x).Got? && Examine(files, i, x).value.Some?) <==> Handles(files, i, x)
    ensures Handles(files, i, x) ==> x.check.Got? && Examine(files, i, x) == Got(Some(x.check.value.1))
  {
    hide Newest, Named;
    if files[i].issue.Some? {
      NewestLeads(files, files[i].issue.value);
    }
  }

  /** An exception ends the pass at this log, exactly. */
  predicate CutsLog(orphaned: set<string>, files: seq<LogFile>, i: nat, x: LogAnswers)
    requires i < |files|
  {
    || LookRaises(files, i, x)
    || (Handles(files, i, x) && Cuts(orphaned, files[i].issue.value, x.check.value.1, x.handling))
  }

  /** What a log adds to a pass that has come to it. */
  lemma LogExact(p: Pass, files: seq<LogFile>, i: nat, x: LogAnswers)
    requires i < |files| && WellFormed(files) && !p.aborted
    ensures var p' := AfterLog(p, files, i, x);
            && (p'.aborted <==> CutsLog(p.orphaned, files, i, x))
            && (if Handles(files, i, x) then
                  var issue, pid := files[i].issue.value, x.check.value.1;
                  var t := HandleTimeout(p.orphaned, issue, pid, x.handling);
                  p'.handled == p.handled + [Handled(i, issue, pid, p.orphaned, t.effects, t.orphaned)]
                else p'.handled == p.handled)
  {
    hide Newest, HandleTimeout, Due, Cuts, Examine, LookRaises, WellFormed;
    ExamineExact(files, i, x);
    if Handles(files, i, x) {
      TurnLeaves(p.orphaned, files[i].issue.value, x.check.value.1, x.handling);
    }
  }

  /** The i-th log is handled in the pass, with this effect. */
  ghost predicate HappensIn(handled: seq<Handled>, i: nat, x: Effect) {
    exists k :: 0 <= k < |handled| && handled[k].index == i && x in handled[k].effects
  }

  /** A pass has exactly the effects called for at the logs it handles, up to the one that cuts it. */
  lemma {:induction false} PassExact(orphaned: set<string>, files: seq<LogFile>, answers: seq<LogAnswers>, n: nat,
                                     i: nat, x: Effect)
    requires i < n <= |files| == |answers| && WellFormed(files)
    ensures var before := ScanLogs(orphaned, files, answers, i);
            HappensIn(ScanLogs(orphaned, files, answers, n).handled, i, x) <==>
              && !before.aborted && Handles(files, i, answers[i])
              && Happens(before.orphaned, files[i].issue.value, answers[i].check.value.1, answers[i].handling, x)
  {
    hide Newest, HandleTimeout, Happens, AfterLog, CutsLog, Handles, Due;
    var before, p := ScanLogs(orphaned, files, answers, n - 1), ScanLogs(orphaned, files, answers, n);
    ScannedOnce(orphaned, files, answers, n - 1);
    if before.aborted {
      AbortedStays(before, files, n - 1, answers[n - 1]);
    } else {
      LogExact(before, files, n - 1, answers[n - 1]);
    }
    if i < n - 1 {
      PassExact(orphaned, files, answers, n - 1, i, x);
      assert HappensIn(p.handled, i, x) <==> HappensIn(before.handled, i, x) by {
        HandledElsewhere(before.handled, p.handled, i, x);
      }
    } else {
      assert !HappensIn(before.handled, i, x);
      if !before.aborted && Handles(files, i, answers[i]) {
        DueChecked(files, i, answers[i]);
        var issue, pid := files[i].issue.value, answers[i].check.value.1;
        EffectsExact(before.orphaned, issue, pid, answers[i].handling, x);
        assert p.handled[|before.handled|].index == i;
      }
    }
  }

  lemma DueChecked(files: seq<LogFile>, i: nat, x: LogAnswers)
    requires i < |files| && Handles(files, i, x)
    ensures files[i].issue.Some? && x.check.Got?
  {
  }

  lemma AbortedStays(p: Pass, files: seq<LogFile>, i: nat, x: LogAnswers)
    requires i < |files| && p.aborted
    ensures AfterLog(p, files, i, x) == p
  {
  }

  lemma HandledElsewhere(before: seq<Handled>, after: seq<Handled>, i: nat, x: Effect)
    requires after == before || (|after| == |before| + 1 && before <= after && after[|before|].index != i)
    ensures HappensIn(after, i, x) <==> HappensIn(before, i, x)
  {
  }

  // ----- sessions -----

  /** A pass: its log snapshot and the host's answers. */
  datatype RawInput = PassInput(files: seq<LogFile>, answers: seq<LogAnswers>)

  type PassInput = p: RawInput | |p.files| == |p.answers| witness PassInput([], [])

  /** Orphan keys and handled logs of a whole session of passes. */
  function Session(passes: seq<PassInput>): (r: (set<string>, seq<Handled>))
  {
    if passes == [] then ({}, [])
    else
      var (orphaned, handled) := Session(passes[..|passes| - 1]);
      var last := passes[|passes| - 1];
      var p := ScanLogs(orphaned, last.files, last.answers, |last.files|);
      (p.orphaned, handled + p.handled)
  }

  ghost predicate AllLawful(orphaned: set<string>, handled: seq<Handled>) {
    && (forall k :: 0 <= k < |handled| ==>
          && TurnLawful(handled[k].issue, handled[k].logPid, handled[k].before, handled[k].effects, handled[k].after)
          && handled[k].after <= orphaned)
    && (forall j, k :: 0 <= j < k < |handled| ==> handled[j].after <= handled[k].before)
  }

  lemma {:induction false} ScanLawful(orphaned: set<string>, handled: seq<Handled>, files: seq<LogFile>,
                                      answers: seq<LogAnswers>, n: nat)
    requires n <= |files| == |answers| && AllLawful(orphaned, handled)
    ensures var p := ScanLogs(orphaned, files, answers, n);
            orphaned <= p.orphaned && AllLawful(p.orphaned, handled + p.handled)
  {
    hide TurnLawful, Newest, HandleTimeout, IsInactive, Named, Examine;
    if n == 0 {
      assert handled + [] == handled;
    } else {
      ScanLawful(orphaned, handled, files, answers, n - 1);
      var before := ScanLogs(orphaned, files, answers, n - 1);
      var x := Examine(files, n - 1, answers[n - 1]);
      if !before.aborted && x.Got? && x.value.Some? && files[n - 1].issue.Some? {
        var issue := files[n - 1].issue.value;
        HandleLawful(before.orphaned, issue, x.value.value, answers[n - 1].handling);
        TurnGrows(before.orphaned, issue, x.value.value, answers[n - 1].handling);
        var t := HandleTimeout(before.orphaned, issue, x.value.value, answers[n - 1].handling);
        var h := Handled(n - 1, issue, x.value.value, before.orphaned, t.effects, t.orphaned);
        assert handled + (before.handled + [h]) == (handled + before.handled) + [h];
        LawfulSnoc(before.orphaned, handled + before.handled, h);
      }
    }
  }

  lemma TurnGrows(orphaned: set<string>, issue: string, logPid: int, a: Answers)
    ensures orphaned <= HandleTimeout(orphaned, issue, logPid, a).orphaned
  {
    hide HandleTimeout, KillJustified;
    HandleLawful(orphaned, issue, logPid, a);
  }

  lemma LawfulSnoc(orphaned: set<string>, handled: seq<Handled>, h: Handled)
    requires AllLawful(orphaned, handled) && h.before == orphaned && orphaned <= h.after
    requires TurnLawful(h.issue, h.logPid, h.before, h.effects, h.after)
    ensures AllLawful(h.after, handled + [h])
  {
    hide TurnLawful;
    var all := handled + [h];
    forall k | 0 <= k < |all|
      ensures TurnLawful(all[k].issue, all[k].logPid, all[k].before, all[k].effects, all[k].after)
              && all[k].after <= h.after
    {
      assert k < |handled| ==> all[k] == handled[k];
    }
    forall j, k | 0 <= j < k < |all| ensures all[j].after <= all[k].before {
      assert all[j] == handled[j] && (k < |handled| ==> all[k] == handled[k]);
    }
  }

  /** Over every session, whatever the host answers and the snapshots hold, every turn is lawful and the orphan keys
      only grow. */
  lemma {:induction false} SessionLawful(passes: seq<PassInput>)
    ensures AllLawful(Session(passes).0, Session(passes).1)
  {
    hide AllLawful, ScanLogs;
    if passes == [] {
      NothingLawful();
    } else {
      var earlier := passes[..|passes| - 1];
      SessionLawful(earlier);
      var last := passes[|passes| - 1];
      ScanLawful(Session(earlier).0, Session(earlier).1, last.files, last.answers, |last.files|);
    }
  }

  lemma NothingLawful()
    ensures AllLawful({}, [])
  {
  }

  ghost predicate Relaunches(h: Handled, issue: string, agent: string) {
    h.issue == issue && OrphanLaunch(agent) in h.effects
  }

  /** An orphaned step is relaunched at most once per issue and expected agent in a session. */
  lemma OrphanRelaunchedOnce(passes: seq<PassInput>, issue: string, agent: string, j: nat, k: nat)
    requires j < |Session(passes).1| && k < |Session(passes).1|
    requires Relaunches(Session(passes).1[j], issue, agent) && Relaunches(Session(passes).1[k], issue, agent)
    ensures j == k
  {
    hide Session, KillJustified;
    SessionLawful(passes);
    var handled := Session(passes).1;
    KeyUsed(handled[j], issue, agent);
    KeyUsed(handled[k], issue, agent);
  }

  lemma KeyUsed(h: Handled, issue: string, agent: string)
    requires TurnLawful(h.issue, h.logPid, h.before, h.effects, h.after) && Relaunches(h, issue, agent)
    ensures OrphanKey(issue, agent) in h.after - h.before
  {
    hide KillJustified, OrphanKey;
    var i :| 0 <= i < |h.effects| && h.effects[i] == OrphanLaunch(agent);
  }
}
