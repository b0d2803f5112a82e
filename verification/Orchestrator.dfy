/** The orchestrator object: its in-memory fields and the loops that update them, proved against the value-level steps.
    */
module Orchestrator {
  import opened Text
  import opened Host
  import opened LaunchTracker
  import D = DeadAgents
  import S = StuckAgents

  // ----- retry exclusions -----

  function ToolName(value: string): string { Lower(Strip(value)) }

  /** The names of `values` in order of first appearance. */
  function Names(values: seq<string>): seq<string> { Dedup(Cleaned(ToolName, values)) }

  /** Every non-empty name of a value is there, once. */
  lemma NamesOnce(values: seq<string>)
    ensures forall name :: name in Names(values) <==>
            name != "" && exists i :: 0 <= i < |values| && ToolName(values[i]) == name
    ensures NoRepeats(Names(values))
  {
    hide ToolName, Dedup, Cleaned;
    DedupSame(Cleaned(ToolName, values));
    CleanedFrom(ToolName, values);
  }

  lemma NothingNamed()
    ensures Names([]) == []
  {
  }

  class ProcessOrchestrator {
    var deadPidMissCounts: map<string, nat>
    var deadAgentAlerted: set<string>
    var orphanedStepAlerted: set<string>

    constructor ()
      ensures Memory() == D.Memory(map[], {}) && orphanedStepAlerted == {}
    {
      deadPidMissCounts, deadAgentAlerted, orphanedStepAlerted := map[], {}, {};
    }

    ghost function Memory(): D.Memory
      reads this
    {
      D.Memory(deadPidMissCounts, deadAgentAlerted)
    }

    /** _merge_retry_exclusions */
    static method MergeRetryExclusions(existing: seq<string>, crashedTool: string) returns (merged: Option<seq<string>>)
      ensures merged == (var names := Names(existing + [crashedTool]); if names == [] then None else Some(names))
    {
      hide ToolName, Dedup, Cleaned;
      var values := existing + [crashedTool];
      assert Names([]) == [] by { NothingNamed(); }
      var names: seq<string> := [];
      var seen: set<string> := {};
      for i := 0 to |values|
        invariant names == Names(values[..i])
        invariant forall name :: name in seen <==> name in names
      {
        CleanedTurn(ToolName, values, i);
        var name := ToolName(values[i]);
        if name != "" && name !in seen {
          seen, names := seen + {name}, names + [name];
        }
      }
      assert values[..|values|] == values;
      merged := if names == [] then None else Some(names);
    }

    /** The loop body of detect_dead_agents; `tracker` is the working copy of the launched agents. */
    method InspectEntry(launched: Tracker, item: D.Item, now: real)
      returns (tracker: Tracker, effects: seq<D.Effect>, stop: bool)
      modifies `deadPidMissCounts, `deadAgentAlerted
      ensures D.Outcome(Memory(), tracker, effects, stop)
           == D.PollEntry(old(Memory()), launched, item.issue, item.entry, now, item.answers)
    {
      hide D.AlertKey;
      var a, e := item.answers, item.entry;
      var key := D.AlertKey(item.issue, e.pid);
      tracker, effects, stop := launched, [], false;
      if e.pid == 0 { return; }
      if a.alive.Raised? { stop := true; return; }
      effects := [D.Observed(key, a.alive.value)];
      if a.alive.value {
        deadPidMissCounts := deadPidMissCounts - {key};
        return;
      }
      var misses := (if key in deadPidMissCounts then deadPidMissCounts[key] else 0) + 1;
      deadPidMissCounts := deadPidMissCounts[key := misses];
      var required := if now - e.timestamp >= a.timeoutSeconds as real then 1 else D.MISS_THRESHOLD;
      if misses < required { return; }
      tracker, effects, stop := DeclareDead(launched, item, now);
    }

    /** The part of the loop body after the required number of misses. */
    method DeclareDead(launched: Tracker, item: D.Item, now: real)
      returns (tracker: Tracker, effects: seq<D.Effect>, stop: bool)
      modifies `deadPidMissCounts, `deadAgentAlerted
      ensures D.Outcome(Memory(), tracker, effects, stop)
           == D.ActOnDead(old(Memory()), launched, item.issue, item.entry, now, item.answers)
    {
      hide D.AlertKey, D.Rewritten;
      var a, e, issue := item.answers, item.entry, item.issue;
      var key := D.AlertKey(issue, e.pid);
      tracker, effects, stop := launched, [D.Observed(key, false)], false;
      if a.state.Raised? { stop := true; return; }
      if IsInactive(a.state.value) { return; }
      if key in deadAgentAlerted { return; }
      if a.expects.Raised? { stop := true; return; }
      if !a.expects.value {
        effects := effects + [D.Stale(key)];
        if a.staleAudit.Raised? { stop := true; return; }
        tracker := tracker - {issue};
        effects := effects + [D.SaveTracker(key, tracker)];
        if a.save.Raised? { stop := true; return; }
        deadAgentAlerted := deadAgentAlerted + {key};
        deadPidMissCounts := deadPidMissCounts - {key};
        effects := effects + [D.Dropped(key)];
        return;
      }
      if a.willRetry.Raised? || a.latestLog.Raised? { stop := true; return; }
      effects := effects + [D.AgentDead(key, now - e.timestamp, a.timeoutSeconds)];
      if a.deadAudit.Raised? || a.alert.Raised? { stop := true; return; }
      effects := effects + [D.Alert(key, a.willRetry.value, a.alert.value)];
      if !a.alert.value { return; }
      deadAgentAlerted := deadAgentAlerted + {key};
      deadPidMissCounts := deadPidMissCounts - {key};
      effects := effects + [D.Dropped(key)];
      if a.willRetry.value {
        if a.latest.Raised? { stop := true; return; }
        tracker := D.Rewritten(tracker, a.latest.value, issue);
        effects := effects + [D.SaveTracker(key, tracker)];
        if a.save.Raised? || a.clearGuard.Raised? { stop := true; return; }
        effects := effects + [D.Launch(key, issue, e.agentType)];
        stop := a.launch == Raised(Fatal);
      } else {
        tracker := tracker - {issue};
        effects := effects + [D.SaveTracker(key, tracker)];
        stop := a.save.Raised?;
      }
    }

    /** detect_dead_agents */
    method DetectDeadAgents(p: D.Poll) returns (effects: seq<D.Effect>, aborted: bool)
      modifies `deadPidMissCounts, `deadAgentAlerted
      ensures var o := D.PollAll(old(Memory()), p);
              Memory() == o.memory && effects == o.effects && aborted == o.aborted
    {
      hide D.PollEntry;
      ghost var start := Memory();
      var launched := D.Snapshot(p.items);
      effects, aborted := [], false;
      for i := 0 to |p.items|
        invariant D.PollItems(start, D.Snapshot(p.items), p.items[..i], p.now)
                  == D.Outcome(Memory(), launched, effects, aborted)
      {
        assert p.items[..i + 1][..i] == p.items[..i];
        if !aborted {
          var more;
          launched, more, aborted := InspectEntry(launched, p.items[i], p.now);
          effects := effects + more;
        }
      }
      assert p.items[..|p.items|] == p.items;
    }

    /** _handle_timeout */
    method HandleTimeout(issue: string, logPid: int, a: S.Answers) returns (effects: seq<S.Effect>, aborted: bool)
      modifies `orphanedStepAlerted
      ensures S.Turn(orphanedStepAlerted, effects, aborted)
              == S.HandleTimeout(old(orphanedStepAlerted), issue, logPid, a)
    {
      hide S.Unresolved, S.OrphanKey, S.Predates, IsInactive, S.OrphanedAs, S.Killing;
      effects, aborted := [], false;
      if a.state.Raised? { aborted := true; return; }
      effects := [S.StateRead(a.state.value)];
      if IsInactive(a.state.value) { return; }
      if a.launched.Raised? { aborted := true; return; }
      var launched := a.launched.value;
      var entry := EntryOf(launched, issue);
      var agent := entry.agentType;
      var pid := if entry.pid != 0 then entry.pid else logPid;
      effects := effects + [S.TrackerRead(entry)];
      assert effects == [S.StateRead(a.state.value), S.TrackerRead(entry)];
      if a.mtime.Raised? { aborted := true; return; }
      effects := effects + [S.LogRead(a.mtime.value)];
      assert effects == [S.StateRead(a.state.value), S.TrackerRead(entry), S.LogRead(a.mtime.value)];
      if S.Predates(a.mtime.value, entry) { return; }
      var expected: Option<string> := None;
      if S.Unresolved(agent) {
        if a.expected.Raised? { aborted := true; return; }
        expected := a.expected.value;
        effects := effects + [S.ExpectedRead(expected)];
        if S.Named(expected) { agent := expected.value; }
      }
      if pid == 0 && S.Unresolved(agent) { return; }
      if S.Unresolved(agent) {
        if a.skipAudit.Raised? { aborted := true; return; }
        if issue in launched {
          effects := effects + [S.SaveTracker(launched - {issue})];
          aborted := a.save.Raised?;
        }
        return;
      }
      if agent != "" && agent != "unknown" {
        if a.confirms.Raised? { aborted := true; return; }
        effects := effects + [S.Confirmed(agent, a.confirms.value)];
        if !a.confirms.value {
          if a.skipAudit.Raised? { aborted := true; return; }
          effects := effects + [S.SaveTracker(launched - {issue})];
          aborted := a.save.Raised?;
          return;
        }
      }
      effects := effects + [S.StepTimeout(agent)];
      if a.timeoutAudit.Raised? { aborted := true; return; }
      if pid != 0 {
        if a.alive.Raised? { aborted := true; return; }
        effects := effects + [S.PidChecked(pid, a.alive.value)];
        if !a.alive.value {
          if entry.pid != 0 { return; }
          pid := 0;
        }
      }
      if pid == 0 {
        if !S.Named(expected) {
          if a.expectedAgain.Raised? { aborted := true; return; }
          expected := a.expectedAgain.value;
          effects := effects + [S.ExpectedRead(expected)];
        }
        if !S.Named(expected) { return; }
        effects, aborted := RelaunchOrphan(issue, expected.value, a, effects);
        return;
      }
      effects, aborted := KillAndRetry(pid, agent, a, effects);
    }

    /** The orphan branch of _handle_timeout. */
    method RelaunchOrphan(issue: string, agent: string, a: S.Answers, seen: seq<S.Effect>)
      returns (effects: seq<S.Effect>, aborted: bool)
      modifies `orphanedStepAlerted
      ensures S.Turn(orphanedStepAlerted, effects, aborted)
              == S.OrphanedAs(old(orphanedStepAlerted), issue, agent, a, seen)
    {
      hide S.OrphanKey;
      var key := S.OrphanKey(issue, agent);
      effects, aborted := seen, false;
      if key in orphanedStepAlerted { return; }
      if a.orphanConfirms.Raised? { aborted := true; return; }
      effects := effects + [S.Confirmed(agent, a.orphanConfirms.value)];
      if !a.orphanConfirms.value {
        if a.actionAudit.Raised? { aborted := true; return; }
        orphanedStepAlerted := orphanedStepAlerted + {key};
        return;
      }
      if a.willRetry.Raised? || a.alert.Raised? { aborted := true; return; }
      effects := effects + [S.OrphanAlert(agent, a.willRetry.value, a.alert.value)];
      if !a.alert.value { return; }
      if a.actionAudit.Raised? { aborted := true; return; }
      orphanedStepAlerted := orphanedStepAlerted + {key};
      if a.willRetry.value {
        if a.clearGuard.Raised? { aborted := true; return; }
        effects := effects + [S.OrphanLaunch(agent)];
        aborted := a.launch == Raised(Fatal);
      }
    }

    /** The kill branch of _handle_timeout. */
    static method KillAndRetry(pid: int, agent: string, a: S.Answers, seen: seq<S.Effect>)
      returns (effects: seq<S.Effect>, aborted: bool)
      ensures forall orphaned :: S.Killing(orphaned, pid, agent, a, seen) == S.Turn(orphaned, effects, aborted)
    {
      effects, aborted := seen, false;
      if a.kill.Raised? { aborted := true; return; }
      effects := effects + [S.Kill(pid, agent, a.kill.value)];
      if !a.kill.value { return; }
      if a.actionAudit.Raised? || a.willRetry.Raised? || a.notify.Raised? { aborted := true; return; }
      if a.willRetry.value {
        if a.clearGuard.Raised? { aborted := true; return; }
        effects := effects + [S.TimeoutLaunch(agent)];
        aborted := a.launch == Raised(Fatal);
      }
    }

    /** The head of the logs mentioning the issue, newest first. */
    static method NewestLog(files: seq<S.LogFile>, issue: string) returns (r: Option<nat>)
      ensures r == S.Newest(files, issue)
    {
      r := None;
      for i := 0 to |files|
        invariant r == S.Newest(files[..i], issue)
      {
        assert files[..i + 1][..i] == files[..i];
        if issue in files[i].mentions && (r.None? || files[r.value].mtime < files[i].mtime) {
          r := Some(i);
        }
      }
      assert files[..|files|] == files;
    }

    /** The checks of one log before its timeout is handled: the pid to handle, None to skip the log. */
    static method ExamineLog(files: seq<S.LogFile>, i: nat, x: S.LogAnswers) returns (r: Ans<Option<int>>)
      requires i < |files|
      ensures r == S.Examine(files, i, x)
    {
      r := Got(None);
      if files[i].issue.None? { return; }
      if x.state.Raised? { return Raised(x.state.error); }
      if IsInactive(x.state.value) { return; }
      if x.expected.Raised? { return Raised(x.expected.error); }
      if !S.Named(x.expected.value) { return; }
      var newest := NewestLog(files, files[i].issue.value);
      if newest.Some? && files[i].path != files[newest.value].path { return; }
      if x.check.Raised? { return Raised(x.check.error); }
      var timedOut := x.check.value.0;
      if !timedOut {
        if x.age.Raised? { return Raised(x.age.error); }
        timedOut := x.age.value > x.timeoutSeconds as real;
      }
      if timedOut { r := Got(Some(x.check.value.1)); }
    }

    /** check_stuck_agents: every log in turn, then the dead-agent poll unless an exception ended the pass. */
    method CheckStuckAgents(input: S.PassInput, p: D.Poll)
      returns (handled: seq<S.Handled>, dead: seq<D.Effect>, aborted: bool)
      modifies this
      ensures var pass := S.ScanLogs(old(orphanedStepAlerted), input.files, input.answers, |input.files|);
              && orphanedStepAlerted == pass.orphaned && handled == pass.handled
              && if pass.aborted then aborted && dead == [] && Memory() == old(Memory())
                 else var o := D.PollAll(old(Memory()), p);
                      Memory() == o.memory && dead == o.effects && aborted == o.aborted
    {
      hide S.HandleTimeout, S.Newest, S.Named, IsInactive, D.PollAll;
      var files, answers := input.files, input.answers;
      handled, dead, aborted := [], [], false;
      for i := 0 to |files|
        invariant S.ScanLogs(old(orphanedStepAlerted), files, answers, i)
                  == S.Pass(orphanedStepAlerted, handled, aborted)
        invariant Memory() == old(Memory())
      {
        if !aborted && files[i].issue.Some? {
          var issue := files[i].issue.value;
          var x := ExamineLog(files, i, answers[i]);
          if x.Raised? {
            aborted := true;
          } else if x.value.Some? {
            var before := orphanedStepAlerted;
            var effects;
            effects, aborted := HandleTimeout(issue, x.value.value, answers[i].handling);
            handled := handled + [S.Handled(i, issue, x.value.value, before, effects, orphanedStepAlerted)];
          }
        }
      }
      if !aborted {
        dead, aborted := DetectDeadAgents(p);
      }
    }
  }
}
