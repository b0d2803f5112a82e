/** The launched-agents tracker and the workflow states in which nothing is relaunched. */
module LaunchTracker {
  import opened Text

  const INACTIVE: set<string> := {"STOPPED", "PAUSED", "COMPLETED", "FAILED", "CANCELLED"}

  predicate IsInactive(state: Option<string>) { state.Some? && state.value in INACTIVE }

  /** A tracker entry; pid 0 stands for a missing one. `meta` holds the retry-fuse keys a relaunch keeps. */
  datatype Entry = Entry(pid: int, timestamp: real, agentType: string, tool: string, meta: map<string, string>)

  type Tracker = map<string, Entry>

  function EntryOf(launched: Tracker, issue: string): Entry {
    if issue in launched then launched[issue] else Entry(0, 0.0, "unknown", "", map[])
  }
}

/** Dead-agent detection: miss counts, alerts and retries over polls of the launched-agents tracker. */
module DeadAgents {
  import opened Text
  import opened Host
  import opened LaunchTracker

  const MISS_THRESHOLD := 3

  /** One answer for every host call made for one tracker entry. */
  datatype Answers = Answers(
    alive: Ans<bool>,               // is_pid_alive
    timeoutSeconds: int,            // the resolved timeout
    state: Ans<Option<string>>,     // get_workflow_state
    expects: Ans<bool>,             // should_retry_dead_agent
    staleAudit: Ans<()>,            // audit_log AGENT_DEAD_STALE
    willRetry: Ans<bool>,           // should_retry
    latestLog: Ans<()>,             // get_latest_issue_log
    deadAudit: Ans<()>,             // audit_log AGENT_DEAD
    alert: Ans<bool>,               // send_alert
    latest: Ans<Tracker>,           // load_launched_agents before the rewrite
    save: Ans<()>,                  // save_launched_agents
    clearGuard: Ans<()>,            // clear_launch_guard
    launch: Ans<int>)               // launch_agent, whose ordinary exceptions are caught

  /** The in-memory fields: consecutive dead observations per issue:pid, and the issue:pids already handled. */
  datatype Memory = Memory(misses: map<string, nat>, alerted: set<string>)

  datatype Effect =
    | Observed(key: string, alive: bool)
    | AgentDead(key: string, age: real, timeoutSeconds: int)
    | Stale(key: string)
    | Alert(key: string, retry: bool, delivered: bool)
    | Dropped(key: string)
    | SaveTracker(key: string, tracker: Tracker)
    | Launch(key: string, issue: string, agent: string)

  /** What one entry leaves; `aborted` when an exception ended the poll. */
  datatype Outcome = Outcome(memory: Memory, launched: Tracker, effects: seq<Effect>, aborted: bool)

  function AlertKey(issue: string, pid: int): string { issue + ":" + IntText(pid) }

  /** Different trackers entries have different alert keys, whatever the issue ids. */
  lemma AlertKeyInjective(i: string, p: int, j: string, q: int)
    requires AlertKey(i, p) == AlertKey(j, q)
    ensures i == j && p == q
  {
    LastColonSplit(i, IntText(p), j, IntText(q));
    ParsePrinted(p);
    ParsePrinted(q);
  }

  function Misses(m: Memory, key: string): nat {
    if key in m.misses then m.misses[key] else 0
  }

  function Forget(m: Memory, key: string): Memory { m.(misses := m.misses - {key}) }

  function Settle(m: Memory, key: string): Memory { Memory(m.misses - {key}, m.alerted + {key}) }

  function RequiredMisses(age: real, timeoutSeconds: int): nat {
    if age >= timeoutSeconds as real then 1 else MISS_THRESHOLD
  }

  /** detect_dead_agents for one entry of the snapshot. */
  function PollEntry(m: Memory, launched: Tracker, issue: string, e: Entry, now: real, a: Answers): Outcome {
    var key := AlertKey(issue, e.pid);
    if e.pid == 0 then Outcome(m, launched, [], false)
    else match a.alive
      case Raised(_) => Outcome(m, launched, [], true)
      case Got(alive) =>
        if alive then Outcome(Forget(m, key), launched, [Observed(key, true)], false)
        else
          var missed := m.(misses := m.misses[key := Misses(m, key) + 1]);
          if Misses(missed, key) < RequiredMisses(now - e.timestamp, a.timeoutSeconds) then
            Outcome(missed, launched, [Observed(key, false)], false)
          else ActOnDead(missed, launched, issue, e, now, a)
  }

  /** Enough misses: look at the workflow before acting. */
  function ActOnDead(m: Memory, launched: Tracker, issue: string, e: Entry, now: real, a: Answers): Outcome {
    var key := AlertKey(issue, e.pid);
    var seen := [Observed(key, false)];
    if a.state.Raised? then Outcome(m, launched, seen, true)
    else if IsInactive(a.state.value) || key in m.alerted then Outcome(m, launched, seen, false)
    else if a.expects.Raised? then Outcome(m, launched, seen, true)
    else if !a.expects.value then
      var stale := seen + [Stale(key)];
      var rest := launched - {issue};
      if a.staleAudit.Raised? then Outcome(m, launched, stale, true)
      else if a.save.Raised? then Outcome(m, rest, stale + [SaveTracker(key, rest)], true)
      else Outcome(Settle(m, key), rest, stale + [SaveTracker(key, rest), Dropped(key)], false)
    else if a.willRetry.Raised? || a.latestLog.Raised? then Outcome(m, launched, seen, true)
    else
      var dead := seen + [AgentDead(key, now - e.timestamp, a.timeoutSeconds)];
      if a.deadAudit.Raised? || a.alert.Raised? then Outcome(m, launched, dead, true)
      else if !a.alert.value then Outcome(m, launched, dead + [Alert(key, a.willRetry.value, false)], false)
      else Alerted(Settle(m, key), launched, issue, e, a, dead + [Alert(key, a.willRetry.value, true), Dropped(key)])
  }

  /** The tracker a retry writes: the snapshot with this issue reduced to the latest retry-fuse metadata. */
  function Rewritten(launched: Tracker, latest: Tracker, issue: string): Tracker {
    var meta := if issue in latest then latest[issue].meta else map[];
    if meta != map[] then launched[issue := Entry(0, 0.0, "unknown", "", meta)] else launched - {issue}
  }

  /** The alert was delivered and the key settled: rewrite the tracker and relaunch, or just drop the entry. */
  function Alerted(m: Memory, launched: Tracker, issue: string, e: Entry, a: Answers, effects: seq<Effect>): Outcome {
    var key := AlertKey(issue, e.pid);
    if a.willRetry != Got(true) then
      Outcome(m, launched - {issue}, effects + [SaveTracker(key, launched - {issue})], a.save.Raised?)
    else if a.latest.Raised? then Outcome(m, launched, effects, true)
    else
      var rewritten := Rewritten(launched, a.latest.value, issue);
      var saved := effects + [SaveTracker(key, rewritten)];
      if a.save.Raised? || a.clearGuard.Raised? then Outcome(m, rewritten, saved, true)
      else Outcome(m, rewritten, saved + [Launch(key, issue, e.agentType)], a.launch == Raised(Fatal))
  }

  // ----- polls and runs -----

  /** One entry of the tracker snapshot, in dictionary order, with the host's answers for it. */
  datatype Item = Item(issue: string, entry: Entry, answers: Answers)

  /** A poll: the snapshot loaded at its start and the clock. */
  datatype Poll = Poll(items: seq<Item>, now: real)

  function Snapshot(items: seq<Item>): Tracker {
    if items == [] then map[] else Snapshot(items[..|items| - 1])[items[|items| - 1].issue := items[|items| - 1].entry]
  }

  function AfterItem(o: Outcome, item: Item, now: real): Outcome {
    if o.aborted then o
    else
      var r := PollEntry(o.memory, o.launched, item.issue, item.entry, now, item.answers);
      Outcome(r.memory, r.launched, o.effects + r.effects, r.aborted)
  }

  function PollItems(m: Memory, launched: Tracker, items: seq<Item>, now: real): Outcome {
    if items == [] then Outcome(m, launched, [], false)
    else AfterItem(PollItems(m, launched, items[..|items| - 1], now), items[|items| - 1], now)
  }

  function PollAll(m: Memory, p: Poll): Outcome {
    PollItems(m, Snapshot(p.items), p.items, p.now)
  }

  /** Memory and trace after a whole session of polls. */
  function Session(polls: seq<Poll>): (Memory, seq<Effect>) {
    if polls == [] then (Memory(map[], {}), [])
    else
      var (m, trace) := Session(polls[..|polls| - 1]);
      var o := PollAll(m, polls[|polls| - 1]);
      (o.memory, trace + o.effects)
  }

  // ----- laws -----

  function CountAfter(misses: nat, e: Effect, key: string): nat {
    match e
    case Observed(k, alive) => if k != key then misses else if alive then 0 else misses + 1
    case Dropped(k) => if k == key then 0 else misses
    case _ => misses
  }

  /** Dead observations of a key since the last alive one or the last drop. */
  function DeadStreak(trace: seq<Effect>, key: string): nat {
    if trace == [] then 0 else CountAfter(DeadStreak(trace[..|trace| - 1], key), trace[|trace| - 1], key)
  }

  lemma StreakSnoc(trace: seq<Effect>, e: Effect, key: string)
    ensures DeadStreak(trace + [e], key) == CountAfter(DeadStreak(trace, key), e, key)
  {
    assert (trace + [e])[..|trace|] == trace;
  }

  /** A delivered alert. */
  predicate Delivered(e: Effect, key: string) { e.Alert? && e.key == key && e.delivered }

  ghost predicate CountsMatch(m: Memory, trace: seq<Effect>) {
    forall key :: Misses(m, key) == DeadStreak(trace, key)
  }

  /** Each action on a dead agent comes after three dead observations in a row, or one when the age is past the
      timeout. */
  ghost predicate DeadJustified(trace: seq<Effect>) {
    forall i :: 0 <= i < |trace| && trace[i].AgentDead? ==>
      var streak := DeadStreak(trace[..i], trace[i].key);
      streak >= MISS_THRESHOLD || (streak >= 1 && trace[i].age >= trace[i].timeoutSeconds as real)
  }

  /** One delivered alert per key at most, and nothing further is done about a key once it is alerted. */
  ghost predicate AlertedOnce(trace: seq<Effect>) {
    forall i, j, key :: 0 <= i < j < |trace| && Delivered(trace[i], key) ==>
      !(trace[j].key == key && (trace[j].Alert? || trace[j].AgentDead? || trace[j].Stale?))
  }

  ghost predicate AlertsKnown(m: Memory, trace: seq<Effect>) {
    forall i, key :: 0 <= i < |trace| && Delivered(trace[i], key) ==> key in m.alerted
  }

  /** A relaunch comes three calls after the delivered retry alert of its own key. */
  ghost predicate LaunchesFollowAlerts(trace: seq<Effect>) {
    forall i :: 0 <= i < |trace| && trace[i].Launch? ==>
      i >= 3 && trace[i - 3] == Alert(trace[i].key, true, true)
  }

  ghost predicate Lawful(m: Memory, trace: seq<Effect>) {
    && CountsMatch(m, trace) && DeadJustified(trace)
    && AlertedOnce(trace) && AlertsKnown(m, trace) && LaunchesFollowAlerts(trace)
  }

  /** When an effect may follow a trace, and what it does to the memory. */
  ghost predicate Follows(m: Memory, trace: seq<Effect>, e: Effect, m': Memory) {
    match e
    case Observed(k, alive) => m' == if alive then Forget(m, k) else m.(misses := m.misses[k := Misses(m, k) + 1])
    case AgentDead(k, age, timeout) =>
      && m' == m && k !in m.alerted
      && (Misses(m, k) >= MISS_THRESHOLD || (Misses(m, k) >= 1 && age >= timeout as real))
    case Stale(k) => m' == m && k !in m.alerted
    case Alert(k, _, delivered) => k !in m.alerted && m' == if delivered then m.(alerted := m.alerted + {k}) else m
    case Dropped(k) => m' == Forget(m, k) || m' == Settle(m, k)
    case SaveTracker(_, _) => m' == m
    case Launch(k, _, _) => m' == m && |trace| >= 3 && trace[|trace| - 3] == Alert(k, true, true)
  }

  lemma CountsFollow(m: Memory, trace: seq<Effect>, e: Effect, m': Memory)
    requires CountsMatch(m, trace) && Follows(m, trace, e, m')
    ensures CountsMatch(m', trace + [e])
  {
    hide DeadStreak;
    forall key ensures Misses(m', key) == DeadStreak(trace + [e], key) {
      StreakSnoc(trace, e, key);
      assert Misses(m, key) == DeadStreak(trace, key);
    }
  }

  lemma DeadFollow(m: Memory, trace: seq<Effect>, e: Effect, m': Memory)
    requires CountsMatch(m, trace) && DeadJustified(trace) && Follows(m, trace, e, m')
    ensures DeadJustified(trace + [e])
  {
    hide DeadStreak;
    var both := trace + [e];
    forall i | 0 <= i < |both| && both[i].AgentDead?
      ensures var streak := DeadStreak(both[..i], both[i].key);
              streak >= MISS_THRESHOLD || (streak >= 1 && both[i].age >= both[i].timeoutSeconds as real)
    {
      assert both[..i] == trace[..i];
      if i < |trace| {
        assert both[i] == trace[i];
      } else {
        assert trace[..i] == trace && Misses(m, e.key) == DeadStreak(trace, e.key);
      }
    }
  }

  lemma AlertsFollow(m: Memory, trace: seq<Effect>, e: Effect, m': Memory)
    requires AlertedOnce(trace) && AlertsKnown(m, trace) && LaunchesFollowAlerts(trace) && Follows(m, trace, e, m')
    ensures AlertedOnce(trace + [e]) && AlertsKnown(m', trace + [e]) && LaunchesFollowAlerts(trace + [e])
  {
    var both := trace + [e];
    assert forall i :: 0 <= i < |trace| ==> both[i] == trace[i];
    assert m.alerted <= m'.alerted;
  }

  lemma EffectKeeps(m: Memory, trace: seq<Effect>, e: Effect, m': Memory)
    requires Lawful(m, trace) && Follows(m, trace, e, m')
    ensures Lawful(m', trace + [e])
  {
    hide Follows, CountsMatch, DeadJustified, AlertedOnce, AlertsKnown, LaunchesFollowAlerts;
    CountsFollow(m, trace, e, m');
    DeadFollow(m, trace, e, m');
    AlertsFollow(m, trace, e, m');
  }

  /** The laws survive the last part of an entry, where the key is settled. */
  lemma AlertedKeeps(m: Memory, trace: seq<Effect>, launched: Tracker, issue: string, e: Entry, a: Answers,
                     fx: seq<Effect>)
    requires |fx| >= 2 && Lawful(m, trace + fx)
    requires a.willRetry.Got? && fx[|fx| - 2] == Alert(AlertKey(issue, e.pid), a.willRetry.value, true)
    ensures var o := Alerted(m, launched, issue, e, a, fx);
            Lawful(o.memory, trace + o.effects)
  {
    hide Lawful, AlertKey, Rewritten;
    var key := AlertKey(issue, e.pid);
    var next := if a.willRetry.value then (if a.latest.Got? then Rewritten(launched, a.latest.value, issue) else map[])
                else launched - {issue};
    var save, launch := SaveTracker(key, next), Launch(key, issue, e.agentType);
    EffectKeeps(m, trace + fx, save, m);
    assert trace + fx + [save] == trace + (fx + [save]);
    if a.willRetry.value {
      assert (trace + fx + [save])[|trace + fx| - 2] == fx[|fx| - 2];
      EffectKeeps(m, trace + fx + [save], launch, m);
      assert trace + fx + [save] + [launch] == trace + (fx + [save] + [launch]);
    }
  }

  /** The laws survive everything from the third miss (or the first past the timeout) on. */
  lemma ActKeeps(m: Memory, trace: seq<Effect>, launched: Tracker, issue: string, e: Entry, now: real, a: Answers)
    requires Lawful(m, trace + [Observed(AlertKey(issue, e.pid), false)])
    requires Misses(m, AlertKey(issue, e.pid)) >= RequiredMisses(now - e.timestamp, a.timeoutSeconds)
    ensures var o := ActOnDead(m, launched, issue, e, now, a);
            Lawful(o.memory, trace + o.effects)
  {
    hide Lawful, AlertKey, Alerted, IsInactive;
    var key := AlertKey(issue, e.pid);
    var seen := [Observed(key, false)];
    if a.state.Got? && key !in m.alerted && a.expects.Got? {
      if !a.expects.value {
        var stale, save, drop := Stale(key), SaveTracker(key, launched - {issue}), Dropped(key);
        StaleKeeps(m, trace + seen, key, launched - {issue});
        assert trace + (seen + [stale]) == trace + seen + [stale];
        assert trace + (seen + [stale] + [save]) == trace + seen + [stale] + [save];
        assert trace + (seen + [stale] + [save, drop]) == trace + seen + [stale] + [save] + [drop];
      } else if a.willRetry.Got? {
        var dead := AgentDead(key, now - e.timestamp, a.timeoutSeconds);
        var alert := Alert(key, a.willRetry.value, a.alert == Got(true));
        EffectKeeps(m, trace + seen, dead, m);
        assert trace + seen + [dead] == trace + (seen + [dead]);
        if a.alert.Got? {
          var m' := if a.alert.value then m.(alerted := m.alerted + {key}) else m;
          EffectKeeps(m, trace + seen + [dead], alert, m');
          assert trace + seen + [dead] + [alert] == trace + (seen + [dead] + [alert]);
          if a.alert.value {
            EffectKeeps(m', trace + seen + [dead] + [alert], Dropped(key), Settle(m, key));
            var fx := seen + [dead] + [alert, Dropped(key)];
            assert trace + seen + [dead] + [alert] + [Dropped(key)] == trace + fx;
            AlertedKeeps(Settle(m, key), trace, launched, issue, e, a, fx);
          }
        }
      }
    }
  }

  lemma StaleKeeps(m: Memory, trace: seq<Effect>, key: string, rest: Tracker)
    requires Lawful(m, trace) && key !in m.alerted
    ensures Lawful(m, trace + [Stale(key)])
    ensures Lawful(m, trace + [Stale(key)] + [SaveTracker(key, rest)])
    ensures Lawful(Settle(m, key), trace + [Stale(key)] + [SaveTracker(key, rest)] + [Dropped(key)])
  {
    hide Lawful;
    EffectKeeps(m, trace, Stale(key), m);
    EffectKeeps(m, trace + [Stale(key)], SaveTracker(key, rest), m);
    EffectKeeps(m, trace + [Stale(key)] + [SaveTracker(key, rest)], Dropped(key), Settle(m, key));
  }

  lemma EntryKeeps(m: Memory, trace: seq<Effect>, launched: Tracker, issue: string, e: Entry, now: real, a: Answers)
    requires Lawful(m, trace)
    ensures var o := PollEntry(m, launched, issue, e, now, a);
            Lawful(o.memory, trace + o.effects)
  {
    hide Lawful, AlertKey, ActOnDead;
    var key := AlertKey(issue, e.pid);
    assert trace + [] == trace;
    if e.pid != 0 && a.alive.Got? {
      var m' := if a.alive.value then Forget(m, key) else m.(misses := m.misses[key := Misses(m, key) + 1]);
      EffectKeeps(m, trace, Observed(key, a.alive.value), m');
      if !a.alive.value && Misses(m', key) >= RequiredMisses(now - e.timestamp, a.timeoutSeconds) {
        ActKeeps(m', trace, launched, issue, e, now, a);
      }
    }
  }

  lemma {:induction false} PollKeeps(m: Memory, trace: seq<Effect>, launched: Tracker, items: seq<Item>, now: real)
    requires Lawful(m, trace)
    ensures var o := PollItems(m, launched, items, now);
            Lawful(o.memory, trace + o.effects)
  {
    hide Lawful, PollEntry;
    if items == [] {
      assert trace + [] == trace;
    } else {
      var before, last := PollItems(m, launched, items[..|items| - 1], now), items[|items| - 1];
      PollKeeps(m, trace, launched, items[..|items| - 1], now);
      if !before.aborted {
        var r := PollEntry(before.memory, before.launched, last.issue, last.entry, now, last.answers);
        EntryKeeps(before.memory, trace + before.effects, before.launched, last.issue, last.entry, now, last.answers);
        assert trace + before.effects + r.effects == trace + (before.effects + r.effects);
      }
    }
  }

  /** Over every session of polls, for every answer of the host and wherever exceptions cut polls short: the miss
      count of an issue:pid is its run of dead observations, no one is declared dead without three of them or one
      past the timeout, a delivered alert is the last thing declared about its key, and every relaunch follows its
      delivered retry alert. */
  lemma {:induction false} SessionLawful(polls: seq<Poll>)
    ensures var (m, trace) := Session(polls);
            Lawful(m, trace)
  {
    hide Lawful, PollItems;
    if polls == [] {
      NothingLawful();
    } else {
      SessionLawful(polls[..|polls| - 1]);
      var (m, trace) := Session(polls[..|polls| - 1]);
      var p := polls[|polls| - 1];
      PollKeeps(m, trace, Snapshot(p.items), p.items, p.now);
    }
  }

  lemma NothingLawful()
    ensures Lawful(Memory(map[], {}), [])
  {
  }

  /** Per key, over a session: one delivered alert and one relaunch at most, the relaunch after its alert. */
  lemma OneAlertOneRelaunch(polls: seq<Poll>, i: nat, j: nat)
    requires i < j < |Session(polls).1|
    requires Session(polls).1[i].key == Session(polls).1[j].key
    ensures var a, b := Session(polls).1[i], Session(polls).1[j];
            && !(Delivered(a, a.key) && Delivered(b, b.key))
            && !(a.Launch? && b.Launch?)
            && !(a.Launch? && Delivered(b, b.key))
  {
    hide Session;
    SessionLawful(polls);
    var trace := Session(polls).1;
    var key := trace[i].key;
    var f := if trace[i].Launch? then i - 3 else i;
    var g := if trace[j].Launch? then j - 3 else j;
    assert trace[i].Launch? || Delivered(trace[i], key) ==> f >= 0 && Delivered(trace[f], key);
    assert trace[j].Launch? || Delivered(trace[j], key) ==> g >= 0 && Delivered(trace[g], key);
  }

  // ----- exactly which effects an entry has -----

  /** The agent counts as dead: the third miss in a row, or any miss past the timeout. */
  predicate FoundDead(m: Memory, key: string, e: Entry, now: real, a: Answers) {
    && e.pid != 0 && a.alive == Got(false)
    && (Misses(m, key) >= 2 || now - e.timestamp >= a.timeoutSeconds as real)
  }

  /** Then it is looked into, if its workflow is active, it was not settled before, and the expectation can be read. */
  predicate LookedInto(m: Memory, key: string, a: Answers) {
    && a.state.Got? && (a.state.value.None? || a.state.value.value !in INACTIVE)
    && key !in m.alerted && a.expects.Got?
  }

  /** The workflow expects the agent no more: its entry is to be dropped. */
  predicate DropsStale(m: Memory, key: string, a: Answers) {
    LookedInto(m, key, a) && !a.expects.value && a.staleAudit.Got?
  }

  predicate Declares(m: Memory, key: string, a: Answers) {
    LookedInto(m, key, a) && a.expects.value && a.willRetry.Got? && a.latestLog.Got?
  }

  /** The death was alerted. */
  predicate AlertsDead(m: Memory, key: string, a: Answers) {
    Declares(m, key, a) && a.deadAudit.Got? && a.alert == Got(true)
  }

  /** The agent is settled: no later poll acts on it. */
  predicate SettlesDead(m: Memory, key: string, e: Entry, now: real, a: Answers) {
    FoundDead(m, key, e, now, a) && (AlertsDead(m, key, a) || (DropsStale(m, key, a) && a.save.Got?))
  }

  /** The tracker saved after an alert: without the issue, or on a retry with what the latest entry says of retries. */
  predicate SavesAlerted(launched: Tracker, issue: string, a: Answers, tracker: Tracker) {
    if a.willRetry != Got(true) then tracker == launched - {issue}
    else a.latest.Got? && tracker == Rewritten(launched, a.latest.value, issue)
  }

  /** The tracker that is saved for an agent found dead. */
  predicate Saves(m: Memory, launched: Tracker, issue: string, key: string, a: Answers, tracker: Tracker) {
    || (DropsStale(m, key, a) && tracker == launched - {issue})
    || (AlertsDead(m, key, a) && SavesAlerted(launched, issue, a, tracker))
  }

  predicate Relaunches(a: Answers) { a.willRetry == Got(true) && a.latest.Got? && a.save.Got? && a.clearGuard.Got? }

  /** The host's answers make this effect part of the turn of an agent found dead. */
  predicate DeadEffect(m: Memory, launched: Tracker, issue: string, e: Entry, now: real, a: Answers, x: Effect) {
    var key := AlertKey(issue, e.pid);
    x.key == key &&
    match x
    case Observed(_, _) => false
    case Stale(_) => LookedInto(m, key, a) && !a.expects.value
    case AgentDead(_, age, timeout) => Declares(m, key, a) && age == now - e.timestamp && timeout == a.timeoutSeconds
    case Alert(_, retry, delivered) =>
      Declares(m, key, a) && a.deadAudit.Got? && a.alert == Got(delivered) && a.willRetry == Got(retry)
    case Dropped(_) => AlertsDead(m, key, a) || (DropsStale(m, key, a) && a.save.Got?)
    case SaveTracker(_, tracker) => Saves(m, launched, issue, key, a, tracker)
    case Launch(_, i, agent) => AlertsDead(m, key, a) && i == issue && agent == e.agentType && Relaunches(a)
  }

  /** The memory and the host's answers make this effect part of the entry's turn. */
  predicate Happens(m: Memory, launched: Tracker, issue: string, e: Entry, now: real, a: Answers, x: Effect) {
    var key := AlertKey(issue, e.pid);
    || (e.pid != 0 && a.alive.Got? && x == Observed(key, a.alive.value))
    || (FoundDead(m, key, e, now, a) && DeadEffect(m, launched, issue, e, now, a, x))
  }

  /** An entry's turn has exactly the effects that the memory and the host's answers call for. */
  lemma EffectsExact(m: Memory, launched: Tracker, issue: string, e: Entry, now: real, a: Answers, x: Effect)
    ensures x in PollEntry(m, launched, issue, e, now, a).effects <==> Happens(m, launched, issue, e, now, a, x)
  {
    hide AlertKey, ActOnDead, DeadEffect;
    var key := AlertKey(issue, e.pid);
    var missed := m.(misses := m.misses[key := Misses(m, key) + 1]);
    ActExact(missed, launched, issue, e, now, a, x);
    assert DeadEffect(m, launched, issue, e, now, a, x) <==> DeadEffect(missed, launched, issue, e, now, a, x) by {
      SameAlerted(m, missed, launched, issue, e, now, a, x);
    }
  }

  lemma SameAlerted(m: Memory, m': Memory, launched: Tracker, issue: string, e: Entry, now: real, a: Answers, x: Effect)
    requires m.alerted == m'.alerted
    ensures DeadEffect(m, launched, issue, e, now, a, x) <==> DeadEffect(m', launched, issue, e, now, a, x)
  {
    hide AlertKey, SavesAlerted, Relaunches;
  }

  lemma ActExact(m: Memory, launched: Tracker, issue: string, e: Entry, now: real, a: Answers, x: Effect)
    ensures x in ActOnDead(m, launched, issue, e, now, a).effects <==>
            x == Observed(AlertKey(issue, e.pid), false) || DeadEffect(m, launched, issue, e, now, a, x)
  {
    hide AlertKey, Alerted, SavesAlerted, Relaunches;
    if AlertsDead(m, AlertKey(issue, e.pid), a) {
      var key := AlertKey(issue, e.pid);
      var dead := [Observed(key, false)] + [AgentDead(key, now - e.timestamp, a.timeoutSeconds)];
      var fx := dead + [Alert(key, a.willRetry.value, true), Dropped(key)];
      AlertedExact(Settle(m, key), launched, issue, e, a, fx, x);
      assert ActOnDead(m, launched, issue, e, now, a) == Alerted(Settle(m, key), launched, issue, e, a, fx);
    }
  }

  lemma AlertedExact(m: Memory, launched: Tracker, issue: string, e: Entry, a: Answers, fx: seq<Effect>, x: Effect)
    requires a.willRetry.Got?
    ensures var key := AlertKey(issue, e.pid);
            x in Alerted(m, launched, issue, e, a, fx).effects <==>
            || x in fx
            || (x.SaveTracker? && x.key == key && SavesAlerted(launched, issue, a, x.tracker))
            || (Relaunches(a) && x == Launch(key, issue, e.agentType))
  {
    hide AlertKey, Rewritten;
  }

  /** When it comes, within a turn. */
  function Rank(x: Effect, stale: bool): nat {
    match x
    case Observed(_, _) => 0
    case Stale(_) => 1
    case AgentDead(_, _, _) => 1
    case Alert(_, _, _) => 2
    case Dropped(_) => if stale then 5 else 3
    case SaveTracker(_, _) => 4
    case Launch(_, _, _) => 6
  }

  ghost predicate Ordered(fx: seq<Effect>, stale: bool) {
    forall i, j :: 0 <= i < j < |fx| ==> Rank(fx[i], stale) < Rank(fx[j], stale)
  }

  /** And each once, in this order: a stale entry is saved before it is settled, an alerted one settled before. */
  lemma EffectsOrdered(m: Memory, launched: Tracker, issue: string, e: Entry, now: real, a: Answers)
    ensures Ordered(PollEntry(m, launched, issue, e, now, a).effects, a.expects == Got(false))
  {
    hide AlertKey, ActOnDead;
    var key := AlertKey(issue, e.pid);
    ActOrdered(m.(misses := m.misses[key := Misses(m, key) + 1]), launched, issue, e, now, a);
  }

  lemma ActOrdered(m: Memory, launched: Tracker, issue: string, e: Entry, now: real, a: Answers)
    ensures Ordered(ActOnDead(m, launched, issue, e, now, a).effects, a.expects == Got(false))
  {
    hide AlertKey, IsInactive, Alerted;
    if AlertsDead(m, AlertKey(issue, e.pid), a) || (a.expects == Got(true) && a.willRetry.Got?) {
      var key := AlertKey(issue, e.pid);
      var dead := [Observed(key, false)] + [AgentDead(key, now - e.timestamp, a.timeoutSeconds)];
      AlertedOrdered(Settle(m, key), launched, issue, e, a, dead + [Alert(key, a.willRetry.value, true), Dropped(key)]);
    }
  }

  lemma AlertedOrdered(m: Memory, launched: Tracker, issue: string, e: Entry, a: Answers, fx: seq<Effect>)
    requires Ordered(fx, false) && forall i :: 0 <= i < |fx| ==> Rank(fx[i], false) <= 3
    ensures Ordered(Alerted(m, launched, issue, e, a, fx).effects, false)
  {
    hide AlertKey, Rewritten;
  }

  /** What the turn leaves in memory: a live agent is forgotten, a settled one is forgotten and never acted on again,
      any other dead one has one more miss. */
  lemma MemoryLeft(m: Memory, launched: Tracker, issue: string, e: Entry, now: real, a: Answers)
    ensures var o, key := PollEntry(m, launched, issue, e, now, a), AlertKey(issue, e.pid);
            o.memory ==
              if SettlesDead(m, key, e, now, a) then Memory(m.misses - {key}, m.alerted + {key})
              else if e.pid == 0 || a.alive.Raised? then m
              else if a.alive.value then m.(misses := m.misses - {key})
              else m.(misses := m.misses[key := Misses(m, key) + 1])
  {
    hide AlertKey, Rewritten;
    var key := AlertKey(issue, e.pid);
    var missed := m.(misses := m.misses[key := Misses(m, key) + 1]);
    assert missed.misses - {key} == m.misses - {key};
  }

  /** And in the working copy of the tracker: exactly what was to be saved, so that a settled entry is gone from it
      unless the latest tracker could not be read. */
  lemma TrackerLeft(m: Memory, launched: Tracker, issue: string, e: Entry, now: real, a: Answers)
    ensures var o, key := PollEntry(m, launched, issue, e, now, a), AlertKey(issue, e.pid);
            && (forall t :: FoundDead(m, key, e, now, a) && Saves(m, launched, issue, key, a, t) ==> o.launched == t)
            && (!FoundDead(m, key, e, now, a) || (forall t :: !Saves(m, launched, issue, key, a, t)) ==>
                  o.launched == launched)
            && (SettlesDead(m, key, e, now, a) && !(a.willRetry == Got(true) && a.latest.Raised?) ==>
                  NotLive(o.launched, issue))
  {
    hide AlertKey, Rewritten, NotLive;
    var o, key := PollEntry(m, launched, issue, e, now, a), AlertKey(issue, e.pid);
    assert FoundDead(m, key, e, now, a) && (DropsStale(m, key, a) || AlertsDead(m, key, a)) &&
           !(AlertsDead(m, key, a) && a.willRetry == Got(true) && a.latest.Raised?) ==>
             Saves(m, launched, issue, key, a, o.launched);
    RemovedNotLive(launched, issue);
    if a.latest.Got? {
      RewrittenWrites(launched, a.latest.value, issue);
    }
  }

  /** An exception ends the poll at this entry, exactly: the liveness check, or, once the agent is found dead, the first
      host call that raises among those made, the launch by a fatal exception only. */
  predicate Cuts(m: Memory, key: string, e: Entry, now: real, a: Answers) {
    || (e.pid != 0 && a.alive.Raised?)
    || (FoundDead(m, key, e, now, a) &&
        if a.state.Raised? then true
        else if (a.state.value.Some? && a.state.value.value in INACTIVE) || key in m.alerted then false
        else if a.expects.Raised? then true
        else if !a.expects.value then a.staleAudit.Raised? || a.save.Raised?
        else if a.willRetry.Raised? || a.latestLog.Raised? || a.deadAudit.Raised? || a.alert.Raised? then true
        else
          && a.alert.value
          && if !a.willRetry.value then a.save.Raised?
             else a.latest.Raised? || a.save.Raised? || a.clearGuard.Raised? || a.launch == Raised(Fatal))
  }

  lemma CutExact(m: Memory, launched: Tracker, issue: string, e: Entry, now: real, a: Answers)
    ensures PollEntry(m, launched, issue, e, now, a).aborted <==> Cuts(m, AlertKey(issue, e.pid), e, now, a)
  {
    hide AlertKey, Rewritten;
  }

  /** Memory, working copy and trace when a poll comes to its j-th entry. */
  function Before(m: Memory, p: Poll, j: nat): Outcome
    requires j <= |p.items|
  {
    PollItems(m, Snapshot(p.items), p.items[..j], p.now)
  }

  /** The poll is not cut before its j-th entry, and this effect is part of that entry's turn. */
  predicate HappensAt(m: Memory, p: Poll, j: nat, x: Effect)
    requires j < |p.items|
  {
    var o, item := Before(m, p, j), p.items[j];
    !o.aborted && Happens(o.memory, o.launched, item.issue, item.entry, p.now, item.answers, x)
  }

  predicate CutsAt(m: Memory, p: Poll, j: nat)
    requires j < |p.items|
  {
    var item := p.items[j];
    Cuts(Before(m, p, j).memory, AlertKey(item.issue, item.entry.pid), item.entry, p.now, item.answers)
  }

  /** A poll has exactly the effects called for at the entries up to the one that cuts it. */
  lemma {:induction false} PollExact(m: Memory, p: Poll, n: nat, x: Effect)
    requires n <= |p.items|
    ensures x in Before(m, p, n).effects <==> exists j :: 0 <= j < n && HappensAt(m, p, j, x)
    ensures Before(m, p, n).aborted <==> exists j :: 0 <= j < n && !Before(m, p, j).aborted && CutsAt(m, p, j)
  {
    hide PollEntry, Happens, Cuts, AlertKey, Snapshot;
    if n > 0 {
      assert p.items[..n][..n - 1] == p.items[..n - 1];
      PollExact(m, p, n - 1, x);
      var o, item := Before(m, p, n - 1), p.items[n - 1];
      if !o.aborted {
        EffectsExact(o.memory, o.launched, item.issue, item.entry, p.now, item.answers, x);
        CutExact(o.memory, o.launched, item.issue, item.entry, p.now, item.answers);
      }
      assert x in Before(m, p, n).effects <==> x in o.effects || HappensAt(m, p, n - 1, x);
      assert Before(m, p, n).aborted <==> o.aborted || CutsAt(m, p, n - 1);
    }
  }

  /** The i-th poll of the session has the effect. */
  ghost predicate HappensIn(polls: seq<Poll>, i: nat, x: Effect)
    requires i < |polls|
  {
    exists j :: 0 <= j < |polls[i].items| && HappensAt(Session(polls[..i]).0, polls[i], j, x)
  }

  /** And a session exactly those of its polls. */
  lemma {:induction false} SessionExact(polls: seq<Poll>, x: Effect)
    ensures x in Session(polls).1 <==> exists i :: 0 <= i < |polls| && HappensIn(polls, i, x)
  {
    hide PollItems, HappensIn, Snapshot;
    if polls != [] {
      var n := |polls| - 1;
      SessionExact(polls[..n], x);
      forall i | 0 <= i < n ensures HappensIn(polls[..n], i, x) <==> HappensIn(polls, i, x) {
        EarlierPolls(polls, n, i, x);
      }
      PollHappens(polls, n, x);
      assert x in Session(polls).1 <==> x in Session(polls[..n]).1 || HappensIn(polls, n, x);
    }
  }

  lemma EarlierPolls(polls: seq<Poll>, n: nat, i: nat, x: Effect)
    requires i < n <= |polls|
    ensures HappensIn(polls[..n], i, x) <==> HappensIn(polls, i, x)
  {
    hide HappensAt, Session;
    assert polls[..n][..i] == polls[..i];
  }

  lemma PollHappens(polls: seq<Poll>, i: nat, x: Effect)
    requires i < |polls|
    ensures HappensIn(polls, i, x) <==> x in PollAll(Session(polls[..i]).0, polls[i]).effects
  {
    hide HappensAt, Session, PollItems, Snapshot;
    var p := polls[i];
    assert p.items[..|p.items|] == p.items;
    PollExact(Session(polls[..i]).0, p, |p.items|, x);
  }

  // ----- what the tracker rewrite loses -----

  /** The tracker a retry saves differs from the latest one only at its own issue exactly when the snapshot taken at
      the start of the poll still agrees with it on every other issue: updates made in between are overwritten. */
  lemma RewriteFramedIff(launched: Tracker, latest: Tracker, issue: string)
    ensures Rewritten(launched, latest, issue) - {issue} == latest - {issue} <==> launched - {issue} == latest - {issue}
    ensures issue in Rewritten(launched, latest, issue) <==> issue in latest && latest[issue].meta != map[]
    ensures issue in Rewritten(launched, latest, issue) ==>
              Rewritten(launched, latest, issue)[issue] == Entry(0, 0.0, "unknown", "", latest[issue].meta)
  {
    assert Rewritten(launched, latest, issue) - {issue} == launched - {issue};
  }

  /** A live entry is one with a pid. What a poll writes of live entries is what it read when it began. */
  ghost predicate FromSnapshot(snapshot: Tracker, written: Tracker) {
    forall j :: j in written && written[j].pid != 0 ==> j in snapshot && written[j] == snapshot[j]
  }

  ghost predicate NotLive(written: Tracker, issue: string) { issue in written ==> written[issue].pid == 0 }

  /** What holds of a poll that works on `snapshot`: its working copy and all it has written hold only the snapshot's
      live entries, and none for an issue it has relaunched. */
  ghost predicate Overwriting(snapshot: Tracker, launched: Tracker, fx: seq<Effect>) {
    && FromSnapshot(snapshot, launched)
    && (forall a :: 0 <= a < |fx| && fx[a].SaveTracker? ==> FromSnapshot(snapshot, fx[a].tracker))
    && (forall a :: 0 <= a < |fx| && fx[a].Launch? ==> NotLive(launched, fx[a].issue))
    && (forall a, b :: 0 <= a < b < |fx| && fx[a].Launch? && fx[b].SaveTracker? ==> NotLive(fx[b].tracker, fx[a].issue))
  }

  /** What one entry does to the working copy: it changes at most its own issue, saves only the result, and relaunches
      last, with nothing live left under its issue. */
  ghost predicate Writes(launched: Tracker, issue: string, o: Outcome) {
    && o.launched - {issue} == launched - {issue}
    && (o.launched == launched || NotLive(o.launched, issue))
    && (forall i :: 0 <= i < |o.effects| && o.effects[i].SaveTracker? ==> o.effects[i].tracker == o.launched)
    && (forall i :: 0 <= i < |o.effects| && o.effects[i].Launch? ==>
          i == |o.effects| - 1 && o.effects[i].issue == issue && NotLive(o.launched, issue))
  }

  lemma AlertedWrites(m: Memory, launched: Tracker, issue: string, e: Entry, a: Answers, fx: seq<Effect>)
    requires forall i :: 0 <= i < |fx| ==> !fx[i].SaveTracker? && !fx[i].Launch?
    ensures Writes(launched, issue, Alerted(m, launched, issue, e, a, fx))
  {
    hide AlertKey, NotLive, Rewritten;
    assert (launched - {issue}) - {issue} == launched - {issue};
    assert NotLive(launched - {issue}, issue) by { RemovedNotLive(launched, issue); }
    if a.latest.Got? {
      RewrittenWrites(launched, a.latest.value, issue);
    }
  }

  lemma RemovedNotLive(launched: Tracker, issue: string)
    ensures NotLive(launched - {issue}, issue)
  {
  }

  lemma RewrittenWrites(launched: Tracker, latest: Tracker, issue: string)
    ensures var r := Rewritten(launched, latest, issue);
            r - {issue} == launched - {issue} && NotLive(r, issue)
  {
    assert Rewritten(launched, latest, issue) - {issue} == launched - {issue};
  }

  lemma ActWrites(m: Memory, launched: Tracker, issue: string, e: Entry, now: real, a: Answers)
    ensures Writes(launched, issue, ActOnDead(m, launched, issue, e, now, a))
  {
    hide AlertKey, IsInactive, Alerted, NotLive, Writes;
    var key, o := AlertKey(issue, e.pid), ActOnDead(m, launched, issue, e, now, a);
    var dead := [Observed(key, false)] + [AgentDead(key, now - e.timestamp, a.timeoutSeconds)];
    if a.expects == Got(true) && a.willRetry.Got? && a.alert == Got(true) {
      AlertedWrites(Settle(m, key), launched, issue, e, a, dead + [Alert(key, a.willRetry.value, true), Dropped(key)]);
    }
    if o.launched == launched && (forall i :: 0 <= i < |o.effects| ==>
        !o.effects[i].SaveTracker? && !o.effects[i].Launch?) {
      QuietWrites(launched, issue, o);
    } else if a.expects == Got(false) {
      DropWrites(launched, issue, o);
    }
  }

  lemma QuietWrites(launched: Tracker, issue: string, o: Outcome)
    requires o.launched == launched && forall i :: 0 <= i < |o.effects| ==>
             !o.effects[i].SaveTracker? && !o.effects[i].Launch?
    ensures Writes(launched, issue, o)
  {
  }

  lemma DropWrites(launched: Tracker, issue: string, o: Outcome)
    requires o.launched == launched - {issue}
    requires forall i :: 0 <= i < |o.effects| ==>
               !o.effects[i].Launch? && (o.effects[i].SaveTracker? ==> o.effects[i].tracker == o.launched)
    ensures Writes(launched, issue, o)
  {
    assert (launched - {issue}) - {issue} == launched - {issue};
  }

  lemma EntryWrites(m: Memory, launched: Tracker, issue: string, e: Entry, now: real, a: Answers)
    ensures Writes(launched, issue, PollEntry(m, launched, issue, e, now, a))
  {
    hide AlertKey, ActOnDead, NotLive;
    var missed := m.(misses := m.misses[AlertKey(issue, e.pid) := Misses(m, AlertKey(issue, e.pid)) + 1]);
    ActWrites(missed, launched, issue, e, now, a);
  }

  lemma OverwritingStep(snapshot: Tracker, launched: Tracker, fx: seq<Effect>, m: Memory, item: Item, now: real)
    requires Overwriting(snapshot, launched, fx)
    requires forall a :: 0 <= a < |fx| && fx[a].Launch? ==> fx[a].issue != item.issue
    ensures var o := PollEntry(m, launched, item.issue, item.entry, now, item.answers);
            Overwriting(snapshot, o.launched, fx + o.effects)
  {
    hide PollEntry;
    var o := PollEntry(m, launched, item.issue, item.entry, now, item.answers);
    EntryWrites(m, launched, item.issue, item.entry, now, item.answers);
    forall j | j != item.issue && j in o.launched ensures j in launched && o.launched[j] == launched[j] {
      assert j in o.launched - {item.issue} && (o.launched - {item.issue})[j] == o.launched[j];
      assert (launched - {item.issue})[j] == launched[j];
    }
    var both, n := fx + o.effects, |fx|;
    assert forall a :: 0 <= a < n ==> both[a] == fx[a];
    assert forall a :: n <= a < |both| ==> both[a] == o.effects[a - n];
    assert FromSnapshot(snapshot, o.launched);
  }

  lemma {:induction false} PollOverwriting(m: Memory, snapshot: Tracker, items: seq<Item>, now: real)
    requires forall i, j :: 0 <= i < j < |items| ==> items[i].issue != items[j].issue
    ensures var o := PollItems(m, snapshot, items, now);
            Overwriting(snapshot, o.launched, o.effects)
    ensures var o := PollItems(m, snapshot, items, now);
            forall a :: 0 <= a < |o.effects| && o.effects[a].Launch? ==>
              exists i :: 0 <= i < |items| && items[i].issue == o.effects[a].issue
  {
    hide PollEntry, Overwriting;
    if items == [] {
      assert Overwriting(snapshot, snapshot, []) by { NothingWritten(snapshot); }
    } else {
      var front, last := items[..|items| - 1], items[|items| - 1];
      assert forall i :: 0 <= i < |front| ==> front[i] == items[i];
      PollOverwriting(m, snapshot, front, now);
      var before := PollItems(m, snapshot, front, now);
      if !before.aborted {
        OverwritingStep(snapshot, before.launched, before.effects, before.memory, last, now);
        EntryWrites(before.memory, before.launched, last.issue, last.entry, now, last.answers);
      }
    }
  }

  lemma NothingWritten(snapshot: Tracker)
    ensures Overwriting(snapshot, snapshot, [])
  {
  }

  /** A whole poll overwrites what others write into the tracker meanwhile: every live entry it saves is one it read
      when it began, so an entry registered since then is not among them; and the entry of an agent the poll itself has
      relaunched is gone after the poll's next write. */
  lemma PollOverwritesOthers(m: Memory, p: Poll, a: nat, b: nat, other: string)
    requires forall i, j :: 0 <= i < j < |p.items| ==> p.items[i].issue != p.items[j].issue
    requires a < |PollAll(m, p).effects| && b < |PollAll(m, p).effects|
    ensures var fx := PollAll(m, p).effects;
            && (fx[b].SaveTracker? && other !in Snapshot(p.items) ==> NotLive(fx[b].tracker, other))
            && (fx[b].SaveTracker? && a < b && fx[a].Launch? ==> NotLive(fx[b].tracker, fx[a].issue))
  {
    hide PollItems;
    PollOverwriting(m, Snapshot(p.items), p.items, p.now);
  }

  /** A dead agent past its timeout, of an active workflow, whose retry meets no failure. */
  predicate Retries(e: Entry, now: real, a: Answers) {
    && e.pid != 0 && a.alive == Got(false) && now - e.timestamp >= a.timeoutSeconds as real
    && a.state.Got? && !IsInactive(a.state.value)
    && a.expects == Got(true) && a.willRetry == Got(true) && a.alert == Got(true)
    && a.latestLog.Got? && a.deadAudit.Got? && a.latest.Got? && a.save.Got? && a.clearGuard.Got? && a.launch.Got?
  }

  lemma RetryEffects(m: Memory, launched: Tracker, issue: string, e: Entry, now: real, a: Answers)
    requires Retries(e, now, a) && AlertKey(issue, e.pid) !in m.alerted
    ensures var o, key := PollEntry(m, launched, issue, e, now, a), AlertKey(issue, e.pid);
            && !o.aborted && o.memory.alerted == m.alerted + {key} && |o.effects| == 6
            && o.effects[4].SaveTracker? && o.effects[5] == Launch(key, issue, e.agentType)
  {
    hide AlertKey, Rewritten;
  }

  /** Such polls exist: with two agents to retry, whatever the memory and the rest of the answers, the first one's
      relaunch is followed by the second one's tracker write, so that what the relaunch registered is lost. */
  lemma RelaunchOverwritten(m: Memory, x: Item, y: Item, now: real)
    requires Retries(x.entry, now, x.answers) && Retries(y.entry, now, y.answers) && x.issue != y.issue
    requires AlertKey(x.issue, x.entry.pid) !in m.alerted && AlertKey(y.issue, y.entry.pid) !in m.alerted
    ensures var fx := PollAll(m, Poll([x, y], now)).effects;
            && |fx| == 12 && fx[5] == Launch(AlertKey(x.issue, x.entry.pid), x.issue, x.entry.agentType)
            && fx[10].SaveTracker? && NotLive(fx[10].tracker, x.issue)
  {
    hide AlertKey, PollEntry, Snapshot, NotLive;
    var items, s := [x, y], Snapshot([x, y]);
    assert items[..1] == [x] && [x][..0] == [];
    RetryEffects(m, s, x.issue, x.entry, now, x.answers);
    var o := PollItems(m, s, [x], now);
    assert o == PollEntry(m, s, x.issue, x.entry, now, x.answers) by {
      assert PollItems(m, s, [], now) == Outcome(m, s, [], false);
      assert [] + PollEntry(m, s, x.issue, x.entry, now, x.answers).effects == o.effects;
    }
    if AlertKey(x.issue, x.entry.pid) == AlertKey(y.issue, y.entry.pid) {
      AlertKeyInjective(x.issue, x.entry.pid, y.issue, y.entry.pid);
    }
    RetryEffects(o.memory, o.launched, y.issue, y.entry, now, y.answers);
    PollOverwritesOthers(m, Poll(items, now), 5, 10, "");
  }
}
