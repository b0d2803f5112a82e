/** The launch guard: a cooldown between launches of one agent for one issue. */
module LaunchGuard {
  import opened Text
  import opened Host

  datatype LaunchRecord = LaunchRecord(issue: string, agent: string, timestamp: real, pid: Option<int>)

  type Launches = map<string, LaunchRecord>

  function LaunchKey(issue: string, agent: string): string { issue + ":" + agent }

  /** The timestamp check; a key without a record passes. */
  predicate Cooled(l: Launches, key: string, cooldown: real, now: real) {
    key in l ==> now - l[key].timestamp >= cooldown
  }

  /** can_launch: the custom guard, None when absent, is asked after the timestamp check and allows by raising an
      ordinary exception; a fatal one ends the attempt. */
  predicate CanLaunch(l: Launches, issue: string, agent: string, cooldown: real, now: real, custom: Option<Ans<bool>>) {
    Cooled(l, LaunchKey(issue, agent), cooldown, now) && custom !in {Some(Got(false)), Some(Raised(Fatal))}
  }

  function RecordLaunch(l: Launches, issue: string, agent: string, pid: Option<int>, now: real): Launches {
    l[LaunchKey(issue, agent) := LaunchRecord(issue, agent, now, pid)]
  }

  predicate Expired(r: LaunchRecord, cooldown: real, now: real) { now - r.timestamp > cooldown }

  function Cleanup(l: Launches, cooldown: real, now: real): Launches {
    map key | key in l && !Expired(l[key], cooldown, now) :: l[key]
  }

  /** The keys that clear(issue) removes. */
  function IssueKeys(l: Launches, issue: string): set<string> {
    set key | key in l && issue + ":" <= key
  }

  function Active(l: Launches, cooldown: real, now: real): set<string> {
    set key | key in l && now - l[key].timestamp <= cooldown
  }

  /** Every record stands under its own key. */
  ghost predicate Keyed(l: Launches) {
    forall key :: key in l ==> key == LaunchKey(l[key].issue, l[key].agent)
  }

  /** And issue ids hold no colon. */
  ghost predicate Filed(l: Launches) {
    Keyed(l) && forall key :: key in l ==> ':' !in l[key].issue
  }

  class Guard {
    const cooldown: real
    var launches: Launches

    constructor (cooldown: real)
      ensures this.cooldown == cooldown && launches == map[]
    {
      this.cooldown, launches := cooldown, map[];
    }

    method CanLaunchNow(issue: string, agent: string, now: real, custom: Option<Ans<bool>>) returns (ok: bool)
      ensures ok == CanLaunch(launches, issue, agent, cooldown, now, custom)
    {
      var key := LaunchKey(issue, agent);
      if key in launches {
        var elapsed := now - launches[key].timestamp;
        if elapsed < cooldown { return false; }
      }
      if custom.Some? {
        match custom.value {
          case Got(allowed) => if !allowed { return false; }
          case Raised(e) => if e == Fatal { return false; }
        }
      }
      ok := true;
    }

    method Record(issue: string, agent: string, pid: Option<int>, now: real)
      modifies this
      ensures launches == RecordLaunch(old(launches), issue, agent, pid, now)
    {
      launches := launches[LaunchKey(issue, agent) := LaunchRecord(issue, agent, now, pid)];
    }

    /** clear: everything, or the keys that start with the issue and a colon. */
    method Clear(issue: Option<string>) returns (count: nat)
      modifies this
      ensures launches == if issue.None? then map[] else old(launches) - IssueKeys(old(launches), issue.value)
      ensures count == if issue.None? then |old(launches)| else |IssueKeys(old(launches), issue.value)|
    {
      if issue.None? {
        count := |launches|;
        launches := map[];
        return;
      }
      var toRemove := IssueKeys(launches, issue.value);
      count := Remove(toRemove);
    }

    /** The deletion loop shared by clear and cleanup_expired. */
    method Remove(toRemove: set<string>) returns (count: nat)
      modifies this
      ensures launches == old(launches) - toRemove && count == |toRemove|
    {
      var rest := toRemove;
      while rest != {}
        invariant rest <= toRemove && launches == old(launches) - (toRemove - rest)
        decreases |rest|
      {
        var key :| key in rest;
        rest := rest - {key};
        launches := launches - {key};
      }
      assert toRemove - {} == toRemove;
      count := |toRemove|;
    }

    method CleanupExpired(now: real) returns (count: nat)
      modifies this
      ensures launches == Cleanup(old(launches), cooldown, now)
      ensures count == |old(launches).Keys - launches.Keys|
    {
      ghost var before := launches;
      var expired := set key | key in launches && Expired(launches[key], cooldown, now);
      count := Remove(expired);
      CleanupRemoves(before, cooldown, now, expired);
    }

    method ActiveCount(now: real) returns (count: nat)
      ensures count == |Active(launches, cooldown, now)|
    {
      count := |Active(launches, cooldown, now)|;
    }
  }

  // ----- clearing -----

  /** With colon-free issue ids, clear(issue) removes exactly the issue's own records. */
  lemma ClearExact(l: Launches, issue: string)
    requires Filed(l) && ':' !in issue
    ensures forall key :: key in l ==> (key in IssueKeys(l, issue) <==> l[key].issue == issue)
    ensures Filed(l - IssueKeys(l, issue))
  {
    forall key | key in l ensures key in IssueKeys(l, issue) <==> l[key].issue == issue {
      var r := l[key];
      if issue + ":" <= key {
        assert key == issue + ":" + key[|issue| + 1..];
        ColonSplit(r.issue, r.agent, issue, key[|issue| + 1..]);
      }
      if r.issue == issue {
        assert issue + ":" <= issue + ":" + r.agent;
      }
    }
  }

  /** Recording a colon-free issue and cleaning up keep the records filed. */
  lemma FiledKept(l: Launches, issue: string, agent: string, pid: Option<int>, cooldown: real, now: real)
    requires Filed(l) && ':' !in issue
    ensures Filed(RecordLaunch(l, issue, agent, pid, now)) && Filed(Cleanup(l, cooldown, now))
  {
  }

  /** How a record of another issue can start with the cleared issue and a colon: its issue goes on after that colon,
      or the cleared id goes on after its issue, into its agent. */
  predicate TakenAlong(issue: string, r: LaunchRecord) {
    || issue + ":" <= r.issue
    || (r.issue + ":" <= issue && issue[|r.issue| + 1..] + ":" <= r.agent)
  }

  /** Exactly which records clear(issue) removes, whatever the ids: the issue's own and those taken along, which are
      another issue's. */
  lemma ClearTakesIff(l: Launches, issue: string)
    requires Keyed(l)
    ensures forall key :: key in l ==>
            (key in IssueKeys(l, issue) <==> l[key].issue == issue || TakenAlong(issue, l[key]))
    ensures forall key :: key in l && TakenAlong(issue, l[key]) ==> l[key].issue != issue
  {
    hide TakenAlong;
    forall key | key in l
      ensures key in IssueKeys(l, issue) <==> l[key].issue == issue || TakenAlong(issue, l[key])
      ensures TakenAlong(issue, l[key]) ==> l[key].issue != issue
    {
      KeyTakenIff(issue, l[key]);
    }
  }

  lemma KeyTakenIff(issue: string, r: LaunchRecord)
    ensures issue + ":" <= LaunchKey(r.issue, r.agent) <==> r.issue == issue || TakenAlong(issue, r)
    ensures TakenAlong(issue, r) ==> r.issue != issue
  {
    var key := r.issue + ":" + r.agent;
    if |issue| > |r.issue| {
      if issue + ":" <= key {
        HeadShared(issue, r.issue, r.agent);
      }
      if r.issue + ":" <= issue {
        var rest := issue[|r.issue| + 1..];
        assert issue == r.issue + ":" + rest;
        LongerTaken(r.issue, rest, r.agent);
      }
    } else if |issue| < |r.issue| {
      assert key[..|issue| + 1] == r.issue[..|issue| + 1];
    } else {
      SameLengthTaken(issue, r.issue, r.agent);
    }
  }

  lemma HeadShared(issue: string, head: string, agent: string)
    requires |issue| > |head| && issue + ":" <= head + ":" + agent
    ensures head + ":" <= issue
  {
    var key := head + ":" + agent;
    assert issue == key[..|issue|] && head + ":" == key[..|head| + 1] == issue[..|head| + 1];
  }

  lemma LongerTaken(issue: string, rest: string, agent: string)
    ensures issue + ":" + rest + ":" <= issue + ":" + agent <==> rest + ":" <= agent
  {
    var head := issue + ":";
    assert head + rest + ":" == head + (rest + ":");
    assert (head + agent)[|head|..] == agent && (head + (rest + ":"))[|head|..] == rest + ":";
    if rest + ":" <= agent {
      assert head + agent == head + (rest + ":") + agent[|rest| + 1..];
    }
    if head + (rest + ":") <= head + agent {
      assert rest + ":" == (head + agent)[..|head| + |rest| + 1][|head|..] == agent[..|rest| + 1];
    }
  }

  lemma SameLengthTaken(a: string, b: string, agent: string)
    requires |a| == |b|
    ensures a + ":" <= b + ":" + agent <==> a == b
  {
    assert (b + ":" + agent)[..|b|] == b && (a + ":")[..|a|] == a;
  }

  /** Every history keeps the records under their own keys. */
  lemma {:induction false} RunKeyed(events: seq<Event>, cooldown: real)
    ensures Keyed(Run(events, cooldown))
  {
    hide LaunchKey;
    if events != [] {
      RunKeyed(events[..|events| - 1], cooldown);
    }
  }

  // ----- cleaning up -----

  lemma CleanupRemoves(l: Launches, cooldown: real, now: real, expired: set<string>)
    requires forall key :: key in expired <==> key in l && Expired(l[key], cooldown, now)
    ensures Cleanup(l, cooldown, now) == l - expired
    ensures l.Keys - (l - expired).Keys == expired
  {
    hide Expired;
  }

  /** Right after a cleanup the records are exactly the active ones. */
  lemma CleanupLeavesActive(l: Launches, cooldown: real, now: real)
    ensures Cleanup(l, cooldown, now).Keys == Active(l, cooldown, now)
    ensures Active(Cleanup(l, cooldown, now), cooldown, now) == Active(l, cooldown, now)
  {
  }

  // ----- histories -----

  /** An attempt (can_launch, then the launch, then record_launch) with its two clock readings, or a cleanup. */
  datatype Event =
    | Attempt(issue: string, agent: string, askedAt: real, recordedAt: real, custom: Option<Ans<bool>>)
    | Sweep(at: real)

  function Start(e: Event): real { if e.Sweep? then e.at else e.askedAt }

  function End(e: Event): real { if e.Sweep? then e.at else e.recordedAt }

  /** The clock never goes back, inside an attempt and between events. */
  ghost predicate Timely(events: seq<Event>) {
    && (forall i :: 0 <= i < |events| ==> Start(events[i]) <= End(events[i]))
    && (forall i, j :: 0 <= i < j < |events| ==> End(events[i]) <= Start(events[j]))
  }

  ghost predicate EndedBy(events: seq<Event>, now: real) {
    forall i :: 0 <= i < |events| ==> End(events[i]) <= now
  }

  lemma TimelyInit(events: seq<Event>, now: real)
    requires Timely(events) && EndedBy(events, now) && events != []
    ensures var front, last := events[..|events| - 1], events[|events| - 1];
            Timely(front) && EndedBy(front, now) && EndedBy(front, Start(last)) && Start(last) <= End(last) <= now
  {
  }

  predicate Launched(l: Launches, e: Event, cooldown: real) {
    e.Attempt? && CanLaunch(l, e.issue, e.agent, cooldown, e.askedAt, e.custom)
  }

  function Step(l: Launches, e: Event, cooldown: real): Launches {
    if e.Sweep? then Cleanup(l, cooldown, e.at)
    else if Launched(l, e, cooldown) then RecordLaunch(l, e.issue, e.agent, None, e.recordedAt)
    else l
  }

  function Run(events: seq<Event>, cooldown: real): Launches {
    if events == [] then map[] else Step(Run(events[..|events| - 1], cooldown), events[|events| - 1], cooldown)
  }

  /** Did the event with this index launch? */
  predicate LaunchedAt(events: seq<Event>, i: nat, cooldown: real)
    requires i < |events|
  {
    Launched(Run(events[..i], cooldown), events[i], cooldown)
  }

  /** After a launch of a key, the key cannot have cooled before the cooldown has passed since it was recorded. */
  lemma {:induction false} LaunchRemembered(events: seq<Event>, i: nat, cooldown: real, now: real)
    requires Timely(events) && i < |events| && LaunchedAt(events, i, cooldown)
    requires EndedBy(events, now)
    requires Cooled(Run(events, cooldown), LaunchKey(events[i].issue, events[i].agent), cooldown, now)
    ensures now - events[i].recordedAt >= cooldown
  {
    hide LaunchKey;
    var front, last := events[..|events| - 1], events[|events| - 1];
    assert events == front + [last];
    if i < |front| {
      assert front[i] == events[i] && front[..i] == events[..i];
      var before, key := Run(front, cooldown), LaunchKey(events[i].issue, events[i].agent);
      if last.Attempt? && Launched(before, last, cooldown) && LaunchKey(last.issue, last.agent) == key {
        LaunchRemembered(front, i, cooldown, last.askedAt);
      } else {
        assert Cooled(before, key, cooldown, now);
        LaunchRemembered(front, i, cooldown, now);
      }
    }
  }

  /** In every history of attempts and cleanups under a clock that never goes back, two launches of one agent for one
      issue are at least the cooldown apart, counted from the first one's record to the second one's question. */
  lemma LaunchesSpaced(events: seq<Event>, i: nat, j: nat, cooldown: real)
    requires Timely(events) && i < j < |events|
    requires LaunchedAt(events, i, cooldown) && LaunchedAt(events, j, cooldown)
    requires events[i].issue == events[j].issue && events[i].agent == events[j].agent
    ensures events[j].askedAt - events[i].recordedAt >= cooldown
  {
    hide LaunchKey, Run;
    var before := events[..j];
    assert before[i] == events[i] && before[..i] == events[..i];
    assert forall k :: 0 <= k < j ==> before[k] == events[k];
    LaunchRemembered(before, i, cooldown, events[j].askedAt);
  }

  /** When a launch is allowed, exactly: after every history, when none of the key was recorded less than the cooldown
      ago and the custom guard, if there is one, allows it, by answering so or by an ordinary exception. */
  lemma AllowedIff(events: seq<Event>, issue: string, agent: string, cooldown: real, now: real,
                   custom: Option<Ans<bool>>)
    requires Timely(events) && EndedBy(events, now)
    ensures CanLaunch(Run(events, cooldown), issue, agent, cooldown, now, custom) <==>
            && (forall i :: 0 <= i < |events| && LaunchesKey(events, i, LaunchKey(issue, agent), cooldown) ==>
                  now - events[i].recordedAt >= cooldown)
            && (custom.Some? ==> custom.value == Got(true) || (custom.value.Raised? && custom.value.error != Fatal))
  {
    hide LaunchKey, Run, Timely, EndedBy, LaunchesKey;
    CooledIff(events, LaunchKey(issue, agent), cooldown, now);
    CustomAllows(custom);
  }

  lemma CustomAllows(custom: Option<Ans<bool>>)
    ensures custom !in {Some(Got(false)), Some(Raised(Fatal))} <==>
            (custom.Some? ==> custom.value == Got(true) || (custom.value.Raised? && custom.value.error != Fatal))
  {
    match custom {
      case None =>
      case Some(Got(allowed)) =>
      case Some(Raised(e)) =>
    }
  }

  predicate LaunchesKey(events: seq<Event>, i: nat, key: string, cooldown: real)
    requires i < |events|
  {
    LaunchedAt(events, i, cooldown) && LaunchKey(events[i].issue, events[i].agent) == key
  }

  lemma {:induction false} CooledIff(events: seq<Event>, key: string, cooldown: real, now: real)
    requires Timely(events) && EndedBy(events, now)
    ensures Cooled(Run(events, cooldown), key, cooldown, now) <==>
            forall i :: 0 <= i < |events| && LaunchesKey(events, i, key, cooldown) ==>
                now - events[i].recordedAt >= cooldown
  {
    hide LaunchKey, Cooled, Cleanup, RecordLaunch, Timely, EndedBy, CanLaunch;
    if events == [] {
      assert Cooled(map[], key, cooldown, now) by { NothingCooled(key, cooldown, now); }
    } else {
      var n := |events| - 1;
      var front, last := events[..n], events[n];
      var before := Run(front, cooldown);
      TimelyInit(events, now);
      CooledIff(front, key, cooldown, now);
      assert forall i :: 0 <= i < n ==> events[..i] == front[..i];
      if Launched(before, last, cooldown) {
        CooledAfterLaunch(before, last, key, cooldown, now);
      } else if last.Sweep? {
        CooledAfterCleanup(before, cooldown, last.at, key, now);
      }
      assert forall i :: 0 <= i < n ==>
             (LaunchesKey(events, i, key, cooldown) <==> LaunchesKey(front, i, key, cooldown));
      assert LaunchesKey(events, n, key, cooldown) <==>
             Launched(before, last, cooldown) && LaunchKey(last.issue, last.agent) == key;
      if LaunchesKey(events, n, key, cooldown) && now - last.recordedAt >= cooldown {
        EarlierLaunches(events, key, cooldown, now);
      }
    }
  }

  lemma NothingCooled(key: string, cooldown: real, now: real)
    ensures Cooled(map[], key, cooldown, now)
  {
  }

  /** If the last recorded launch is long enough ago, so are the earlier ones. */
  lemma EarlierLaunches(events: seq<Event>, key: string, cooldown: real, now: real)
    requires Timely(events) && events != [] && LaunchesKey(events, |events| - 1, key, cooldown)
    requires now - events[|events| - 1].recordedAt >= cooldown
    ensures forall i :: 0 <= i < |events| && LaunchesKey(events, i, key, cooldown) ==>
            now - events[i].recordedAt >= cooldown
  {
    hide LaunchKey, Run, CanLaunch;
    var n := |events| - 1;
    forall i | 0 <= i < n && LaunchesKey(events, i, key, cooldown)
        ensures events[i].recordedAt <= events[n].recordedAt {
      assert End(events[i]) <= Start(events[n]) <= End(events[n]);
    }
  }

  /** So with colon-free issue ids, clear is exact after every history. */
  lemma {:induction false} RunFiled(events: seq<Event>, cooldown: real)
    requires forall i :: 0 <= i < |events| && events[i].Attempt? ==> ':' !in events[i].issue
    ensures Filed(Run(events, cooldown))
  {
    hide Filed, LaunchKey;
    if events == [] {
      assert Filed(map[]) by { NothingFiled(); }
    } else {
      var front, last := events[..|events| - 1], events[|events| - 1];
      RunFiled(front, cooldown);
      if last.Attempt? {
        FiledKept(Run(front, cooldown), last.issue, last.agent, None, cooldown, last.recordedAt);
      } else {
        FiledKept(Run(front, cooldown), "", "", None, cooldown, last.at);
      }
    }
  }

  lemma NothingFiled()
    ensures Filed(map[])
  {
  }

  function WithoutSweeps(events: seq<Event>): seq<Event> {
    if events == [] then []
    else
      var before, last := WithoutSweeps(events[..|events| - 1]), events[|events| - 1];
      if last.Sweep? then before else before + [last]
  }

  /** Cleaning up changes no answer at any later time. */
  lemma CooledAfterCleanup(l: Launches, cooldown: real, at: real, key: string, now: real)
    requires at <= now
    ensures Cooled(Cleanup(l, cooldown, at), key, cooldown, now) <==> Cooled(l, key, cooldown, now)
  {
  }

  lemma CooledAfterLaunch(l: Launches, e: Event, key: string, cooldown: real, now: real)
    requires e.Attempt?
    ensures Cooled(RecordLaunch(l, e.issue, e.agent, None, e.recordedAt), key, cooldown, now) <==>
            if key == LaunchKey(e.issue, e.agent) then now - e.recordedAt >= cooldown else Cooled(l, key, cooldown, now)
  {
  }

  /** Leaving out the cleanups changes no answer, now or later. */
  lemma {:induction false} SweepsUnseen(events: seq<Event>, cooldown: real, key: string, now: real)
    requires Timely(events) && EndedBy(events, now)
    ensures Cooled(Run(events, cooldown), key, cooldown, now) <==>
            Cooled(Run(WithoutSweeps(events), cooldown), key, cooldown, now)
  {
    hide LaunchKey, Cooled, Cleanup, RecordLaunch, Timely, EndedBy;
    if events != [] {
      var front, last := events[..|events| - 1], events[|events| - 1];
      TimelyInit(events, now);
      SweepsUnseen(front, cooldown, key, now);
      var before := WithoutSweeps(front);
      var a, b := Run(front, cooldown), Run(before, cooldown);
      if last.Attempt? {
        assert (before + [last])[..|before|] == before;
        SweepsUnseen(front, cooldown, LaunchKey(last.issue, last.agent), last.askedAt);
        CooledAfterLaunch(a, last, key, cooldown, now);
        CooledAfterLaunch(b, last, key, cooldown, now);
      } else {
        CooledAfterCleanup(a, cooldown, last.at, key, now);
      }
    }
  }
}
