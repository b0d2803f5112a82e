/** The sliding-window rate limiter on values: what each operation does to the request stamps, and the laws
    that hold over whole runs. RateLimiter implements these functions in place. */
module SlidingWindow {
  import opened Text

  type Stamps = seq<real>

  /** A user and an action. */
  type Key = (int, string)

  type Quotas = map<Key, Stamps>

  datatype RateLimit = RateLimit(maxRequests: int, windowSeconds: int)

  type Limits = map<string, RateLimit>

  // ----- stamps -----

  /** The loop of cleanup_old: drop from the left while older than the cutoff. */
  function Prune(s: Stamps, cutoff: real): Stamps {
    if s != [] && s[0] < cutoff then Prune(s[1..], cutoff) else s
  }

  /** Pruning drops a prefix of stamps older than the cutoff and stops at the first that is not. */
  lemma {:induction false} PruneDrops(s: Stamps, cutoff: real) returns (n: nat)
    ensures n <= |s| && Prune(s, cutoff) == s[n..]
    ensures forall i :: 0 <= i < n ==> s[i] < cutoff
    ensures n < |s| ==> s[n] >= cutoff
  {
    if s != [] && s[0] < cutoff {
      n := PruneDrops(s[1..], cutoff);
      n := n + 1;
    } else {
      n := 0;
    }
  }

  predicate Sorted(s: Stamps) {
    |s| <= 1 || (s[0] <= s[1] && Sorted(s[1..]))
  }

  /** Pruning twice is pruning at the larger cutoff. */
  lemma {:induction false} PruneTwice(s: Stamps, early: real, late: real)
    requires early <= late
    ensures Prune(Prune(s, early), late) == Prune(s, late)
  {
    if s != [] && s[0] < early {
      PruneTwice(s[1..], early, late);
    }
  }

  // ----- decisions -----

  /** check_limit's answer; NoStamp where it indexes an empty deque. */
  datatype Decision = Allowed | Refused(wait: int) | NoStamp

  /** int() of a real: truncation toward zero. */
  function Truncate(x: real): int {
    if x >= 0.0 then x.Floor else -((-x).Floor)
  }

  function Decide(recent: Stamps, limit: RateLimit, later: real): Decision {
    if |recent| >= limit.maxRequests then
      if recent == [] then NoStamp
      else Refused(Truncate(limit.windowSeconds as real - (later - recent[0])))
    else Allowed
  }

  /** The stamps in the window that ends at `now`. */
  function Recent(s: Stamps, limit: RateLimit, now: real): Stamps {
    Prune(s, now - limit.windowSeconds as real)
  }

  // ----- operations -----

  function At(q: Quotas, k: Key): Stamps {
    if k in q then q[k] else []
  }

  function EffectiveLimit(defaults: Limits, action: string, limit: Option<RateLimit>): Option<RateLimit> {
    if limit.Some? then limit
    else if action in defaults then Some(defaults[action])
    else None
  }

  /** check_limit: the answer, and the quotas with the checked one pruned. */
  function Check(defaults: Limits, q: Quotas, k: Key, limit: Option<RateLimit>, now: real, later: real): (Decision,
                 Quotas) {
    match EffectiveLimit(defaults, k.1, limit)
    case None => (Allowed, q)
    case Some(l) =>
      var recent := Recent(At(q, k), l, now);
      (Decide(recent, l, later), q[k := recent])
  }

  /** One quota under cleanup: pruned by its action's default window, if it has one. */
  function CleanedStamps(defaults: Limits, action: string, s: Stamps, now: real): Stamps {
    if action in defaults then Prune(s, now - defaults[action].windowSeconds as real) else s
  }

  /** cleanup_old_data on the user quotas, with the clock reading each quota sees. Emptied quotas are deleted. */
  function Cleanup(defaults: Limits, q: Quotas, clock: Key -> real): Quotas {
    map k | k in q && !(k.1 in defaults && CleanedStamps(defaults, k.1, q[k], clock(k)) == [])
      :: CleanedStamps(defaults, k.1, q[k], clock(k))
  }

  /** record_request on the user quotas: every 100th stamp of a quota triggers a cleanup of all of them. */
  function Record(defaults: Limits, q: Quotas, k: Key, now: real, clock: Key -> real): Quotas {
    var added := q[k := At(q, k) + [now]];
    if |added[k]| % 100 == 0 then Cleanup(defaults, added, clock) else added
  }

  predicate IsGlobalAction(action: string) { action == "git_api" || action == "git_issue_create" }

  /** get_remaining: the answer (-1 without a default limit). */
  function Remaining(defaults: Limits, q: Quotas, k: Key, now: real): int {
    if k.1 !in defaults then -1
    else
      var left := defaults[k.1].maxRequests - |Recent(At(q, k), defaults[k.1], now)|;
      if left > 0 then left else 0
  }

  /** The quotas after get_remaining, which prunes the one it reads. */
  function AfterRemaining(defaults: Limits, q: Quotas, k: Key, now: real): Quotas {
    if k.1 !in defaults then q else q[k := Recent(At(q, k), defaults[k.1], now)]
  }

  /** Cleaning up frees memory: it keeps exactly the quotas that hold something in their default window, or whose action
      has none, and no empty quota of an action with a limit stays. */
  lemma CleanupFrees(defaults: Limits, q: Quotas, clock: Key -> real, k: Key)
    ensures k in Cleanup(defaults, q, clock) <==> k in q && (k.1 in defaults ==>
              exists n :: 0 <= n < |q[k]| && q[k][n] >= clock(k) - defaults[k.1].windowSeconds as real)
    ensures k in Cleanup(defaults, q, clock) && k.1 in defaults ==> Cleanup(defaults, q, clock)[k] != []
  {
    if k in q && k.1 in defaults {
      var n := PruneDrops(q[k], clock(k) - defaults[k.1].windowSeconds as real);
    }
  }

  /** Every hundredth stamp of a quota frees memory: what then stays of any action with a limit begins with a stamp in
      its default window. Otherwise recording adds the one stamp and nothing else. */
  lemma RecordFrees(defaults: Limits, q: Quotas, k: Key, now: real, clock: Key -> real, o: Key)
    ensures var r := Record(defaults, q, k, now, clock);
            if (|At(q, k)| + 1) % 100 == 0 then
              o in r && o.1 in defaults ==>
                r[o] != [] && r[o][0] >= clock(o) - defaults[o.1].windowSeconds as real
            else r.Keys == q.Keys + {k} && At(r, o) == if o == k then At(q, k) + [now] else At(q, o)
  {
    var added := q[k := At(q, k) + [now]];
    if o in added && o.1 in defaults {
      var n := PruneDrops(added[o], clock(o) - defaults[o.1].windowSeconds as real);
    }
  }

  // ----- persistence -----

  type Saved = map<(string, string), Stamps>

  lemma PrintedUnique()
    ensures forall n: int :: Printed(IntText(n)) && ParseInt(IntText(n)) == Some(n)
  {
    forall n: int ensures Printed(IntText(n)) && ParseInt(IntText(n)) == Some(n) {
      ParsePrinted(n);
    }
  }

  /** save_state: user ids become strings. */
  function Save(q: Quotas): Saved {
    hide IntText, ParseInt;
    PrintedUnique();
    map k | k in q :: (IntText(k.0), k.1) := q[k]
  }

  predicate Printed(s: string) {
    ParseInt(s).Some? && IntText(ParseInt(s).value) == s
  }

  /** load_state before its cleanup: user ids are parsed back. */
  function Restore(saved: Saved): Quotas {
    hide IntText, ParseInt;
    map e | e in saved && Printed(e.0) :: (ParseInt(e.0).value, e.1) := saved[e]
  }

  function Load(defaults: Limits, saved: Saved, clock: Key -> real): Quotas {
    Cleanup(defaults, Restore(saved), clock)
  }

  /** Saving and restoring gives back exactly the same quotas, whatever the user ids. */
  lemma SaveRestore(q: Quotas)
    ensures Restore(Save(q)) == q
  {
    hide Save, Restore;
    var r := Restore(Save(q));
    forall k | k in q ensures k in r && r[k] == q[k] {
      SavedIsRestored(q, k);
    }
    forall k | k in r ensures k in q {
      RestoredWasSaved(q, k);
    }
  }

  lemma SavedIsRestored(q: Quotas, k: Key)
    requires k in q
    ensures k in Restore(Save(q)) && Restore(Save(q))[k] == q[k]
  {
    hide IntText, ParseInt, Printed;
    PrintedUnique();
    assert (IntText(k.0), k.1) in Save(q);
  }

  lemma RestoredWasSaved(q: Quotas, k: Key)
    requires k in Restore(Save(q))
    ensures k in q
  {
    hide IntText, ParseInt, Printed;
    PrintedUnique();
    var e :| e in Save(q) && Printed(e.0) && (ParseInt(e.0).value, e.1) == k;
    var o :| o in q && (IntText(o.0), o.1) == e;
  }

  // ----- agreement within a window -----

  /** Two quotas that agree on what lies in the window, now and later. */
  ghost predicate Alike(window: int, s: Stamps, u: Stamps, t: real) {
    forall c :: c >= t - window as real ==> Prune(s, c) == Prune(u, c)
  }

  lemma AlikeSame(window: int, s: Stamps, t: real)
    ensures Alike(window, s, s, t)
  {
    hide Prune;
  }

  lemma AlikeLater(window: int, s: Stamps, u: Stamps, t: real, t': real)
    requires Alike(window, s, u, t) && t <= t'
    ensures Alike(window, s, u, t')
  {
    hide Prune;
  }

  /** Dropping what is older than the window on one side keeps the quotas alike. */
  lemma AlikePruned(window: int, s: Stamps, u: Stamps, cutoff: real, t: real)
    requires Alike(window, s, u, t) && cutoff <= t - window as real
    ensures Alike(window, Prune(s, cutoff), u, t) && Alike(window, s, Prune(u, cutoff), t)
  {
    hide Prune;
    forall c | c >= t - window as real
        ensures Prune(Prune(s, cutoff), c) == Prune(s, c) && Prune(Prune(u, cutoff), c) == Prune(u, c) {
      PruneTwice(s, cutoff, c);
      PruneTwice(u, cutoff, c);
    }
  }

  /** So does cleaning up one side, when cleanup's window is no shorter. */
  lemma AlikeCleaned(defaults: Limits, action: string, window: int, s: Stamps, u: Stamps, c: real, t: real)
    requires Alike(window, s, u, t) && c <= t
    requires action in defaults ==> window <= defaults[action].windowSeconds
    ensures Alike(window, CleanedStamps(defaults, action, s, c), u, t)
    ensures Alike(window, s, CleanedStamps(defaults, action, u, c), t)
  {
    hide Prune, Alike;
    if action in defaults {
      AlikePruned(window, s, u, c - defaults[action].windowSeconds as real, t);
    }
  }

  /** A check over a window no longer sees the same stamps on both sides. */
  lemma AlikeRecent(window: int, s: Stamps, u: Stamps, limit: RateLimit, t: real, now: real)
    requires Alike(window, s, u, t) && t <= now && limit.windowSeconds <= window
    ensures Recent(s, limit, now) == Recent(u, limit, now)
  {
    hide Prune;
  }

  lemma AlikeTrans(window: int, s: Stamps, u: Stamps, r: Stamps, t: real)
    requires Alike(window, s, u, t) && Alike(window, u, r, t)
    ensures Alike(window, s, r, t)
  {
    hide Prune;
  }

  lemma AlikeBoth(window: int, s: Stamps, u: Stamps, r: Stamps, t: real)
    requires Alike(window, s, r, t) && Alike(window, u, r, t)
    ensures Alike(window, s, u, t)
  {
    hide Prune;
  }

  /** Stamps that have all left the window are no different from none. */
  lemma AlikeNothing(window: int, s: Stamps, t: real)
    requires AllBefore(s, t - window as real)
    ensures Alike(window, s, [], t)
  {
    forall c | c >= t - window as real ensures Prune(s, c) == Prune([], c) {
      var n := PruneDrops(s, c);
    }
  }

  /** A new stamp on both sides keeps them alike. */
  lemma AlikeAppended(window: int, s: Stamps, u: Stamps, at: real, t: real)
    requires Alike(window, s, u, t)
    ensures Alike(window, s + [at], u + [at], t)
  {
    hide Prune;
    forall c | c >= t - window as real ensures Prune(s + [at], c) == Prune(u + [at], c) {
      PruneAppended(s, at, c);
      PruneAppended(u, at, c);
    }
  }

  lemma {:induction false} PruneAppended(s: Stamps, at: real, c: real)
    ensures Prune(s + [at], c) == if Prune(s, c) == [] then Prune([at], c) else Prune(s, c) + [at]
  {
    if s == [] {
      assert s + [at] == [at];
    } else {
      assert (s + [at])[1..] == s[1..] + [at];
      PruneAppended(s[1..], at, c);
    }
  }

  lemma {:induction false} SortedAt(s: Stamps, i: nat, j: nat)
    requires Sorted(s) && i <= j < |s|
    ensures s[i] <= s[j]
  {
    if i > 0 {
      SortedAt(s[1..], i - 1, j - 1);
    } else if j > 0 {
      SortedAt(s[1..], 0, j - 1);
    }
  }

  lemma {:induction false} SortedSnoc(s: Stamps, at: real)
    requires Sorted(s) && forall i :: 0 <= i < |s| ==> s[i] <= at
    ensures Sorted(s + [at])
  {
    if s != [] {
      assert (s + [at])[1..] == s[1..] + [at];
      SortedSnoc(s[1..], at);
    }
  }

  // ----- runs -----

  /** The operations a run is made of, with the clock readings each one takes. */
  datatype Op =
    | CheckAndRecord(key: Key, now: real, recordedAt: real, clock: Key -> real)
    | CheckOnly(key: Key, now: real)
    | GetRemaining(key: Key, now: real)
    | CleanupAll(clock: Key -> real)
    | SaveNow(written: bool)
    | Restart(loaded: bool, clock: Key -> real)

  /** The quotas and the state file; and for each key the stamps of all admitted requests, pruned or not, now and
      when the file was written. */
  datatype State = State(quotas: Quotas, file: Saved, history: Quotas, savedHistory: Quotas)

  const EMPTY := State(map[], map[], map[], map[])

  function Step(defaults: Limits, limits: Limits, st: State, op: Op): State {
    match op
    case CheckAndRecord(k, now, at, clock) =>
      var (decision, q) := Check(defaults, st.quotas, k, FixedLimit(limits, k), now, now);
      if decision.Allowed? then
        st.(quotas := Record(defaults, q, k, at, clock), history := st.history[k := At(st.history, k) + [at]])
      else st.(quotas := q)
    case CheckOnly(k, now) => st.(quotas := Check(defaults, st.quotas, k, FixedLimit(limits, k), now, now).1)
    case GetRemaining(k, now) => st.(quotas := AfterRemaining(defaults, st.quotas, k, now))
    case CleanupAll(clock) => st.(quotas := Cleanup(defaults, st.quotas, clock))
    case SaveNow(written) =>
      if written then st.(file := Save(st.quotas), savedHistory := st.history) else st
    case Restart(loaded, clock) => st.(quotas := if loaded then Load(defaults, st.file, clock) else map[])
  }

  /** The caller's limit for an action, the same in every call of the run; without one the default applies. */
  function FixedLimit(limits: Limits, k: Key): Option<RateLimit> {
    if k.1 in limits then Some(limits[k.1]) else None
  }

  function Run(defaults: Limits, limits: Limits, st: State, ops: seq<Op>): State {
    if ops == [] then st
    else Step(defaults, limits, Run(defaults, limits, st, ops[..|ops| - 1]), ops[|ops| - 1])
  }

  /** All clock readings of `op` lie between `from` and `to`, in the order they are taken. */
  ghost predicate Timed(op: Op, from: real, to: real) {
    match op
    case CheckAndRecord(k, now, at, clock) => from <= now <= at <= to && forall k :: at <= clock(k) <= to
    case CheckOnly(k, now) => from <= now <= to
    case GetRemaining(k, now) => from <= now <= to
    case CleanupAll(clock) => forall k :: from <= clock(k) <= to
    case SaveNow(written) => true
    case Restart(loaded, clock) => forall k :: from <= clock(k) <= to
  }

  /** A nondecreasing clock: the readings of operation i lie between ticks[i] and ticks[i+1]. */
  ghost predicate Clocked(ops: seq<Op>, ticks: seq<real>) {
    && |ticks| == |ops| + 1
    && forall i :: 0 <= i < |ops| ==> Timed(ops[i], ticks[i], ticks[i + 1])
  }

  /** No stretch of `h` shorter than the window holds more stamps than allowed. */
  ghost predicate Bounded(h: Stamps, limit: RateLimit) {
    forall i, j :: 0 <= i <= j < |h| && h[j] - h[i] <= limit.windowSeconds as real ==> j - i < limit.maxRequests
  }

  /** The quota says of the window what the history says. */
  ghost predicate Faithful(window: int, h: Stamps, s: Stamps, t: real) {
    Sorted(h) && (forall i :: 0 <= i < |h| ==> h[i] <= t) && Alike(window, s, h, t)
  }

  lemma FaithfulLater(window: int, h: Stamps, s: Stamps, t: real, t': real)
    requires Faithful(window, h, s, t) && t <= t'
    ensures Faithful(window, h, s, t')
  {
    hide Alike, Sorted;
    AlikeLater(window, s, h, t, t');
  }

  lemma FaithfulPruned(window: int, h: Stamps, s: Stamps, cutoff: real, t: real)
    requires Faithful(window, h, s, t) && cutoff <= t - window as real
    ensures Faithful(window, h, Prune(s, cutoff), t)
  {
    hide Prune, Alike, Sorted;
    AlikePruned(window, s, h, cutoff, t);
  }

  lemma FaithfulCleaned(defaults: Limits, action: string, window: int, h: Stamps, s: Stamps, c: real, t: real)
    requires Faithful(window, h, s, t) && c <= t
    requires action in defaults ==> window <= defaults[action].windowSeconds
    ensures Faithful(window, h, CleanedStamps(defaults, action, s, c), t)
  {
    hide CleanedStamps, Alike, Sorted;
    AlikeCleaned(defaults, action, window, s, h, c, t);
  }

  /** Recording a request on both sides keeps a quota faithful that the check before has pruned. */
  lemma FaithfulAdmits(limit: RateLimit, h: Stamps, s: Stamps, now: real, at: real)
    requires Faithful(limit.windowSeconds, h, s, now) && now <= at
    ensures Faithful(limit.windowSeconds, h + [at], Recent(s, limit, now) + [at], at)
  {
    hide Alike, Sorted;
    var w := limit.windowSeconds;
    FaithfulPruned(w, h, s, now - w as real, now);
    AlikeLater(w, Recent(s, limit, now), h, now, at);
    AlikeAppended(w, Recent(s, limit, now), h, at, at);
    SortedSnoc(h, at);
  }

  lemma FaithfulRecent(limit: RateLimit, h: Stamps, s: Stamps, t: real, now: real)
    requires Faithful(limit.windowSeconds, h, s, t) && t <= now
    ensures Recent(s, limit, now) == Recent(h, limit, now)
  {
    hide Sorted;
    AlikeRecent(limit.windowSeconds, s, h, limit, t, now);
  }

  /** Admitting a request when the window holds fewer than the maximum keeps the bound. */
  lemma AdmitBounded(h: Stamps, limit: RateLimit, now: real, at: real)
    requires Bounded(h, limit) && |Recent(h, limit, now)| < limit.maxRequests && now <= at
    ensures Bounded(h + [at], limit)
  {
    hide Prune;
    var h', w := h + [at], limit.windowSeconds as real;
    var n := PruneDrops(h, now - w);
    forall i, j | 0 <= i <= j < |h'| && h'[j] - h'[i] <= w ensures j - i < limit.maxRequests {
      if i < j == |h| {
        assert i >= n;
      }
    }
  }

  /** Which limit governs a key, under the run's fixed limits. */
  ghost predicate Governs(defaults: Limits, limits: Limits, k: Key, limit: RateLimit) {
    EffectiveLimit(defaults, k.1, FixedLimit(limits, k)) == Some(limit)
  }

  /** Cleanup on a key's stamps, whether or not the quota is deleted. */
  lemma CleanupAt(defaults: Limits, q: Quotas, clock: Key -> real, k: Key)
    ensures At(Cleanup(defaults, q, clock), k) == CleanedStamps(defaults, k.1, At(q, k), clock(k))
  {
  }

  lemma CheckAt(defaults: Limits, q: Quotas, o: Key, limit: Option<RateLimit>, now: real, k: Key)
    ensures At(Check(defaults, q, o, limit, now, now).1, k) ==
            match EffectiveLimit(defaults, o.1, limit)
            case Some(l) => if o == k then Recent(At(q, k), l, now) else At(q, k)
            case None => At(q, k)
  {
  }

  /** What concerns one key: its history and quota, and both as they were when the file was written. */
  datatype View = View(h: Stamps, s: Stamps, savedH: Stamps, savedS: Stamps)

  function ViewOf(st: State, k: Key): View {
    View(At(st.history, k), At(st.quotas, k), At(st.savedHistory, k), At(Restore(st.file), k))
  }

  /** What one operation does to one key. */
  ghost predicate KeyStep(defaults: Limits, limit: RateLimit, k: Key, v: View, op: Op, v': View) {
    match op
    case CheckAndRecord(o, now, at, clock) =>
      var seen := if o == k then Recent(v.s, limit, now) else v.s;
      var kept := if o == k && |seen| < limit.maxRequests then seen + [at] else seen;
      && v' == v.(h := if o == k && |seen| < limit.maxRequests then v.h + [at] else v.h, s := v'.s)
      && (v'.s == kept || v'.s == CleanedStamps(defaults, k.1, kept, clock(k)))
    case CheckOnly(o, now) => v' == v.(s := if o == k then Recent(v.s, limit, now) else v.s)
    case GetRemaining(o, now) => v' == v.(s := if o == k then CleanedStamps(defaults, k.1, v.s, now) else v.s)
    case CleanupAll(clock) => v' == v.(s := CleanedStamps(defaults, k.1, v.s, clock(k)))
    case SaveNow(written) => v' == if written then v.(savedH := v.h, savedS := v.s) else v
    case Restart(loaded, clock) =>
      v' == v.(s := CleanedStamps(defaults, k.1, if loaded then v.savedS else [], clock(k)))
  }

  lemma StepAt(defaults: Limits, limits: Limits, st: State, op: Op, k: Key, limit: RateLimit)
    requires Governs(defaults, limits, k, limit)
    ensures KeyStep(defaults, limit, k, ViewOf(st, k), op, ViewOf(Step(defaults, limits, st, op), k))
  {
    hide Prune, Save, Restore, Cleanup, CleanedStamps;
    match op {
      case CheckAndRecord(o, now, at, clock) => CallAt(defaults, limits, st, op, k, limit);
      case CheckOnly(o, now) => CheckAt(defaults, st.quotas, o, FixedLimit(limits, o), now, k);
      case GetRemaining(o, now) => RemainingAt(defaults, st.quotas, o, now, k);
      case CleanupAll(clock) => CleanupAt(defaults, st.quotas, clock, k);
      case SaveNow(written) => SaveRestore(st.quotas);
      case Restart(loaded, clock) =>
        CleanupAt(defaults, Restore(st.file), clock, k);
        NothingCleaned(defaults, k.1, clock(k));
    }
  }

  lemma CallAt(defaults: Limits, limits: Limits, st: State, op: Op, k: Key, limit: RateLimit)
    requires op.CheckAndRecord? && Governs(defaults, limits, k, limit)
    ensures KeyStep(defaults, limit, k, ViewOf(st, k), op, ViewOf(Step(defaults, limits, st, op), k))
  {
    hide At, Prune, Recent, Restore, Check, Record, CleanedStamps, EffectiveLimit, FixedLimit;
    var o, at := op.key, op.recordedAt;
    var (decision, q) := Check(defaults, st.quotas, o, FixedLimit(limits, o), op.now, op.now);
    var st' := Step(defaults, limits, st, op);
    assert st'.file == st.file && st'.savedHistory == st.savedHistory;
    if o == k {
      CheckOwn(defaults, st.quotas, k, FixedLimit(limits, k), limit, op.now);
    } else {
      CheckOther(defaults, st.quotas, o, FixedLimit(limits, o), op.now, k);
    }
    if decision.Allowed? {
      RecordAt(defaults, q, o, at, op.clock, k);
      AtUpdated(st.history, o, At(st.history, o) + [at], k);
    } else {
      assert st'.quotas == q && st'.history == st.history;
    }
  }

  lemma AtUpdated(q: Quotas, o: Key, s: Stamps, k: Key)
    ensures At(q[o := s], k) == if o == k then s else At(q, k)
  {
  }

  lemma CheckOwn(defaults: Limits, q: Quotas, k: Key, limit: Option<RateLimit>, effective: RateLimit, now: real)
    requires EffectiveLimit(defaults, k.1, limit) == Some(effective)
    ensures var (decision, q') := Check(defaults, q, k, limit, now, now);
            && (decision.Allowed? <==> |Recent(At(q, k), effective, now)| < effective.maxRequests)
            && At(q', k) == Recent(At(q, k), effective, now)
  {
    hide Prune;
  }

  lemma CheckOther(defaults: Limits, q: Quotas, o: Key, limit: Option<RateLimit>, now: real, k: Key)
    requires o != k
    ensures At(Check(defaults, q, o, limit, now, now).1, k) == At(q, k)
  {
    hide Prune;
  }

  lemma RecordAt(defaults: Limits, q: Quotas, o: Key, at: real, clock: Key -> real, k: Key)
    ensures var kept := if o == k then At(q, k) + [at] else At(q, k);
            var s := At(Record(defaults, q, o, at, clock), k);
            s == kept || s == CleanedStamps(defaults, k.1, kept, clock(k))
  {
    hide Cleanup, CleanedStamps;
    CleanupAt(defaults, q[o := At(q, o) + [at]], clock, k);
  }

  lemma NothingCleaned(defaults: Limits, action: string, now: real)
    ensures CleanedStamps(defaults, action, [], now) == []
  {
  }

  lemma RemainingAt(defaults: Limits, q: Quotas, o: Key, now: real, k: Key)
    ensures At(AfterRemaining(defaults, q, o, now), k) == if o == k then CleanedStamps(defaults, k.1, At(q, k), now)
            else At(q, k)
  {
  }

  /** Now, and in what the file says about the key, whose history is the beginning of the whole. */
  ghost predicate ViewFaithful(window: int, v: View, t: real) {
    Faithful(window, v.h, v.s, t) && Faithful(window, v.savedH, v.savedS, t) && v.savedH <= v.h
  }

  /** The history a restart knows of. */
  function Read(v: View, loaded: bool): Stamps { if loaded then v.savedH else [] }

  ghost predicate AllBefore(h: Stamps, cutoff: real) {
    forall i :: 0 <= i < |h| ==> h[i] < cutoff
  }

  /** The restart forgets no admitted request of the key, or none that is still in the window. */
  ghost predicate Current(window: int, v: View, op: Op, k: Key) {
    op.Restart? ==> Read(v, op.loaded) == v.h || AllBefore(v.h, op.clock(k) - window as real)
  }

  /** Every restart of the run is of that kind. */
  ghost predicate RestartsCurrent(defaults: Limits, limits: Limits, st: State, ops: seq<Op>, k: Key, window: int) {
    forall i :: 0 <= i < |ops| ==> Current(window, ViewOf(Run(defaults, limits, st, ops[..i]), k), ops[i], k)
  }

  lemma CurrentInit(defaults: Limits, limits: Limits, st: State, ops: seq<Op>, k: Key, window: int)
    requires ops != [] && RestartsCurrent(defaults, limits, st, ops, k, window)
    ensures RestartsCurrent(defaults, limits, st, ops[..|ops| - 1], k, window)
    ensures Current(window, ViewOf(Run(defaults, limits, st, ops[..|ops| - 1]), k), ops[|ops| - 1], k)
  {
    hide Current, Run;
    var init := ops[..|ops| - 1];
    forall i | 0 <= i < |init|
      ensures Current(window, ViewOf(Run(defaults, limits, st, init[..i]), k), init[i], k)
    {
      assert init[..i] == ops[..i];
    }
  }

  /** What a restart reads says of the window what the whole history says. */
  lemma RestartFaithful(defaults: Limits, window: int, k: Key, v: View, op: Op, t: real)
    requires op.Restart? && ViewFaithful(window, v, t) && Current(window, v, op, k) && t <= op.clock(k)
    requires k.1 in defaults ==> window <= defaults[k.1].windowSeconds
    ensures var read := if op.loaded then v.savedS else [];
            Faithful(window, v.h, CleanedStamps(defaults, k.1, read, op.clock(k)), op.clock(k))
  {
    hide CleanedStamps, Alike, Sorted;
    var c, read := op.clock(k), if op.loaded then v.savedS else [];
    FaithfulLater(window, v.h, v.s, t, c);
    AlikeSame(window, [], c);
    if op.loaded {
      FaithfulLater(window, v.savedH, v.savedS, t, c);
    }
    if Read(v, op.loaded) != v.h {
      AlikeNothing(window, v.h, c);
      AlikeNothing(window, Read(v, op.loaded), c);
      AlikeTrans(window, read, Read(v, op.loaded), [], c);
      AlikeTrans(window, v.h, [], [], c);
      AlikeBoth(window, read, v.h, [], c);
    }
    FaithfulCleaned(defaults, k.1, window, v.h, read, c, c);
  }

  lemma StepFaithful(defaults: Limits, limit: RateLimit, k: Key, v: View, op: Op, v': View, t: real, t': real)
    requires KeyStep(defaults, limit, k, v, op, v') && Current(limit.windowSeconds, v, op, k)
    requires k.1 in defaults ==> limit.windowSeconds <= defaults[k.1].windowSeconds
    requires ViewFaithful(limit.windowSeconds, v, t)
    requires t <= t' && Timed(op, t, t')
    ensures ViewFaithful(limit.windowSeconds, v', t')
  {
    hide Faithful, Prune, CleanedStamps, Current;
    var w := limit.windowSeconds;
    FaithfulLater(w, v.h, v.s, t, t');
    FaithfulLater(w, v.savedH, v.savedS, t, t');
    match op {
      case CheckAndRecord(o, now, at, clock) => CallFaithful(defaults, limit, k, v, op, v', t, t');
      case CheckOnly(o, now) => FaithfulPruned(w, v.h, v.s, now - w as real, t');
      case GetRemaining(o, now) => FaithfulCleaned(defaults, k.1, w, v.h, v.s, now, t');
      case CleanupAll(clock) => FaithfulCleaned(defaults, k.1, w, v.h, v.s, clock(k), t');
      case SaveNow(written) =>
      case Restart(loaded, clock) =>
        RestartFaithful(defaults, w, k, v, op, t);
        FaithfulLater(w, v.h, v'.s, clock(k), t');
    }
  }

  lemma CallFaithful(defaults: Limits, limit: RateLimit, k: Key, v: View, op: Op, v': View, t: real, t': real)
    requires op.CheckAndRecord? && KeyStep(defaults, limit, k, v, op, v')
    requires k.1 in defaults ==> limit.windowSeconds <= defaults[k.1].windowSeconds
    requires Faithful(limit.windowSeconds, v.h, v.s, t)
    requires t <= t' && Timed(op, t, t')
    ensures Faithful(limit.windowSeconds, v'.h, v'.s, t') && v.h <= v'.h
  {
    hide Faithful, Prune, CleanedStamps;
    var w, now, at := limit.windowSeconds, op.now, op.recordedAt;
    FaithfulLater(w, v.h, v.s, t, now);
    FaithfulPruned(w, v.h, v.s, now - w as real, now);
    FaithfulAdmits(limit, v.h, v.s, now, at);
    var seen := if op.key == k then Recent(v.s, limit, now) else v.s;
    FaithfulLater(w, v.h, seen, now, at);
    var kept := if op.key == k && |seen| < limit.maxRequests then seen + [at] else seen;
    FaithfulLater(w, v'.h, kept, at, t');
    FaithfulCleaned(defaults, k.1, w, v'.h, kept, op.clock(k), t');
  }

  lemma StepBounded(defaults: Limits, limit: RateLimit, k: Key, v: View, op: Op, v': View, t: real, t': real)
    requires KeyStep(defaults, limit, k, v, op, v') && Timed(op, t, t')
    requires Faithful(limit.windowSeconds, v.h, v.s, t) && Bounded(v.h, limit)
    ensures Bounded(v'.h, limit)
  {
    hide Faithful, Bounded, CleanedStamps, Recent;
    if op.CheckAndRecord? && v'.h != v.h {
      FaithfulRecent(limit, v.h, v.s, t, op.now);
      AdmitBounded(v.h, limit, op.now, op.recordedAt);
    }
  }

  lemma {:induction false} RunKeeps(defaults: Limits, limits: Limits, ops: seq<Op>, ticks: seq<real>, k: Key,
                                    limit: RateLimit)
    requires Clocked(ops, ticks) && TicksRise(ticks)
    requires RestartsCurrent(defaults, limits, EMPTY, ops, k, limit.windowSeconds)
    requires Governs(defaults, limits, k, limit)
    requires k.1 in defaults ==> limit.windowSeconds <= defaults[k.1].windowSeconds
    ensures var v := ViewOf(Run(defaults, limits, EMPTY, ops), k);
            ViewFaithful(limit.windowSeconds, v, ticks[|ops|]) && Bounded(v.h, limit)
  {
    hide Step, Timed, Governs, KeyStep, ViewOf, Faithful, Bounded, Current, RestartsCurrent;
    if ops == [] {
      EmptyKeeps(k, limit, ticks[0]);
    } else {
      var n := |ops| - 1;
      ClockedInit(ops, ticks);
      CurrentInit(defaults, limits, EMPTY, ops, k, limit.windowSeconds);
      RunKeeps(defaults, limits, ops[..n], ticks[..|ops|], k, limit);
      var st, st' := Run(defaults, limits, EMPTY, ops[..n]), Run(defaults, limits, EMPTY, ops);
      StepAt(defaults, limits, st, ops[n], k, limit);
      StepFaithful(defaults, limit, k, ViewOf(st, k), ops[n], ViewOf(st', k), ticks[n], ticks[n + 1]);
      StepBounded(defaults, limit, k, ViewOf(st, k), ops[n], ViewOf(st', k), ticks[n], ticks[n + 1]);
    }
  }

  lemma EmptyView(k: Key)
    ensures ViewOf(EMPTY, k) == View([], [], [], [])
  {
  }

  lemma EmptyKeeps(k: Key, limit: RateLimit, t: real)
    ensures var v := ViewOf(EMPTY, k); ViewFaithful(limit.windowSeconds, v, t) && Bounded(v.h, limit)
  {
    EmptyView(k);
    AlikeSame(limit.windowSeconds, [], t);
  }

  lemma ClockedInit(ops: seq<Op>, ticks: seq<real>)
    requires ops != [] && Clocked(ops, ticks) && TicksRise(ticks)
    ensures Clocked(ops[..|ops| - 1], ticks[..|ops|]) && TicksRise(ticks[..|ops|])
    ensures ticks[|ops| - 1] <= ticks[|ops|] && Timed(ops[|ops| - 1], ticks[|ops| - 1], ticks[|ops|])
  {
    hide Timed;
    var init, before := ops[..|ops| - 1], ticks[..|ops|];
    forall i | 0 <= i < |init| ensures Timed(init[i], before[i], before[i + 1]) {
      assert Timed(ops[i], ticks[i], ticks[i + 1]);
    }
  }

  predicate TicksRise(ticks: seq<real>) {
    forall i :: 0 < i < |ticks| ==> ticks[i - 1] <= ticks[i]
  }

  /** How many stamps of `h` lie in the closed interval from lo to hi. */
  function CountIn(h: Stamps, lo: real, hi: real): nat {
    if h == [] then 0
    else (if lo <= h[0] <= hi then 1 else 0) + CountIn(h[1..], lo, hi)
  }

  lemma {:induction false} CountSpan(h: Stamps, lo: real, hi: real) returns (i: nat, j: nat)
    requires CountIn(h, lo, hi) > 0
    ensures i <= j < |h| && lo <= h[i] <= hi && lo <= h[j] <= hi
    ensures CountIn(h, lo, hi) <= j - i + 1
  {
    if CountIn(h[1..], lo, hi) > 0 {
      i, j := CountSpan(h[1..], lo, hi);
      i, j := i + 1, j + 1;
      if lo <= h[0] <= hi { i := 0; }
    } else {
      i, j := 0, 0;
    }
  }

  /** Over every run with a nondecreasing clock, every closed interval as long as the window holds at most the
      allowed number of all requests ever admitted, pruned ones included, through checks by others, cleanups, saves
      and restarts, as long as the window is no longer than the one cleanup uses for the action and no restart forgets
      an admitted request of the key that is still in the window. */
  lemma WindowBound(defaults: Limits, limits: Limits, ops: seq<Op>, ticks: seq<real>, k: Key, limit: RateLimit,
                    lo: real)
    requires Clocked(ops, ticks) && TicksRise(ticks)
    requires RestartsCurrent(defaults, limits, EMPTY, ops, k, limit.windowSeconds)
    requires Governs(defaults, limits, k, limit)
    requires k.1 in defaults ==> limit.windowSeconds <= defaults[k.1].windowSeconds
    ensures Within(At(Run(defaults, limits, EMPTY, ops).history, k), limit, lo)
  {
    hide Run, Governs, RestartsCurrent, Bounded, Within, At, Timed;
    RunKeeps(defaults, limits, ops, ticks, k, limit);
    BoundedWithin(At(Run(defaults, limits, EMPTY, ops).history, k), limit, lo);
  }

  /** The window from `lo` on holds no request or at most the maximum. */
  predicate Within(h: Stamps, limit: RateLimit, lo: real) {
    var n := CountIn(h, lo, lo + limit.windowSeconds as real);
    n == 0 || n <= limit.maxRequests
  }

  lemma BoundedWithin(h: Stamps, limit: RateLimit, lo: real)
    requires Bounded(h, limit)
    ensures Within(h, limit, lo)
  {
    hide CountIn;
    if CountIn(h, lo, lo + limit.windowSeconds as real) > 0 {
      var i, j := CountSpan(h, lo, lo + limit.windowSeconds as real);
    }
  }

  /** The other direction as well: over every such run a check is allowed exactly when fewer than the maximum of all
      requests admitted so far lie in the window that ends with it, and the remaining number under the default limit is
      what they leave of the maximum. */
  lemma AllowedOverRun(defaults: Limits, limits: Limits, ops: seq<Op>, ticks: seq<real>, k: Key, limit: RateLimit,
                       now: real)
    requires Clocked(ops, ticks) && TicksRise(ticks) && ticks[|ops|] <= now
    requires RestartsCurrent(defaults, limits, EMPTY, ops, k, limit.windowSeconds)
    requires Governs(defaults, limits, k, limit)
    requires k.1 in defaults ==> limit.windowSeconds <= defaults[k.1].windowSeconds
    ensures var st := Run(defaults, limits, EMPTY, ops);
            var n := CountIn(At(st.history, k), now - limit.windowSeconds as real, now);
            && (Check(defaults, st.quotas, k, FixedLimit(limits, k), now, now).0 == Allowed <==> n < limit.maxRequests)
            && (k.1 in defaults && limit == defaults[k.1] ==>
                  Remaining(defaults, st.quotas, k, now) == if n < limit.maxRequests then limit.maxRequests - n else 0)
  {
    hide Run, Clocked, RestartsCurrent, Bounded, At, CountIn, Recent, Faithful;
    ClockedLength(ops, ticks);
    RunKeeps(defaults, limits, ops, ticks, k, limit);
    var v := ViewOf(Run(defaults, limits, EMPTY, ops), k);
    FaithfulRecent(limit, v.h, v.s, ticks[|ops|], now);
    InOrder(limit.windowSeconds, v.h, v.s, ticks[|ops|], now);
    CountRecentStamps(v.h, limit, now);
  }

  // ----- what a restart forgets -----

  /** n requests for the key at time t, one after the other. */
  function Calls(k: Key, t: real, n: nat): seq<Op> {
    if n == 0 then [] else Calls(k, t, n - 1) + [CheckAndRecord(k, t, t, (k': Key) => t)]
  }

  function Copies(t: real, n: nat): (r: Stamps)
    ensures |r| == n && forall i :: 0 <= i < n ==> r[i] == t
  {
    if n == 0 then [] else Copies(t, n - 1) + [t]
  }

  lemma {:induction false} RecentCopies(h: Stamps, limit: RateLimit, t: real, n: nat)
    requires limit.windowSeconds >= 0
    ensures Recent(h + Copies(t, n), limit, t) == Recent(h, limit, t) + Copies(t, n)
  {
    if n == 0 {
      assert h + [] == h;
    } else {
      var before := h + Copies(t, n - 1);
      assert h + Copies(t, n) == before + [t];
      RecentCopies(h, limit, t, n - 1);
      PruneAppended(before, t, t - limit.windowSeconds as real);
      assert Prune([t], t - limit.windowSeconds as real) == [t];
    }
  }

  lemma {:induction false} SortedCopies(h: Stamps, t: real, n: nat)
    requires Sorted(h) && forall i :: 0 <= i < |h| ==> h[i] <= t
    ensures Sorted(h + Copies(t, n))
  {
    hide Sorted;
    if n == 0 {
      assert h + [] == h;
    } else {
      SortedCopies(h, t, n - 1);
      SortedSnoc(h + Copies(t, n - 1), t);
      assert h + Copies(t, n) == h + Copies(t, n - 1) + [t];
    }
  }

  /** In a sorted history the stamps of a window that has just ended are those pruning leaves. */
  lemma {:induction false} CountRecent(h: Stamps, lo: real, hi: real)
    requires Sorted(h) && forall i :: 0 <= i < |h| ==> h[i] <= hi
    ensures CountIn(h, lo, hi) == |Prune(h, lo)|
  {
    if h != [] {
      if h[0] >= lo && |h| > 1 {
        assert h[1] >= lo;
        assert Prune(h[1..], lo) == h[1..];
      }
      CountRecent(h[1..], lo, hi);
    }
  }

  /** While a quota says there is room, requests are admitted, whatever was admitted before. */
  lemma {:induction false} CallsAdmitted(defaults: Limits, limits: Limits, st: State, k: Key, limit: RateLimit,
                                         g: Stamps, t: real, n: nat)
    requires Governs(defaults, limits, k, limit) && limit.windowSeconds >= 0
    requires k.1 in defaults ==> limit.windowSeconds <= defaults[k.1].windowSeconds
    requires Faithful(limit.windowSeconds, g, At(st.quotas, k), t)
    requires |Recent(g, limit, t)| + n <= limit.maxRequests
    ensures var st' := Run(defaults, limits, st, Calls(k, t, n));
            && At(st'.history, k) == At(st.history, k) + Copies(t, n)
            && Faithful(limit.windowSeconds, g + Copies(t, n), At(st'.quotas, k), t)
  {
    hide Step, Governs, Faithful, Recent, At, Copies, Run;
    AddCopies(g, t, n);
    AddCopies(At(st.history, k), t, n);
    if n == 0 {
      RunNothing(defaults, limits, st);
    } else {
      CallsAdmitted(defaults, limits, st, k, limit, g, t, n - 1);
      var before := Calls(k, t, n - 1);
      RunSnoc(defaults, limits, st, before, CheckAndRecord(k, t, t, (k': Key) => t));
      RecentCopies(g, limit, t, n - 1);
      OneAdmitted(defaults, limits, Run(defaults, limits, st, before), k, limit, g + Copies(t, n - 1), t);
    }
  }

  lemma AddCopies(h: Stamps, t: real, n: nat)
    ensures h + Copies(t, n) == if n == 0 then h else h + Copies(t, n - 1) + [t]
  {
  }

  lemma RunNothing(defaults: Limits, limits: Limits, st: State)
    ensures Run(defaults, limits, st, []) == st
  {
  }

  lemma OneAdmitted(defaults: Limits, limits: Limits, st: State, k: Key, limit: RateLimit, g: Stamps, t: real)
    requires Governs(defaults, limits, k, limit)
    requires k.1 in defaults ==> limit.windowSeconds <= defaults[k.1].windowSeconds
    requires Faithful(limit.windowSeconds, g, At(st.quotas, k), t) && |Recent(g, limit, t)| < limit.maxRequests
    ensures var st' := Step(defaults, limits, st, CheckAndRecord(k, t, t, (k': Key) => t));
            && At(st'.history, k) == At(st.history, k) + [t]
            && Faithful(limit.windowSeconds, g + [t], At(st'.quotas, k), t)
  {
    hide Step, Governs, Faithful, Recent, CleanedStamps, At;
    var s := At(st.quotas, k);
    StepAt(defaults, limits, st, CheckAndRecord(k, t, t, (k': Key) => t), k, limit);
    FaithfulRecent(limit, g, s, t, t);
    FaithfulAdmits(limit, g, s, t, t);
    FaithfulCleaned(defaults, k.1, limit.windowSeconds, g + [t], Recent(s, limit, t) + [t], t, t);
  }

  /** A history cut off before a stamp that is still in the window has fewer stamps there. */
  lemma CutRecent(h: Stamps, g: Stamps, limit: RateLimit, t: real)
    requires g <= h && g != h && Sorted(h) && !AllBefore(h, t - limit.windowSeconds as real)
    ensures |Recent(g, limit, t)| < |Recent(h, limit, t)|
  {
    hide Sorted, Prune;
    var cutoff := t - limit.windowSeconds as real;
    var n := PruneDrops(h, cutoff);
    var m := PruneDrops(g, cutoff);
    var i :| 0 <= i < |h| && h[i] >= cutoff;
    SortedAt(h, i, |h| - 1);
    if m < |g| {
      assert h[m] == g[m] >= cutoff;
    }
  }

  lemma ClockedLength(ops: seq<Op>, ticks: seq<real>)
    requires Clocked(ops, ticks)
    ensures |ticks| == |ops| + 1
  {
  }

  lemma ClockedSnoc(ops: seq<Op>, ticks: seq<real>, op: Op, t: real)
    requires Clocked(ops, ticks) && TicksRise(ticks) && ticks[|ops|] <= t && Timed(op, ticks[|ops|], t)
    ensures Clocked(ops + [op], ticks + [t]) && TicksRise(ticks + [t])
  {
    hide Timed;
    var all, more := ops + [op], ticks + [t];
    forall i | 0 <= i < |all| ensures Timed(all[i], more[i], more[i + 1]) {
      if i < |ops| {
        assert Timed(ops[i], ticks[i], ticks[i + 1]);
      }
    }
  }

  lemma {:induction false} CallsClocked(k: Key, t: real, n: nat)
    ensures Clocked(Calls(k, t, n), Copies(t, n + 1)) && TicksRise(Copies(t, n + 1))
  {
    if n > 0 {
      CallsClocked(k, t, n - 1);
      ClockedSnoc(Calls(k, t, n - 1), Copies(t, n), CheckAndRecord(k, t, t, (k': Key) => t), t);
    }
  }

  ghost predicate NoRestarts(ops: seq<Op>) {
    forall i :: 0 <= i < |ops| ==> !ops[i].Restart?
  }

  lemma {:induction false} CallsRestartless(k: Key, t: real, n: nat)
    ensures NoRestarts(Calls(k, t, n))
  {
    if n > 0 {
      CallsRestartless(k, t, n - 1);
    }
  }

  lemma {:induction false} RunJoined(defaults: Limits, limits: Limits, st: State, ops: seq<Op>, more: seq<Op>)
    ensures Run(defaults, limits, st, ops + more) == Run(defaults, limits, Run(defaults, limits, st, ops), more)
  {
    hide Step;
    if more == [] {
      assert ops + more == ops;
    } else {
      var n := |more| - 1;
      RunJoined(defaults, limits, st, ops, more[..n]);
      assert ops + more == ops + more[..n] + [more[n]];
      RunSnoc(defaults, limits, st, ops + more[..n], more[n]);
    }
  }

  /** Operations without a restart, at rising times from t on. */
  ghost predicate Continues(more: seq<Op>, later: seq<real>, t: real) {
    NoRestarts(more) && Clocked(more, later) && TicksRise(later) && t <= later[0]
  }

  lemma CallsContinue(k: Key, t: real, n: nat)
    ensures Continues(Calls(k, t, n), Copies(t, n + 1), t)
  {
    hide Calls, Clocked, NoRestarts;
    CallsClocked(k, t, n);
    CallsRestartless(k, t, n);
  }

  /** What the key admitted in a run with a restart and `more` after it. */
  function HistoryAfter(defaults: Limits, limits: Limits, ops: seq<Op>, restart: Op, more: seq<Op>, k: Key): Stamps {
    At(Run(defaults, limits, EMPTY, ops + [restart] + more).history, k)
  }

  /** A restart that forgets a request still in the window breaks the bound in some continuation: as many requests as
      the restarted limiter still admits at once. */
  lemma StaleRestartBreaks(defaults: Limits, limits: Limits, ops: seq<Op>, ticks: seq<real>, k: Key,
                           limit: RateLimit, restart: Op, t: real) returns (n: nat)
    requires Clocked(ops, ticks) && TicksRise(ticks) && ticks[|ops|] <= t
    requires RestartsCurrent(defaults, limits, EMPTY, ops, k, limit.windowSeconds)
    requires Governs(defaults, limits, k, limit) && limit.windowSeconds >= 0
    requires k.1 in defaults ==> limit.windowSeconds <= defaults[k.1].windowSeconds
    requires restart.Restart? && restart.clock(k) == t
    requires !Current(limit.windowSeconds, ViewOf(Run(defaults, limits, EMPTY, ops), k), restart, k)
    ensures limit.maxRequests >= 1
    ensures var w := limit.windowSeconds as real;
            CountIn(HistoryAfter(defaults, limits, ops, restart, Calls(k, t, n), k), t - w, t) > limit.maxRequests
  {
    hide Step, Governs, RestartsCurrent, Clocked, TicksRise, Faithful, At, Recent, CountIn, Current, ViewOf;
    var st := Run(defaults, limits, EMPTY, ops);
    var st' := Step(defaults, limits, st, restart);
    var g, h := Read(ViewOf(st, k), restart.loaded), At(st'.history, k);
    AfterStale(defaults, limits, ops, ticks, k, limit, restart, t);
    n := limit.maxRequests - |Recent(g, limit, t)|;
    CallsAdmitted(defaults, limits, st', k, limit, g, t, n);
    RunSnoc(defaults, limits, EMPTY, ops, restart);
    RunJoined(defaults, limits, EMPTY, ops + [restart], Calls(k, t, n));
    RecentCopies(h, limit, t, n);
    SortedCopies(h, t, n);
    CountRecentStamps(h + Copies(t, n), limit, t);
  }

  lemma CountRecentStamps(h: Stamps, limit: RateLimit, t: real)
    requires Sorted(h) && forall i :: 0 <= i < |h| ==> h[i] <= t
    ensures CountIn(h, t - limit.windowSeconds as real, t) == |Recent(h, limit, t)|
  {
    CountRecent(h, t - limit.windowSeconds as real, t);
  }

  /** After such a restart the quota says what was admitted before the save, and that is less than there is. */
  lemma AfterStale(defaults: Limits, limits: Limits, ops: seq<Op>, ticks: seq<real>, k: Key, limit: RateLimit,
                   restart: Op, t: real)
    requires Clocked(ops, ticks) && TicksRise(ticks) && ticks[|ops|] <= t
    requires RestartsCurrent(defaults, limits, EMPTY, ops, k, limit.windowSeconds)
    requires Governs(defaults, limits, k, limit)
    requires k.1 in defaults ==> limit.windowSeconds <= defaults[k.1].windowSeconds
    requires restart.Restart? && restart.clock(k) == t
    requires !Current(limit.windowSeconds, ViewOf(Run(defaults, limits, EMPTY, ops), k), restart, k)
    ensures var st := Run(defaults, limits, EMPTY, ops);
            var st' := Step(defaults, limits, st, restart);
            var g, h := Read(ViewOf(st, k), restart.loaded), At(st'.history, k);
            && Sorted(h) && (forall i :: 0 <= i < |h| ==> h[i] <= t)
            && Faithful(limit.windowSeconds, g, At(st'.quotas, k), t)
            && |Recent(g, limit, t)| < |Recent(h, limit, t)| <= limit.maxRequests
  {
    hide Run, Step, Governs, RestartsCurrent, Clocked, TicksRise, Faithful, Bounded, At, Recent, CleanedStamps,
         AllBefore, Sorted, Restore;
    var st := Run(defaults, limits, EMPTY, ops);
    var v := ViewOf(st, k);
    var g, read := Read(v, restart.loaded), if restart.loaded then v.savedS else [];
    ClockedLength(ops, ticks);
    RunKeeps(defaults, limits, ops, ticks, k, limit);
    ReadFaithful(limit.windowSeconds, v, restart.loaded, ticks[|ops|], t);
    FaithfulCleaned(defaults, k.1, limit.windowSeconds, g, read, t, t);
    RestartedView(defaults, limits, st, restart, k, limit);
    InOrder(limit.windowSeconds, v.h, v.s, ticks[|ops|], t);
    CutRecent(v.h, g, limit, t);
    RecentWithin(v.h, limit, t);
  }

  lemma ReadFaithful(window: int, v: View, loaded: bool, t: real, t': real)
    requires ViewFaithful(window, v, t) && t <= t'
    ensures Faithful(window, Read(v, loaded), if loaded then v.savedS else [], t') && Read(v, loaded) <= v.h
  {
    hide Alike, Sorted;
    AlikeSame(window, [], t');
    assert Sorted([]) by { NothingSorted(); }
    FaithfulLater(window, v.savedH, v.savedS, t, t');
  }

  lemma NothingSorted()
    ensures Sorted([])
  {
  }

  lemma InOrder(window: int, h: Stamps, s: Stamps, t: real, t': real)
    requires Faithful(window, h, s, t) && t <= t'
    ensures Sorted(h) && forall i :: 0 <= i < |h| ==> h[i] <= t'
  {
    hide Sorted, Alike;
  }

  lemma RecentWithin(h: Stamps, limit: RateLimit, t: real)
    requires Bounded(h, limit) && Sorted(h) && forall i :: 0 <= i < |h| ==> h[i] <= t
    ensures |Recent(h, limit, t)| == 0 || |Recent(h, limit, t)| <= limit.maxRequests
  {
    hide Bounded, Sorted, CountIn, Prune;
    var lo := t - limit.windowSeconds as real;
    BoundedWithin(h, limit, lo);
    CountRecent(h, lo, t);
  }

  /** Exactly which restart keeps the bound: after a run whose earlier restarts do, the bound holds of every
      continuation without another restart if and only if this one forgets no request still in the window. */
  lemma RestartBoundIff(defaults: Limits, limits: Limits, ops: seq<Op>, ticks: seq<real>, k: Key, limit: RateLimit,
                        restart: Op, t: real)
    requires Clocked(ops, ticks) && TicksRise(ticks) && ticks[|ops|] <= t
    requires RestartsCurrent(defaults, limits, EMPTY, ops, k, limit.windowSeconds)
    requires Governs(defaults, limits, k, limit) && limit.windowSeconds >= 0
    requires k.1 in defaults ==> limit.windowSeconds <= defaults[k.1].windowSeconds
    requires restart.Restart? && Timed(restart, t, t)
    ensures Current(limit.windowSeconds, ViewOf(Run(defaults, limits, EMPTY, ops), k), restart, k) <==>
            forall more, later, lo :: Continues(more, later, t) ==>
              Within(HistoryAfter(defaults, limits, ops, restart, more, k), limit, lo)
  {
    hide Run, ViewOf, Governs, RestartsCurrent, Current, Clocked, TicksRise, Continues, HistoryAfter, CountIn;
    var v := ViewOf(Run(defaults, limits, EMPTY, ops), k);
    if Current(limit.windowSeconds, v, restart, k) {
      forall more, later, lo | Continues(more, later, t)
        ensures Within(HistoryAfter(defaults, limits, ops, restart, more, k), limit, lo)
      {
        CurrentHolds(defaults, limits, ops, ticks, k, limit, restart, t, more, later, lo);
      }
    } else {
      var n := StaleRestartBreaks(defaults, limits, ops, ticks, k, limit, restart, t);
      CallsContinue(k, t, n);
      var lo := t - limit.windowSeconds as real;
      assert !Within(HistoryAfter(defaults, limits, ops, restart, Calls(k, t, n), k), limit, lo);
    }
  }

  lemma CurrentHolds(defaults: Limits, limits: Limits, ops: seq<Op>, ticks: seq<real>, k: Key, limit: RateLimit,
                     restart: Op, t: real, more: seq<Op>, later: seq<real>, lo: real)
    requires Clocked(ops, ticks) && TicksRise(ticks) && ticks[|ops|] <= t
    requires RestartsCurrent(defaults, limits, EMPTY, ops, k, limit.windowSeconds)
    requires Governs(defaults, limits, k, limit)
    requires k.1 in defaults ==> limit.windowSeconds <= defaults[k.1].windowSeconds
    requires restart.Restart? && Timed(restart, t, t)
    requires Current(limit.windowSeconds, ViewOf(Run(defaults, limits, EMPTY, ops), k), restart, k)
    requires Continues(more, later, t)
    ensures Within(HistoryAfter(defaults, limits, ops, restart, more, k), limit, lo)
  {
    hide Run, ViewOf, Governs, Current, Timed, Within, Clocked, TicksRise, NoRestarts, RestartsCurrent, At;
    JoinedClocked(ops, ticks, restart, t, more, later);
    JoinedCurrent(defaults, limits, ops, k, limit.windowSeconds, restart, more);
    WindowBound(defaults, limits, ops + [restart] + more, ticks + later, k, limit, lo);
  }

  lemma JoinedClocked(ops: seq<Op>, ticks: seq<real>, restart: Op, t: real, more: seq<Op>, later: seq<real>)
    requires Clocked(ops, ticks) && TicksRise(ticks) && ticks[|ops|] <= t && Timed(restart, t, t)
    requires Clocked(more, later) && TicksRise(later) && t <= later[0]
    ensures Clocked(ops + [restart] + more, ticks + later) && TicksRise(ticks + later)
  {
    hide Timed;
    var all, both, n := ops + [restart] + more, ticks + later, |ops|;
    forall i | 0 <= i < |all| ensures Timed(all[i], both[i], both[i + 1]) {
      if i < n {
        assert Timed(ops[i], ticks[i], ticks[i + 1]);
      } else if i == n {
        TimedWider(restart, t, t, ticks[n], later[0]);
      } else {
        assert Timed(more[i - n - 1], later[i - n - 1], later[i - n]);
      }
    }
  }

  lemma JoinedCurrent(defaults: Limits, limits: Limits, ops: seq<Op>, k: Key, window: int, restart: Op, more: seq<Op>)
    requires RestartsCurrent(defaults, limits, EMPTY, ops, k, window) && NoRestarts(more)
    requires Current(window, ViewOf(Run(defaults, limits, EMPTY, ops), k), restart, k)
    ensures RestartsCurrent(defaults, limits, EMPTY, ops + [restart] + more, k, window)
  {
    hide Run, ViewOf, Current;
    var all, n := ops + [restart] + more, |ops|;
    forall i | 0 <= i < |all| ensures Current(window, ViewOf(Run(defaults, limits, EMPTY, all[..i]), k), all[i], k) {
      if i < n {
        assert all[..i] == ops[..i] && all[i] == ops[i];
      } else if i == n {
        assert all[..n] == ops && all[n] == restart;
      } else {
        assert all[i] == more[i - n - 1];
        OthersCurrent(window, ViewOf(Run(defaults, limits, EMPTY, all[..i]), k), all[i], k);
      }
    }
  }

  lemma TimedWider(op: Op, from: real, to: real, from': real, to': real)
    requires Timed(op, from, to) && from' <= from && to <= to'
    ensures Timed(op, from', to')
  {
  }

  lemma OthersCurrent(window: int, v: View, op: Op, k: Key)
    requires !op.Restart?
    ensures Current(window, v, op, k)
  {
  }

  /** A second request meets an emptied quota. */
  lemma TwoAdmitted(defaults: Limits, limits: Limits, st: State, op: Op, k: Key, limit: RateLimit)
    requires Governs(defaults, limits, k, limit) && limit.maxRequests >= 1
    requires op.CheckAndRecord? && op == CheckAndRecord(k, op.now, op.now, op.clock) && op.now >= 0.0
    requires ViewOf(st, k).h == [] + [0.0] && ViewOf(st, k).s == []
    ensures CountIn(At(Step(defaults, limits, st, op).history, k), 0.0, 0.0 + op.now) == 2
  {
    hide Step, CountIn, Governs;
    StepAt(defaults, limits, st, op, k, limit);
    CountTwo(op.now);
  }

  /** The run that needs the condition on the window: a request, a cleanup once the default window has passed, and
      another request. */
  function LongWindowRun(w: nat): seq<Op> {
    var k: Key, t, clock := (0, "a"), w as real, (k': Key) => w as real;
    [CheckAndRecord(k, 0.0, 0.0, (k': Key) => 0.0), CleanupAll(clock), CheckAndRecord(k, t, t, clock)]
  }

  /** With any longer window, the cleanup lets both requests into one window although only one is allowed. */
  lemma LongWindowBroken(w: nat, d: nat)
    requires d < w
    ensures var defaults: Limits, limits: Limits := map["a" := RateLimit(1, d)], map["a" := RateLimit(1, w)];
            var k: Key, t := (0, "a"), w as real;
            && Clocked(LongWindowRun(w), [0.0, 0.0, t, t])
            && CountIn(At(Run(defaults, limits, EMPTY, LongWindowRun(w)).history, k), 0.0, 0.0 + t) == 2
  {
    hide Step, ViewOf, Run, Clocked, CountIn, At, KeyStep;
    var defaults: Limits, limits: Limits := map["a" := RateLimit(1, d)], map["a" := RateLimit(1, w)];
    var ops, k: Key, limit := LongWindowRun(w), (0, "a"), RateLimit(1, w);
    var st1 := Step(defaults, limits, EMPTY, ops[0]);
    var st2 := Step(defaults, limits, st1, ops[1]);
    FirstRequest(defaults, limits, ops[0], k, limit);
    CleanedView(defaults, limits, st1, ops[1], k, limit);
    OneStamp(w as real - d as real);
    TwoAdmitted(defaults, limits, st2, ops[2], k, limit);
    RunThree(defaults, limits, EMPTY, ops[0], ops[1], ops[2]);
    LongWindowClocked(w);
  }

  lemma LongWindowClocked(w: nat)
    ensures Clocked(LongWindowRun(w), [0.0, 0.0, w as real, w as real])
  {
  }

  /** A first request at time 0. */
  lemma FirstRequest(defaults: Limits, limits: Limits, op: Op, k: Key, limit: RateLimit)
    requires Governs(defaults, limits, k, limit) && limit.maxRequests >= 1
    requires k.1 in defaults ==> defaults[k.1].windowSeconds >= 0
    requires op.CheckAndRecord? && op == CheckAndRecord(k, 0.0, 0.0, op.clock) && op.clock(k) == 0.0
    ensures ViewOf(Step(defaults, limits, EMPTY, op), k) == View([] + [0.0], [] + [0.0], [], [])
  {
    hide Step, At, Governs;
    EmptyView(k);
    StepAt(defaults, limits, EMPTY, op, k, limit);
    if k.1 in defaults {
      OneStamp(0.0 - defaults[k.1].windowSeconds as real);
    }
  }

  /** Without the cleanup the second request is refused, so beyond the default window a cleanup does change answers. */
  lemma LongWindowSeen(w: nat, d: nat)
    requires d < w
    ensures var defaults: Limits, limits: Limits := map["a" := RateLimit(1, d)], map["a" := RateLimit(1, w)];
            At(Run(defaults, limits, EMPTY, WithoutSweeps(LongWindowRun(w))).history, (0, "a")) == [0.0]
  {
    var defaults: Limits, limits: Limits := map["a" := RateLimit(1, d)], map["a" := RateLimit(1, w)];
    var k: Key := (0, "a");
    hide Step, At;
    var ops, st0 := LongWindowRun(w), EMPTY;
    var st1 := Step(defaults, limits, st0, ops[0]);
    FirstRequest(defaults, limits, ops[0], k, RateLimit(1, w));
    StepAt(defaults, limits, st1, ops[2], k, RateLimit(1, w));
    OneStamp(0.0);
    assert [] + [0.0] == [0.0];
    WithoutMiddle(defaults, limits, st0, ops[0], ops[1], ops[2]);
  }

  lemma WithoutMiddle(defaults: Limits, limits: Limits, st: State, a: Op, b: Op, c: Op)
    requires !IsSweep(a) && IsSweep(b) && !IsSweep(c)
    ensures Run(defaults, limits, st, WithoutSweeps([a, b, c]))
            == Step(defaults, limits, Step(defaults, limits, st, a), c)
  {
    hide Step;
    var ops, none: seq<Op> := [a, b, c], [];
    assert WithoutSweeps(none) == none;
    assert WithoutSweeps([a]) == none + [a] by { assert [a][..0] == none; }
    assert WithoutSweeps([a, b]) == none + [a] by { assert [a, b][..1] == [a]; }
    assert WithoutSweeps(ops) == none + [a] + [c] by { assert ops[..2] == [a, b]; }
    RunSnoc(defaults, limits, st, none, a);
    RunSnoc(defaults, limits, st, none + [a], c);
  }

  lemma OneStamp(cutoff: real)
    ensures Prune([] + [0.0], cutoff) == if 0.0 < cutoff then [] else [0.0]
  {
    assert [] + [0.0] == [0.0] && [0.0][1..] == [];
  }

  lemma CountTwo(t: real)
    requires t >= 0.0
    ensures CountIn([] + [0.0] + [t], 0.0, 0.0 + t) == 2
  {
    var h := [] + [0.0] + [t];
    assert h[1..] == [t] && h[1..][1..] == [];
    assert CountIn(h[1..], 0.0, t) == 1 + CountIn(h[1..][1..], 0.0, t);
  }

  lemma RunThree(defaults: Limits, limits: Limits, st: State, a: Op, b: Op, c: Op)
    ensures Run(defaults, limits, st, [a, b, c])
         == Step(defaults, limits, Step(defaults, limits, Step(defaults, limits, st, a), b), c)
  {
    hide Step;
    var none: seq<Op> := [];
    RunSnoc(defaults, limits, st, none, a);
    RunSnoc(defaults, limits, st, [a], b);
    RunSnoc(defaults, limits, st, [a, b], c);
    assert none + [a] == [a] && [a] + [b] == [a, b] && [a, b] + [c] == [a, b, c];
  }

  lemma RunSnoc(defaults: Limits, limits: Limits, st: State, ops: seq<Op>, op: Op)
    ensures Run(defaults, limits, st, ops + [op]) == Step(defaults, limits, Run(defaults, limits, st, ops), op)
  {
    assert (ops + [op])[..|ops|] == ops;
  }

  // ----- restart transparency -----

  /** A check at time t over window w decides alike with and without an earlier cleanup at time c over window d. */
  predicate CleanupUnseen(s: Stamps, max: int, w: int, d: int, c: real, t: real) {
    var limit := RateLimit(max, w);
    Decide(Recent(Prune(s, c - d as real), limit, t), limit, t) == Decide(Recent(s, limit, t), limit, t)
  }

  /** A cleanup changes no later decision, for any stamps, maximum and times, exactly when the checked window is
      no longer than the cleanup's. */
  lemma CleanupUnseenIff(w: int, d: int)
    ensures w <= d <==> forall s, max, c, t :: c <= t ==> CleanupUnseen(s, max, w, d, c, t)
  {
    if w <= d {
      forall s, max, c, t | c <= t ensures CleanupUnseen(s, max, w, d, c, t) {
        PruneTwice(s, c - d as real, t - w as real);
      }
    } else {
      // one stamp at 0, still in the window of a check at time w, but already cleaned up
      OneStampForgotten(w, d);
    }
  }

  lemma OneStampForgotten(w: int, d: int)
    requires d < w
    ensures !CleanupUnseen([0.0], 1, w, d, w as real, w as real)
  {
    assert Prune([0.0], w as real - d as real) == [];
    assert Prune([0.0], 0.0) == [0.0];
  }

  /** Saving, restarting and loading, with the cleanup loading does, change no later check or remaining answer. */
  lemma RestartTransparent(defaults: Limits, q: Quotas, clock: Key -> real, k: Key, limit: Option<RateLimit>,
                           now: real, later: real)
    requires clock(k) <= now
    requires limit.Some? && k.1 in defaults ==> limit.value.windowSeconds <= defaults[k.1].windowSeconds
    ensures var loaded := Load(defaults, Save(q), clock);
            && Check(defaults, loaded, k, limit, now, later).0 == Check(defaults, q, k, limit, now, later).0
            && Remaining(defaults, loaded, k, now) == Remaining(defaults, q, k, now)
  {
    hide Prune, Save, Restore, Cleanup;
    SaveRestore(q);
    CleanupAt(defaults, q, clock, k);
    if k.1 in defaults {
      var early := clock(k) - defaults[k.1].windowSeconds as real;
      PruneTwice(At(q, k), early, now - defaults[k.1].windowSeconds as real);
      if limit.Some? {
        PruneTwice(At(q, k), early, now - limit.value.windowSeconds as real);
      }
    }
  }

  /** The run's limits have windows no longer than the ones cleanup uses. */
  ghost predicate WindowsFit(defaults: Limits, limits: Limits) {
    forall action :: action in limits && action in defaults ==>
        limits[action].windowSeconds <= defaults[action].windowSeconds
  }

  /** A run `v` and the same run without its sweeps, `x`, on one key: both admitted the same and both quotas say what
      that is, and they agree on what lies in `span`. */
  ghost predicate Together(limit: RateLimit, span: int, v: View, x: View, t: real) {
    && v.h == x.h
    && ViewFaithful(limit.windowSeconds, v, t) && ViewFaithful(limit.windowSeconds, x, t)
    && Alike(span, v.s, x.s, t)
  }

  /** The span lies between the limit's window and the default one. */
  predicate Spans(defaults: Limits, limit: RateLimit, k: Key, span: int) {
    limit.windowSeconds <= span && (k.1 in defaults ==> span <= defaults[k.1].windowSeconds)
  }

  /** The same operation on both admits alike and keeps them together, whichever side's periodic cleanup fires. */
  lemma KeyStepTogether(defaults: Limits, limit: RateLimit, k: Key, span: int, v: View, x: View, op: Op, v': View,
                        x': View, t: real, t': real)
    requires KeyStep(defaults, limit, k, v, op, v') && KeyStep(defaults, limit, k, x, op, x') && !IsSweep(op)
    requires Spans(defaults, limit, k, span)
    requires Together(limit, span, v, x, t) && t <= t' && Timed(op, t, t')
    ensures Together(limit, span, v', x', t')
  {
    hide Prune, Alike, CleanedStamps, Recent, Faithful;
    AlikeLater(span, v.s, x.s, t, t');
    StepFaithful(defaults, limit, k, v, op, v', t, t');
    StepFaithful(defaults, limit, k, x, op, x', t, t');
    FaithfulRecent(limit, v.h, v.s, t, op.now);
    FaithfulRecent(limit, x.h, x.s, t, op.now);
    var recent := Recent(x.s, limit, op.now);
    AlikeSame(span, recent, t');
    match op {
      case CheckAndRecord(o, now, at, clock) =>
        var y := if o != k then x.s else if |recent| < limit.maxRequests then recent + [at] else recent;
        AlikeSame(span, y, t');
        CleanedBoth(defaults, k.1, span, if o != k then v.s else y, y, clock(k), t');
      case CheckOnly(o, now) =>
      case GetRemaining(o, now) => CleanedBoth(defaults, k.1, span, v.s, x.s, now, t');
    }
  }

  lemma CleanedBoth(defaults: Limits, action: string, span: int, s: Stamps, u: Stamps, c: real, t: real)
    requires Alike(span, s, u, t) && c <= t
    requires action in defaults ==> span <= defaults[action].windowSeconds
    ensures var s', u' := CleanedStamps(defaults, action, s, c), CleanedStamps(defaults, action, u, c);
            Alike(span, s', u, t) && Alike(span, s, u', t) && Alike(span, s', u', t)
  {
    hide Alike, CleanedStamps;
    AlikeCleaned(defaults, action, span, s, u, c, t);
    AlikeCleaned(defaults, action, span, CleanedStamps(defaults, action, s, c), u, c, t);
  }

  predicate IsSweep(op: Op) { op.CleanupAll? || op.SaveNow? || op.Restart? }

  /** The run without its saves, restarts and explicit cleanups. */
  function WithoutSweeps(ops: seq<Op>): seq<Op> {
    if ops == [] then []
    else
      var before, last := WithoutSweeps(ops[..|ops| - 1]), ops[|ops| - 1];
      if IsSweep(last) then before else before + [last]
  }

  /** A restart that reads a file on which the key's quota is as it is now. */
  predicate Unmoved(v: View, op: Op) {
    op.Restart? ==> op.loaded && v.savedS == v.s
  }

  ghost predicate RestartsUnmoved(defaults: Limits, limits: Limits, st: State, ops: seq<Op>, k: Key) {
    forall i :: 0 <= i < |ops| ==> Unmoved(ViewOf(Run(defaults, limits, st, ops[..i]), k), ops[i])
  }

  lemma UnmovedInit(defaults: Limits, limits: Limits, st: State, ops: seq<Op>, k: Key)
    requires ops != [] && RestartsUnmoved(defaults, limits, st, ops, k)
    ensures RestartsUnmoved(defaults, limits, st, ops[..|ops| - 1], k)
    ensures Unmoved(ViewOf(Run(defaults, limits, st, ops[..|ops| - 1]), k), ops[|ops| - 1])
  {
    hide Unmoved, Run;
    var init := ops[..|ops| - 1];
    forall i | 0 <= i < |init| ensures Unmoved(ViewOf(Run(defaults, limits, st, init[..i]), k), init[i]) {
      assert init[..i] == ops[..i];
    }
  }

  lemma SweepTogether(defaults: Limits, limit: RateLimit, k: Key, span: int, v: View, x: View, op: Op, v': View,
                      t: real, t': real)
    requires IsSweep(op) && KeyStep(defaults, limit, k, v, op, v')
    requires Spans(defaults, limit, k, span) && Current(limit.windowSeconds, v, op, k)
    requires span == limit.windowSeconds || Unmoved(v, op)
    requires Together(limit, span, v, x, t) && t <= t' && Timed(op, t, t')
    ensures Together(limit, span, v', x, t')
  {
    hide Alike, CleanedStamps, Sorted, Current;
    AlikeLater(span, v.s, x.s, t, t');
    StepFaithful(defaults, limit, k, v, op, v', t, t');
    FaithfulLater(limit.windowSeconds, x.h, x.s, t, t');
    FaithfulLater(limit.windowSeconds, x.savedH, x.savedS, t, t');
    match op {
      case CleanupAll(clock) => AlikeCleaned(defaults, k.1, span, v.s, x.s, clock(k), t');
      case SaveNow(written) =>
      case Restart(loaded, clock) =>
        if span == limit.windowSeconds {
          AlikeBoth(span, v'.s, x.s, x.h, t');
        } else {
          AlikeCleaned(defaults, k.1, span, v.s, x.s, clock(k), t');
        }
    }
  }

  /** With and without its sweeps, a run admits the same requests of a key and leaves alike quotas. */
  lemma {:induction false} SweepsUnseen(defaults: Limits, limits: Limits, st: State, ops: seq<Op>, ticks: seq<real>,
                                        k: Key, limit: RateLimit, span: int)
    requires Clocked(ops, ticks) && TicksRise(ticks) && Governs(defaults, limits, k, limit)
    requires Spans(defaults, limit, k, span)
    requires RestartsCurrent(defaults, limits, st, ops, k, limit.windowSeconds)
    requires span == limit.windowSeconds || RestartsUnmoved(defaults, limits, st, ops, k)
    requires Together(limit, span, ViewOf(st, k), ViewOf(st, k), ticks[0])
    ensures Together(limit, span, ViewOf(Run(defaults, limits, st, ops), k),
                     ViewOf(Run(defaults, limits, st, WithoutSweeps(ops)), k), ticks[|ops|])
  {
    hide Step, Timed, Governs, KeyStep, ViewOf, Together, Current, RestartsCurrent, Unmoved, RestartsUnmoved, Spans;
    if ops != [] {
      var n := |ops| - 1;
      ClockedInit(ops, ticks);
      CurrentInit(defaults, limits, st, ops, k, limit.windowSeconds);
      if span != limit.windowSeconds {
        UnmovedInit(defaults, limits, st, ops, k);
      }
      SweepsUnseen(defaults, limits, st, ops[..n], ticks[..|ops|], k, limit, span);
      var a, b := Run(defaults, limits, st, ops[..n]), Run(defaults, limits, st, WithoutSweeps(ops[..n]));
      var a' := Run(defaults, limits, st, ops);
      StepAt(defaults, limits, a, ops[n], k, limit);
      if IsSweep(ops[n]) {
        SweepTogether(defaults, limit, k, span, ViewOf(a, k), ViewOf(b, k), ops[n], ViewOf(a', k), ticks[n],
            ticks[n + 1]);
      } else {
        StepAt(defaults, limits, b, ops[n], k, limit);
        RunSnoc(defaults, limits, st, WithoutSweeps(ops[..n]), ops[n]);
        var b' := Run(defaults, limits, st, WithoutSweeps(ops));
        KeyStepTogether(defaults, limit, k, span, ViewOf(a, k), ViewOf(b, k), ops[n], ViewOf(a', k), ViewOf(b', k),
                        ticks[n], ticks[n + 1]);
      }
    }
  }

  /** The caller's limit looks at less than the default window, which the question for the remaining number uses. */
  predicate ShorterWindow(defaults: Limits, limits: Limits, action: string) {
    action in limits && action in defaults && limits[action].windowSeconds < defaults[action].windowSeconds
  }

  /** Saves, restarts and cleanups change no later answer: with all of them left out, a run from any state whose quotas
      and file say of the key's window what was admitted admits exactly the same requests and answers every later check
      alike, while windows are no longer than the defaults and no restart forgets a request still in the window. So
      does every later question for the remaining number, unless the caller's window is shorter than the default one
      and a check has pruned the quota between a save and its restart. */
  lemma RestartsUnseen(defaults: Limits, limits: Limits, st: State, ops: seq<Op>, ticks: seq<real>, k: Key,
                       now: real, later: real)
    requires Clocked(ops, ticks) && TicksRise(ticks) && WindowsFit(defaults, limits) && ticks[|ops|] <= now
    requires var effective := EffectiveLimit(defaults, k.1, FixedLimit(limits, k));
             effective.Some? ==>
               && ViewFaithful(effective.value.windowSeconds, ViewOf(st, k), ticks[0])
               && RestartsCurrent(defaults, limits, st, ops, k, effective.value.windowSeconds)
    ensures var a, b := Run(defaults, limits, st, ops), Run(defaults, limits, st, WithoutSweeps(ops));
            && Check(defaults, a.quotas, k, FixedLimit(limits, k), now, later).0
               == Check(defaults, b.quotas, k, FixedLimit(limits, k), now, later).0
            && (EffectiveLimit(defaults, k.1, FixedLimit(limits, k)).Some? ==> At(a.history, k) == At(b.history, k))
            && (!ShorterWindow(defaults, limits, k.1) || RestartsUnmoved(defaults, limits, st, ops, k) ==>
                  Remaining(defaults, a.quotas, k, now) == Remaining(defaults, b.quotas, k, now))
  {
    hide Run, Recent, Timed, Alike, RestartsCurrent, RestartsUnmoved, Faithful, Check, Remaining, At;
    var effective := EffectiveLimit(defaults, k.1, FixedLimit(limits, k));
    if effective.Some? {
      var limit := effective.value;
      var unmoved := k.1 in defaults && RestartsUnmoved(defaults, limits, st, ops, k);
      var span := if unmoved then defaults[k.1].windowSeconds else limit.windowSeconds;
      AlikeSame(span, At(st.quotas, k), ticks[0]);
      SweepsUnseen(defaults, limits, st, ops, ticks, k, limit, span);
      var a, b := Run(defaults, limits, st, ops), Run(defaults, limits, st, WithoutSweeps(ops));
      var s, u := At(a.quotas, k), At(b.quotas, k);
      AlikeRecent(span, s, u, limit, ticks[|ops|], now);
      SameCheck(defaults, a.quotas, b.quotas, k, FixedLimit(limits, k), limit, now, later);
      if k.1 in defaults && defaults[k.1].windowSeconds <= span {
        AlikeRecent(span, s, u, defaults[k.1], ticks[|ops|], now);
        SameRemaining(defaults, a.quotas, b.quotas, k, now);
      }
    }
    NoLimitNoAnswer(defaults, k, FixedLimit(limits, k), now, later);
  }

  lemma SameCheck(defaults: Limits, q: Quotas, r: Quotas, k: Key, limit: Option<RateLimit>, effective: RateLimit,
                  now: real, later: real)
    requires EffectiveLimit(defaults, k.1, limit) == Some(effective)
    requires Recent(At(q, k), effective, now) == Recent(At(r, k), effective, now)
    ensures Check(defaults, q, k, limit, now, later).0 == Check(defaults, r, k, limit, now, later).0
  {
    hide Recent, At;
  }

  lemma SameRemaining(defaults: Limits, q: Quotas, r: Quotas, k: Key, now: real)
    requires k.1 in defaults ==> Recent(At(q, k), defaults[k.1], now) == Recent(At(r, k), defaults[k.1], now)
    ensures Remaining(defaults, q, k, now) == Remaining(defaults, r, k, now)
  {
    hide Recent, At;
  }

  lemma NoLimitNoAnswer(defaults: Limits, k: Key, limit: Option<RateLimit>, now: real, later: real)
    ensures forall q :: EffectiveLimit(defaults, k.1, limit) == None ==>
            Check(defaults, q, k, limit, now, later).0 == Allowed
    ensures forall q :: k.1 !in defaults ==> Remaining(defaults, q, k, now) == -1
  {
  }

  /** The run that needs the last condition: a request, a save, a check at the end of the default window, a restart. */
  function CheckedRestartRun(d: nat): seq<Op> {
    var k: Key, t := (0, "a"), d as real;
    [CheckAndRecord(k, 0.0, 0.0, (k': Key) => 0.0), SaveNow(true), CheckOnly(k, t), Restart(true, (k': Key) => t)]
  }

  /** Whenever the caller's window is shorter than the default one, the remaining number can answer differently: the
      check has pruned the request and the restart brings it back. */
  lemma CheckedRestartSeen(w: nat, d: nat)
    requires w < d
    ensures var defaults: Limits, limits: Limits := map["a" := RateLimit(2, d)], map["a" := RateLimit(2, w)];
            var ops, k: Key, t := CheckedRestartRun(d), (0, "a"), d as real;
            && Clocked(ops, [0.0, 0.0, 0.0, t, t]) && RestartsCurrent(defaults, limits, EMPTY, ops, k, w)
            && Remaining(defaults, Run(defaults, limits, EMPTY, ops).quotas, k, t) == 1
            && Remaining(defaults, Run(defaults, limits, EMPTY, WithoutSweeps(ops)).quotas, k, t) == 2
  {
    hide Step, ViewOf, Run, Clocked, RestartsCurrent, WithoutSweeps, Remaining;
    var defaults: Limits, limits: Limits := map["a" := RateLimit(2, d)], map["a" := RateLimit(2, w)];
    var ops, k: Key, t := CheckedRestartRun(d), (0, "a"), d as real;
    var st3, st4, st2 := CheckedRestartViews(w, d, defaults, limits);
    RunThree(defaults, limits, EMPTY, ops[0], ops[1], ops[2]);
    assert ops[..3] == [ops[0], ops[1], ops[2]] && ops[..3] + [ops[3]] == ops;
    RunSnoc(defaults, limits, EMPTY, ops[..3], ops[3]);
    assert ops == [ops[0], ops[1], ops[2], ops[3]];
    FourSwept(defaults, limits, EMPTY, ops[0], ops[1], ops[2], ops[3]);
    RemainingSeen(defaults, st4, k, d);
    RemainingSeen(defaults, st2, k, d);
    LastCurrent(defaults, limits, ops, k, w);
    CheckedRestartClocked(d);
  }

  lemma CheckedRestartClocked(d: nat)
    ensures Clocked(CheckedRestartRun(d), [0.0, 0.0, 0.0, d as real, d as real])
  {
  }

  lemma RemainingSeen(defaults: Limits, st: State, k: Key, d: nat)
    requires k.1 in defaults && defaults[k.1] == RateLimit(2, d)
    requires ViewOf(st, k).s == [] || ViewOf(st, k).s == [] + [0.0]
    ensures Remaining(defaults, st.quotas, k, d as real) == 2 - |ViewOf(st, k).s|
  {
    OneStamp(0.0);
  }

  lemma LastCurrent(defaults: Limits, limits: Limits, ops: seq<Op>, k: Key, window: int)
    requires |ops| == 4 && !ops[0].Restart? && !ops[1].Restart? && !ops[2].Restart?
    requires Current(window, ViewOf(Run(defaults, limits, EMPTY, ops[..3]), k), ops[3], k)
    ensures RestartsCurrent(defaults, limits, EMPTY, ops, k, window)
  {
    hide Run, ViewOf;
  }

  /** The states of that run: after the check, after the restart, and after the check without the save. */
  lemma CheckedRestartViews(w: nat, d: nat, defaults: Limits, limits: Limits) returns (st3: State, st4: State,
      st2: State)
    requires w < d && defaults == map["a" := RateLimit(2, d)] && limits == map["a" := RateLimit(2, w)]
    ensures var ops, k: Key := CheckedRestartRun(d), (0, "a");
            var st1 := Step(defaults, limits, EMPTY, ops[0]);
            && st3 == Step(defaults, limits, Step(defaults, limits, st1, ops[1]), ops[2])
            && st4 == Step(defaults, limits, st3, ops[3])
            && st2 == Step(defaults, limits, st1, ops[2])
            && ViewOf(st3, k).h == ViewOf(st3, k).savedH
            && ViewOf(st4, k).s == [] + [0.0] && ViewOf(st2, k).s == []
  {
    hide Step, ViewOf, Prune;
    var ops, k: Key, limit := CheckedRestartRun(d), (0, "a"), RateLimit(2, w);
    var st1 := Step(defaults, limits, EMPTY, ops[0]);
    var saved := Step(defaults, limits, st1, ops[1]);
    st3 := Step(defaults, limits, saved, ops[2]);
    st4 := Step(defaults, limits, st3, ops[3]);
    st2 := Step(defaults, limits, st1, ops[2]);
    FirstRequest(defaults, limits, ops[0], k, limit);
    SavedView(defaults, limits, st1, k, limit);
    CheckedView(defaults, limits, saved, k, limit, d as real);
    CheckedView(defaults, limits, st1, k, limit, d as real);
    RestartedView(defaults, limits, st3, ops[3], k, limit);
    OneStamp(0.0);
  }

  lemma CleanedView(defaults: Limits, limits: Limits, st: State, op: Op, k: Key, limit: RateLimit)
    requires Governs(defaults, limits, k, limit) && op.CleanupAll?
    ensures var v := ViewOf(st, k);
            ViewOf(Step(defaults, limits, st, op), k) == v.(s := CleanedStamps(defaults, k.1, v.s, op.clock(k)))
  {
    hide Step, ViewOf, Governs;
    StepAt(defaults, limits, st, op, k, limit);
  }

  lemma SavedView(defaults: Limits, limits: Limits, st: State, k: Key, limit: RateLimit)
    requires Governs(defaults, limits, k, limit)
    ensures var v := ViewOf(st, k);
            ViewOf(Step(defaults, limits, st, SaveNow(true)), k) == v.(savedH := v.h, savedS := v.s)
  {
    hide Step, ViewOf, Governs;
    StepAt(defaults, limits, st, SaveNow(true), k, limit);
  }

  lemma CheckedView(defaults: Limits, limits: Limits, st: State, k: Key, limit: RateLimit, t: real)
    requires Governs(defaults, limits, k, limit) && t > limit.windowSeconds as real
    requires ViewOf(st, k).s == [] + [0.0]
    ensures ViewOf(Step(defaults, limits, st, CheckOnly(k, t)), k) == ViewOf(st, k).(s := [])
  {
    hide Step, ViewOf, Governs;
    StepAt(defaults, limits, st, CheckOnly(k, t), k, limit);
    OneStamp(t - limit.windowSeconds as real);
  }

  lemma RestartedView(defaults: Limits, limits: Limits, st: State, op: Op, k: Key, limit: RateLimit)
    requires Governs(defaults, limits, k, limit) && op.Restart?
    ensures var v := ViewOf(st, k);
            ViewOf(Step(defaults, limits, st, op), k)
            == v.(s := CleanedStamps(defaults, k.1, if op.loaded then v.savedS else [], op.clock(k)))
  {
    hide Step, ViewOf, Governs;
    StepAt(defaults, limits, st, op, k, limit);
  }

  lemma FourSwept(defaults: Limits, limits: Limits, st: State, a: Op, b: Op, c: Op, d: Op)
    requires !IsSweep(a) && IsSweep(b) && !IsSweep(c) && IsSweep(d)
    ensures Run(defaults, limits, st, WithoutSweeps([a, b, c, d]))
            == Step(defaults, limits, Step(defaults, limits, st, a), c)
  {
    hide Step, Run;
    assert [a, b, c, d][..3] == [a, b, c];
    WithoutMiddle(defaults, limits, st, a, b, c);
  }

  // ----- the remaining number -----

  /** What the remaining number means: under the default limit, of any number of check_and_record calls made at once
      exactly that many are admitted, whatever the quota holds. It is -1 exactly where no limit applies, and 0 exactly
      where the check would be refused. */
  lemma RemainingMeaning(defaults: Limits, limits: Limits, st: State, k: Key, now: real, m: nat)
    requires k.1 !in limits && (k.1 in defaults ==> defaults[k.1].windowSeconds >= 0)
    ensures var n := Remaining(defaults, st.quotas, k, now);
            && (n == -1 <==> k.1 !in defaults) && n >= -1
            && (n == 0 <==> Check(defaults, st.quotas, k, FixedLimit(limits, k), now, now).0 != Allowed)
            && (n >= 0 ==>
                  At(Run(defaults, limits, st, Calls(k, now, m)).history, k)
                  == At(st.history, k) + Copies(now, if m < n then m else n))
  {
    hide Prune, Run, Calls, Copies, At;
    if k.1 in defaults {
      RoomUsed(defaults, limits, st, k, now, m);
    }
  }

  /** The number of calls the quota has room for. */
  function Room(limit: RateLimit, s: Stamps, now: real): nat {
    if |Recent(s, limit, now)| < limit.maxRequests then limit.maxRequests - |Recent(s, limit, now)| else 0
  }

  lemma {:induction false} RoomUsed(defaults: Limits, limits: Limits, st: State, k: Key, now: real, m: nat)
    requires k.1 !in limits && k.1 in defaults && defaults[k.1].windowSeconds >= 0
    ensures var limit, st' := defaults[k.1], Run(defaults, limits, st, Calls(k, now, m));
            var room := Room(limit, At(st.quotas, k), now);
            var used := if m < room then m else room;
            && At(st'.history, k) == At(st.history, k) + Copies(now, used)
            && Room(limit, At(st'.quotas, k), now) == room - used
  {
    hide Step, At, Room, Run, Copies;
    AddCopies(At(st.history, k), now, 0);
    if m == 0 {
      RunNothing(defaults, limits, st);
    } else {
      RoomUsed(defaults, limits, st, k, now, m - 1);
      var before := Calls(k, now, m - 1);
      var mid := Run(defaults, limits, st, before);
      RunSnoc(defaults, limits, st, before, CheckAndRecord(k, now, now, (k': Key) => now));
      OneCall(defaults, limits, mid, k, now);
      AddCopies(At(st.history, k), now, m);
    }
  }

  /** A call takes one place if there is one. */
  lemma OneCall(defaults: Limits, limits: Limits, st: State, k: Key, now: real)
    requires k.1 !in limits && k.1 in defaults && defaults[k.1].windowSeconds >= 0
    ensures var limit, st' := defaults[k.1], Step(defaults, limits, st, CheckAndRecord(k, now, now, (k': Key) => now));
            var room := Room(limit, At(st.quotas, k), now);
            if room > 0 then
              At(st'.history, k) == At(st.history, k) + [now] && Room(limit, At(st'.quotas, k), now) == room - 1
            else At(st'.history, k) == At(st.history, k) && Room(limit, At(st'.quotas, k), now) == 0
  {
    hide Step, At, Prune;
    var limit, s := defaults[k.1], At(st.quotas, k);
    var cutoff := now - limit.windowSeconds as real;
    StepAt(defaults, limits, st, CheckAndRecord(k, now, now, (k': Key) => now), k, limit);
    PruneTwice(s, cutoff, cutoff);
    PruneAppended(Recent(s, limit, now), now, cutoff);
    PruneHead([now], cutoff);
    PruneTwice(Recent(s, limit, now) + [now], cutoff, cutoff);
  }

  // ----- the advertised wait -----

  /** check_limit's answer, exactly: allowed while there is room; refused with the whole seconds until the oldest stamp
      in the window leaves it; and without an answer where nothing is in the window and nothing is allowed. */
  lemma DecisionExact(s: Stamps, limit: RateLimit, now: real, later: real)
    requires now <= later
    ensures var recent, decision := Recent(s, limit, now), Decide(Recent(s, limit, now), limit, later);
            && (decision == Allowed <==> |recent| < limit.maxRequests)
            && (decision == NoStamp <==> recent == [] && limit.maxRequests <= 0)
            && (decision.Refused? ==>
                  var left := recent[0] + limit.windowSeconds as real - later;
                  if left >= 0.0 then decision.wait as real <= left < decision.wait as real + 1.0
                  else decision.wait as real - 1.0 < left <= decision.wait as real <= 0.0)
  {
    hide Prune;
  }

  /** The wait a refusal advertises is a number of whole seconds during which every check is refused again. */
  lemma WaitRefused(s: Stamps, limit: RateLimit, now: real, t: real)
    requires Decide(Recent(s, limit, now), limit, now).Refused?
    ensures var wait := Decide(Recent(s, limit, now), limit, now).wait;
            && wait >= 0
            && (now <= t <= now + wait as real ==>
                  Recent(s, limit, t) == Recent(s, limit, now) && Decide(Recent(s, limit, t), limit, t).Refused?)
  {
    hide Prune;
    var w := limit.windowSeconds as real;
    var n := PruneDrops(s, now - w);
    if t >= now {
      PruneTwice(s, now - w, t - w);
      PruneHead(Recent(s, limit, now), t - w);
    }
  }

  /** When a later check is admitted, exactly: when every stamp up to the one that leaves just room for a request has
      left the window. Before a maximum of one, never. */
  lemma AdmittedIff(s: Stamps, limit: RateLimit, now: real, t: real)
    requires now <= t
    ensures var recent, w := Recent(s, limit, now), limit.windowSeconds as real;
            Decide(Recent(s, limit, t), limit, t) == Allowed <==>
            limit.maxRequests >= 1 && forall i :: 0 <= i <= |recent| - limit.maxRequests ==> t > recent[i] + w
  {
    hide Prune;
    var recent, w := Recent(s, limit, now), limit.windowSeconds as real;
    PruneTwice(s, now - w, t - w);
    var n := PruneDrops(recent, t - w);
    assert |Recent(s, limit, t)| == |recent| - n;
  }

  /** The stamp whose expiry makes room: with stamps in order it alone decides. */
  function Gate(recent: Stamps, limit: RateLimit): real
    requires 1 <= limit.maxRequests <= |recent|
  {
    recent[|recent| - limit.maxRequests]
  }

  lemma AdmittedAfterGate(s: Stamps, limit: RateLimit, now: real, t: real)
    requires Sorted(Recent(s, limit, now)) && limit.maxRequests >= 1 && now <= t
    requires Decide(Recent(s, limit, now), limit, now).Refused?
    ensures Decide(Recent(s, limit, t), limit, t) == Allowed <==>
            t > Gate(Recent(s, limit, now), limit) + limit.windowSeconds as real
  {
    hide Recent;
    AdmittedIff(s, limit, now, t);
    var recent := Recent(s, limit, now);
    forall i | 0 <= i <= |recent| - limit.maxRequests ensures recent[i] <= Gate(recent, limit) {
      SortedAt(recent, i, |recent| - limit.maxRequests);
    }
  }

  /** The advertised wait is tight to one second, that is, every check more than a second beyond it is admitted,
      exactly when the gate's stamp leaves the window within that second. */
  lemma WaitTightIff(s: Stamps, limit: RateLimit, now: real)
    requires Sorted(Recent(s, limit, now)) && limit.maxRequests >= 1
    requires Decide(Recent(s, limit, now), limit, now).Refused?
    ensures var wait := Decide(Recent(s, limit, now), limit, now).wait;
            (forall t :: t >= now + wait as real + 1.0 ==> Decide(Recent(s, limit, t), limit, t) == Allowed)
            <==> Gate(Recent(s, limit, now), limit) + limit.windowSeconds as real < now + wait as real + 1.0
  {
    hide Recent, Decide, Gate;
    var wait := Decide(Recent(s, limit, now), limit, now).wait;
    RefusedFull(s, limit, now);
    WaitRefused(s, limit, now, now);
    forall t | t >= now
      ensures Decide(Recent(s, limit, t), limit, t) == Allowed <==>
              t > Gate(Recent(s, limit, now), limit) + limit.windowSeconds as real
    {
      AdmittedAfterGate(s, limit, now, t);
    }
    assert Decide(Recent(s, limit, now + wait as real + 1.0), limit, now + wait as real + 1.0) == Allowed <==>
           now + wait as real + 1.0 > Gate(Recent(s, limit, now), limit) + limit.windowSeconds as real;
  }

  lemma RefusedFull(s: Stamps, limit: RateLimit, now: real)
    requires Decide(Recent(s, limit, now), limit, now).Refused?
    ensures |Recent(s, limit, now)| >= limit.maxRequests
  {
  }

  /** With just the maximum in the window it is always tight: the gate is the oldest stamp. */
  lemma WaitTight(s: Stamps, limit: RateLimit, now: real, t: real)
    requires Decide(Recent(s, limit, now), limit, now).Refused? && |Recent(s, limit, now)| == limit.maxRequests
    ensures var wait := Decide(Recent(s, limit, now), limit, now).wait;
            t >= now + wait as real + 1.0 ==> Decide(Recent(s, limit, t), limit, t) == Allowed
  {
    hide Prune;
    WaitRefused(s, limit, now, t);
    if t >= now {
      AdmittedIff(s, limit, now, t);
    }
  }

  /** Above the maximum, after the limit was lowered, it can be too short: here the check a second beyond the wait,
      and every check until the second stamp leaves the window, is refused. */
  lemma WaitTooShort(w: int, gap: real)
    requires 1.0 < gap <= w as real
    ensures var s, limit, now := [0.0, gap], RateLimit(1, w), gap;
            var wait := Decide(Recent(s, limit, now), limit, now).wait;
            && Decide(Recent(s, limit, now), limit, now).Refused?
            && now + wait as real + 1.0 <= gap + w as real
            && forall t :: now <= t <= gap + w as real ==> Decide(Recent(s, limit, t), limit, t) != Allowed
  {
    var s, limit, now := [0.0, gap], RateLimit(1, w), gap;
    assert Recent(s, limit, now) == s;
    forall t | now <= t <= gap + w as real ensures Decide(Recent(s, limit, t), limit, t) != Allowed {
      AdmittedIff(s, limit, now, t);
      assert Recent(s, limit, now)[1] == gap && 1 <= |Recent(s, limit, now)| - limit.maxRequests;
    }
  }

  lemma PruneHead(s: Stamps, cutoff: real)
    ensures s == [] || s[0] >= cutoff ==> Prune(s, cutoff) == s
    ensures s != [] && s[0] < cutoff ==> |Prune(s, cutoff)| < |s|
    ensures |s| > 1 && s[1] >= cutoff ==> |Prune(s, cutoff)| >= |s| - 1
  {
    if s != [] && s[0] < cutoff {
      var n := PruneDrops(s[1..], cutoff);
    }
  }

  // ----- the Redis form -----

  /** zremrangebyscore(-inf, cutoff): the cutoff itself goes too. */
  function RedisPrune(s: Stamps, cutoff: real): Stamps {
    if s != [] && s[0] <= cutoff then RedisPrune(s[1..], cutoff) else s
  }

  function RedisWindow(limit: RateLimit): int {
    if limit.windowSeconds > 1 then limit.windowSeconds else 1
  }

  function RedisRecent(s: Stamps, limit: RateLimit, now: real): Stamps {
    RedisPrune(s, now - RedisWindow(limit) as real)
  }

  predicate RedisAllows(s: Stamps, limit: RateLimit, now: real) {
    |RedisRecent(s, limit, now)| < limit.maxRequests
  }

  /** How many stamps of `h` lie strictly between lo and hi. */
  function CountBetween(h: Stamps, lo: real, hi: real): nat {
    if h == [] then 0
    else (if lo < h[0] < hi then 1 else 0) + CountBetween(h[1..], lo, hi)
  }

  /** On the same history and clock reading, how the two forms differ, for every limit. With a window of a second or
      more Redis leaves out the stamps exactly at the cutoff; with a shorter one, which Redis takes for a second, it
      counts those of that second too. The decisions differ exactly when these stamps make up the difference. */
  lemma FormsAgree(s: Stamps, limit: RateLimit, now: real)
    requires Sorted(s)
    ensures var deque, redis, cutoff :=
            Recent(s, limit, now), RedisRecent(s, limit, now), now - limit.windowSeconds as real;
            var allowed := Decide(deque, limit, now) == Allowed;
            if limit.windowSeconds >= 1 then
              && |deque| == |redis| + CountIn(s, cutoff, cutoff)
              && (allowed ==> RedisAllows(s, limit, now))
              && (allowed != RedisAllows(s, limit, now) <==>
                  |redis| < limit.maxRequests <= |redis| + CountIn(s, cutoff, cutoff))
            else
              && |redis| == |deque| + CountBetween(s, now - 1.0, cutoff)
              && (RedisAllows(s, limit, now) ==> allowed)
              && (allowed != RedisAllows(s, limit, now) <==>
                  |deque| < limit.maxRequests <= |deque| + CountBetween(s, now - 1.0, cutoff))
  {
    hide Prune, RedisPrune, CountIn, CountBetween;
    if limit.windowSeconds >= 1 {
      PruneDifference(s, now - limit.windowSeconds as real);
    } else {
      PruneGap(s, now - 1.0, now - limit.windowSeconds as real);
    }
  }

  lemma {:induction false} PruneGap(s: Stamps, lo: real, hi: real)
    requires Sorted(s) && lo < hi
    ensures |RedisPrune(s, lo)| == |Prune(s, hi)| + CountBetween(s, lo, hi)
  {
    if s != [] {
      PruneGap(s[1..], lo, hi);
      if s[0] > lo {
        RedisPruneHead(s, lo);
        if |s| > 1 { RedisPruneHead(s[1..], lo); }
      }
      if s[0] >= hi {
        PruneHead(s, hi);
        PruneHead(s[1..], hi);
      }
    }
  }

  lemma {:induction false} PruneDifference(s: Stamps, cutoff: real)
    requires Sorted(s)
    ensures |Prune(s, cutoff)| == |RedisPrune(s, cutoff)| + CountIn(s, cutoff, cutoff)
  {
    if s != [] {
      PruneDifference(s[1..], cutoff);
      if s[0] >= cutoff {
        PruneHead(s[1..], cutoff);
        PruneHead(s, cutoff);
      }
      if s[0] > cutoff {
        RedisPruneHead(s[1..], cutoff);
        RedisPruneHead(s, cutoff);
      }
    }
  }

  lemma RedisPruneHead(s: Stamps, cutoff: real)
    requires s == [] || s[0] > cutoff
    ensures RedisPrune(s, cutoff) == s
  {
  }

  // ----- Redis runs -----

  /** A Redis key: its scores in order and the time it expires, if it has one. */
  datatype RedisKey = RedisKey(stamps: Stamps, expiresAt: Option<real>)

  function Live(r: RedisKey, t: real): RedisKey {
    if r.expiresAt.Some? && t >= r.expiresAt.value then RedisKey([], None) else r
  }

  /** The expiry record sets, from the action's default limit. */
  function TimeToLive(default: RateLimit): int {
    if default.windowSeconds * 2 > 120 then default.windowSeconds * 2 else 120
  }

  /** Trims the key to the limit's window; an emptied key is gone, expiry and all. */
  function RedisTrim(limit: RateLimit, r: RedisKey, now: real): RedisKey {
    var live := Live(r, now);
    var recent := RedisRecent(live.stamps, limit, now);
    RedisKey(recent, if recent == [] then None else live.expiresAt)
  }

  /** check_limit on Redis: trims the key and counts. */
  function RedisCheck(limit: RateLimit, r: RedisKey, now: real): (bool, RedisKey) {
    var trimmed := RedisTrim(limit, r, now);
    (|trimmed.stamps| < limit.maxRequests, trimmed)
  }

  /** get_remaining on Redis trims the same key, to the window of the action's default limit. */
  function RedisRemaining(default: Option<RateLimit>, r: RedisKey, now: real): (int, RedisKey) {
    if default.None? then (-1, r)
    else
      var trimmed := RedisTrim(default.value, r, now);
      (if default.value.maxRequests > |trimmed.stamps| then default.value.maxRequests - |trimmed.stamps| else 0,
          trimmed)
  }

  /** record_request on Redis. */
  function RedisRecord(default: Option<RateLimit>, r: RedisKey, at: real): RedisKey {
    var live := Live(r, at);
    RedisKey(live.stamps + [at], if default.Some? then Some(at + TimeToLive(default.value) as real) else live.expiresAt)
  }

  /** The same invariant as for the deque, with a half-open window, and nothing expires that could still count. */
  ghost predicate RedisInvariant(h: Stamps, r: RedisKey, limit: RateLimit, t: real) {
    var w := RedisWindow(limit) as real;
    && |r.stamps| <= |h| && r.stamps == h[|h| - |r.stamps|..]
    && (forall i :: 0 <= i < |h| ==> h[i] <= t)
    && (forall i :: 0 <= i < |h| - |r.stamps| ==> h[i] <= t - w)
    && (r.expiresAt.Some? ==> forall i :: 0 <= i < |h| ==> h[i] <= r.expiresAt.value - w)
    && HalfOpenBounded(h, limit)
  }

  /** No half-open window holds more stamps than allowed. */
  ghost predicate HalfOpenBounded(h: Stamps, limit: RateLimit) {
    forall i, j :: 0 <= i <= j < |h| && h[j] - h[i] < RedisWindow(limit) as real ==> j - i < limit.maxRequests
  }

  /** The operations on one Redis key with their clock readings. */
  datatype RedisOp =
    | RedisCall(now: real, at: real)      // check_and_record
    | RedisCheckOnly(now: real)
    | RedisGetRemaining(now: real)

  function RedisEnd(op: RedisOp): real { if op.RedisCall? then op.at else op.now }

  function RedisOpStep(default: Option<RateLimit>, limit: RateLimit, h: Stamps, r: RedisKey, op: RedisOp): (Stamps,
                       RedisKey) {
    match op
    case RedisCall(now, at) =>
      var (allowed, checked) := RedisCheck(limit, r, now);
      if allowed then (h + [at], RedisRecord(default, checked, at)) else (h, checked)
    case RedisCheckOnly(now) => (h, RedisCheck(limit, r, now).1)
    case RedisGetRemaining(now) => (h, RedisRemaining(default, r, now).1)
  }

  function RedisRun(default: Option<RateLimit>, limit: RateLimit, ops: seq<RedisOp>): (Stamps, RedisKey) {
    if ops == [] then ([], RedisKey([], None))
    else
      var (h, r) := RedisRun(default, limit, ops[..|ops| - 1]);
      RedisOpStep(default, limit, h, r, ops[|ops| - 1])
  }

  ghost predicate RedisClocked(ops: seq<RedisOp>) {
    && (forall i :: 0 <= i < |ops| ==> ops[i].now <= RedisEnd(ops[i]))
    && (forall i :: 0 < i < |ops| ==> RedisEnd(ops[i - 1]) <= ops[i].now)
  }

  /** The window fits what else trims the key: its time to live, and, where the remaining number is asked for, the
      default window. */
  ghost predicate RedisFits(default: Option<RateLimit>, limit: RateLimit, ops: seq<RedisOp>) {
    default.Some? ==>
      && RedisWindow(limit) <= TimeToLive(default.value)
      && ((exists i :: 0 <= i < |ops| && ops[i].RedisGetRemaining?) ==>
          RedisWindow(limit) <= RedisWindow(default.value))
  }

  lemma {:induction false} RedisPruneDrops(s: Stamps, cutoff: real) returns (n: nat)
    ensures n <= |s| && RedisPrune(s, cutoff) == s[n..]
    ensures forall i :: 0 <= i < n ==> s[i] <= cutoff
    ensures n < |s| ==> s[n] > cutoff
  {
    if s != [] && s[0] <= cutoff {
      n := RedisPruneDrops(s[1..], cutoff);
      n := n + 1;
    } else {
      n := 0;
    }
  }

  lemma LiveKeeps(h: Stamps, r: RedisKey, limit: RateLimit, t: real, t': real)
    requires RedisInvariant(h, r, limit, t) && t <= t'
    ensures RedisInvariant(h, Live(r, t'), limit, t')
  {
  }

  /** Trimming to any window at least as long keeps the invariant. */
  lemma RedisTrimKeeps(h: Stamps, r: RedisKey, limit: RateLimit, wider: RateLimit, t: real, now: real)
    requires RedisInvariant(h, r, limit, t) && t <= now && RedisWindow(limit) <= RedisWindow(wider)
    ensures RedisInvariant(h, RedisTrim(wider, r, now), limit, now)
  {
    hide RedisPrune, Live;
    LiveKeeps(h, r, limit, t, now);
    var s := Live(r, now).stamps;
    var cutoff := now - RedisWindow(wider) as real;
    var n := RedisPruneDrops(s, cutoff);
    var gone := |h| - |s|;
    assert s[n..] == h[gone..][n..] == h[gone + n..];
    forall i | 0 <= i < gone + n ensures h[i] <= now - RedisWindow(limit) as real {
      if i >= gone {
        assert h[i] == s[i - gone];
      }
    }
  }

  lemma RedisRecordKeeps(default: Option<RateLimit>, h: Stamps, r: RedisKey, limit: RateLimit, now: real, at: real)
    requires RedisInvariant(h, r, limit, now) && now <= at
    requires |r.stamps| < limit.maxRequests
    requires default.Some? ==> RedisWindow(limit) <= TimeToLive(default.value)
    requires default.None? ==> r.expiresAt.None?
    ensures RedisInvariant(h + [at], RedisRecord(default, r, at), limit, at)
  {
    hide HalfOpenBounded;
    LiveKeeps(h, r, limit, now, at);
    HalfOpenAdmits(h, |Live(r, at).stamps|, limit, at);
  }

  /** Admitting a request when fewer than the maximum are in the window keeps the bound. */
  lemma HalfOpenAdmits(h: Stamps, live: nat, limit: RateLimit, at: real)
    requires HalfOpenBounded(h, limit) && live <= |h| && live < limit.maxRequests
    requires forall i :: 0 <= i < |h| - live ==> h[i] <= at - RedisWindow(limit) as real
    ensures HalfOpenBounded(h + [at], limit)
  {
    hide RedisWindow;
    var h' := h + [at];
    forall i, j | 0 <= i <= j < |h'| && h'[j] - h'[i] < RedisWindow(limit) as real ensures j - i < limit.maxRequests {
      if i < j == |h| {
        assert i >= |h| - live;
      }
    }
  }

  /** Over every run of checks, requests and questions for the remaining number, the Redis form keeps at most the
      allowed number of admitted requests in every half-open window, and neither its expiry nor a trim drops a stamp
      that could still count, provided the window fits the time to live and the default window. */
  lemma {:induction false} RedisBound(default: Option<RateLimit>, limit: RateLimit, ops: seq<RedisOp>)
    requires RedisClocked(ops) && RedisFits(default, limit, ops)
    ensures var (h, r) := RedisRun(default, limit, ops);
            && (ops != [] ==> RedisInvariant(h, r, limit, RedisEnd(ops[|ops| - 1])))
            && (ops == [] ==> h == [] && r == RedisKey([], None))
            && (default.None? ==> r.expiresAt.None?)
  {
    hide RedisOpStep;
    if ops != [] {
      var n := |ops| - 1;
      var op, before := ops[n], ops[..n];
      assert forall i :: 0 <= i < n ==> before[i] == ops[i];
      RedisBound(default, limit, before);
      var (h, r) := RedisRun(default, limit, before);
      var t := if n == 0 then op.now else RedisEnd(ops[n - 1]);
      assert RedisInvariant(h, r, limit, t);
      RedisOpKeeps(default, limit, h, r, op, t);
    }
  }

  /** How many stamps are later than the cutoff. */
  function CountAfter(h: Stamps, cutoff: real): nat {
    if h == [] then 0 else CountAfter(h[..|h| - 1], cutoff) + if h[|h| - 1] > cutoff then 1 else 0
  }

  /** The other direction as well: over every such run a check is allowed exactly when fewer than the maximum of all
      requests admitted so far are in the half-open window that ends with it. */
  lemma RedisAllowedOverRun(default: Option<RateLimit>, limit: RateLimit, ops: seq<RedisOp>, now: real)
    requires RedisClocked(ops) && RedisFits(default, limit, ops)
    requires forall i :: 0 <= i < |ops| ==> RedisEnd(ops[i]) <= now
    ensures var (h, r) := RedisRun(default, limit, ops);
            var n := CountAfter(h, now - RedisWindow(limit) as real);
            && (RedisCheck(limit, r, now).0 <==> n < limit.maxRequests)
            && (default == Some(limit) ==>
                  RedisRemaining(default, r, now).0 == if n < limit.maxRequests then limit.maxRequests - n else 0)
  {
    hide RedisRun, RedisPrune, RedisClocked, RedisFits, RedisWindow;
    var (h, r) := RedisRun(default, limit, ops);
    RedisBound(default, limit, ops);
    RedisSorted(default, limit, ops);
    var t := if ops == [] then now else RedisEnd(ops[|ops| - 1]);
    assert ops == [] ==> RedisInvariant([], RedisKey([], None), limit, t) by { RedisNothing(limit, t); }
    RedisCounts(h, r, limit, t, now);
  }

  lemma RedisNothing(limit: RateLimit, t: real)
    ensures RedisInvariant([], RedisKey([], None), limit, t)
  {
  }

  /** Under the invariant what a trim leaves are the stamps of the window, expired or not. */
  lemma RedisCounts(h: Stamps, r: RedisKey, limit: RateLimit, t: real, now: real)
    requires RedisInvariant(h, r, limit, t) && Sorted(h) && t <= now
    ensures |RedisTrim(limit, r, now).stamps| == CountAfter(h, now - RedisWindow(limit) as real)
  {
    hide RedisPrune, Sorted, HalfOpenBounded, RedisWindow, CountAfter;
    var cutoff, live := now - RedisWindow(limit) as real, Live(r, now);
    var gone := |h| - |live.stamps|;
    assert live.stamps == h[gone..];
    assert forall i :: 0 <= i < gone ==> h[i] <= cutoff;
    CountTail(h, gone, cutoff);
    TailSorted(h, gone);
    CountPruned(live.stamps, cutoff);
  }

  lemma {:induction false} CountTail(h: Stamps, gone: nat, cutoff: real)
    requires gone <= |h| && forall i :: 0 <= i < gone ==> h[i] <= cutoff
    ensures CountAfter(h, cutoff) == CountAfter(h[gone..], cutoff)
  {
    if gone < |h| {
      var n := |h| - 1;
      CountTail(h[..n], gone, cutoff);
      assert h[gone..][..n - gone] == h[..n][gone..];
    } else if h != [] {
      CountTail(h[..|h| - 1], |h| - 1, cutoff);
      assert h[gone..] == [] && h[..|h| - 1][|h| - 1..] == [];
    }
  }

  lemma {:induction false} TailSorted(h: Stamps, gone: nat)
    requires Sorted(h) && gone <= |h|
    ensures Sorted(h[gone..])
  {
    if gone == 0 {
      assert h[0..] == h;
    } else {
      TailSorted(h[1..], gone - 1);
      assert h[1..][gone - 1..] == h[gone..];
    }
  }

  lemma CountPruned(s: Stamps, cutoff: real)
    requires Sorted(s)
    ensures |RedisPrune(s, cutoff)| == CountAfter(s, cutoff)
  {
    hide Sorted;
    var n := RedisPruneDrops(s, cutoff);
    CountTail(s, n, cutoff);
    var rest := s[n..];
    forall i | 0 <= i < |rest| ensures rest[i] > cutoff {
      SortedAt(s, n, n + i);
    }
    CountAll(rest, cutoff);
  }

  lemma {:induction false} CountAll(s: Stamps, cutoff: real)
    requires forall i :: 0 <= i < |s| ==> s[i] > cutoff
    ensures CountAfter(s, cutoff) == |s|
  {
    if s != [] {
      CountAll(s[..|s| - 1], cutoff);
    }
  }

  lemma {:induction false} RedisSorted(default: Option<RateLimit>, limit: RateLimit, ops: seq<RedisOp>)
    requires RedisClocked(ops)
    ensures var (h, r) := RedisRun(default, limit, ops);
            && Sorted(h)
            && forall i :: 0 <= i < |h| ==> ops != [] && h[i] <= RedisEnd(ops[|ops| - 1])
  {
    hide RedisCheck, RedisRemaining, RedisRecord, Sorted;
    if ops == [] {
      NothingSorted();
    } else {
      var before := ops[..|ops| - 1];
      assert forall i :: 0 <= i < |before| ==> before[i] == ops[i];
      RedisSorted(default, limit, before);
      var op := ops[|ops| - 1];
      if op.RedisCall? {
        SortedSnoc(RedisRun(default, limit, before).0, op.at);
      }
    }
  }

  lemma RedisOpKeeps(default: Option<RateLimit>, limit: RateLimit, h: Stamps, r: RedisKey, op: RedisOp, t: real)
    requires RedisInvariant(h, r, limit, t) && t <= op.now <= RedisEnd(op) && RedisFits(default, limit, [op])
    requires default.None? ==> r.expiresAt.None?
    ensures var (h', r') := RedisOpStep(default, limit, h, r, op);
            RedisInvariant(h', r', limit, RedisEnd(op)) && (default.None? ==> r'.expiresAt.None?)
  {
    assert [op][0] == op;
    RedisTrimKeeps(h, r, limit, limit, t, op.now);
    var checked := RedisTrim(limit, r, op.now);
    hide RedisInvariant, RedisRecent;
    match op {
      case RedisCall(now, at) =>
        if |checked.stamps| < limit.maxRequests {
          RedisRecordKeeps(default, h, checked, limit, now, at);
        } else {
          RedisTimePasses(h, checked, limit, now, at);
        }
      case RedisCheckOnly(_) =>
      case RedisGetRemaining(now) =>
        if default.Some? {
          RedisTrimKeeps(h, r, limit, default.value, t, now);
        } else {
          RedisTimePasses(h, r, limit, t, now);
        }
    }
  }

  lemma RedisTimePasses(h: Stamps, r: RedisKey, limit: RateLimit, t: real, t': real)
    requires RedisInvariant(h, r, limit, t) && t <= t'
    ensures RedisInvariant(h, r, limit, t')
  {
  }

  /** The condition on the time to live is needed: with any longer window, a key expires while its stamp still counts,
      and one window lets two requests in. */
  lemma RedisExpiryBroken(default: RateLimit, w: int)
    requires w > TimeToLive(default)
    ensures var t := TimeToLive(default) as real;
            RedisRun(Some(default), RateLimit(1, w), [RedisCall(0.0, 0.0), RedisCall(t, t)]).0 == [0.0, t]
                && t < w as real
  {
    hide RedisOpStep;
    var t := TimeToLive(default) as real;
    var limit := RateLimit(1, w);
    var a, b := RedisCall(0.0, 0.0), RedisCall(t, t);
    assert [a, b][..1] == [a] && [a][..0] == [];
    FirstCall(default, limit);
    assert RedisRun(Some(default), limit, [a]) == RedisOpStep(Some(default), limit, [], RedisKey([], None), a);
    ExpiredCall(default, limit, [0.0], RedisKey([0.0], Some(t)), t);
  }

  /** So is the condition on the default window: with any longer window, asking for the remaining number in between
      lets two requests into one window. */
  lemma RedisRemainingBroken(default: RateLimit, w: int)
    requires w > RedisWindow(default)
    ensures var t := RedisWindow(default) as real;
            RedisRun(Some(default), RateLimit(1, w), [RedisCall(0.0, 0.0), RedisGetRemaining(t), RedisCall(t, t)]).0
                == [0.0, t]
            && t < w as real
  {
    hide RedisOpStep;
    var t := RedisWindow(default) as real;
    var limit := RateLimit(1, w);
    var a, b, c := RedisCall(0.0, 0.0), RedisGetRemaining(t), RedisCall(t, t);
    assert [a, b, c][..2] == [a, b] && [a, b][..1] == [a] && [a][..0] == [];
    FirstCall(default, limit);
    var first := RedisKey([0.0], Some(TimeToLive(default) as real));
    assert RedisRun(Some(default), limit, [a]) == RedisOpStep(Some(default), limit, [], RedisKey([], None), a);
    TrimmedAway(default, limit, [0.0], first, t);
    assert RedisRun(Some(default), limit, [a, b]) == RedisOpStep(Some(default), limit, [0.0], first, b);
    EmptyCall(default, limit, [0.0], t);
  }

  lemma TrimmedAway(default: RateLimit, limit: RateLimit, h: Stamps, r: RedisKey, t: real)
    requires r.stamps == [0.0] && t == RedisWindow(default) as real
    ensures RedisOpStep(Some(default), limit, h, r, RedisGetRemaining(t)) == (h, RedisKey([], None))
  {
    hide TimeToLive;
    assert [0.0][1..] == [];
    assert RedisPrune([0.0], 0.0) == [];
  }

  lemma EmptyCall(default: RateLimit, limit: RateLimit, h: Stamps, t: real)
    requires limit.maxRequests == 1
    ensures RedisOpStep(Some(default), limit, h, RedisKey([], None), RedisCall(t, t)).0 == h + [t]
  {
    hide TimeToLive;
  }

  lemma FirstCall(default: RateLimit, limit: RateLimit)
    requires limit.maxRequests == 1
    ensures RedisOpStep(Some(default), limit, [], RedisKey([], None), RedisCall(0.0, 0.0))
         == ([0.0], RedisKey([0.0], Some(TimeToLive(default) as real)))
  {
    hide TimeToLive;
    assert [] + [0.0] == [0.0];
  }

  lemma ExpiredCall(default: RateLimit, limit: RateLimit, h: Stamps, r: RedisKey, t: real)
    requires limit.maxRequests == 1 && r.expiresAt == Some(t)
    ensures RedisOpStep(Some(default), limit, h, r, RedisCall(t, t)).0 == h + [t]
  {
    hide TimeToLive;
  }
}
