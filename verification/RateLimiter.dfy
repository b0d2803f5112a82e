/** The rate limiter's in-memory form: quota objects in nested dictionaries, updated in place. */
module RateLimiting {
  import opened Text
  import opened SlidingWindow

  class UserQuota {
    var userId: int
    var timestamps: Stamps

    constructor (userId: int, timestamps: Stamps)
      ensures this.userId == userId && this.timestamps == timestamps
    {
      this.userId := userId;
      this.timestamps := timestamps;
    }

    method AddRequest(now: real)
      modifies this`timestamps
      ensures timestamps == old(timestamps) + [now]
    {
      timestamps := timestamps + [now];
    }

    method CleanupOld(windowSeconds: int, now: real)
      modifies this`timestamps
      ensures timestamps == Prune(old(timestamps), now - windowSeconds as real)
    {
      var cutoff := now - windowSeconds as real;
      while timestamps != [] && timestamps[0] < cutoff
        invariant Prune(timestamps, cutoff) == Prune(old(timestamps), cutoff)
        decreases |timestamps|
      {
        timestamps := timestamps[1..];
      }
    }

    method CountRecent(windowSeconds: int, now: real) returns (n: nat)
      modifies this`timestamps
      ensures timestamps == Prune(old(timestamps), now - windowSeconds as real)
      ensures n == |timestamps|
    {
      CleanupOld(windowSeconds, now);
      n := |timestamps|;
    }
  }

  /** user_quotas[user][action] is kept under the pair of both keys. */
  class RateLimiter {
    const defaults: Limits
    var userQuotas: map<Key, UserQuota>
    var globalQuota: UserQuota

    /** No two places hold the same quota object. */
    ghost predicate Valid()
      reads this
    {
      && (forall k, l :: k in userQuotas && l in userQuotas && k != l ==> userQuotas[k] != userQuotas[l])
      && (forall k :: k in userQuotas ==> userQuotas[k] != globalQuota)
    }

    /** The stamps of every quota. */
    ghost function Contents(): Quotas
      reads this, userQuotas.Values
    {
      map k | k in userQuotas :: userQuotas[k].timestamps
    }

    constructor (defaults: Limits)
      ensures Valid() && fresh(globalQuota)
      ensures this.defaults == defaults && Contents() == map[] && globalQuota.timestamps == []
    {
      this.defaults := defaults;
      userQuotas := map[];
      globalQuota := new UserQuota(0, []);
    }

    /** The defaultdict lookup: creates an empty quota where there is none. */
    method QuotaFor(k: Key) returns (quota: UserQuota)
      requires Valid()
      modifies this`userQuotas
      ensures Valid() && fresh(userQuotas.Values - old(userQuotas.Values))
      ensures k in userQuotas && userQuotas[k] == quota && quota.timestamps == At(old(Contents()), k)
      ensures Contents() == old(Contents())[k := At(old(Contents()), k)]
    {
      if k in userQuotas {
        quota := userQuotas[k];
      } else {
        quota := new UserQuota(k.0, []);
        userQuotas := userQuotas[k := quota];
      }
    }

    /** When only the stamps of one quota changed, only that key of the contents did. */
    twostate lemma OneQuotaChanged(k: Key)
      requires old(Valid()) && k in userQuotas && unchanged(this)
      requires forall o :: o in userQuotas.Values && o != userQuotas[k] ==> o.timestamps == old(o.timestamps)
      ensures Contents() == old(Contents())[k := userQuotas[k].timestamps]
    {
    }

    /** Looks a quota up and counts its recent stamps, which prunes it. */
    method CountRecentOf(k: Key, limit: RateLimit, now: real) returns (recent: Stamps)
      requires Valid()
      modifies this`userQuotas, userQuotas.Values
      ensures Valid() && fresh(userQuotas.Values - old(userQuotas.Values))
      ensures recent == Recent(At(old(Contents()), k), limit, now)
      ensures Contents() == old(Contents())[k := recent]
    {
      hide Contents, Valid, Prune;
      var quota := QuotaFor(k);
      label Looked:
      quota.userId := k.0;
      var recentCount := quota.CountRecent(limit.windowSeconds, now);
      OneQuotaChanged@Looked(k);
      recent := quota.timestamps;
    }

    /** check_limit in memory: `now` is the clock when counting, `later` when computing the wait. */
    method CheckLimit(k: Key, limit: Option<RateLimit>, now: real, later: real) returns (decision: Decision)
      requires Valid()
      modifies this`userQuotas, userQuotas.Values
      ensures Valid() && fresh(userQuotas.Values - old(userQuotas.Values))
      ensures (decision, Contents()) == Check(defaults, old(Contents()), k, limit, now, later)
    {
      hide Contents, Recent;
      var effective := EffectiveLimit(defaults, k.1, limit);
      if effective.None? {
        return Allowed;
      }
      var l := effective.value;
      var recent := CountRecentOf(k, l, now);
      if |recent| >= l.maxRequests {
        if recent == [] {
          return NoStamp;
        }
        return Refused(Truncate(l.windowSeconds as real - (later - recent[0])));
      }
      return Allowed;
    }

    /** One turn of cleanup_old_data: prunes a quota and deletes it when that leaves it empty. */
    method CleanupQuota(k: Key, now: real)
      requires Valid() && k in userQuotas
      modifies this`userQuotas, userQuotas[k]
      ensures Valid() && userQuotas.Values <= old(userQuotas.Values)
      ensures Contents() == CleanupOne(defaults, old(Contents()), k, now)
    {
      if k.1 in defaults {
        var quota := userQuotas[k];
        quota.CleanupOld(defaults[k.1].windowSeconds, now);
        OneQuotaChanged(k);
        if quota.timestamps == [] {
          userQuotas := userQuotas - {k};
        }
      }
    }

    /** cleanup_old_data: prunes every quota whose action has a default limit and deletes those left empty. */
    method CleanupOldData(clock: Key -> real, globalNow: real)
      requires Valid()
      modifies this`userQuotas, userQuotas.Values, globalQuota
      ensures Valid() && userQuotas.Values <= old(userQuotas.Values)
      ensures Contents() == Cleanup(defaults, old(Contents()), clock)
      ensures globalQuota.timestamps == Prune(old(globalQuota.timestamps), globalNow - 3600.0)
    {
      hide Contents, CleanupOne, Prune, CleanupExcept, Cleanup, CleanedStamps;
      var keys := userQuotas.Keys;
      ghost var before := Contents();
      ContentsKeys();
      CleanupStarts(defaults, before, clock);
      while keys != {}
        invariant Valid() && userQuotas.Values <= old(userQuotas.Values)
        invariant keys <= before.Keys
        invariant Contents() == CleanupExcept(defaults, before, clock, keys)
        invariant globalQuota.timestamps == old(globalQuota.timestamps)
        decreases |keys|
      {
        var k :| k in keys;
        CleanupTurn(defaults, before, clock, keys, k);
        ContentsKeys();
        CleanupQuota(k, clock(k));
        keys := keys - {k};
      }
      CleanupDone(defaults, before, clock);
      globalQuota.CleanupOld(3600, globalNow);
    }

    /** Looks a quota up and adds a stamp to it; n is its new length. */
    method AddRequestTo(k: Key, now: real) returns (n: nat)
      requires Valid()
      modifies this`userQuotas, userQuotas.Values
      ensures Valid() && fresh(userQuotas.Values - old(userQuotas.Values))
      ensures Contents() == old(Contents())[k := At(old(Contents()), k) + [now]]
      ensures n == |Contents()[k]|
    {
      hide Contents, Valid;
      var quota := QuotaFor(k);
      label Looked:
      quota.userId := k.0;
      quota.AddRequest(now);
      OneQuotaChanged@Looked(k);
      n := |quota.timestamps|;
    }

    /** record_request in memory, with its cleanup after every hundredth stamp of a quota. */
    method RecordRequest(k: Key, now: real, globalAt: real, clock: Key -> real, globalNow: real)
      requires Valid()
      modifies this`userQuotas, userQuotas.Values, globalQuota
      ensures Valid() && fresh(userQuotas.Values - old(userQuotas.Values))
      ensures Contents() == Record(defaults, old(Contents()), k, now, clock)
      ensures var g := if IsGlobalAction(k.1) then old(globalQuota.timestamps) + [globalAt]
              else old(globalQuota.timestamps);
              globalQuota.timestamps ==
                if |At(old(Contents()), k) + [now]| % 100 == 0 then Prune(g, globalNow - 3600.0) else g
    {
      hide Contents, Cleanup, Prune;
      var n := AddRequestTo(k, now);
      if IsGlobalAction(k.1) {
        globalQuota.AddRequest(globalAt);
      }
      if n % 100 == 0 {
        CleanupOldData(clock, globalNow);
      }
    }

    /** check_and_record: one step of the runs the window bound is proved for. */
    method CheckAndRecordRequest(k: Key, limit: Option<RateLimit>, now: real, at: real, globalAt: real,
        clock: Key -> real, globalNow: real)
      returns (decision: Decision)
      requires Valid()
      modifies this`userQuotas, userQuotas.Values, globalQuota
      ensures Valid() && fresh(userQuotas.Values - old(userQuotas.Values))
      ensures forall limits: Limits, st: State :: FixedLimit(limits, k) == limit && st.quotas == old(Contents()) ==>
        Step(defaults, limits, st, CheckAndRecord(k, now, at, clock))
        == st.(quotas := Contents(),
               history := if decision.Allowed? then st.history[k := At(st.history, k) + [at]] else st.history)
    {
      decision := CheckLimit(k, limit, now, now);
      if decision.Allowed? {
        RecordRequest(k, at, globalAt, clock, globalNow);
      }
    }

    method GetRemainingRequests(k: Key, now: real) returns (n: int)
      requires Valid()
      modifies this`userQuotas, userQuotas.Values
      ensures Valid() && fresh(userQuotas.Values - old(userQuotas.Values))
      ensures n == Remaining(defaults, old(Contents()), k, now)
      ensures Contents() == AfterRemaining(defaults, old(Contents()), k, now)
    {
      if k.1 !in defaults {
        return -1;
      }
      hide Contents, Recent;
      var limit := defaults[k.1];
      var recent := CountRecentOf(k, limit, now);
      n := limit.maxRequests - |recent|;
      if n < 0 {
        n := 0;
      }
    }

    /** save_state */
    method SaveState() returns (saved: Saved)
      requires Valid()
      ensures saved == Save(Contents())
    {
      hide Contents, Save, Valid;
      saved := map[];
      var keys := userQuotas.Keys;
      ghost var q := Contents();
      ContentsKeys();
      SaveNothing(q);
      while keys != {}
        invariant keys <= userQuotas.Keys
        invariant saved == Save(q - keys)
        decreases |keys|
      {
        var k :| k in keys;
        ContentsAt(k);
        SaveTurn(q, keys, k);
        saved := SaveEntry(saved, k, userQuotas[k].timestamps);
        keys := keys - {k};
      }
      assert q - {} == q;
    }

    lemma ContentsKeys()
      ensures Contents().Keys == userQuotas.Keys
    {
    }

    lemma GlobalApart()
      requires Valid()
      ensures globalQuota !in userQuotas.Values
    {
    }

    lemma ContentsAt(k: Key)
      requires k in userQuotas
      ensures k in Contents() && Contents()[k] == userQuotas[k].timestamps
    {
    }

    /** One turn of load_state: stores a new quota under the parsed user id. */
    method RestoreQuota(k: Key, stamps: Stamps)
      requires Valid()
      modifies this`userQuotas
      ensures Valid() && Contents() == old(Contents())[k := stamps]
      ensures k in userQuotas && fresh(userQuotas[k])
      ensures userQuotas.Values <= old(userQuotas.Values) + {userQuotas[k]}
    {
      var quota := new UserQuota(k.0, stamps);
      userQuotas := userQuotas[k := quota];
    }

    /** load_state: restores the saved quotas in file order, then the global one, and cleans up; a user id that int()
        refuses ends it there. `entries` is the order of the file. */
    method LoadState(saved: Saved, entries: seq<(string, string)>, clock: Key -> real, globalStamps: Stamps,
                     globalNow: real)
      requires Valid() && Entries(saved, entries)
      modifies this`userQuotas, userQuotas.Values, globalQuota
      ensures Valid() && fresh(userQuotas.Values - old(userQuotas.Values))
      ensures var (q, ok) := RestoreIn(old(Contents()), saved, entries);
              && Contents() == (if ok then Cleanup(defaults, q, clock) else q)
              && globalQuota.timestamps == if ok then Prune(globalStamps, globalNow - 3600.0)
                  else old(globalQuota.timestamps)
    {
      hide Contents, Valid, Cleanup, Prune, ParseInt;
      ghost var start := Contents();
      for i := 0 to |entries|
        invariant Valid() && fresh(userQuotas.Values - old(userQuotas.Values))
        invariant RestoreIn(start, saved, entries[..i]) == (Contents(), true)
        invariant globalQuota.timestamps == old(globalQuota.timestamps)
      {
        assert entries[..i + 1][..i] == entries[..i];
        var id := ParseInt(entries[i].0);
        if id.None? {
          RestoreStops(start, saved, entries, i);
          return;
        }
        RestoreQuota((id.value, entries[i].1), saved[entries[i]]);
      }
      assert entries[..|entries|] == entries;
      GlobalApart();
      globalQuota.timestamps := globalStamps;
      CleanupOldData(clock, globalNow);
    }
  }

  /** `entries` lists the saved entries. */
  ghost predicate Entries(saved: Saved, entries: seq<(string, string)>) {
    && (forall i, j :: 0 <= i < j < |entries| ==> entries[i] != entries[j])
    && (forall e :: e in entries <==> e in saved)
  }

  function EntrySet(entries: seq<(string, string)>): set<(string, string)> { set e | e in entries }

  /** The quotas after restoring the entries in order, and whether all user ids could be read. */
  function RestoreIn(q: Quotas, saved: Saved, entries: seq<(string, string)>): (Quotas, bool)
    requires forall e :: e in entries ==> e in saved
  {
    if entries == [] then (q, true)
    else
      var (before, ok) := RestoreIn(q, saved, entries[..|entries| - 1]);
      var e := entries[|entries| - 1];
      var id := ParseInt(e.0);
      if !ok || id.None? then (before, false) else (before[(id.value, e.1) := saved[e]], true)
  }

  lemma {:induction false} RestoreStops(q: Quotas, saved: Saved, entries: seq<(string, string)>, i: nat)
    requires (forall e :: e in entries ==> e in saved) && i < |entries| && ParseInt(entries[i].0).None?
    requires RestoreIn(q, saved, entries[..i]).1
    ensures RestoreIn(q, saved, entries) == (RestoreIn(q, saved, entries[..i]).0, false)
  {
    hide ParseInt;
    var front := entries[..|entries| - 1];
    if i < |front| {
      assert front[..i] == entries[..i];
      RestoreStops(q, saved, front, i);
    } else {
      assert front == entries[..i];
    }
  }

  /** Into a fresh limiter, a file written by save_state restores what Restore says, in whatever order, so that loading
      it is the step of the runs. */
  lemma RestoreSaved(saved: Saved, entries: seq<(string, string)>)
    requires Entries(saved, entries) && forall e :: e in saved ==> Printed(e.0)
    ensures RestoreIn(map[], saved, entries) == (Restore(saved), true)
  {
    hide Restore, Printed, RestoreIn;
    RestorePart(saved, entries, |entries|);
    assert entries[..|entries|] == entries && saved - (saved.Keys - EntrySet(entries)) == saved;
  }

  lemma {:induction false} RestorePart(saved: Saved, entries: seq<(string, string)>, n: nat)
    requires Entries(saved, entries) && n <= |entries| && forall e :: e in saved ==> Printed(e.0)
    ensures RestoreIn(map[], saved, entries[..n]) == (Restore(saved - (saved.Keys - EntrySet(entries[..n]))), true)
  {
    hide Restore, ParseInt, IntText;
    if n == 0 {
      RestoreNothing(saved);
      assert saved.Keys - EntrySet(entries[..0]) == saved.Keys;
    } else {
      RestorePart(saved, entries, n - 1);
      var e := entries[n - 1];
      assert entries[..n][..n - 1] == entries[..n - 1] && entries[..n] == entries[..n - 1] + [e];
      var pending := saved.Keys - EntrySet(entries[..n - 1]);
      assert e in pending;
      assert saved.Keys - EntrySet(entries[..n]) == pending - {e};
      RestoreTurn(saved, pending, e);
    }
  }

  // ----- one turn of each loop -----

  function CleanupOne(defaults: Limits, q: Quotas, k: Key, now: real): Quotas
    requires k in q
  {
    var s := CleanedStamps(defaults, k.1, q[k], now);
    if k.1 !in defaults then q else if s == [] then q - {k} else q[k := s]
  }

  /** Cleanup with the quotas of `pending` still to do. */
  function CleanupExcept(defaults: Limits, q: Quotas, clock: Key -> real, pending: set<Key>): Quotas {
    map k | k in q && (k in pending || !(k.1 in defaults && CleanedStamps(defaults, k.1, q[k], clock(k)) == []))
      :: if k in pending then q[k] else CleanedStamps(defaults, k.1, q[k], clock(k))
  }

  lemma CleanupStarts(defaults: Limits, q: Quotas, clock: Key -> real)
    ensures CleanupExcept(defaults, q, clock, q.Keys) == q
  {
    hide Prune;
  }

  lemma CleanupDone(defaults: Limits, q: Quotas, clock: Key -> real)
    ensures CleanupExcept(defaults, q, clock, {}) == Cleanup(defaults, q, clock)
  {
  }

  lemma CleanupTurn(defaults: Limits, q: Quotas, clock: Key -> real, pending: set<Key>, k: Key)
    requires k in pending && pending <= q.Keys
    ensures k in CleanupExcept(defaults, q, clock, pending)
    ensures CleanupOne(defaults, CleanupExcept(defaults, q, clock, pending), k, clock(k))
         == CleanupExcept(defaults, q, clock, pending - {k})
  {
    hide Prune;
  }

  function SaveEntry(saved: Saved, k: Key, stamps: Stamps): Saved {
    saved[(IntText(k.0), k.1) := stamps]
  }

  lemma SaveNothing(q: Quotas)
    ensures Save(q - q.Keys) == map[]
  {
  }

  lemma SaveTurn(q: Quotas, pending: set<Key>, k: Key)
    requires k in pending && pending <= q.Keys
    ensures Save(q - (pending - {k})) == SaveEntry(Save(q - pending), k, q[k])
  {
    hide IntText, ParseInt, Printed;
    PrintedUnique();
    var r := q - (pending - {k});
    assert r == (q - pending)[k := q[k]];
    assert (IntText(k.0), k.1) in Save(r) by { assert k in r; }
    forall l | l in q - pending ensures (IntText(l.0), l.1) in Save(r) {
      assert l in r;
    }
  }

  function ParsedKey(e: (string, string)): Key
    requires Printed(e.0)
  {
    (ParseInt(e.0).value, e.1)
  }

  lemma RestoreNothing(saved: Saved)
    ensures Restore(saved - saved.Keys) == map[]
  {
  }

  lemma RestoreTurn(saved: Saved, pending: set<(string, string)>, e: (string, string))
    requires e in pending && pending <= saved.Keys && Printed(e.0)
    ensures Restore(saved - (pending - {e})) == Restore(saved - pending)[ParsedKey(e) := saved[e]]
  {
    hide IntText, ParseInt;
    var r, k := saved - (pending - {e}), ParsedKey(e);
    assert e in r && k in Restore(r);
    forall l | l in Restore(saved - pending) ensures l in Restore(r) {
      var o :| o in saved - pending && Printed(o.0) && (ParseInt(o.0).value, o.1) == l;
      assert o in r;
    }
  }
}
