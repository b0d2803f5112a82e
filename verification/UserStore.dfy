/** The user identity store on values: users with their identities and projects, and the map from identities to users.
    */
module UserStore {
  import opened Text

  // ----- data -----

  datatype Project = Project(name: string, tracked: seq<string>, lastActivity: string)

  datatype User = User(
    nexusId: string,
    identities: map<string, string>,
    username: Option<string>,
    firstName: Option<string>,
    projects: map<string, Project>,
    createdAt: string,
    lastSeen: string)

  datatype Store = Store(users: map<string, User>, idMap: map<string, string>)

  const EMPTY := Store(map[], map[])

  function Platform(platform: string): string { Strip(Lower(platform)) }

  function IdKey(platform: string, value: string): string { Platform(platform) + ":" + Strip(value) }

  /** Normalising an identity twice changes nothing, so an identity indexed under its normal form keeps its key. */
  lemma IdKeyNormal(platform: string, value: string)
    ensures IdKey(Platform(platform), Strip(value)) == IdKey(platform, value)
  {
    hide StripBy;
    var lower := Lower(platform);
    var lo := StripIsInfix(IsSpace, lower);
    assert Lower(Platform(platform)) == Platform(platform);
  }

  /** Different identities have different keys, as long as no platform holds a colon. */
  lemma IdKeyInjective(p: string, v: string, q: string, w: string)
    requires ':' !in Platform(p) && ':' !in Platform(q)
    ensures IdKey(p, v) == IdKey(q, w) <==> Platform(p) == Platform(q) && Strip(v) == Strip(w)
  {
    hide Platform, Strip;
    if IdKey(p, v) == IdKey(q, w) {
      ColonSplit(Platform(p), Strip(v), Platform(q), Strip(w));
    }
  }

  /** A platform counts whatever its case and the whitespace around it. */
  lemma PlatformMeaning(platform: string)
    ensures Platform(platform) == Lower(Strip(platform))
  {
    hide StripBy;
    var lo := StripIsInfix(IsSpace, platform);
    var mid := Strip(platform);
    var lower, low := Lower(platform), Lower(mid);
    LowerSpaces();
    assert forall i :: 0 <= i < |mid| ==> mid[i] == platform[lo + i];
    assert low == lower[lo..lo + |mid|];
    StripMiddle(lower, lo, lo + |mid|);
  }

  lemma LowerSpaces()
    ensures forall c :: IsSpace(LowerChar(c)) <==> IsSpace(c)
  {
  }

  /** A stripped middle with whitespace on both sides is what stripping leaves. */
  lemma StripMiddle(s: string, lo: nat, hi: nat)
    requires lo <= hi <= |s| && Stripped(s[lo..hi])
    requires forall i :: 0 <= i < lo || hi <= i < |s| ==> IsSpace(s[i])
    ensures Strip(s) == s[lo..hi]
  {
    hide StripBy;
    var at := StripIsInfix(IsSpace, s);
    var r := Strip(s);
    if lo < hi {
      assert s[lo] == s[lo..hi][0] && s[hi - 1] == s[lo..hi][hi - lo - 1];
      assert at <= lo && hi <= at + |r|;
      assert r[0] == s[at] && r[|r| - 1] == s[at + |r| - 1];
    } else {
      StripEmptyIff(IsSpace, s);
    }
  }

  function Keys(identities: map<string, string>): set<string> {
    set p | p in identities :: IdKey(p, identities[p])
  }

  ghost predicate HasKey(u: User, key: string) {
    exists p :: p in u.identities && IdKey(p, u.identities[p]) == key
  }

  /** Map values are live users, each user's identities map back to that user, and users know their own id. */
  ghost predicate Consistent(s: Store) {
    && "" !in s.users
    && (forall id :: id in s.users ==> s.users[id].nexusId == id)
    && (forall key :: key in s.idMap ==> s.idMap[key] in s.users)
    && (forall id, key :: id in s.users && HasKey(s.users[id], key) ==> key in s.idMap && s.idMap[key] == id)
  }

  /** No tracked list names an issue twice. */
  ghost predicate Tidy(s: Store) {
    forall id, name :: id in s.users && name in s.users[id].projects ==> NoRepeats(s.users[id].projects[name].tracked)
  }

  function Owner(s: Store, key: string): string {
    if key in s.idMap then s.idMap[key] else ""
  }

  predicate Truthy(text: Option<string>) { text.Some? && text.value != "" }

  datatype Result<T> = Ok(value: T) | UnknownUser | AlreadyLinked | MissingTarget

  // ----- linking and creating -----

  /** _index_identity */
  function Index(s: Store, id: string, platform: string, value: string): Store
    requires id in s.users
  {
    var p, v := Platform(platform), Strip(value);
    if p == "" || v == "" then s
    else
      var u := s.users[id];
      Store(s.users[id := u.(identities := u.identities[p := v])], s.idMap[IdKey(p, v) := id])
  }

  function SetUser(s: Store, u: User, id: string): Store { s.(users := s.users[id := u]) }

  function Seen(s: Store, id: string, now: string): Store
    requires id in s.users
  {
    SetUser(s, s.users[id].(lastSeen := now), id)
  }

  /** link_identity */
  function LinkIdentity(s: Store, id: string, platform: string, value: string, now: string): Result<Store> {
    var owner := Owner(s, IdKey(platform, value));
    if id !in s.users then UnknownUser
    else if owner != "" && owner != id then AlreadyLinked
    else Ok(Seen(Index(s, id, platform, value), id, now))
  }

  /** The names an existing user has after being met again. */
  function Greeted(u: User, username: Option<string>, firstName: Option<string>, now: string): User {
    u.(lastSeen := now,
       username := if Truthy(username) then username else u.username,
       firstName := if Truthy(firstName) then firstName else u.firstName)
  }

  /** get_or_create_user_by_identity: the new store and the id of the user; `uuid` is the id a new user gets. */
  function GetOrCreate(s: Store, platform: string, value: string, username: Option<string>, firstName: Option<string>,
                       now: string, uuid: string): (Store, string)
  {
    var p, v := Platform(platform), Strip(value);
    var key := IdKey(p, v);
    var id := Owner(s, key);
    if id != "" && id in s.users then
      (Index(SetUser(s, Greeted(s.users[id], username, firstName, now), id), id, p, v), id)
    else
      (Store(s.users[uuid := User(uuid, map[p := v], username, firstName, map[], now, now)], s.idMap[key := uuid]),
          uuid)
  }

  /** The two cases of get-or-create. */
  lemma GetOrCreateCases(s: Store, platform: string, value: string, username: Option<string>, firstName: Option<string>,
                         now: string, uuid: string)
    ensures var p, v := Platform(platform), Strip(value);
            var key := IdKey(p, v);
            var id := Owner(s, key);
            GetOrCreate(s, platform, value, username, firstName, now, uuid) ==
              if id != "" && id in s.users then
                (Index(SetUser(s, Greeted(s.users[id], username, firstName, now), id), id, p, v), id)
              else
                (Store(s.users[uuid := User(uuid, map[p := v], username, firstName, map[], now, now)],
                    s.idMap[key := uuid]), uuid)
  {
    hide Platform, Strip, IdKey, Index, Greeted;
  }

  /** Replacing a user by one with the same id and identities keeps the store consistent. */
  lemma TouchKeeps(s: Store, u: User, id: string)
    requires Consistent(s) && id in s.users && u.nexusId == id && u.identities == s.users[id].identities
    ensures Consistent(SetUser(s, u, id))
  {
    hide IdKey;
    var s' := SetUser(s, u, id);
    forall i, k | i in s'.users && HasKey(s'.users[i], k) ensures k in s'.idMap && s'.idMap[k] == i {
      assert HasKey(s.users[i], k);
    }
  }

  /** So does giving one user, old or new, an identity that nobody else owns. */
  lemma IdentityKeeps(s: Store, u: User, id: string, earlier: map<string, string>, p: string, v: string)
    requires Consistent(s) && id != "" && u.nexusId == id && u.identities == earlier[p := v]
    requires earlier == if id in s.users then s.users[id].identities else map[]
    requires Owner(s, IdKey(p, v)) in {"", id}
    ensures Consistent(Store(s.users[id := u], s.idMap[IdKey(p, v) := id]))
  {
    hide IdKey;
    var s' := Store(s.users[id := u], s.idMap[IdKey(p, v) := id]);
    forall i, k | i in s'.users && HasKey(s'.users[i], k) ensures k in s'.idMap && s'.idMap[k] == i {
      var q :| q in s'.users[i].identities && IdKey(q, s'.users[i].identities[q]) == k;
      assert i != id || q != p ==> HasKey(s.users[i], k);
    }
  }

  /** The identities of a user who has been given one; a blank platform or value gives none. */
  function Gained(identities: map<string, string>, platform: string, value: string): map<string, string> {
    if Platform(platform) == "" || Strip(value) == "" then identities
    else identities[Platform(platform) := Strip(value)]
  }

  /** Linking keeps the store consistent, links exactly when both parts are non-blank, stores the identity with the
      user, who changes in nothing else but the time last seen, moves no other identity, and touches no other user. */
  lemma LinkMeaning(s: Store, id: string, platform: string, value: string, now: string)
    requires Consistent(s) && LinkIdentity(s, id, platform, value, now).Ok?
    ensures var s' := LinkIdentity(s, id, platform, value, now).value;
            var key := IdKey(platform, value);
            && Consistent(s')
            && (Owner(s', key) == id <==> Owner(s, key) == id || (Platform(platform) != "" && Strip(value) != ""))
            && s'.idMap - {key} == s.idMap - {key}
            && id in s.users && s'.users.Keys == s.users.Keys && s'.users - {id} == s.users - {id}
            && s'.users[id]
               == s.users[id].(identities := Gained(s.users[id].identities, platform, value), lastSeen := now)
  {
    hide Platform, Strip, IdKey, Consistent;
    IdKeyNormal(platform, value);
    ConsistentBasics(s, id);
    var p, v := Platform(platform), Strip(value);
    var indexed := Index(s, id, platform, value);
    if p != "" && v != "" {
      IdentityKeeps(s, s.users[id].(identities := s.users[id].identities[p := v]), id, s.users[id].identities, p, v);
    }
    TouchKeeps(indexed, indexed.users[id].(lastSeen := now), id);
  }

  lemma ConsistentBasics(s: Store, id: string)
    requires Consistent(s)
    ensures "" !in s.users && (id in s.users ==> s.users[id].nexusId == id)
    ensures forall key :: key in s.idMap ==> s.idMap[key] in s.users && s.idMap[key] != ""
  {
  }

  /** Whoever links an identity that another user owns is refused, and exactly then. */
  lemma LinkRefusedIff(s: Store, id: string, platform: string, value: string, now: string)
    requires Consistent(s) && id in s.users
    ensures LinkIdentity(s, id, platform, value, now) == AlreadyLinked
        <==> IdKey(platform, value) in s.idMap && s.idMap[IdKey(platform, value)] != id
  {
  }

  /** The identity resolves to the returned user afterwards; a user is created only for an identity nobody owns, with
      that identity alone, and a known one keeps what it has, gains the identity and takes over names that are given. No
      other user or identity changes. */
  lemma GetOrCreateMeaning(s: Store, platform: string, value: string, username: Option<string>,
                           firstName: Option<string>,
                           now: string, uuid: string)
    requires Consistent(s) && uuid != "" && uuid !in s.users
    ensures var (s', id) := GetOrCreate(s, platform, value, username, firstName, now, uuid);
            var key := IdKey(platform, value);
            && Consistent(s') && Owner(s', key) == id
            && (id == uuid <==> key !in s.idMap)
            && s'.users.Keys == s.users.Keys + {id} && s'.users - {id} == s.users - {id}
            && s'.idMap - {key} == s.idMap - {key}
            && s'.users[id] ==
                 if key !in s.idMap then
                   User(id, map[Platform(platform) := Strip(value)], username, firstName, map[], now, now)
                 else
                   var u := s.users[id];
                   u.(identities := Gained(u.identities, platform, value),
                      username := if Truthy(username) then username else u.username,
                      firstName := if Truthy(firstName) then firstName else u.firstName,
                      lastSeen := now)
  {
    hide Platform, Strip, IdKey, Consistent;
    IdKeyNormal(platform, value);
    PlatformFixed(platform);
    var p, v := Platform(platform), Strip(value);
    var id := Owner(s, IdKey(p, v));
    ConsistentBasics(s, id);
    if id != "" && id in s.users {
      var u := Greeted(s.users[id], username, firstName, now);
      GreetedSame(s.users[id], username, firstName, now);
      TouchKeeps(s, u, id);
      if p != "" && v != "" {
        IdentityKeeps(SetUser(s, u, id), u.(identities := u.identities[p := v]), id, u.identities, p, v);
      }
    } else {
      IdentityKeeps(s, User(uuid, map[p := v], username, firstName, map[], now, now), uuid, map[], p, v);
    }
  }

  lemma GreetedSame(u: User, username: Option<string>, firstName: Option<string>, now: string)
    ensures var g := Greeted(u, username, firstName, now);
            g.nexusId == u.nexusId && g.identities == u.identities && g.projects == u.projects
  {
  }

  /** Asking again for the same identity finds the same user. */
  lemma SameUserAgain(s: Store, platform: string, value: string, username: Option<string>, firstName: Option<string>,
                      now: string, uuid: string, later: string, other: string)
    requires Consistent(s) && uuid != "" && uuid !in s.users
    ensures var (s', id) := GetOrCreate(s, platform, value, username, firstName, now, uuid);
            GetOrCreate(s', platform, value, username, firstName, later, other).1 == id
  {
    hide Platform, Strip, IdKey, Index, Consistent;
    IdKeyNormal(platform, value);
    GetOrCreateMeaning(s, platform, value, username, firstName, now, uuid);
    var (s', id) := GetOrCreate(s, platform, value, username, firstName, now, uuid);
    ConsistentBasics(s', id);
  }

  lemma PlatformFixed(platform: string)
    ensures Platform(Platform(platform)) == Platform(platform)
  {
    hide StripBy;
    var lo := StripIsInfix(IsSpace, Lower(platform));
    assert Lower(Platform(platform)) == Platform(platform);
  }

  // ----- tracking -----

  function Without(issues: seq<string>, known: seq<string>): seq<string> {
    if issues == [] then []
    else
      var before, last := Without(issues[..|issues| - 1], known), issues[|issues| - 1];
      if last in known then before else before + [last]
  }

  /** Joining two lists without duplicates keeps the first whole and appends what is new in the second, in order. */
  lemma {:induction false} DedupJoins(a: seq<string>, b: seq<string>)
    requires NoRepeats(a) && NoRepeats(b)
    ensures Dedup(a + b) == a + Without(b, a)
    ensures forall x :: x in Without(b, a) <==> x in b && x !in a
  {
    hide Dedup, NoRepeats;
    if b == [] {
      assert a + b == a;
      DedupSame(a);
    } else {
      var front, last := b[..|b| - 1], b[|b| - 1];
      FrontUnrepeated(b);
      DedupJoins(a, front);
      assert a + b == a + front + [last] && b == front + [last];
      DedupSnoc(a + front, last);
    }
  }

  lemma FrontUnrepeated(s: seq<string>)
    requires NoRepeats(s) && s != []
    ensures NoRepeats(s[..|s| - 1]) && s[|s| - 1] !in s[..|s| - 1]
  {
    assert forall i :: 0 <= i < |s| - 1 ==> s[..|s| - 1][i] == s[i];
  }

  lemma DedupSnoc(s: seq<string>, x: string)
    ensures Dedup(s + [x]) == if x in Dedup(s) then Dedup(s) else Dedup(s) + [x]
  {
    assert (s + [x])[..|s|] == s;
  }

  function FirstIndex(issues: seq<string>, issue: string): (i: nat)
    requires issue in issues
    ensures i < |issues| && issues[i] == issue
  {
    if issues[0] == issue then 0 else FirstIndex(issues[1..], issue) + 1
  }

  /** list.remove: only the first occurrence goes. */
  function Removed(issues: seq<string>, issue: string): seq<string>
    requires issue in issues
  {
    var i := FirstIndex(issues, issue);
    issues[..i] + issues[i + 1..]
  }

  function Tracked(u: User, project: string): seq<string> {
    if project in u.projects then u.projects[project].tracked else []
  }

  predicate Tracks(u: User, project: string, issue: string) { issue in Tracked(u, project) }

  function TrackingUser(u: User, project: string, issue: string, now: string): User {
    var entry := if project in u.projects then u.projects[project] else Project(project, [], now);
    var tracking := if issue in entry.tracked then entry
        else entry.(tracked := entry.tracked + [issue], lastActivity := now);
    u.(projects := u.projects[project := tracking], lastSeen := if issue in entry.tracked then u.lastSeen else now)
  }

  /** track_issue_by_nexus_id */
  function Track(s: Store, id: string, project: string, issue: string, now: string): Result<Store> {
    if id !in s.users then UnknownUser else Ok(SetUser(s, TrackingUser(s.users[id], project, issue, now), id))
  }

  /** untrack_issue_by_nexus_id: the new store and whether anything was removed. */
  function Untrack(s: Store, id: string, project: string, issue: string, now: string): (Store, bool) {
    if id !in s.users || !Tracks(s.users[id], project, issue) then (s, false)
    else
      var u := s.users[id];
      var entry := u.projects[project];
      (SetUser(s, u.(projects := u.projects[project :=
          entry.(tracked := Removed(entry.tracked, issue), lastActivity := now)],
                     lastSeen := now), id), true)
  }

  /** get_issue_tracker_nexus_ids */
  function Trackers(s: Store, project: string, issue: string): set<string> {
    set id | id in s.users && Tracks(s.users[id], project, issue)
  }

  lemma RemovedOnce(issues: seq<string>, issue: string)
    requires NoRepeats(issues) && issue in issues
    ensures NoRepeats(Removed(issues, issue))
    ensures forall x :: x in Removed(issues, issue) <==> x in issues && x != issue
  {
    var i := FirstIndex(issues, issue);
    var r := Removed(issues, issue);
    forall x ensures x in r <==> x in issues && x != issue {
      if x in issues && x != issue {
        var k :| 0 <= k < |issues| && issues[k] == x;
        assert r[if k < i then k else k - 1] == x;
      }
    }
    assert forall k :: 0 <= k < |r| ==> r[k] == issues[if k < i then k else k + 1];
  }

  /** A user's list after tracking or untracking an issue; anything else about the user stays, but for the times when
      the
      list changed. */
  ghost predicate Relisted(u: User, u': User, project: string, tracked: seq<string>, now: string) {
    && project in u'.projects && u'.projects[project].tracked == tracked
    && u'.projects - {project} == u.projects - {project}
    && u' == u.(projects := u'.projects, lastSeen := u'.lastSeen)
    && (if tracked == Tracked(u, project) then u' == u
        else u'.projects[project].lastActivity == now && u'.lastSeen == now
             && u'.projects[project].name == if project in u.projects then u.projects[project].name else project)
  }

  lemma {:induction false} RemovedWithout(issues: seq<string>, issue: string)
    requires NoRepeats(issues) && issue in issues
    ensures Removed(issues, issue) == Without(issues, [issue])
    ensures Removed(issues, issue) != issues
  {
    var n := |issues| - 1;
    var front, last := issues[..n], issues[n];
    assert issues == front + [last];
    FrontUnrepeated(issues);
    if last == issue {
      OthersKept(front, issue);
      FirstIndexLast(front, last);
    } else {
      RemovedWithout(front, issue);
      FirstIndexFront(front, last, issue);
      CutSnoc(front, last, FirstIndex(front, issue));
    }
  }

  lemma CutSnoc(front: seq<string>, last: string, i: nat)
    requires i < |front|
    ensures (front + [last])[..i] + (front + [last])[i + 1..] == front[..i] + front[i + 1..] + [last]
  {
  }

  lemma {:induction false} OthersKept(issues: seq<string>, issue: string)
    requires issue !in issues
    ensures Without(issues, [issue]) == issues
  {
    if issues != [] {
      OthersKept(issues[..|issues| - 1], issue);
      assert issues == issues[..|issues| - 1] + [issues[|issues| - 1]];
    }
  }

  lemma {:induction false} FirstIndexLast(front: seq<string>, last: string)
    requires last !in front
    ensures FirstIndex(front + [last], last) == |front|
  {
    if front != [] {
      assert (front + [last])[1..] == front[1..] + [last];
      FirstIndexLast(front[1..], last);
    }
  }

  lemma {:induction false} FirstIndexFront(front: seq<string>, last: string, issue: string)
    requires issue in front
    ensures FirstIndex(front + [last], issue) == FirstIndex(front, issue)
  {
    if front[0] != issue {
      assert (front + [last])[1..] == front[1..] + [last];
      FirstIndexFront(front[1..], last, issue);
    }
  }

  /** Tracking adds exactly the one user to the trackers of exactly the one issue, at the end of the user's list. */
  lemma TrackMeaning(s: Store, id: string, project: string, issue: string, now: string, other: string, number: string)
    requires Consistent(s) && Tidy(s) && id in s.users
    ensures var s' := Track(s, id, project, issue, now).value;
            && Consistent(s') && Tidy(s') && s'.idMap == s.idMap
            && s'.users.Keys == s.users.Keys && s'.users - {id} == s.users - {id}
            && Relisted(s.users[id], s'.users[id], project,
                        var tracked := Tracked(s.users[id], project);
                        if issue in tracked then tracked else tracked + [issue], now)
            && Trackers(s', other, number)
               == Trackers(s, other, number) + (if other == project && number == issue then {id} else {})
  {
    hide Consistent, IdKey;
    ConsistentBasics(s, id);
    TouchKeeps(s, Track(s, id, project, issue, now).value.users[id], id);
  }

  /** Untracking takes exactly that user off exactly that issue, and says whether it did; the rest of the user's list
      keeps its order. */
  lemma UntrackMeaning(s: Store, id: string, project: string, issue: string, now: string, other: string, number: string)
    requires Consistent(s) && Tidy(s)
    ensures var (s', done) := Untrack(s, id, project, issue, now);
            && Consistent(s') && Tidy(s') && s'.idMap == s.idMap && (done <==> id in Trackers(s, project, issue))
            && s'.users.Keys == s.users.Keys && s'.users - {id} == s.users - {id}
            && (!done ==> s' == s)
            && (done ==> Relisted(s.users[id], s'.users[id], project,
                                  Without(Tracked(s.users[id], project), [issue]), now))
            && Trackers(s', other, number)
               == Trackers(s, other, number) - (if other == project && number == issue then {id} else {})
  {
    hide Consistent, IdKey, Removed;
    if id in s.users && Tracks(s.users[id], project, issue) {
      ConsistentBasics(s, id);
      RemovedOnce(s.users[id].projects[project].tracked, issue);
      RemovedWithout(s.users[id].projects[project].tracked, issue);
      TouchKeeps(s, Untrack(s, id, project, issue, now).0.users[id], id);
    }
  }

  // ----- merging -----

  function Later(a: string, b: string): string { if Less(a, b) then b else a }

  function MergedProject(a: Project, b: Project): Project {
    a.(tracked := Dedup(a.tracked + b.tracked), lastActivity := Later(a.lastActivity, b.lastActivity))
  }

  function MergedProjects(into: map<string, Project>, from: map<string, Project>): map<string, Project> {
    map name | name in into.Keys + from.Keys ::
      if name !in from then into[name] else if name !in into then from[name] else MergedProject(into[name], from[name])
  }

  /** An identity moves unless a third user owns its key. */
  predicate Moves(s: Store, key: string, target: string, source: string) {
    Owner(s, key) in {"", source, target}
  }

  function MovingIdentities(s: Store, src: User, target: string, source: string): map<string, string> {
    map p | p in src.identities && Moves(s, IdKey(p, src.identities[p]), target, source) :: src.identities[p]
  }

  function MergedMap(s: Store, src: User, target: string, source: string): map<string, string> {
    var moved := s.idMap + (map key | key in Keys(MovingIdentities(s, src, target, source)) :: target);
    map key | key in moved :: if moved[key] == source then target else moved[key]
  }

  function MergedUser(s: Store, t: User, src: User, target: string, source: string): User {
    t.(identities := t.identities + MovingIdentities(s, src, target, source),
       username := if !Truthy(t.username) && Truthy(src.username) then src.username else t.username,
       firstName := if !Truthy(t.firstName) && Truthy(src.firstName) then src.firstName else t.firstName,
       projects := MergedProjects(t.projects, src.projects),
       lastSeen := Later(t.lastSeen, src.lastSeen))
  }

  /** The part of merge_users that moves everything from `src` to `t`; the two are one object after a renaming. */
  function MergeInto(s: Store, t: User, src: User, target: string, source: string): Store {
    Store(s.users[target := MergedUser(s, t, src, target, source)] - {source}, MergedMap(s, src, target, source))
  }

  /** merge_users: the new store, the answer, and whether the store was written; `loaded` is what reloading yields. */
  function MergeUsers(s: Store, loaded: Store, targetId: string, sourceId: string): (Store, Result<string>, bool) {
    var target, source := Strip(targetId), Strip(sourceId);
    if target == "" then (s, MissingTarget, false)
    else if source == "" || source == target then (s, Ok(target), false)
    else
      var at := if target !in s.users && source !in s.users then loaded else s;
      if target !in at.users && source !in at.users then (at, UnknownUser, false)
      else if source !in at.users then (at, Ok(target), false)
      else (Merged(at, target, source), Ok(target), true)
  }

  /** The two cases with a source user: a missing target takes the source over under its own id. */
  function Merged(s: Store, target: string, source: string): (r: Store)
    requires source in s.users && target != source
    ensures r.users.Keys == s.users.Keys - {source} + {target}
  {
    hide MergedUser, MergedMap;
    if target in s.users then MergeInto(s, s.users[target], s.users[source], target, source)
    else
      var renamed := s.users[source].(nexusId := target);
      MergeInto(s, renamed, renamed, target, source)
  }

  function Redirected(owner: string, target: string, source: string): string {
    if owner == source then target else owner
  }

  /** The identity map after a merge: the same keys, the source's now the target's. */
  lemma MergedMapMeaning(s: Store, src: User, target: string, source: string)
    requires Consistent(s) && source in s.users && src.identities == s.users[source].identities && target != source
    ensures MovingIdentities(s, src, target, source) == src.identities
    ensures MergedMap(s, src, target, source).Keys == s.idMap.Keys
    ensures forall key :: key in s.idMap ==>
            MergedMap(s, src, target, source)[key] == Redirected(s.idMap[key], target, source)
  {
    hide IdKey;
    forall p | p in src.identities
      ensures var key := IdKey(p, src.identities[p]); key in s.idMap && s.idMap[key] == source
    {
      assert HasKey(s.users[source], IdKey(p, src.identities[p]));
    }
  }

  /** Whose entry the target takes over: its own, or a missing target's renamed source. */
  function TargetUser(s: Store, target: string, source: string): User
    requires source in s.users
  {
    if target in s.users then s.users[target] else s.users[source].(nexusId := target)
  }

  lemma MergedParts(s: Store, target: string, source: string)
    requires Consistent(s) && source in s.users && target != source && target != ""
    ensures var r, t := Merged(s, target, source), TargetUser(s, target, source);
            && r.users.Keys == s.users.Keys - {source} + {target}
            && r.users - {target} == s.users - {target, source}
            && r.users[target].nexusId == target
            && r.users[target].identities == t.identities + s.users[source].identities
            && r.idMap.Keys == s.idMap.Keys
            && (forall key :: key in s.idMap ==> r.idMap[key] == Redirected(s.idMap[key], target, source))
  {
    hide IdKey, MergedMap, MovingIdentities, MergedProjects, Less, Redirected;
    var src := if target in s.users then s.users[source] else s.users[source].(nexusId := target);
    MergedMapMeaning(s, src, target, source);
  }

  /** What the target holds after a merge: its own things, over them the source's identities, the source's names where
      it has none, both users' projects, and the later of the times last seen. */
  ghost predicate Joined(t: User, src: User, r: User) {
    && r.nexusId == t.nexusId && r.createdAt == t.createdAt
    && r.identities == t.identities + src.identities
    && r.username == (if Truthy(t.username) || !Truthy(src.username) then t.username else src.username)
    && r.firstName == (if Truthy(t.firstName) || !Truthy(src.firstName) then t.firstName else src.firstName)
    && r.projects.Keys == t.projects.Keys + src.projects.Keys
    && (forall name :: name in r.projects ==> JoinedProject(t.projects, src.projects, name, r.projects[name]))
    && IsLater(r.lastSeen, t.lastSeen, src.lastSeen)
  }

  predicate IsLater(r: string, a: string, b: string) { r in {a, b} && !Less(r, a) && !Less(r, b) }

  predicate JoinedProject(into: map<string, Project>, from: map<string, Project>, name: string, r: Project) {
    if name in into && name in from then
      r.name == into[name].name && IsLater(r.lastActivity, into[name].lastActivity, from[name].lastActivity)
    else (name in into ==> r == into[name]) && (name in from ==> r == from[name])
  }

  lemma LaterIsLater(a: string, b: string)
    ensures IsLater(Later(a, b), a, b)
  {
    LessTotal(a, b);
    LessTotal(a, a);
    LessTotal(b, b);
  }

  lemma MergedJoined(s: Store, target: string, source: string)
    requires Consistent(s) && source in s.users && target != source && target != ""
    ensures Joined(TargetUser(s, target, source), s.users[source], Merged(s, target, source).users[target])
  {
    hide IdKey, MergedMap, MovingIdentities, Less, Later, IsLater, Consistent;
    var t := TargetUser(s, target, source);
    var src := if target in s.users then s.users[source] else t;
    MergedMapMeaning(s, src, target, source);
    LaterIsLater(t.lastSeen, src.lastSeen);
    forall name | name in t.projects && name in src.projects
      ensures var a, b := t.projects[name].lastActivity, src.projects[name].lastActivity; IsLater(Later(a, b), a, b)
    {
      LaterIsLater(t.projects[name].lastActivity, src.projects[name].lastActivity);
    }
  }

  /** Merging, with or without renaming: the store stays consistent, exactly the keys owned by source or target
      resolve to target, the target has what both had, the source is gone, and every other user is as before. */
  lemma MergeMeaning(s: Store, target: string, source: string)
    requires Consistent(s) && source in s.users && target != source && target != ""
    ensures var r := Merged(s, target, source);
            && Consistent(r)
            && r.idMap.Keys == s.idMap.Keys
            && (forall key :: key in s.idMap ==> (r.idMap[key] == target <==> s.idMap[key] in {source, target}))
            && (forall key :: key in s.idMap && s.idMap[key] !in {source, target} ==> r.idMap[key] == s.idMap[key])
            && r.users.Keys == s.users.Keys - {source} + {target}
            && r.users - {target} == s.users - {target, source}
            && Joined(TargetUser(s, target, source), s.users[source], r.users[target])
  {
    hide IdKey, Merged, HasKey, Joined, TargetUser;
    MergedJoined(s, target, source);
    var r := Merged(s, target, source);
    MergedParts(s, target, source);
    assert forall id :: id in r.users - {target} ==> r.users[id] == (r.users - {target})[id];
    forall id, key | id in r.users && HasKey(r.users[id], key) ensures key in r.idMap && r.idMap[key] == id {
      KeyAfterMerge(s, target, source, id, key);
    }
  }

  lemma KeyAfterMerge(s: Store, target: string, source: string, id: string, key: string)
    requires Consistent(s) && source in s.users && target != source && target != ""
    requires id in Merged(s, target, source).users && HasKey(Merged(s, target, source).users[id], key)
    ensures key in s.idMap && Redirected(s.idMap[key], target, source) == id
  {
    hide IdKey, Merged;
    MergedParts(s, target, source);
    var r := Merged(s, target, source);
    var p :| p in r.users[id].identities && IdKey(p, r.users[id].identities[p]) == key;
    if id != target {
      assert r.users[id] == (r.users - {target})[id] == s.users[id];
      assert HasKey(s.users[id], key);
    } else if p in s.users[source].identities || target !in s.users {
      assert HasKey(s.users[source], key);
    } else {
      assert HasKey(s.users[target], key);
    }
  }

  lemma MergedList(s: Store, target: string, source: string, name: string)
    requires Tidy(s) && source in s.users && target != source
    ensures var first, second := Tracked(TargetUser(s, target, source), name), Tracked(s.users[source], name);
            Tracked(Merged(s, target, source).users[target], name) == first + Without(second, first)
    ensures NoRepeats(Tracked(Merged(s, target, source).users[target], name))
  {
    hide IdKey, MergedMap, MovingIdentities, Less, Dedup, Without;
    var first, second := Tracked(TargetUser(s, target, source), name), Tracked(s.users[source], name);
    TidyList(s, source, name);
    if target in s.users { TidyList(s, target, name); }
    DedupJoins(first, second);
    DedupSame(first + second);
    DedupSame(second);
    assert [] + second == second;
    assert second == [] ==> Without(second, first) == [] && first + [] == first by { NothingWithout(first); }
  }

  lemma TidyList(s: Store, id: string, name: string)
    requires Tidy(s) && id in s.users
    ensures NoRepeats(Tracked(s.users[id], name))
  {
    if name in s.users[id].projects {
      assert NoRepeats(s.users[id].projects[name].tracked);
    }
  }

  lemma NothingWithout(known: seq<string>)
    ensures Without([], known) == []
  {
  }

  /** The lists of the merged user: duplicate-free unions, the target's issues first. */
  lemma MergeLists(s: Store, target: string, source: string, project: string)
    requires Tidy(s) && source in s.users && target != source
    ensures var r := Merged(s, target, source);
            var first := Tracked(TargetUser(s, target, source), project);
            && Tidy(r)
            && Tracked(r.users[target], project) == first + Without(Tracked(s.users[source], project), first)
  {
    hide IdKey, MergedMap, MovingIdentities, MergedUser, TargetUser, Without;
    var r := Merged(s, target, source);
    MergedList(s, target, source, project);
    forall id, name | id in r.users && name in r.users[id].projects
        ensures NoRepeats(r.users[id].projects[name].tracked) {
      if id == target {
        MergedList(s, target, source, name);
      } else {
        assert r.users[id] == s.users[id];
      }
    }
  }

  /** An issue is tracked after a merge by whoever tracked it before, the target standing in for the source. */
  lemma MergeTrackers(s: Store, target: string, source: string, project: string, issue: string)
    requires Tidy(s) && source in s.users && target != source
    ensures Trackers(Merged(s, target, source), project, issue)
         == (set id | id in Trackers(s, project, issue) :: Redirected(id, target, source))
  {
    hide IdKey, MergedMap, MovingIdentities, MergedUser, Less, Tidy;
    var r := Merged(s, target, source);
    MergeLists(s, target, source, project);
    var first := Tracked(TargetUser(s, target, source), project);
    WithoutMembers(Tracked(s.users[source], project), first, issue);
    forall id ensures id in Trackers(r, project, issue) <==>
                      id in (set i | i in Trackers(s, project, issue) :: Redirected(i, target, source))
    {
      if id == target {
        assert Redirected(source, target, source) == target == Redirected(target, target, source);
      } else if id in r.users {
        assert r.users[id] == s.users[id] && Redirected(id, target, source) == id;
      }
    }
  }

  lemma {:induction false} WithoutMembers(issues: seq<string>, known: seq<string>, issue: string)
    ensures issue in Without(issues, known) <==> issue in issues && issue !in known
  {
    if issues != [] {
      WithoutMembers(issues[..|issues| - 1], known, issue);
      assert issues == issues[..|issues| - 1] + [issues[|issues| - 1]];
    }
  }

  /** merge_users as called: what it answers in every case, and that merging the same pair again changes nothing. */
  lemma MergeUsersMeaning(s: Store, loaded: Store, targetId: string, sourceId: string)
    requires Consistent(s) && Consistent(loaded)
    ensures var (r, answer, wrote) := MergeUsers(s, loaded, targetId, sourceId);
            var target, source := Strip(targetId), Strip(sourceId);
            && Consistent(r)
            && (answer == MissingTarget <==> target == "")
            && (answer == UnknownUser <==>
                  && target != "" && source !in {"", target}
                  && {target, source} !! s.users.Keys && {target, source} !! loaded.users.Keys)
            && (answer.Ok? ==> answer.value == target)
            && (wrote ==> target in r.users && source !in r.users
                          && MergeUsers(r, loaded, targetId, sourceId) == (r, Ok(target), false))
            && (!wrote ==> r in {s, loaded})
  {
    hide Consistent, Merged, Strip;
    var target, source := Strip(targetId), Strip(sourceId);
    var at := if target !in s.users && source !in s.users then loaded else s;
    if target != "" && source != "" && source != target && source in at.users {
      MergeMeaning(at, target, source);
    }
  }
}

/** Saving and loading the user store, and runs of its operations. */
module UserPersistence {
  import opened Text
  import opened UserStore

  /** A user's JSON record; identity values may be null. */
  datatype UserRecord = UserRecord(
    nexusId: string,
    identities: map<string, Option<string>>,
    username: Option<string>,
    firstName: Option<string>,
    projects: map<string, Project>,
    createdAt: string,
    lastSeen: string)

  /** The stored payload; user records in file order. */
  datatype Payload = Payload(users: seq<(string, UserRecord)>, idMap: map<string, string>)

  function HydrateUser(id: string, r: UserRecord): User {
    User(id, map p | p in r.identities && p != "" && r.identities[p].Some? :: r.identities[p].value,
         r.username, r.firstName, r.projects, r.createdAt, r.lastSeen)
  }

  function HydrateUsers(records: seq<(string, UserRecord)>): Store {
    if records == [] then EMPTY
    else
      var s := HydrateUsers(records[..|records| - 1]);
      var (id, r) := records[|records| - 1];
      var u := HydrateUser(id, r);
      Store(s.users[id := u], s.idMap + (map key | key in Keys(u.identities) :: id))
  }

  /** _hydrate_from_payload: the map is derived from the identities, then overridden by persisted entries of live
      users. */
  function Hydrate(p: Payload): Store {
    var s := HydrateUsers(p.users);
    s.(idMap := s.idMap + (map key | key in p.idMap && p.idMap[key] in s.users :: p.idMap[key]))
  }

  function Record(u: User): UserRecord {
    UserRecord(u.nexusId, map p | p in u.identities :: Some(u.identities[p]),
               u.username, u.firstName, u.projects, u.createdAt, u.lastSeen)
  }

  /** _serialize_payload, in the order of the users dictionary. */
  function Serialize(s: Store, order: seq<string>): (p: Payload)
    requires forall id :: id in order ==> id in s.users
    ensures p.idMap == s.idMap && |p.users| == |order|
    ensures forall i :: 0 <= i < |order| ==> p.users[i] == (order[i], Record(s.users[order[i]]))
  {
    Payload(seq(|order|, i requires 0 <= i < |order| => (order[i], Record(s.users[order[i]]))), s.idMap)
  }

  function Unblanked(u: User): User { u.(identities := u.identities - {""}) }

  /** The store without identities on a blank platform. */
  function DropBlank(s: Store): Store {
    s.(users := map id | id in s.users :: Unblanked(s.users[id]))
  }

  ghost predicate NoBlank(s: Store) {
    forall id :: id in s.users ==> "" !in s.users[id].identities
  }

  lemma HydrateRecord(id: string, u: User)
    requires u.nexusId == id
    ensures HydrateUser(id, Record(u)) == Unblanked(u)
  {
    assert HydrateUser(id, Record(u)).identities == u.identities - {""};
  }

  /** What is read back is right so far: users without blank identities, and a map that says nothing the store does
      not. */
  ghost predicate ReadBack(h: Store, s: Store) {
    && (forall id :: id in h.users ==> id in s.users && h.users[id] == Unblanked(s.users[id]))
    && (forall key :: key in h.idMap ==> key in s.idMap && h.idMap[key] == s.idMap[key])
  }

  lemma {:induction false} HydratePrefix(s: Store, order: seq<string>, n: nat)
    requires Consistent(s) && Lists(order, s.users.Keys) && n <= |order|
    ensures var h := HydrateUsers(Serialize(s, order).users[..n]);
            ReadBack(h, s) && (forall id :: id in h.users <==> id in order[..n])
  {
    hide HydrateUser, HydrateUsers, Record, Serialize, ReadBack, Keys, Consistent;
    var records := Serialize(s, order).users;
    if n == 0 {
      assert records[..0] == [] && HydrateUsers([]) == EMPTY by { HydrateNothing(); }
      assert ReadBack(EMPTY, s) by { NothingRead(s); }
    } else {
      HydratePrefix(s, order, n - 1);
      var id := order[n - 1];
      assert id in s.users;
      HydrateSnoc(records, n);
      assert records[n - 1] == (id, Record(s.users[id]));
      assert order[..n] == order[..n - 1] + [id];
      ReadOne(HydrateUsers(records[..n - 1]), s, id);
    }
  }

  lemma HydrateNothing()
    ensures HydrateUsers([]) == EMPTY
  {
  }

  lemma HydrateSnoc(records: seq<(string, UserRecord)>, n: nat)
    requires 0 < n <= |records|
    ensures var s, id := HydrateUsers(records[..n - 1]), records[n - 1].0;
            var u := HydrateUser(id, records[n - 1].1);
            HydrateUsers(records[..n]) == Store(s.users[id := u], s.idMap + (map key | key in Keys(u.identities) :: id))
  {
    hide HydrateUser, Keys;
    assert records[..n][..n - 1] == records[..n - 1];
  }

  lemma NothingRead(s: Store)
    ensures ReadBack(EMPTY, s)
  {
  }

  lemma ReadOne(h: Store, s: Store, id: string)
    requires Consistent(s) && ReadBack(h, s) && id in s.users
    ensures var u := HydrateUser(id, Record(s.users[id]));
            ReadBack(Store(h.users[id := u], h.idMap + (map key | key in Keys(u.identities) :: id)), s)
  {
    hide IdKey, Unblanked, HydrateUser, Record, Keys, HasKey;
    HydrateRecord(id, s.users[id]);
    UnblankedKeys(s, id);
  }

  lemma UnblankedKeys(s: Store, id: string)
    requires Consistent(s) && id in s.users
    ensures forall key :: key in Keys(Unblanked(s.users[id]).identities) ==> key in s.idMap && s.idMap[key] == id
  {
    hide IdKey;
    forall key | key in Keys(Unblanked(s.users[id]).identities) ensures key in s.idMap && s.idMap[key] == id {
      assert HasKey(s.users[id], key);
    }
  }

  lemma MapRestored(h: Store, s: Store)
    requires Consistent(s) && h.users.Keys == s.users.Keys
    requires forall key :: key in h.idMap ==> key in s.idMap && h.idMap[key] == s.idMap[key]
    ensures h.idMap + (map key | key in s.idMap && s.idMap[key] in h.users :: s.idMap[key]) == s.idMap
  {
    hide HasKey;
  }

  /** Loading what was saved gives the store back, but for identities on a blank platform. */
  lemma Reloaded(s: Store, order: seq<string>)
    requires Consistent(s) && Lists(order, s.users.Keys)
    ensures Hydrate(Serialize(s, order)) == DropBlank(s)
  {
    hide Unblanked, HydrateUsers, Consistent, IdKey, Serialize, Record;
    var records := Serialize(s, order).users;
    HydratePrefix(s, order, |order|);
    assert records[..|order|] == records && order[..|order|] == order;
    var h := HydrateUsers(records);
    assert h.users.Keys == s.users.Keys;
    MapRestored(h, s);
    assert h.users == DropBlank(s).users;
  }

  /** The round trip is exact exactly for stores without an identity on a blank platform. */
  lemma RoundTripIff(s: Store, order: seq<string>)
    requires Consistent(s) && Lists(order, s.users.Keys)
    ensures Hydrate(Serialize(s, order)) == s <==> NoBlank(s)
  {
    hide Hydrate, Serialize, Consistent;
    Reloaded(s, order);
    if NoBlank(s) {
      assert forall id :: id in s.users ==> Unblanked(s.users[id]) == s.users[id];
      assert DropBlank(s).users == s.users;
    } else {
      var id :| id in s.users && "" in s.users[id].identities;
      assert "" !in DropBlank(s).users[id].identities;
    }
  }

  /** A blank platform comes from creating a user for one; reloading drops that identity but not its key. */
  lemma BlankLost(platform: string, value: string, uuid: string)
    requires Platform(platform) == "" && uuid != ""
    ensures var s := GetOrCreate(EMPTY, platform, value, None, None, "", uuid).0;
            && s.users.Keys == {uuid} && Hydrate(Serialize(s, [uuid])) != s
            && Owner(Hydrate(Serialize(s, [uuid])), IdKey(platform, value)) == uuid
  {
    hide Hydrate, Serialize, Strip, Consistent;
    NothingConsistent();
    var s := GetOrCreate(EMPTY, platform, value, None, None, "", uuid).0;
    GetOrCreateMeaning(EMPTY, platform, value, None, None, "", uuid);
    assert "" in s.users[uuid].identities;
    RoundTripIff(s, [uuid]);
    Reloaded(s, [uuid]);
  }

  lemma NothingConsistent()
    ensures Consistent(EMPTY) && Tidy(EMPTY) && NoBlank(EMPTY)
  {
  }

  lemma DropBlankKeeps(s: Store)
    requires Consistent(s)
    ensures Consistent(DropBlank(s)) && NoBlank(DropBlank(s)) && (Tidy(s) ==> Tidy(DropBlank(s)))
  {
    hide IdKey;
    forall id, key | id in s.users && HasKey(Unblanked(s.users[id]), key) ensures key in s.idMap && s.idMap[key] == id {
      assert HasKey(s.users[id], key);
    }
  }

  // ----- runs -----

  /** The manager's memory and the stored payload; the file holds the serialised form of `disk`, None when absent. */
  datatype World = World(mem: Store, disk: Option<Store>)

  /** What a successful load yields. */
  function Loaded(w: World): Store { if w.disk.None? then EMPTY else DropBlank(w.disk.value) }

  datatype Op =
    | Link(id: string, platform: string, value: string)
    | Meet(platform: string, value: string, username: Option<string>, firstName: Option<string>, uuid: string)
    | TrackIssue(id: string, project: string, issue: string)
    | UntrackIssue(id: string, project: string, issue: string)
    | Merge(target: string, source: string)
    | Reload(readable: bool)

  /** The memory after an operation and whether the operation saves. */
  function Apply(w: World, op: Op, now: string): (Store, bool) {
    match op
    case Link(id, platform, value) =>
      var r := LinkIdentity(w.mem, id, platform, value, now);
      if r.Ok? then (r.value, true) else (w.mem, false)
    case Meet(platform, value, username, firstName, uuid) =>
      (GetOrCreate(w.mem, platform, value, username, firstName, now, uuid).0, true)
    case TrackIssue(id, project, issue) =>
      var r := Track(w.mem, id, project, issue, now);
      if r.Ok? then (r.value, !Tracks(w.mem.users[id], project, issue)) else (w.mem, false)
    case UntrackIssue(id, project, issue) => Untrack(w.mem, id, project, issue, now)
    case Merge(target, source) =>
      var (s, _, wrote) := MergeUsers(w.mem, Loaded(w), target, source);
      (s, wrote)
    case Reload(readable) => (if readable then Loaded(w) else EMPTY, false)
  }

  /** An operation, the clock, and whether its save reaches the file. */
  datatype Event = Event(op: Op, now: string, saved: bool)

  function Step(w: World, e: Event): World {
    var (s, wrote) := Apply(w, e.op, e.now);
    World(s, if wrote && e.saved then Some(s) else w.disk)
  }

  function Run(events: seq<Event>): World {
    if events == [] then World(EMPTY, None)
    else Step(Run(events[..|events| - 1]), events[|events| - 1])
  }

  /** uuid4 answers are non-empty and new. */
  ghost predicate NewIds(events: seq<Event>) {
    events != [] ==>
      && NewIds(events[..|events| - 1])
      && var op := events[|events| - 1].op;
         op.Meet? ==> op.uuid != "" && op.uuid !in Run(events[..|events| - 1]).mem.users
  }

  ghost predicate Sound(s: Store) { Consistent(s) && Tidy(s) }

  ghost predicate SoundWorld(w: World) { Sound(w.mem) && (w.disk.Some? ==> Sound(w.disk.value)) }

  lemma TidyAfter(s: Store, s': Store, id: string)
    requires Tidy(s) && id in s'.users && s'.users - {id} == s.users - {id}
    requires forall name :: name in s'.users[id].projects ==>
               id in s.users && name in s.users[id].projects
                   && s'.users[id].projects[name] == s.users[id].projects[name]
    ensures Tidy(s')
  {
    assert forall i :: i in s'.users && i != id ==> i in s'.users - {id} && s'.users[i] == (s.users - {id})[i];
  }

  lemma LinkSound(s: Store, id: string, platform: string, value: string, now: string)
    requires Sound(s) && LinkIdentity(s, id, platform, value, now).Ok?
    ensures Sound(LinkIdentity(s, id, platform, value, now).value)
  {
    hide LinkIdentity, Consistent, Tidy;
    LinkMeaning(s, id, platform, value, now);
    TidyAfter(s, LinkIdentity(s, id, platform, value, now).value, id);
  }

  lemma MeetSound(s: Store, platform: string, value: string, username: Option<string>, firstName: Option<string>,
                  now: string, uuid: string)
    requires Sound(s) && uuid != "" && uuid !in s.users
    ensures Sound(GetOrCreate(s, platform, value, username, firstName, now, uuid).0)
  {
    hide Consistent, Tidy, Strip, Platform, IdKey;
    GetOrCreateMeaning(s, platform, value, username, firstName, now, uuid);
    var (s', id) := GetOrCreate(s, platform, value, username, firstName, now, uuid);
    TidyAfter(s, s', id);
  }

  lemma MergeSound(s: Store, loaded: Store, target: string, source: string)
    requires Sound(s) && Sound(loaded)
    ensures Sound(MergeUsers(s, loaded, target, source).0)
  {
    hide Consistent, Tidy, Strip, Merged;
    MergeUsersMeaning(s, loaded, target, source);
    var t, f := Strip(target), Strip(source);
    var at := if t !in s.users && f !in s.users then loaded else s;
    if t != "" && f != "" && f != t && f in at.users {
      MergeLists(at, t, f, "");
    }
  }

  lemma StepSound(w: World, e: Event)
    requires SoundWorld(w)
    requires e.op.Meet? ==> e.op.uuid != "" && e.op.uuid !in w.mem.users
    ensures SoundWorld(Step(w, e))
  {
    hide Sound, LinkIdentity, GetOrCreate, MergeUsers, Track, Untrack, DropBlank;
    LoadedSound(w);
    match e.op
    case Link(id, platform, value) =>
      if LinkIdentity(w.mem, id, platform, value, e.now).Ok? { LinkSound(w.mem, id, platform, value, e.now); }
    case Meet(platform, value, username, firstName, uuid) =>
      MeetSound(w.mem, platform, value, username, firstName, e.now, uuid);
    case TrackIssue(id, project, issue) => TrackSound(w.mem, id, project, issue, e.now);
    case UntrackIssue(id, project, issue) => TrackSound(w.mem, id, project, issue, e.now);
    case Merge(target, source) => MergeSound(w.mem, Loaded(w), target, source);
    case Reload(_) => NothingConsistent();
  }

  lemma LoadedSound(w: World)
    requires SoundWorld(w)
    ensures Sound(Loaded(w)) && Sound(EMPTY) && NoBlank(Loaded(w))
  {
    hide Consistent, Tidy, NoBlank, DropBlank;
    NothingConsistent();
    if w.disk.Some? {
      DropBlankKeeps(w.disk.value);
    }
  }

  lemma TrackSound(s: Store, id: string, project: string, issue: string, now: string)
    requires Sound(s)
    ensures Track(s, id, project, issue, now).Ok? ==> id in s.users && Sound(Track(s, id, project, issue, now).value)
    ensures Sound(Untrack(s, id, project, issue, now).0)
  {
    hide Consistent, Tidy, Untrack;
    UntrackMeaning(s, id, project, issue, now, project, issue);
    if id in s.users {
      TrackMeaning(s, id, project, issue, now, project, issue);
    }
  }

  /** Over every run of operations, reloads, lost saves and unreadable files, the store in memory and the one on disk
      stay consistent, with no issue tracked twice. */
  lemma {:induction false} RunSound(events: seq<Event>)
    requires NewIds(events)
    ensures SoundWorld(Run(events))
  {
    hide Sound, Step;
    if events == [] {
      NothingConsistent();
      assert Sound(EMPTY) by { EmptySound(); }
    } else {
      RunSound(events[..|events| - 1]);
      StepSound(Run(events[..|events| - 1]), events[|events| - 1]);
    }
  }

  lemma EmptySound()
    ensures Sound(EMPTY)
  {
  }

  // ----- resolving -----

  /** resolve_nexus_id: reloads when the file changed, and again on a miss. */
  function Resolve(w: World, changed: bool, platform: string, value: string): (Store, Option<string>) {
    var key := IdKey(platform, value);
    var at := if changed then Loaded(w) else w.mem;
    if key in at.idMap then (at, Some(at.idMap[key]))
    else (Loaded(w), if key in Loaded(w).idMap then Some(Loaded(w).idMap[key]) else None)
  }

  /** With the last save on disk, resolving answers from the map in memory; the reloads change the memory only by the
      identities on blank platforms. */
  lemma ResolveMeaning(w: World, changed: bool, platform: string, value: string)
    requires Consistent(w.mem) && w.disk == Some(w.mem)
    ensures var (s, r) := Resolve(w, changed, platform, value);
            var key := IdKey(platform, value);
            && r == (if key in w.mem.idMap then Some(w.mem.idMap[key]) else None)
            && (NoBlank(w.mem) ==> s == w.mem)
            && s.idMap == w.mem.idMap && s.users.Keys == w.mem.users.Keys
  {
    hide Consistent, IdKey;
    if NoBlank(w.mem) {
      assert forall id :: id in w.mem.users ==> Unblanked(w.mem.users[id]) == w.mem.users[id];
      assert DropBlank(w.mem).users == w.mem.users;
    }
  }

  // ----- runs whose saves all arrive -----

  /** Memory and disk agree, and nobody has an identity on a blank platform. */
  ghost predicate Current(w: World) {
    NoBlank(w.mem) && (if w.disk.None? then w.mem == EMPTY else w.disk.value == w.mem)
  }

  /** Saves arrive, loads succeed, and no user is created for a blank platform. */
  ghost predicate Healthy(e: Event) {
    e.saved && (e.op.Reload? ==> e.op.readable) && (e.op.Meet? ==> Platform(e.op.platform) != "")
  }

  lemma LoadedCurrent(w: World)
    requires Current(w)
    ensures Loaded(w) == w.mem
  {
    assert forall id :: id in w.mem.users ==> Unblanked(w.mem.users[id]) == w.mem.users[id];
    assert DropBlank(w.mem).users == w.mem.users;
  }

  lemma BlanklessUser(s: Store, s': Store, id: string)
    requires NoBlank(s) && id in s'.users && "" !in s'.users[id].identities
    requires forall i :: i in s'.users && i != id ==> i in s.users && s'.users[i] == s.users[i]
    ensures NoBlank(s')
  {
  }

  lemma MergedBlankless(s: Store, target: string, source: string)
    requires NoBlank(s) && source in s.users && target != source
    ensures NoBlank(Merged(s, target, source))
  {
    hide IdKey, MergedMap, MergedProjects, Moves;
    BlanklessUser(s, Merged(s, target, source), target);
  }

  lemma StepCurrent(w: World, e: Event)
    requires Current(w) && Healthy(e)
    ensures Current(Step(w, e))
  {
    hide IdKey, DropBlank, Platform, Merged, Strip;
    LoadedCurrent(w);
    var s := Apply(w, e.op, e.now).0;
    match e.op
    case Link(id, platform, value) =>
      if LinkIdentity(w.mem, id, platform, value, e.now).Ok? { BlanklessUser(w.mem, s, id); }
    case Meet(platform, value, username, firstName, uuid) =>
      BlanklessUser(w.mem, s, GetOrCreate(w.mem, platform, value, username, firstName, e.now, uuid).1);
    case TrackIssue(id, project, issue) =>
      if id in w.mem.users {
        BlanklessUser(w.mem, s, id);
        if Tracks(w.mem.users[id], project,
            issue) { assert s.users[id] == w.mem.users[id]; assert s.users == w.mem.users; }
      }
    case UntrackIssue(id, project, issue) =>
      if id in w.mem.users { BlanklessUser(w.mem, s, id); }
    case Merge(target, source) =>
      if Apply(w, e.op, e.now).1 { MergedBlankless(w.mem, Strip(target), Strip(source)); }
    case Reload(_) =>
  }

  /** While all saves arrive, all loads succeed and no platform is blank, memory and disk agree after every operation,
      and resolving any identity, missing or not, leaves the memory as it is. */
  lemma {:induction false} RunCurrent(events: seq<Event>, changed: bool, platform: string, value: string)
    requires NewIds(events) && forall i :: 0 <= i < |events| ==> Healthy(events[i])
    ensures Current(Run(events))
    ensures Resolve(Run(events), changed, platform, value).0 == Run(events).mem
  {
    hide Step, Current, Loaded, IdKey;
    if events == [] {
      assert Current(World(EMPTY, None)) by { EmptyCurrent(); }
    } else {
      RunCurrent(events[..|events| - 1], changed, platform, value);
      StepCurrent(Run(events[..|events| - 1]), events[|events| - 1]);
    }
    LoadedCurrent(Run(events));
  }

  lemma EmptyCurrent()
    ensures Current(World(EMPTY, None))
  {
  }
}
