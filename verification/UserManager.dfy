/** The user manager on the heap: user objects updated in place, proved against the store on values. */
module UserManagement {
  import opened Text
  import S = UserStore

  class User {
    var nexusId: string
    var identities: map<string, string>
    var username: Option<string>
    var firstName: Option<string>
    var projects: map<string, S.Project>
    var createdAt: string
    var lastSeen: string

    constructor (id: string, identities: map<string, string>, username: Option<string>, firstName: Option<string>,
        now: string)
      ensures View() == S.User(id, identities, username, firstName, map[], now, now)
    {
      nexusId, this.identities, this.username, this.firstName := id, identities, username, firstName;
      projects, createdAt, lastSeen := map[], now, now;
    }

    ghost function View(): S.User
      reads this
    {
      S.User(nexusId, identities, username, firstName, projects, createdAt, lastSeen)
    }
  }

  class UserManager {
    var users: map<string, User>
    var identityMap: map<string, string>

    /** Different ids have different user objects. */
    ghost predicate Valid()
      reads this
    {
      forall i, j :: i in users && j in users && i != j ==> users[i] != users[j]
    }

    ghost function Users(): (r: map<string, S.User>)
      reads this, users.Values
      ensures r.Keys == users.Keys && forall id :: id in users ==> r[id] == users[id].View()
    {
      map id | id in users :: users[id].View()
    }

    ghost function View(): S.Store
      reads this, users.Values
    {
      S.Store(Users(), identityMap)
    }

    constructor ()
      ensures Valid() && View() == S.EMPTY
    {
      users, identityMap := map[], map[];
    }

    /** Changing the object of one user changes its entry of the view only. */
    twostate lemma OneChanged(id: string)
      requires old(Valid()) && users == old(users) && id in users
      requires forall u :: u in users.Values && u != users[id] ==> unchanged(u)
      ensures Users() == old(Users())[id := users[id].View()]
    {
      forall i | i in users && i != id ensures users[i].View() == old(users[i].View()) {
        assert users[i] in users.Values && unchanged(users[i]);
      }
    }

    /** Adding a user changes the view by that user only. */
    twostate lemma OneAdded(id: string)
      requires id in users && id !in old(users) && users == old(users)[id := users[id]]
      requires forall u :: u in old(users).Values ==> unchanged(u)
      ensures Users() == old(Users())[id := users[id].View()]
    {
      hide Users, User.View;
      forall i | i in users && i != id ensures users[i].View() == old(Users())[i] {
        assert users[i] == old(users)[i] && old(users)[i] in old(users).Values;
      }
    }

    /** Dropping a user drops its entry. */
    twostate lemma OneDropped(id: string)
      requires users == old(users) - {id} && forall u :: u in users.Values ==> unchanged(u)
      ensures Users() == old(Users()) - {id}
    {
      hide Users, User.View;
      forall i | i in users ensures users[i].View() == old(Users())[i] {
        assert users[i] in users.Values && unchanged(users[i]);
      }
    }

    /** _index_identity */
    method IndexIdentity(id: string, platform: string, value: string)
      requires Valid() && id in users
      modifies `identityMap, users[id]
      ensures View() == S.Index(old(View()), id, platform, value)
    {
      hide S.IdKey, S.Platform, Strip, Users;
      var p, v := S.Platform(platform), Strip(value);
      if p == "" || v == "" { return; }
      users[id].identities := users[id].identities[p := v];
      identityMap := identityMap[S.IdKey(p, v) := id];
      OneChanged(id);
    }

    /** link_identity, after its reload check */
    method LinkIdentity(id: string, platform: string, value: string, now: string) returns (r: S.Result<()>)
      requires Valid()
      modifies `identityMap, users.Values
      ensures var spec := S.LinkIdentity(old(View()), id, platform, value, now);
              if spec.Ok? then r == S.Ok(()) && View() == spec.value
              else View() == old(View()) && r == if spec.UnknownUser? then S.UnknownUser else S.AlreadyLinked
    {
      hide S.IdKey, S.Platform, Strip, S.Index, S.Seen, User.View, Users;
      if id !in users { return S.UnknownUser; }
      var key := S.IdKey(platform, value);
      if key in identityMap && identityMap[key] != "" && identityMap[key] != id { return S.AlreadyLinked; }
      IndexIdentity(id, platform, value);
      Touch(id, now);
      r := S.Ok(());
    }

    /** The user was seen just now. */
    method Touch(id: string, now: string)
      requires Valid() && id in users
      modifies users[id]
      ensures View() == S.Seen(old(View()), id, now)
    {
      hide Users;
      users[id].lastSeen := now;
      OneChanged(id);
    }

    /** An existing user is met again. */
    static method Greet(user: User, username: Option<string>, firstName: Option<string>, now: string)
      modifies user
      ensures user.View() == S.Greeted(old(user.View()), username, firstName, now)
    {
      user.lastSeen := now;
      if S.Truthy(username) { user.username := username; }
      if S.Truthy(firstName) { user.firstName := firstName; }
    }

    /** get_or_create_user_by_identity, after its reload check */
    method GetOrCreate(platform: string, value: string, username: Option<string>, firstName: Option<string>,
                       now: string, uuid: string)
      returns (user: User)
      requires Valid() && uuid !in users && S.Consistent(View())
      modifies this, users.Values
      ensures Valid()
      ensures var (s, id) := S.GetOrCreate(old(View()), platform, value, username, firstName, now, uuid);
              View() == s && id in users && users[id] == user
    {
      hide S.IdKey, S.Platform, Strip, S.Index, S.Consistent, S.Greeted, S.GetOrCreate, Users;
      S.GetOrCreateCases(View(), platform, value, username, firstName, now, uuid);
      var p, v := S.Platform(platform), Strip(value);
      var key := S.IdKey(p, v);
      if key in identityMap && identityMap[key] != "" && identityMap[key] in users {
        user := users[identityMap[key]];
        S.ConsistentBasics(View(), identityMap[key]);
        MeetKnown(identityMap[key], p, v, username, firstName, now);
      } else {
        user := AddUser(uuid, p, v, username, firstName, now, key);
      }
    }

    /** A known user is met again under one of its identities. */
    method MeetKnown(id: string, p: string, v: string, username: Option<string>, firstName: Option<string>, now: string)
      requires Valid() && id in users && users[id].nexusId == id
      modifies `identityMap, users[id]
      ensures var u := S.Greeted(old(users[id].View()), username, firstName, now);
              View() == S.Index(S.SetUser(old(View()), u, id), id, p, v)
    {
      hide S.IdKey, S.Platform, Strip, S.Index, S.Greeted, S.Truthy, Users;
      S.GreetedSame(users[id].View(), username, firstName, now);
      Greet(users[id], username, firstName, now);
      OneChanged(id);
      IndexIdentity(users[id].nexusId, p, v);
    }

    /** A new user with one identity. */
    method AddUser(uuid: string, p: string, v: string, username: Option<string>, firstName: Option<string>,
                   now: string, key: string)
      returns (user: User)
      requires Valid() && uuid !in users
      modifies this
      ensures Valid() && uuid in users && users[uuid] == user
      ensures View() == S.Store(old(Users())[uuid := S.User(uuid, map[p := v], username, firstName, map[], now, now)],
                                old(identityMap)[key := uuid])
    {
      hide Users;
      user := new User(uuid, map[p := v], username, firstName, now);
      assert forall i :: i in users ==> users[i] != user;
      users := users[uuid := user];
      identityMap := identityMap[key := uuid];
      OneAdded(uuid);
    }

    /** The project entry is created when missing, then the issue appended unless it is there. */
    static method AddIssue(user: User, project: string, issue: string, now: string)
      modifies user
      ensures user.View() == S.TrackingUser(old(user.View()), project, issue, now)
    {
      if project !in user.projects {
        user.projects := user.projects[project := S.Project(project, [], now)];
      }
      var entry := user.projects[project];
      if issue !in entry.tracked {
        user.projects := user.projects[project := entry.(tracked := entry.tracked + [issue], lastActivity := now)];
        user.lastSeen := now;
      }
    }

    /** track_issue_by_nexus_id */
    method Track(id: string, project: string, issue: string, now: string) returns (r: S.Result<()>)
      requires Valid()
      modifies users.Values
      ensures var spec := S.Track(old(View()), id, project, issue, now);
              if spec.Ok? then r == S.Ok(()) && View() == spec.value else r == S.UnknownUser && View() == old(View())
    {
      hide Users, User.View, S.TrackingUser;
      if id !in users { return S.UnknownUser; }
      AddIssue(users[id], project, issue, now);
      OneChanged(id);
      r := S.Ok(());
    }

    /** untrack_issue_by_nexus_id */
    method Untrack(id: string, project: string, issue: string, now: string) returns (removed: bool)
      requires Valid()
      modifies users.Values
      ensures (View(), removed) == S.Untrack(old(View()), id, project, issue, now)
    {
      hide S.Removed, Users;
      removed := false;
      if id !in users || project !in users[id].projects { return; }
      var user := users[id];
      var entry := user.projects[project];
      if issue in entry.tracked {
        user.projects := user.projects[project :=
            entry.(tracked := S.Removed(entry.tracked, issue), lastActivity := now)];
        user.lastSeen := now;
        removed := true;
        OneChanged(id);
      }
    }
  
    /** The loop of merge_users over the source's identities; `src` and `t` are one object after a renaming. */
    method MoveIdentities(t: User, src: User, target: string, source: string)
      requires target != ""
      modifies `identityMap, t`identities
      ensures var s := S.Store(map[], old(identityMap));
              var moving := S.MovingIdentities(s, old(src.View()), target, source);
              && t.identities == old(t.identities) + moving
              && identityMap == old(identityMap) + (map key | key in S.Keys(moving) :: target)
    {
      hide S.IdKey, S.MovingIdentities, S.Keys, Moved;
      var items := src.identities;
      var rest := items.Keys;
      ghost var s := S.Store(map[], identityMap);
      ghost var src0, ids0 := src.View(), t.identities;
      NothingMoved(s, src0, target, source, ids0);
      while rest != {}
        invariant rest <= items.Keys
        invariant Moved(s, src0, target, source, ids0, rest, t.identities, identityMap)
        decreases |rest|
      {
        var p :| p in rest;
        var key := S.IdKey(p, items[p]);
        var owner := if key in identityMap then identityMap[key] else "";
        OneMoved(s, src0, target, source, ids0, rest, t.identities, identityMap, p);
        rest := rest - {p};
        if !(owner != "" && owner != source && owner != target) {
          t.identities := t.identities[p := items[p]];
          identityMap := identityMap[key := target];
        }
      }
      AllMoved(s, src0, target, source, ids0, t.identities, identityMap);
    }

    /** The loop of merge_users over the source's projects. */
    static method MoveProjects(t: User, src: User)
      modifies t`projects
      ensures t.projects == S.MergedProjects(old(t.projects), old(src.projects))
    {
      hide S.MergedProject, S.MergedProjects;
      var items := src.projects;
      var rest := items.Keys;
      ghost var into := t.projects;
      assert into == S.MergedProjects(into, items - rest) by { NoProjects(into, items); }
      while rest != {}
        invariant rest <= items.Keys
        invariant t.projects == S.MergedProjects(into, items - rest)
        decreases |rest|
      {
        var n :| n in rest;
        OneProject(into, items, rest, n);
        rest := rest - {n};
        t.projects := t.projects[n := if n in t.projects then S.MergedProject(t.projects[n], items[n]) else items[n]];
      }
      assert items - {} == items;
    }

    /** The last loop of merge_users: whatever still belongs to the source is the target's. */
    method RedirectOwners(target: string, source: string)
      modifies `identityMap
      ensures identityMap == map key | key in old(identityMap) :: S.Redirected(old(identityMap)[key], target, source)
    {
      var items := identityMap;
      var rest := items.Keys;
      while rest != {}
        invariant rest <= items.Keys == identityMap.Keys
        invariant forall key :: key in items ==>
                    identityMap[key] == if key in rest then items[key] else S.Redirected(items[key], target, source)
        decreases |rest|
      {
        var key :| key in rest;
        rest := rest - {key};
        if items[key] == source { identityMap := identityMap[key := target]; }
      }
    }

    /** Everything merge_users changes in the target object and the identity map. */
    method MergeObjects(t: User, src: User, target: string, source: string)
      requires target != ""
      modifies `identityMap, t
      ensures t.View() == S.MergedUser(S.Store(map[], old(identityMap)), old(t.View()), old(src.View()), target, source)
      ensures identityMap == S.MergedMap(S.Store(map[], old(identityMap)), old(src.View()), target, source)
    {
      hide S.IdKey, S.MovingIdentities, S.MergedProjects, S.Truthy, S.Later, S.Keys;
      MoveIdentities(t, src, target, source);
      FillNames(t, src);
      MoveProjects(t, src);
      t.lastSeen := S.Later(t.lastSeen, src.lastSeen);
      RedirectOwners(target, source);
    }

    /** The source's names fill in those the target lacks. */
    static method FillNames(t: User, src: User)
      modifies t`username, t`firstName
      ensures t.username == old(if !S.Truthy(t.username) && S.Truthy(src.username) then src.username else t.username)
      ensures t.firstName ==
              old(if !S.Truthy(t.firstName) && S.Truthy(src.firstName) then src.firstName else t.firstName)
    {
      if !S.Truthy(t.username) && S.Truthy(src.username) { t.username := src.username; }
      if !S.Truthy(t.firstName) && S.Truthy(src.firstName) { t.firstName := src.firstName; }
    }

    /** A lone source takes the target's id: the same object, under another key. */
    method Rename(target: string, source: string)
      requires Valid() && source in users && target !in users && target != source
      modifies `users, users[source]
      ensures Valid() && target in users && users[target] == old(users[source]) && source !in users
      ensures users.Values <= old(users.Values)
      ensures Users() == old(Users())[target := old(users[source].View()).(nexusId := target)] - {source}
    {
      hide Users;
      var src := users[source];
      src.nexusId := target;
      users := users[target := src] - {source};
      forall i | i in users && i != target ensures users[i].View() == old(users[i].View()) {
        assert users[i] == old(users)[i] && users[i] != src;
      }
    }

    /** Moves everything from `src` to the target's object and drops the source's entry. */
    method MergeTwo(src: User, target: string, source: string)
      requires Valid() && target in users && target != source && target != ""
      modifies this, users[target]
      ensures Valid() && users == old(users) - {source}
      ensures var s := S.Store(map[], old(identityMap));
              var merged := S.MergedUser(s, old(users[target].View()), old(src.View()), target, source);
              && Users() == old(Users())[target := merged] - {source}
              && identityMap == S.MergedMap(s, old(src.View()), target, source)
    {
      hide Users, S.MergedUser, S.MergedMap, User.View;
      MergeObjects(users[target], src, target, source);
      OneChanged(target);
      label Dropping:
      users := users - {source};
      OneDropped@Dropping(source);
    }

    /** merge_users, once the source is known: a missing target takes the source over first. */
    method Merge(target: string, source: string)
      requires Valid() && source in users && target != source && target != ""
      modifies this, users.Values
      ensures Valid() && View() == S.Merged(old(View()), target, source)
    {
      hide Users, S.MergedUser, S.MergedMap, User.View;
      var src := users[source];
      ghost var s := View();
      ghost var src0 := if target in s.users then s.users[source] else s.users[source].(nexusId := target);
      OnlyTheMap(s, S.TargetUser(s, target, source), src0, target, source);
      MergedAfterRename(s, src0, S.MergedUser(s, S.TargetUser(s, target, source), src0, target, source), target,
          source);
      if target !in users { Rename(target, source); }
      MergeTwo(src, target, source);
    }

  }

  // ----- the loops of merge_users on values -----

  /** Of the store, only the identity map matters for what moves. */
  lemma OnlyTheMap(s: S.Store, t: S.User, src: S.User, target: string, source: string)
    ensures S.MergedUser(S.Store(map[], s.idMap), t, src, target, source) == S.MergedUser(s, t, src, target, source)
    ensures S.MergedMap(S.Store(map[], s.idMap), src, target, source) == S.MergedMap(s, src, target, source)
  {
    hide S.IdKey, S.MergedProjects, Less;
    assert S.MovingIdentities(S.Store(map[], s.idMap), src, target, source)
           == S.MovingIdentities(s, src, target, source);
  }

  /** Renaming first makes no difference to the users in the end. */
  lemma MergedAfterRename(s: S.Store, renamed: S.User, merged: S.User, target: string, source: string)
    requires target != source
    ensures (s.users[target := renamed] - {source})[target := merged] - {source} == s.users[target := merged] - {source}
  {
  }

  /** What the identity loop has done once only the platforms in `rest` are left. */
  ghost predicate Moved(s: S.Store, src: S.User, target: string, source: string, ids0: map<string, string>,
                        rest: set<string>, ids: map<string, string>, idMap: map<string, string>)
  {
    var moved := S.MovingIdentities(s, src, target, source) - rest;
    && ids == ids0 + moved
    && idMap == s.idMap + (map key | key in S.Keys(moved) :: target)
  }

  lemma NothingMoved(s: S.Store, src: S.User, target: string, source: string, ids0: map<string, string>)
    ensures Moved(s, src, target, source, ids0, src.identities.Keys, ids0, s.idMap)
  {
    hide S.IdKey;
    assert S.MovingIdentities(s, src, target, source) - src.identities.Keys == map[];
  }

  lemma OneMoved(s: S.Store, src: S.User, target: string, source: string, ids0: map<string, string>,
                 rest: set<string>, ids: map<string, string>, idMap: map<string, string>, p: string)
    requires Moved(s, src, target, source, ids0, rest, ids, idMap) && p in rest && rest <= src.identities.Keys
             && target != ""
    ensures var key := S.IdKey(p, src.identities[p]);
            var owner := if key in idMap then idMap[key] else "";
            if owner != "" && owner != source && owner != target then
              Moved(s, src, target, source, ids0, rest - {p}, ids, idMap)
            else
              Moved(s, src, target, source, ids0, rest - {p}, ids[p := src.identities[p]], idMap[key := target])
  {
    hide S.IdKey, S.MovingIdentities, S.Keys;
    var moving := S.MovingIdentities(s, src, target, source);
    var moved := moving - rest;
    MovesStill(s, src, target, source, ids0, rest, ids, idMap, p);
    if p in moving {
      assert moving - (rest - {p}) == moved[p := src.identities[p]];
      KeysSnoc(moved, p, src.identities[p]);
    } else {
      assert moving - (rest - {p}) == moved;
    }
  }

  /** Earlier iterations do not change whether an identity moves. */
  lemma MovesStill(s: S.Store, src: S.User, target: string, source: string, ids0: map<string, string>,
                   rest: set<string>, ids: map<string, string>, idMap: map<string, string>, p: string)
    requires Moved(s, src, target, source, ids0, rest, ids, idMap) && p in src.identities && target != ""
    ensures var key := S.IdKey(p, src.identities[p]);
            var owner := if key in idMap then idMap[key] else "";
            owner != "" && owner != source && owner != target <==> p !in S.MovingIdentities(s, src, target, source)
    ensures p in S.MovingIdentities(s, src, target, source) ==>
            S.MovingIdentities(s, src, target, source)[p] == src.identities[p]
  {
    hide S.IdKey;
  }

  lemma KeysSnoc(identities: map<string, string>, p: string, v: string)
    requires p !in identities
    ensures S.Keys(identities[p := v]) == S.Keys(identities) + {S.IdKey(p, v)}
  {
    hide S.IdKey;
    var more := identities[p := v];
    forall k ensures k in S.Keys(more) <==> k in S.Keys(identities) + {S.IdKey(p, v)} {
      if k in S.Keys(identities) {
        var q :| q in identities && S.IdKey(q, identities[q]) == k;
        assert q in more && more[q] == identities[q];
      }
      assert k == S.IdKey(p, v) ==> p in more && more[p] == v && k in S.Keys(more);
    }
  }

  lemma AllMoved(s: S.Store, src: S.User, target: string, source: string, ids0: map<string, string>,
                 ids: map<string, string>, idMap: map<string, string>)
    requires Moved(s, src, target, source, ids0, {}, ids, idMap)
    ensures var moving := S.MovingIdentities(s, src, target, source);
            && ids == ids0 + moving
            && idMap == s.idMap + (map key | key in S.Keys(moving) :: target)
  {
    hide S.MovingIdentities, S.Keys;
    assert S.MovingIdentities(s, src, target, source) - {} == S.MovingIdentities(s, src, target, source);
  }

  lemma NoProjects(into: map<string, S.Project>, items: map<string, S.Project>)
    ensures S.MergedProjects(into, items - items.Keys) == into
  {
    hide S.MergedProject;
  }

  lemma OneProject(into: map<string, S.Project>, items: map<string, S.Project>, rest: set<string>, n: string)
    requires n in rest && rest <= items.Keys
    ensures var done := S.MergedProjects(into, items - rest);
            S.MergedProjects(into, items - (rest - {n}))
              == done[n := if n in done then S.MergedProject(done[n], items[n]) else items[n]]
  {
    hide S.MergedProject;
  }
}
