/**
 The two-level cache over the permission tables (src/auth/permission_service.py:54-71, 280-328) and
 the settings that must invalidate it (src/auth/settings_crud.py, src/auth/service.py:35-55,
 src/auth/routes.py:27-61). Each public call is one atomic step; several workers share one store.
 */
module PermissionCache {
  import opened Prelude
  import opened Permissions

  type RightsMap = map<string, Rights>

  type Local = map<int, (real, RightsMap)>

  // ---------------------------------------------------------------- settings calls, on values

  /** One call that writes the tables or ends in a cache clear; `new...` is the id the database hands out. */
  datatype Change =
    | SetRolePermission(role: int, perm: int, rights: Rights)
    | BulkSetRoleMatrix(role: int, cells: seq<(int, Rights)>)
    | CreateLocalUser(newUser: int)
    | SetUserRoles(user: int, roleIds: seq<int>)
    | SetUserActive(user: int, active: bool)
    | CreateTeam(newTeam: int, roleIds: seq<int>)
    | UpdateTeamMeta(team: int, newRoles: Option<seq<int>>)
    | InsertDynamicPermission(code: string, parentCode: Option<string>, resourceType: string, newId: int)
    | ImportLdapUsers(userIds: seq<int>, roleIds: seq<int>, teamIds: seq<int>)
    | SetUserTeams(user: int, teamIds: seq<int>)
    | AddTeamMembers(team: int, userIds: seq<int>)
    | RemoveTeamMember(team: int, user: int)
    | UpdateMeta(scope: Scope) // profile, team name, role name: no table that rights depend on
    | DeleteRole(role: int)
    | StartOrEndSession(user: int)
    | LdapLogin(user: int, roleIds: seq<int>)

  /** Whose cached maps a call drops. */
  datatype Scope = Everyone | Only(users: set<int>)

  function Cleared<T>(m: map<int, T>, s: Scope): map<int, T> {
    match s case Everyone => map[] case Only(users) => m - users
  }

  function Members(x: seq<int>): set<int> {
    set i | i in x
  }

  /** DELETE the rows of `left`, then INSERT one a listed right id. */
  function Replaced(rows: set<(int, int)>, left: int, rights: seq<int>): set<(int, int)> {
    (set r | r in rows && r.0 != left) + Paired(left, rights)
  }

  function Paired(left: int, rights: seq<int>): set<(int, int)> {
    set i | i in rights :: (left, i)
  }

  /** The same for membership rows, which hold the user on the right. */
  function Rejoined(rows: set<(int, int)>, user: int, teamIds: seq<int>): set<(int, int)> {
    (set r | r in rows && r.1 != user) + Joined(user, teamIds)
  }

  function Joined(user: int, teamIds: seq<int>): set<(int, int)> {
    set i | i in teamIds :: (i, user)
  }

  function Upserted(grants: map<(int, int), Rights>, role: int, cells: seq<(int, Rights)>): map<(int, int), Rights> {
    if cells == [] then grants
    else
      var last := cells[|cells| - 1];
      Upserted(grants, role, cells[..|cells| - 1])[(role, last.0) := last.1]
  }

  function Known(users: map<int, bool>, user: int): map<int, bool> {
    if user in users then users else users[user := true]
  }

  function Imported(t: Tables, userIds: seq<int>, roleIds: seq<int>, teamIds: seq<int>): Tables {
    if userIds == [] then t
    else
      var u := userIds[|userIds| - 1];
      var t' := Imported(t, userIds[..|userIds| - 1], roleIds, teamIds);
      t'.(users := Known(t'.users, u), userRoles := Replaced(t'.userRoles, u, roleIds),
          teamMembers := Rejoined(t'.teamMembers, u, teamIds))
  }

  function WithoutRole(t: Tables, role: int): Tables {
    t.(roles := t.roles - {role},
       grants := (map k | k in t.grants && k.0 != role :: t.grants[k]),
       userRoles := (set r | r in t.userRoles && r.1 != role),
       teamRoles := (set r | r in t.teamRoles && r.1 != role))
  }

  /** A parent code that is given and known; anything else leaves the new node a root. */
  ghost function ParentId(p: Forest, parentCode: Option<string>): Option<int> {
    if parentCode.Some? && parentCode.value != "" then IdOf(p, parentCode.value) else None
  }

  /** The tables after a call. */
  ghost function After(t: Tables, c: Change): Tables {
    match c
    case SetRolePermission(role, perm, rights) => t.(grants := t.grants[(role, perm) := rights])
    case BulkSetRoleMatrix(role, cells) => t.(grants := Upserted(t.grants, role, cells))
    case CreateLocalUser(u) => t.(users := t.users[u := true])
    case SetUserRoles(u, roleIds) => t.(userRoles := Replaced(t.userRoles, u, roleIds))
    case SetUserActive(u, active) => if u in t.users then t.(users := t.users[u := active]) else t
    case CreateTeam(team, roleIds) =>
      t.(teams := t.teams + {team},
         teamRoles := if roleIds == [] then t.teamRoles else Replaced(t.teamRoles, team, roleIds))
    case UpdateTeamMeta(team, newRoles) =>
      if newRoles.Some? then t.(teamRoles := Replaced(t.teamRoles, team, newRoles.value)) else t
    case InsertDynamicPermission(code, parentCode, resourceType, newId) =>
      if IdOf(t.permissions, code).Some? then t
      else
        var node := Perm(code, ParentId(t.permissions, parentCode), resourceType, true);
        t.(permissions := t.permissions[newId := node])
    case ImportLdapUsers(userIds, roleIds, teamIds) => Imported(t, userIds, roleIds, teamIds)
    case SetUserTeams(u, teamIds) => t.(teamMembers := Rejoined(t.teamMembers, u, teamIds))
    case AddTeamMembers(team, userIds) => t.(teamMembers := t.teamMembers + Paired(team, userIds))
    case RemoveTeamMember(team, u) => t.(teamMembers := t.teamMembers - {(team, u)})
    case UpdateMeta(_) => t
    case DeleteRole(role) => if role in t.roles && !t.roles[role] then WithoutRole(t, role) else t
    case StartOrEndSession(_) => t
    case LdapLogin(u, roleIds) => t.(users := Known(t.users, u), userRoles := t.userRoles + Paired(u, roleIds))
  }

  /** Whose cached maps the call drops. An LDAP login that finds the account disabled drops none. */
  ghost function ScopeOf(t: Tables, c: Change): Scope {
    match c
    case SetRolePermission(_, _, _) => Everyone
    case BulkSetRoleMatrix(_, _) => Everyone
    case CreateLocalUser(_) => Only({})
    case SetUserRoles(u, _) => Only({u})
    case SetUserActive(u, _) => Only({u})
    case CreateTeam(_, _) => Only({})
    case UpdateTeamMeta(team, newRoles) =>
      if newRoles.Some? then Only(set m | m in t.teamMembers && m.0 == team :: m.1) else Only({})
    case InsertDynamicPermission(_, _, _, _) => Everyone
    case ImportLdapUsers(userIds, _, _) => Only(Members(userIds))
    case SetUserTeams(u, _) => Only({u})
    case AddTeamMembers(_, userIds) => Only(Members(userIds))
    case RemoveTeamMember(_, u) => Only({u})
    case UpdateMeta(s) => s
    case DeleteRole(role) => if role in t.roles && !t.roles[role] then Everyone else Only({})
    case StartOrEndSession(u) => Only({u})
    case LdapLogin(u, _) => if Known(t.users, u)[u] then Only({u}) else Only({})
  }

  /** The rows a call refers to exist, and ids handed out are fresh: otherwise the database refuses it. */
  ghost predicate Legal(t: Tables, c: Change) {
    match c
    case SetRolePermission(role, perm, _) => role in t.roles && perm in t.permissions
    case BulkSetRoleMatrix(role, cells) => role in t.roles && forall x :: x in cells ==> x.0 in t.permissions
    case CreateLocalUser(u) => u !in t.users
    case SetUserRoles(u, roleIds) => u in t.users && Members(roleIds) <= t.roles.Keys
    case CreateTeam(team, roleIds) => team !in t.teams && Members(roleIds) <= t.roles.Keys
    case UpdateTeamMeta(team, newRoles) => team in t.teams
        && (newRoles.Some? ==> Members(newRoles.value) <= t.roles.Keys)
    case InsertDynamicPermission(_, _, _, newId) => newId > 0 && newId !in t.permissions
    case ImportLdapUsers(_, roleIds, teamIds) => Members(roleIds) <= t.roles.Keys && Members(teamIds) <= t.teams
    case SetUserTeams(u, teamIds) => u in t.users && Members(teamIds) <= t.teams
    case AddTeamMembers(team, userIds) => team in t.teams && Members(userIds) <= t.users.Keys
    case LdapLogin(_, roleIds) => Members(roleIds) <= t.roles.Keys
    case _ => true
  }

  // ---------------------------------------------------------------- every call keeps the schema valid

  lemma {:induction false} ImportedShape(t: Tables, userIds: seq<int>, roleIds: seq<int>, teamIds: seq<int>)
    ensures var t' := Imported(t, userIds, roleIds, teamIds);
            && t'.permissions == t.permissions && t'.grants == t.grants && t'.roles == t.roles
            && t'.teams == t.teams && t'.teamRoles == t.teamRoles
            && t'.users.Keys == t.users.Keys + Members(userIds)
            && (forall u :: u in t.users ==> t'.users[u] == t.users[u])
            && (forall u :: u !in t.users && u in t'.users ==> t'.users[u])
            && (forall r :: r in t'.userRoles ==> if r.0 in Members(userIds) then r.1 in roleIds else r in t.userRoles)
            && (forall r :: r in t.userRoles && r.0 !in Members(userIds) ==> r in t'.userRoles)
            && (forall m :: m in t'.teamMembers ==>
                  if m.1 in Members(userIds) then m.0 in teamIds else m in t.teamMembers)
            && (forall m :: m in t.teamMembers && m.1 !in Members(userIds) ==> m in t'.teamMembers)
  {
    if userIds != [] {
      var init := userIds[..|userIds| - 1];
      ImportedShape(t, init, roleIds, teamIds);
      assert Members(userIds) == Members(init) + {userIds[|userIds| - 1]} by {
        assert forall i :: i in userIds <==> i in init || i == userIds[|userIds| - 1];
      }
    }
  }

  lemma NewLeafKeepsForest(p: Forest, id: int, node: Perm)
    requires Acyclic(p) && UniqueCodes(p) && 0 !in p && id > 0 && id !in p
    requires IdOf(p, node.code) == None && (node.parent.Some? ==> node.parent.value in p)
    requires forall q :: q in p && Up(p, q).Some? ==> Up(p, q).value != id
    ensures Acyclic(p[id := node]) && UniqueCodes(p[id := node])
  {
    var rank: map<int, nat> :| Ranked(p, rank);
    var top: nat := if node.parent.Some? then rank[node.parent.value] + 1 else 0;
    var p', rank' := p[id := node], rank[id := top];
    forall q | q in p' && Up(p', q).Some? && Up(p', q).value in p'
      ensures rank'[Up(p', q).value] < rank'[q]
    {
      if q != id { assert Up(p', q) == Up(p, q); }
    }
    assert Ranked(p', rank');
  }

  /** Every call leaves references intact and the parent graph without cycles. */
  lemma ChangeKeepsValid(t: Tables, c: Change)
    requires Valid(t) && Legal(t, c)
    ensures Valid(After(t, c))
  {
    match c {
      case InsertDynamicPermission(code, parentCode, resourceType, newId) =>
        if IdOf(t.permissions, code) == None {
          NewLeafKeepsForest(t.permissions, newId, Perm(code, ParentId(t.permissions, parentCode), resourceType, true));
        }
      case ImportLdapUsers(userIds, roleIds, teamIds) => ImportedShape(t, userIds, roleIds, teamIds);
      case SetUserRoles(_, _) =>
      case UpdateTeamMeta(_, _) =>
      case SetUserTeams(_, _) =>
      case _ =>
    }
  }

  // ---------------------------------------------------------------- every call clears enough

  lemma SameMap(t: Tables, t': Tables, user: int)
    requires t'.permissions == t.permissions && t'.grants == t.grants
    requires UserRoleIds(t', user) == UserRoleIds(t, user)
    ensures EffectiveMap(t', user) == EffectiveMap(t, user)
  {
    forall code | code in Codes(t.permissions)
      ensures Effective(t', user, code) == Effective(t, user, code)
    {
      var pid := IdOf(t.permissions, code);
      if pid.Some? {
        SameRoleRights(t, t', user, pid.value);
      }
    }
  }

  /** Rows about other users leave a user's roles alone. */
  lemma SameRoles(t: Tables, t': Tables, user: int)
    requires forall r: (int, int) :: r.0 == user ==> (r in t'.userRoles <==> r in t.userRoles)
    requires forall m: (int, int) :: m.1 == user ==> (m in t'.teamMembers <==> m in t.teamMembers)
    requires forall m, r: (int, int) :: m in t.teamMembers && m.1 == user && r.0 == m.0 ==>
               (r in t'.teamRoles <==> r in t.teamRoles)
    ensures UserRoleIds(t', user) == UserRoleIds(t, user)
  {
  }

  ghost predicate InScope(s: Scope, user: int) {
    s.Everyone? || user in s.users
  }

  /** A directory login that finds the account disabled; it adds roles and opens no session. */
  ghost predicate DisabledLogin(t: Tables, c: Change, user: int) {
    c.LdapLogin? && c.user == user && !Known(t.users, user)[user]
  }

  /**
   A call changes the rights only of users whose cached maps it drops. The one exception is the
   directory login of a disabled account.
   */
  lemma ChangeClearsEnough(t: Tables, c: Change, user: int)
    requires Valid(t) && Legal(t, c)
    requires !InScope(ScopeOf(t, c), user) && !DisabledLogin(t, c, user)
    ensures EffectiveMap(After(t, c), user) == EffectiveMap(t, user)
  {
    var t' := After(t, c);
    if c.ImportLdapUsers? {
      ImportedShape(t, c.userIds, c.roleIds, c.teamIds);
    }
    if t' != t {
      SameRoles(t, t', user);
      SameMap(t, t', user);
    }
  }

  // ---------------------------------------------------------------- reading through the cache

  /** What a read returns, and the shared and local caches it leaves: permission_service.py:280-328. */
  ghost function ReadStep(ttl: real, t: Tables, redis: map<int, RightsMap>, local: Local, user: int, now: real)
    : (RightsMap, map<int, RightsMap>, Local)
  {
    if user in local && now - local[user].0 < ttl then (local[user].1, redis, local)
    else if user in redis then (redis[user], redis, local[user := (now, redis[user])])
    else
      var m := EffectiveMap(t, user);
      (m, redis[user := m], local[user := (now, m)])
  }

  /** The database and the shared cache, reached by every worker. */
  class Store {
    var tables: Tables
    var redis: map<int, RightsMap>

    constructor (t: Tables)
      ensures tables == t && redis == map[]
    {
      tables := t;
      redis := map[];
    }
  }

  /** One process of the application, with its own short-lived cache. */
  class Worker {
    const store: Store
    var cache: Local

    constructor (s: Store)
      ensures store == s && cache == map[]
    {
      store := s;
      cache := map[];
    }

    /** A settings call has happened: tables, shared cache and own cache all moved as specified. */
    ghost predicate Did(t: Tables, redis: map<int, RightsMap>, local: Local, c: Change)
      reads this, store
    {
      && store.tables == After(t, c)
      && store.redis == Cleared(redis, ScopeOf(t, c))
      && cache == Cleared(local, ScopeOf(t, c))
    }

    /** permission_service.py:54-71 */
    method ClearUserCache(user: Option<int>)
      modifies this`cache, store`redis
      ensures cache == Cleared(old(cache), if user == None then Everyone else Only({user.value}))
      ensures store.redis == Cleared(old(store.redis), if user == None then Everyone else Only({user.value}))
    {
      match user {
        case None =>
          cache := map[];
          store.redis := map[];
        case Some(u) =>
          cache := cache - {u};
          store.redis := store.redis - {u};
      }
    }

    /** permission_service.py:280-328, with the shared cache reachable. */
    method UserEffectiveMap(authDisabled: bool, user: Option<int>, now: real, ttl: real) returns (m: Option<RightsMap>)
      requires Acyclic(store.tables.permissions) && UniqueCodes(store.tables.permissions)
      modifies this`cache, store`redis
      ensures authDisabled ==> m == None && cache == old(cache) && store.redis == old(store.redis)
      ensures !authDisabled && user == None
              ==> m == Some(map[]) && cache == old(cache) && store.redis == old(store.redis)
      ensures !authDisabled && user.Some? ==>
                m.Some? && (m.value, store.redis, cache)
                           == ReadStep(ttl, store.tables, old(store.redis), old(cache), user.value, now)
    {
      if authDisabled {
        return None;
      }
      if user == None {
        return Some(map[]);
      }
      var uid := user.value;
      if uid in cache {
        var (ts, cached) := cache[uid];
        if now - ts < ttl {
          return Some(cached);
        }
      }
      if uid in store.redis {
        cache := cache[uid := (now, store.redis[uid])];
        return Some(store.redis[uid]);
      }
      var out := ComputeMap(store.tables, uid);
      cache := cache[uid := (now, out)];
      store.redis := store.redis[uid := out];
      m := Some(out);
    }

    /** permission_service.py:308-316 */
    method ComputeMap(t: Tables, uid: int) returns (out: RightsMap)
      requires Acyclic(t.permissions) && UniqueCodes(t.permissions)
      ensures out == EffectiveMap(t, uid)
    {
      out := map[];
      var pending := t.permissions.Keys;
      while pending != {}
        invariant pending <= t.permissions.Keys
        invariant out.Keys == set id | id in t.permissions && id !in pending :: t.permissions[id].code
        invariant forall code :: code in out ==> out[code] == Effective(t, uid, code)
        decreases pending
      {
        var id := AnyOf(pending);
        var code := t.permissions[id].code;
        var r := EffectiveTriplet(t, false, Some(uid), code);
        out := out[code := r];
        pending := pending - {id};
      }
    }

    /** settings_crud.py:50-71 */
    method SetRolePermission(role: int, perm: int, rights: Rights, invalidate: bool)
      modifies this`cache, store
      ensures invalidate ==> Did(old(store.tables), old(store.redis), old(cache),
              Change.SetRolePermission(role, perm, rights))
      ensures !invalidate ==> store.tables == After(old(store.tables), Change.SetRolePermission(role, perm, rights))
                              && store.redis == old(store.redis) && cache == old(cache)
    {
      store.tables := store.tables.(grants := store.tables.grants[(role, perm) := rights]);
      if invalidate {
        ClearUserCache(None);
      }
    }

    /** settings_crud.py:74-96 */
    method BulkSetRoleMatrix(role: int, cells: seq<(int, Rights)>)
      modifies this`cache, store
      ensures Did(old(store.tables), old(store.redis), old(cache), Change.BulkSetRoleMatrix(role, cells))
    {
      for i := 0 to |cells|
        invariant store.tables == old(store.tables).(grants := Upserted(old(store.tables).grants, role, cells[..i]))
        invariant cache == old(cache) && store.redis == old(store.redis)
      {
        assert cells[..i + 1][..i] == cells[..i];
        store.tables := store.tables.(grants := store.tables.grants[(role, cells[i].0) := cells[i].1]);
      }
      assert cells[..|cells|] == cells;
      ClearUserCache(None);
    }

    /** settings_crud.py:112-119 */
    method SetUserRoles(user: int, roleIds: seq<int>)
      modifies this`cache, store
      ensures Did(old(store.tables), old(store.redis), old(cache), Change.SetUserRoles(user, roleIds))
    {
      var rows := InsertPairs((set r | r in store.tables.userRoles && r.0 != user), user, roleIds);
      store.tables := store.tables.(userRoles := rows);
      ClearUserCache(Some(user));
    }

    /** The INSERT loops of settings_crud.py:114-118, 289-293 and 534-538. */
    method InsertPairs(rows: set<(int, int)>, left: int, rights: seq<int>) returns (out: set<(int, int)>)
      ensures out == rows + Paired(left, rights)
    {
      out := rows;
      for i := 0 to |rights|
        invariant out == rows + Paired(left, rights[..i])
      {
        PairedAppend(left, rights, i);
        out := out + {(left, rights[i])};
      }
      assert rights[..|rights|] == rights;
    }

    /** The INSERT loops of settings_crud.py:447-451 and 508-512. */
    method InsertMemberships(rows: set<(int, int)>, user: int, teamIds: seq<int>) returns (out: set<(int, int)>)
      ensures out == rows + Joined(user, teamIds)
    {
      out := rows;
      for i := 0 to |teamIds|
        invariant out == rows + Joined(user, teamIds[..i])
      {
        JoinedAppend(user, teamIds, i);
        out := out + {(teamIds[i], user)};
      }
      assert teamIds[..|teamIds|] == teamIds;
    }

    /** settings_crud.py:122-124 */
    method SetUserActive(user: int, active: bool)
      modifies this`cache, store
      ensures Did(old(store.tables), old(store.redis), old(cache), Change.SetUserActive(user, active))
    {
      if user in store.tables.users {
        store.tables := store.tables.(users := store.tables.users[user := active]);
      }
      ClearUserCache(Some(user));
    }

    /** settings_crud.py:296-315; no cached map is dropped, and none needs to be. */
    method CreateTeam(newTeam: int, roleIds: seq<int>)
      modifies this`cache, store
      ensures Did(old(store.tables), old(store.redis), old(cache), Change.CreateTeam(newTeam, roleIds))
    {
      store.tables := store.tables.(teams := store.tables.teams + {newTeam});
      if roleIds != [] {
        SetTeamRoles(newTeam, roleIds);
      }
    }

    /** settings_crud.py:287-293 */
    method SetTeamRoles(team: int, roleIds: seq<int>)
      modifies store`tables
      ensures store.tables == old(store.tables).(teamRoles := Replaced(old(store.tables).teamRoles, team, roleIds))
    {
      var rows := InsertPairs((set r | r in store.tables.teamRoles && r.0 != team), team, roleIds);
      store.tables := store.tables.(teamRoles := rows);
    }

    /** settings_crud.py:318-338 */
    method UpdateTeamMeta(team: int, newRoles: Option<seq<int>>)
      modifies this`cache, store
      ensures Did(old(store.tables), old(store.redis), old(cache), Change.UpdateTeamMeta(team, newRoles))
    {
      if newRoles.Some? {
        SetTeamRoles(team, newRoles.value);
        var members := set m | m in store.tables.teamMembers && m.0 == team :: m.1;
        ClearEach(members);
      }
    }

    /** One `clear_user_cache` a user, in no particular order. */
    method ClearEach(users: set<int>)
      modifies this`cache, store`redis
      ensures cache == Cleared(old(cache), Only(users)) && store.redis == Cleared(old(store.redis), Only(users))
    {
      var pending := users;
      while pending != {}
        invariant pending <= users
        invariant cache == old(cache) - (users - pending) && store.redis == old(store.redis) - (users - pending)
        decreases pending
      {
        var u := AnyOf(pending);
        ClearUserCache(Some(u));
        assert users - (pending - {u}) == (users - pending) + {u};
        pending := pending - {u};
      }
      assert users - {} == users;
    }

    /** settings_crud.py:354-376 */
    method InsertDynamicPermission(code: string, parentCode: Option<string>, resourceType: string, newId: int)
      requires UniqueCodes(store.tables.permissions)
      modifies this`cache, store
      ensures Did(old(store.tables), old(store.redis), old(cache),
                  Change.InsertDynamicPermission(code, parentCode, resourceType, newId))
    {
      var t := store.tables;
      var pid: Option<int> := None;
      if parentCode.Some? && parentCode.value != "" {
        pid := PermissionRow(t.permissions, parentCode.value);
      }
      var existing := PermissionRow(t.permissions, code);
      if existing == None {
        store.tables := t.(permissions := t.permissions[newId := Perm(code, pid, resourceType, true)]);
      }
      ClearUserCache(None);
    }

    /** settings_crud.py:394-453, for the entries that resolve to a user id. */
    method ImportLdapUsers(userIds: seq<int>, roleIds: seq<int>, teamIds: seq<int>)
      modifies this`cache, store
      ensures Did(old(store.tables), old(store.redis), old(cache), Change.ImportLdapUsers(userIds, roleIds, teamIds))
    {
      for i := 0 to |userIds|
        invariant store.tables == Imported(old(store.tables), userIds[..i], roleIds, teamIds)
        invariant cache == old(cache) - Members(userIds[..i]) && store.redis == old(store.redis) - Members(userIds[..i])
      {
        assert userIds[..i + 1][..i] == userIds[..i];
        MembersAppend(userIds, i);
        var uid := userIds[i];
        var t := store.tables;
        var roleRows := InsertPairs((set r | r in t.userRoles && r.0 != uid), uid, roleIds);
        var memberRows := InsertMemberships((set m | m in t.teamMembers && m.1 != uid), uid, teamIds);
        store.tables := t.(users := Known(t.users, uid), userRoles := roleRows, teamMembers := memberRows);
        MinusTwice(old(cache), Members(userIds[..i]), {uid});
        MinusTwice(old(store.redis), Members(userIds[..i]), {uid});
        ClearUserCache(Some(uid));
      }
      assert userIds[..|userIds|] == userIds;
    }

    /** settings_crud.py:506-513 */
    method SetUserTeams(user: int, teamIds: seq<int>)
      modifies this`cache, store
      ensures Did(old(store.tables), old(store.redis), old(cache), Change.SetUserTeams(user, teamIds))
    {
      var memberRows := InsertMemberships((set m | m in store.tables.teamMembers && m.1 != user), user, teamIds);
      store.tables := store.tables.(teamMembers := memberRows);
      ClearUserCache(Some(user));
    }

    /** settings_crud.py:533-539 */
    method AddTeamMembers(team: int, userIds: seq<int>)
      modifies this`cache, store
      ensures Did(old(store.tables), old(store.redis), old(cache), Change.AddTeamMembers(team, userIds))
    {
      for i := 0 to |userIds|
        invariant store.tables == old(store.tables).(teamMembers := old(store.tables).teamMembers
                + Paired(team, userIds[..i]))
        invariant cache == old(cache) - Members(userIds[..i]) && store.redis == old(store.redis) - Members(userIds[..i])
      {
        PairedAppend(team, userIds, i);
        MembersAppend(userIds, i);
        store.tables := store.tables.(teamMembers := store.tables.teamMembers + {(team, userIds[i])});
        ClearUserCache(Some(userIds[i]));
      }
      assert userIds[..|userIds|] == userIds;
    }

    /** settings_crud.py:542-547 */
    method RemoveTeamMember(team: int, user: int)
      modifies this`cache, store
      ensures Did(old(store.tables), old(store.redis), old(cache), Change.RemoveTeamMember(team, user))
      ensures store.tables.(teamMembers := old(store.tables).teamMembers) == old(store.tables)
      ensures forall m, u ::
                (m, u) in store.tables.teamMembers <==>
                (m, u) in old(store.tables).teamMembers && (m, u) != (team, user)
    {
      store.tables := store.tables.(teamMembers := store.tables.teamMembers - {(team, user)});
      ClearUserCache(Some(user));
    }

    /** settings_crud.py:563-570; a system role or an unknown one is refused. */
    method DeleteRoleNonSystem(role: int) returns (deleted: bool)
      modifies this`cache, store
      ensures deleted == (role in old(store.tables).roles && !old(store.tables).roles[role])
      ensures Did(old(store.tables), old(store.redis), old(cache), DeleteRole(role))
    {
      if role !in store.tables.roles || store.tables.roles[role] {
        return false;
      }
      store.tables := WithoutRole(store.tables, role);
      ClearUserCache(None);
      deleted := true;
    }

    /**
     routes.py:37-61 and ldap_service.py:295-328 after a successful directory bind: the roles of the
     groups are added whether or not the account is enabled, the session only when it is.
     */
    method LoginThroughLdap(user: int, roleIds: seq<int>) returns (session: bool)
      modifies this`cache, store
      ensures session == Known(old(store.tables).users, user)[user]
      ensures Did(old(store.tables), old(store.redis), old(cache), LdapLogin(user, roleIds))
    {
      var rows := InsertPairs(store.tables.userRoles, user, roleIds);
      store.tables := store.tables.(users := Known(store.tables.users, user), userRoles := rows);
      session := store.tables.users[user];
      if session {
        ClearUserCache(Some(user));
      }
    }
  }

  lemma MinusTwice<T>(m: map<int, T>, x: set<int>, y: set<int>)
    ensures m - x - y == m - (x + y)
  {
  }

  lemma PairedAppend(left: int, rights: seq<int>, i: nat)
    requires i < |rights|
    ensures Paired(left, rights[..i + 1]) == Paired(left, rights[..i]) + {(left, rights[i])}
  {
    assert forall x :: x in rights[..i + 1] <==> x in rights[..i] || x == rights[i];
  }

  lemma JoinedAppend(user: int, teamIds: seq<int>, i: nat)
    requires i < |teamIds|
    ensures Joined(user, teamIds[..i + 1]) == Joined(user, teamIds[..i]) + {(teamIds[i], user)}
  {
    assert forall x :: x in teamIds[..i + 1] <==> x in teamIds[..i] || x == teamIds[i];
  }

  lemma MembersAppend(x: seq<int>, i: nat)
    requires i < |x|
    ensures Members(x[..i + 1]) == Members(x[..i]) + {x[i]}
  {
  }
}
