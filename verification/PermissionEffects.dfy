/**
 What each settings call does, said over the rows of the tables and over who holds which role
 (src/auth/settings_crud.py, src/auth/ldap_service.py:295-328).
 */
module PermissionEffects {
  import opened Prelude
  import opened Permissions
  import opened PermissionCache

  // ---------------------------------------------------------------- rights of a role

  /** A grant saved on a node is read back from that node; every other grant and table stays. */
  lemma GrantReadsBack(t: Tables, role: int, perm: int, rights: Rights)
    requires Acyclic(t.permissions) && perm in t.permissions
    ensures var t' := After(t, SetRolePermission(role, perm, rights));
            && t'.(grants := t.grants) == t
            && (role, perm) in t'.grants && t'.grants[(role, perm)] == rights
            && (forall k :: k != (role, perm) ==>
                  (k in t'.grants <==> k in t.grants) && (k in t.grants ==> t'.grants[k] == t.grants[k]))
            && RoleRights(t', role, perm) == rights
  {
    AncestorsUnfold(t.permissions, perm);
  }

  /** Of a saved matrix each node holds the last rights listed for it; nodes not listed keep theirs. */
  lemma {:induction false} MatrixReadsBack(t: Tables, role: int, cells: seq<(int, Rights)>, i: nat)
    requires i < |cells| ==> forall j :: i < j < |cells| ==> cells[j].0 != cells[i].0
    ensures var t' := After(t, BulkSetRoleMatrix(role, cells));
            && t'.(grants := t.grants) == t
            && (i < |cells| ==> (role, cells[i].0) in t'.grants && t'.grants[(role, cells[i].0)] == cells[i].1)
            && forall k: (int, int) :: (k.0 != role || forall c <- cells :: c.0 != k.1) ==>
                 (k in t'.grants <==> k in t.grants) && (k in t.grants ==> t'.grants[k] == t.grants[k])
  {
    if cells != [] {
      var init, last := cells[..|cells| - 1], cells[|cells| - 1];
      assert cells == init + [last] && last in cells;
      MatrixReadsBack(t, role, init, i);
    }
  }

  // ---------------------------------------------------------------- roles of a user

  /** A user's direct roles are then exactly those listed; the team's roles count as before. */
  lemma UserRolesAreThoseListed(t: Tables, user: int, roleIds: seq<int>)
    ensures var t' := After(t, SetUserRoles(user, roleIds));
            && t'.(userRoles := t.userRoles) == t
            && (forall r :: (user, r) in t'.userRoles <==> r in roleIds)
            && (forall u, r :: u != user ==> ((u, r) in t'.userRoles <==> (u, r) in t.userRoles))
            && forall r :: HoldsRole(t', user, r) <==> r in roleIds || HoldsThroughTeam(t, user, r)
  {
  }

  /** A team's roles are then exactly those listed, and its members hold them. */
  lemma TeamRolesAreThoseListed(t: Tables, team: int, roleIds: seq<int>)
    ensures var t' := After(t, UpdateTeamMeta(team, Some(roleIds)));
            && t'.(teamRoles := t.teamRoles) == t
            && (forall r :: (team, r) in t'.teamRoles <==> r in roleIds)
            && (forall m, r :: m != team ==> ((m, r) in t'.teamRoles <==> (m, r) in t.teamRoles))
            && forall u, r :: (team, u) in t.teamMembers && r in roleIds ==> HoldsRole(t', u, r)
    ensures After(t, UpdateTeamMeta(team, None)) == t
  {
    var t' := After(t, UpdateTeamMeta(team, Some(roleIds)));
    forall u, r | (team, u) in t.teamMembers && r in roleIds ensures HoldsRole(t', u, r) {
      assert (team, u) in t'.teamMembers && (team, r) in t'.teamRoles;
    }
  }

  /** A new team has exactly the roles listed, and no members. */
  lemma NewTeamHasItsRoles(t: Tables, team: int, roleIds: seq<int>)
    requires Valid(t) && team !in t.teams
    ensures var t' := After(t, CreateTeam(team, roleIds));
            && t'.(teams := t.teams, teamRoles := t.teamRoles) == t
            && t'.teams == t.teams + {team}
            && (forall r :: (team, r) in t'.teamRoles <==> r in roleIds)
            && (forall m, r :: m != team ==> ((m, r) in t'.teamRoles <==> (m, r) in t.teamRoles))
            && forall u :: (team, u) !in t'.teamMembers
  {
    assert forall r: (int, int) :: r in t.teamRoles ==> r.0 != team;
    assert forall m: (int, int) :: m in t.teamMembers ==> m.0 != team;
  }

  /** Only the account's own flag changes, and only of an account there is. */
  lemma AccountFlagSet(t: Tables, user: int, active: bool)
    ensures var t' := After(t, SetUserActive(user, active));
            && t'.(users := t.users) == t && t'.users.Keys == t.users.Keys
            && (user in t.users ==> t'.users[user] == active)
            && forall u :: u in t.users && u != user ==> t'.users[u] == t.users[u]
  {
  }

  /** A new local account is enabled, and holds no role. */
  lemma NewAccountHasNoRole(t: Tables, user: int)
    requires Valid(t) && user !in t.users
    ensures var t' := After(t, CreateLocalUser(user));
            && t'.(users := t.users) == t && t'.users.Keys == t.users.Keys + {user} && t'.users[user]
            && (forall u :: u in t.users ==> t'.users[u] == t.users[u])
            && forall r :: !HoldsRole(t', user, r)
  {
    assert forall r: (int, int) :: r in t.userRoles ==> r.0 != user;
    assert forall m: (int, int) :: m in t.teamMembers ==> m.1 != user;
  }

  // ---------------------------------------------------------------- memberships

  /** A user's teams are then exactly those listed, and with them the roles that come from teams. */
  lemma MembershipsAreThoseListed(t: Tables, user: int, teamIds: seq<int>)
    ensures var t' := After(t, SetUserTeams(user, teamIds));
            && t'.(teamMembers := t.teamMembers) == t
            && (forall m :: (m, user) in t'.teamMembers <==> m in teamIds)
            && (forall m, u :: u != user ==> ((m, u) in t'.teamMembers <==> (m, u) in t.teamMembers))
            && forall r :: HoldsRole(t', user, r)
                           <==> (user, r) in t.userRoles || exists m :: m in teamIds && (m, r) in t.teamRoles
  {
    var t' := After(t, SetUserTeams(user, teamIds));
    forall r ensures HoldsThroughTeam(t', user, r) <==> exists m :: m in teamIds && (m, r) in t.teamRoles {
      if m :| m in teamIds && (m, r) in t.teamRoles { assert (m, user) in t'.teamMembers; }
    }
  }

  /** Exactly the listed users join, and hold the team's roles. */
  lemma AddedMembersJoin(t: Tables, team: int, userIds: seq<int>)
    ensures var t' := After(t, AddTeamMembers(team, userIds));
            && t'.(teamMembers := t.teamMembers) == t
            && (forall m, u :: (m, u) in t'.teamMembers <==> (m, u) in t.teamMembers || (m == team && u in userIds))
            && forall u, r :: u in userIds && (team, r) in t.teamRoles ==> HoldsRole(t', u, r)
  {
    var t' := After(t, AddTeamMembers(team, userIds));
    forall u, r | u in userIds && (team, r) in t.teamRoles ensures HoldsRole(t', u, r) {
      assert (team, u) in t'.teamMembers && (team, r) in t'.teamRoles;
    }
  }

  /**
   Exactly one membership goes. The user then holds a role when a row of their own or another of
   their teams gives it; nobody else's roles change.
   */
  lemma RemovedMemberKeepsOtherRoles(t: Tables, team: int, user: int)
    ensures var t' := After(t, RemoveTeamMember(team, user));
            && t'.(teamMembers := t.teamMembers) == t
            && (forall m, u :: (m, u) in t'.teamMembers <==> (m, u) in t.teamMembers && (m, u) != (team, user))
            && (forall r :: HoldsRole(t', user, r)
                            <==> || (user, r) in t.userRoles
                                 || exists m :: m != team && (m, user) in t.teamMembers && (m, r) in t.teamRoles)
            && forall u, r :: u != user ==> (HoldsRole(t', u, r) <==> HoldsRole(t, u, r))
  {
    var t' := After(t, RemoveTeamMember(team, user));
    forall m, u ensures (m, u) in t'.teamMembers <==> (m, u) in t.teamMembers && (m, u) != (team, user) {
    }
    forall u, r | u != user ensures HoldsRole(t', u, r) <==> HoldsRole(t, u, r) {
      if m :| (m, u) in t.teamMembers && (m, r) in t.teamRoles { assert (m, u) in t'.teamMembers; }
    }
    forall r
      ensures HoldsThroughTeam(t', user, r)
              <==> exists m :: m != team && (m, user) in t.teamMembers && (m, r) in t.teamRoles
    {
      if m :| m != team && (m, user) in t.teamMembers && (m, r) in t.teamRoles { assert (m, user) in t'.teamMembers; }
    }
  }

  // ---------------------------------------------------------------- directory users

  /** Each imported user has exactly the listed roles and teams, and an account; nobody else changes. */
  lemma ImportedUsersHaveTheirRoles(t: Tables, userIds: seq<int>, roleIds: seq<int>, teamIds: seq<int>)
    ensures var t' := After(t, ImportLdapUsers(userIds, roleIds, teamIds));
            && t'.(users := t.users, userRoles := t.userRoles, teamMembers := t.teamMembers) == t
            && (forall u, r :: (u, r) in t'.userRoles <==> if u in userIds then r in roleIds else (u, r) in t.userRoles)
            && (forall m, u :: (m, u) in t'.teamMembers <==>
                  if u in userIds then m in teamIds else (m, u) in t.teamMembers)
            && (forall u :: u in t'.users <==> u in t.users || u in userIds)
            && forall u :: u in t'.users ==> t'.users[u] == if u in t.users then t.users[u] else true
  {
    ImportedRows(t, userIds, roleIds, teamIds);
    ImportedShape(t, userIds, roleIds, teamIds);
  }

  lemma {:induction false} ImportedRows(t: Tables, userIds: seq<int>, roleIds: seq<int>, teamIds: seq<int>)
    ensures var t' := Imported(t, userIds, roleIds, teamIds);
            && (forall u, r :: u in userIds ==> ((u, r) in t'.userRoles <==> r in roleIds))
            && forall m, u :: u in userIds ==> ((m, u) in t'.teamMembers <==> m in teamIds)
  {
    if userIds != [] {
      var init, last := userIds[..|userIds| - 1], userIds[|userIds| - 1];
      ImportedRows(t, init, roleIds, teamIds);
      assert forall u :: u in userIds <==> u in init || u == last;
    }
  }

  /** A directory login adds the roles of its groups and takes none away. */
  lemma DirectoryLoginAddsRoles(t: Tables, user: int, roleIds: seq<int>)
    ensures var t' := After(t, LdapLogin(user, roleIds));
            && t'.(users := t.users, userRoles := t.userRoles) == t
            && (forall u, r :: (u, r) in t'.userRoles <==> (u, r) in t.userRoles || (u == user && r in roleIds))
            && t'.users.Keys == t.users.Keys + {user}
            && forall u :: u in t'.users ==> t'.users[u] == if u in t.users then t.users[u] else true
  {
  }

  // ---------------------------------------------------------------- roles and permissions themselves

  /** A role that is not a system role goes with every row that names it, and nothing else goes. */
  lemma DeletedRoleIsGone(t: Tables, role: int)
    ensures var t', goes := After(t, DeleteRole(role)), role in t.roles && !t.roles[role];
            && (!goes ==> t' == t)
            && (goes ==>
                  && t'.(roles := t.roles, grants := t.grants, userRoles := t.userRoles, teamRoles := t.teamRoles) == t
                  && (forall r :: r in t'.roles <==> r in t.roles && r != role)
                  && (forall r :: r in t'.roles ==> t'.roles[r] == t.roles[r])
                  && (forall r, p :: (r, p) in t'.grants <==> (r, p) in t.grants && r != role)
                  && (forall k :: k in t'.grants ==> t'.grants[k] == t.grants[k])
                  && (forall u, r :: (u, r) in t'.userRoles <==> (u, r) in t.userRoles && r != role)
                  && (forall m, r :: (m, r) in t'.teamRoles <==> (m, r) in t.teamRoles && r != role)
                  && forall u :: !HoldsRole(t', u, role))
  {
  }

  /** A code not yet known gets one new row, under the row of its parent code if that is known. */
  lemma NewPermissionHangsUnderItsParent(t: Tables, code: string, parentCode: Option<string>, kind: string, newId: int)
    requires UniqueCodes(t.permissions) && newId !in t.permissions
    ensures var t', p := After(t, InsertDynamicPermission(code, parentCode, kind, newId)), t.permissions;
            && t'.(permissions := p) == t
            && (forall id :: id in p ==> id in t'.permissions && t'.permissions[id] == p[id])
            && ((exists id :: id in p && p[id].code == code) ==> t'.permissions == p)
            && ((forall id :: id in p ==> p[id].code != code) ==>
                  && t'.permissions.Keys == p.Keys + {newId}
                  && t'.permissions[newId].code == code && t'.permissions[newId].resourceType == kind
                  && t'.permissions[newId].dynamic
                  && (forall id :: id in p && parentCode == Some(p[id].code) && p[id].code != "" ==>
                        t'.permissions[newId].parent == Some(id))
                  && ((parentCode == Some("") || forall id :: id in p ==> parentCode != Some(p[id].code)) ==>
                        t'.permissions[newId].parent == None))
  {
    if parentCode.Some? {
      forall id | id in t.permissions && parentCode == Some(t.permissions[id].code)
        ensures IdOf(t.permissions, parentCode.value) == Some(id)
      {
        if j :| j in t.permissions && t.permissions[j].code == parentCode.value { assert j == id; }
      }
    }
  }

  /** Names, profiles and sessions touch no table that rights depend on. */
  lemma NamesAndSessionsChangeNoRights(t: Tables, scope: Scope, user: int)
    ensures After(t, UpdateMeta(scope)) == t && After(t, StartOrEndSession(user)) == t
  {
  }

  // ---------------------------------------------------------------- whose cached maps go

  /** The users a call is about. A call that changes a role or a permission is about everybody. */
  ghost predicate Concerned(t: Tables, c: Change, user: int) {
    match c
    case SetUserRoles(u, _) => user == u
    case SetUserActive(u, _) => user == u
    case SetUserTeams(u, _) => user == u
    case RemoveTeamMember(_, u) => user == u
    case StartOrEndSession(u) => user == u
    case LdapLogin(u, _) => user == u
    case AddTeamMembers(_, userIds) => user in userIds
    case ImportLdapUsers(userIds, _, _) => user in userIds
    case UpdateTeamMeta(team, _) => (team, user) in t.teamMembers
    case CreateLocalUser(_) => false
    case CreateTeam(_, _) => false
    case _ => true
  }

  /** A call drops the cached maps of nobody it is not about. */
  lemma OthersKeepTheirMaps(t: Tables, c: Change, user: int)
    ensures InScope(ScopeOf(t, c), user) ==> Concerned(t, c, user)
  {
  }
}
