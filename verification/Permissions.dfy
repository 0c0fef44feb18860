/**
 Permission tables and hierarchical rights (src/auth/permission_service.py, sql/auth_schema.sql).
 A right granted on a node holds for the whole subtree below it until a nearer row overrides it.
 */
module Permissions {
  import opened Prelude

  datatype Perm = Perm(code: string, parent: Option<int>, resourceType: string, dynamic: bool)

  datatype Rights = Rights(view: bool, edit: bool, exporting: bool)

  const NO_RIGHTS := Rights(false, false, false)
  const ALL_RIGHTS := Rights(true, true, true)

  type Forest = map<int, Perm>

  /** The authorisation database, one field a table; the sets hold (left id, right id) rows. */
  datatype Tables = Tables(
    permissions: Forest,
    grants: map<(int, int), Rights>, // (role, permission)
    roles: map<int, bool>,           // role -> is_system
    users: map<int, bool>,           // user -> is_active
    teams: set<int>,
    userRoles: set<(int, int)>,      // (user, role)
    teamRoles: set<(int, int)>,      // (team, role)
    teamMembers: set<(int, int)>     // (team, user)
  )

  // ---------------------------------------------------------------- the parent graph

  /** The parent the code follows: an absent parent and id 0 both end the walk. */
  function Up(p: Forest, id: int): Option<int>
    requires id in p
  {
    if p[id].parent == Some(0) then None else p[id].parent
  }

  ghost predicate Ranked(p: Forest, rank: map<int, nat>) {
    && p.Keys <= rank.Keys
    && forall id :: id in p && Up(p, id).Some? && Up(p, id).value in p ==> rank[Up(p, id).value] < rank[id]
  }

  /** Following parents never returns to where it started. */
  ghost predicate Acyclic(p: Forest) {
    exists rank :: Ranked(p, rank)
  }

  ghost predicate UniqueCodes(p: Forest) {
    forall i, j :: i in p && j in p && p[i].code == p[j].code ==> i == j
  }

  /** No row points at a node that does not exist. */
  ghost predicate ParentsExist(p: Forest) {
    forall id :: id in p && p[id].parent.Some? ==> p[id].parent.value in p
  }

  /** What the schema's keys and references guarantee, and that the parent graph has no cycle. */
  ghost predicate Valid(t: Tables) {
    && Acyclic(t.permissions) && UniqueCodes(t.permissions)
    && ParentsExist(t.permissions) && 0 !in t.permissions
    && (forall r :: r in t.userRoles ==> r.0 in t.users && r.1 in t.roles)
    && (forall r :: r in t.teamRoles ==> r.0 in t.teams && r.1 in t.roles)
    && (forall r :: r in t.teamMembers ==> r.0 in t.teams && r.1 in t.users)
  }

  /** The walk from `id` towards the root, staying within `unseen`. */
  function Walk(p: Forest, id: int, unseen: set<int>): seq<int>
    decreases |unseen|
  {
    if id !in p || id !in unseen then []
    else
      [id] + match Up(p, id) case Some(q) => Walk(p, q, unseen - {id}) case None => []
  }

  /** The node itself, its parent, and so on to the root. */
  function Ancestors(p: Forest, id: int): seq<int> {
    Walk(p, id, p.Keys)
  }

  lemma {:induction false} WalkIgnoresUnseen(p: Forest, rank: map<int, nat>, id: int, x: set<int>, y: set<int>)
    requires Ranked(p, rank)
    requires id in p ==> forall n :: n in p && rank[n] <= rank[id] ==> n in x && n in y
    ensures Walk(p, id, x) == Walk(p, id, y)
    decreases if id in p then rank[id] + 1 else 0
  {
    if id in p {
      match Up(p, id) {
        case None =>
        case Some(q) => WalkIgnoresUnseen(p, rank, q, x - {id}, y - {id});
      }
    }
  }

  /** In a graph without cycles the visited set plays no part. */
  lemma AncestorsUnfold(p: Forest, id: int)
    requires Acyclic(p) && id in p
    ensures Ancestors(p, id) ==
              [id] + match Up(p, id) case Some(q) => Ancestors(p, q) case None => []
  {
    var rank :| Ranked(p, rank);
    match Up(p, id) {
      case None =>
      case Some(q) => WalkIgnoresUnseen(p, rank, q, p.Keys - {id}, p.Keys);
    }
  }

  /** permission_service.py:217-227; the loop ends because ranks fall along it. */
  method AncestorsLoop(p: Forest, permId: int) returns (out: seq<int>)
    requires Acyclic(p)
    ensures out == Ancestors(p, permId)
  {
    out := [];
    ghost var rank: map<int, nat> :| Ranked(p, rank);
    var cur := permId;
    var found := permId in p;
    while found
      invariant found ==> cur in p
      invariant Ancestors(p, permId) == out + (if found then Ancestors(p, cur) else [])
      decreases if found then rank[cur] + 1 else 0
    {
      AncestorsUnfold(p, cur);
      out := out + [cur];
      match Up(p, cur) {
        case None => found := false;
        case Some(q) =>
          cur := q;
          found := q in p;
      }
    }
  }

  /** The list is the parent path: it starts at the node, steps to the parent, and ends at a root. */
  lemma {:induction false} AncestorsArePath(p: Forest, rank: map<int, nat>, id: int)
    requires Ranked(p, rank) && id in p
    ensures var path := Ancestors(p, id);
            && path != [] && path[0] == id
            && (forall i :: 0 <= i < |path| ==> path[i] in p)
            && (forall i :: 0 <= i < |path| - 1 ==> Up(p, path[i]) == Some(path[i + 1]))
            && (Up(p, path[|path| - 1]).Some? ==> Up(p, path[|path| - 1]).value !in p)
            && (forall i :: 0 < i < |path| ==> rank[path[i]] < rank[id])
    decreases rank[id]
  {
    AncestorsUnfold(p, id);
    if Up(p, id).Some? && Up(p, id).value in p {
      AncestorsArePath(p, rank, Up(p, id).value);
    }
  }

  // ---------------------------------------------------------------- one role

  /** The first row found along a chain of nodes. */
  function FirstGrant(grants: map<(int, int), Rights>, role: int, chain: seq<int>): Rights {
    if chain == [] then NO_RIGHTS
    else if (role, chain[0]) in grants then grants[(role, chain[0])]
    else FirstGrant(grants, role, chain[1..])
  }

  function RoleRights(t: Tables, role: int, permId: int): Rights {
    FirstGrant(t.grants, role, Ancestors(t.permissions, permId))
  }

  /** permission_service.py:240-249 */
  method EffectiveTripletForRole(t: Tables, role: int, permId: int) returns (r: Rights)
    requires Acyclic(t.permissions)
    ensures r == RoleRights(t, role, permId)
  {
    var chain := AncestorsLoop(t.permissions, permId);
    for i := 0 to |chain|
      invariant RoleRights(t, role, permId) == FirstGrant(t.grants, role, chain[i..])
    {
      if (role, chain[i]) in t.grants {
        return t.grants[(role, chain[i])];
      }
      assert chain[i..][1..] == chain[i + 1..];
    }
    r := NO_RIGHTS;
  }

  /** `node` is the nearest ancestor-or-self of `permId` on which `role` has a row. */
  ghost predicate NearestRow(t: Tables, role: int, permId: int, node: int) {
    var path := Ancestors(t.permissions, permId);
    exists k :: 0 <= k < |path| && path[k] == node && (role, node) in t.grants
                && forall j :: 0 <= j < k ==> (role, path[j]) !in t.grants
  }

  lemma {:induction false} FirstGrantIsNearest(grants: map<(int, int), Rights>, role: int, chain: seq<int>)
    ensures if forall j :: 0 <= j < |chain| ==> (role, chain[j]) !in grants
            then FirstGrant(grants, role, chain) == NO_RIGHTS
            else exists k :: 0 <= k < |chain| && (role, chain[k]) in grants
                   && FirstGrant(grants, role, chain) == grants[(role, chain[k])]
                   && forall j :: 0 <= j < k ==> (role, chain[j]) !in grants
  {
    if chain != [] && (role, chain[0]) !in grants {
      FirstGrantIsNearest(grants, role, chain[1..]);
      if k :| 0 <= k < |chain[1..]| && (role, chain[1..][k]) in grants
              && FirstGrant(grants, role, chain[1..]) == grants[(role, chain[1..][k])]
              && forall j :: 0 <= j < k ==> (role, chain[1..][j]) !in grants {
        assert chain[k + 1] == chain[1..][k];
        forall j | 0 <= j < k + 1 ensures (role, chain[j]) !in grants {
          if j > 0 { assert chain[j] == chain[1..][j - 1]; }
        }
      } else {
        forall j | 0 <= j < |chain| ensures (role, chain[j]) !in grants {
          if j > 0 { assert chain[j] == chain[1..][j - 1]; }
        }
      }
    }
  }

  /** A role's rights on a node are the row of the nearest ancestor-or-self that has one, else none. */
  lemma RightsComeFromNearestRow(t: Tables, role: int, permId: int)
    ensures forall node :: NearestRow(t, role, permId, node) ==> RoleRights(t, role, permId) == t.grants[(role, node)]
    ensures (forall node :: !NearestRow(t, role, permId, node)) ==> RoleRights(t, role, permId) == NO_RIGHTS
  {
    var path := Ancestors(t.permissions, permId);
    FirstGrantIsNearest(t.grants, role, path);
    if k :| 0 <= k < |path| && (role, path[k]) in t.grants
            && FirstGrant(t.grants, role, path) == t.grants[(role, path[k])]
            && forall j :: 0 <= j < k ==> (role, path[j]) !in t.grants {
      assert NearestRow(t, role, permId, path[k]);
      forall node | NearestRow(t, role, permId, node) ensures node == path[k] {
        var m :| 0 <= m < |path| && path[m] == node && (role, node) in t.grants
                 && forall j :: 0 <= j < m ==> (role, path[j]) !in t.grants;
        assert m == k;
      }
    }
  }

  // ---------------------------------------------------------------- one user

  /** Direct roles and roles of the user's teams: permission_service.py:189-210. */
  ghost function UserRoleIds(t: Tables, user: int): set<int> {
    (set r | r in t.userRoles && r.0 == user :: r.1)
    + (set m, r | m in t.teamMembers && r in t.teamRoles && m.1 == user && r.0 == m.0 :: r.1)
  }

  /** Some team the user belongs to has the role. */
  ghost predicate HoldsThroughTeam(t: Tables, user: int, role: int) {
    exists team :: (team, user) in t.teamMembers && (team, role) in t.teamRoles
  }

  /** A row of the user's own gives the role, or a team they belong to. */
  ghost predicate HoldsRole(t: Tables, user: int, role: int) {
    (user, role) in t.userRoles || HoldsThroughTeam(t, user, role)
  }

  lemma UserRolesExactly(t: Tables, user: int, role: int)
    ensures role in UserRoleIds(t, user) <==> HoldsRole(t, user, role)
  {
    if (user, role) in t.userRoles { assert (user, role).1 == role; }
    if team :| (team, user) in t.teamMembers && (team, role) in t.teamRoles {
      assert (team, role).1 == role && (team, user).1 == user && (team, role).0 == (team, user).0;
    }
    if role in UserRoleIds(t, user) && (user, role) !in t.userRoles {
      var m, r :| m in t.teamMembers && r in t.teamRoles && m.1 == user && r.0 == m.0 && r.1 == role;
      assert (m.0, user) == m && (m.0, role) == r;
    }
  }

  ghost function IdOf(p: Forest, code: string): Option<int> {
    if id :| id in p && p[id].code == code then Some(id) else None
  }

  ghost predicate Allows(t: Tables, user: int, permId: int, right: Rights -> bool) {
    exists role :: role in UserRoleIds(t, user) && right(RoleRights(t, role, permId))
  }

  /** A user has a right on a node when some role grants it. */
  ghost function RightsOn(t: Tables, user: int, permId: int): Rights {
    Rights(Allows(t, user, permId, (r: Rights) => r.view),
           Allows(t, user, permId, (r: Rights) => r.edit),
           Allows(t, user, permId, (r: Rights) => r.exporting))
  }

  ghost function Effective(t: Tables, user: int, code: string): Rights {
    match IdOf(t.permissions, code)
    case Some(id) => RightsOn(t, user, id)
    case None => NO_RIGHTS
  }

  /** Rights for every permission code: what `user_effective_map` computes afresh. */
  ghost function EffectiveMap(t: Tables, user: int): map<string, Rights> {
    map code | code in Codes(t.permissions) :: Effective(t, user, code)
  }

  function Codes(p: Forest): set<string> {
    set id | id in p :: p[id].code
  }

  method PermissionRow(p: Forest, code: string) returns (id: Option<int>)
    requires UniqueCodes(p)
    ensures id == IdOf(p, code)
  {
    if i :| i in p && p[i].code == code {
      id := Some(i);
    } else {
      id := None;
    }
  }

  /** The UNION query; the code's later pass only drops repeats, of which a set has none. */
  method FetchUserRoleIds(t: Tables, user: int) returns (roles: set<int>)
    ensures roles == UserRoleIds(t, user)
  {
    roles := (set r | r in t.userRoles && r.0 == user :: r.1)
           + (set m, r | m in t.teamMembers && r in t.teamRoles && m.1 == user && r.0 == m.0 :: r.1);
  }

  ghost predicate AllowsAmong(t: Tables, roles: set<int>, permId: int, right: Rights -> bool) {
    exists role :: role in roles && right(RoleRights(t, role, permId))
  }

  /** permission_service.py:252-265; the roles come in no particular order. */
  method EffectiveTriplet(t: Tables, authDisabled: bool, user: Option<int>, code: string) returns (r: Rights)
    requires Acyclic(t.permissions) && UniqueCodes(t.permissions)
    ensures r == if authDisabled || user == None then ALL_RIGHTS else Effective(t, user.value, code)
  {
    if authDisabled || user == None {
      return ALL_RIGHTS;
    }
    var id := PermissionRow(t.permissions, code);
    if id == None {
      return NO_RIGHTS;
    }
    var pid := id.value;
    var pending := FetchUserRoleIds(t, user.value);
    ghost var roles := pending;
    var v, e, x := false, false, false;
    while pending != {}
      invariant pending <= roles
      invariant v == AllowsAmong(t, roles - pending, pid, (r: Rights) => r.view)
      invariant e == AllowsAmong(t, roles - pending, pid, (r: Rights) => r.edit)
      invariant x == AllowsAmong(t, roles - pending, pid, (r: Rights) => r.exporting)
      decreases pending
    {
      var rid := AnyOf(pending);
      var tv := EffectiveTripletForRole(t, rid, pid);
      AllowsOneMore(t, roles - pending, rid, pid, (r: Rights) => r.view);
      AllowsOneMore(t, roles - pending, rid, pid, (r: Rights) => r.edit);
      AllowsOneMore(t, roles - pending, rid, pid, (r: Rights) => r.exporting);
      assert roles - (pending - {rid}) == (roles - pending) + {rid};
      v, e, x := v || tv.view, e || tv.edit, x || tv.exporting;
      pending := pending - {rid};
    }
    assert roles - {} == roles;
    r := Rights(v, e, x);
  }

  lemma AllowsOneMore(t: Tables, roles: set<int>, role: int, permId: int, right: Rights -> bool)
    ensures AllowsAmong(t, roles + {role}, permId, right)
            <==> AllowsAmong(t, roles, permId, right) || right(RoleRights(t, role, permId))
  {
  }

  /** A role of the user grants this right on the node by its nearest row. */
  ghost predicate Granted(t: Tables, user: int, permId: int, right: Rights -> bool) {
    exists role, node :: HoldsRole(t, user, role) && NearestRow(t, role, permId, node) && right(t.grants[(role, node)])
  }

  lemma AllowsExactly(t: Tables, user: int, permId: int, right: Rights -> bool)
    requires !right(NO_RIGHTS)
    ensures Allows(t, user, permId, right) <==> Granted(t, user, permId, right)
  {
    if Allows(t, user, permId, right) {
      var role :| role in UserRoleIds(t, user) && right(RoleRights(t, role, permId));
      UserRolesExactly(t, user, role);
      RightsComeFromNearestRow(t, role, permId);
      var node :| NearestRow(t, role, permId, node);
    }
    if Granted(t, user, permId, right) {
      var role, node :| HoldsRole(t, user, role) && NearestRow(t, role, permId, node) && right(t.grants[(role, node)]);
      UserRolesExactly(t, user, role);
      RightsComeFromNearestRow(t, role, permId);
    }
  }

  /**
   A user has a right on a code exactly when a role of theirs, their own or through a team, grants it
   by its nearest row; on an unknown code they have none.
   */
  lemma RightsExactly(t: Tables, user: int, code: string)
    requires UniqueCodes(t.permissions)
    ensures forall id :: id in t.permissions && t.permissions[id].code == code ==>
              var r := Effective(t, user, code);
              && (r.view <==> Granted(t, user, id, (x: Rights) => x.view))
              && (r.edit <==> Granted(t, user, id, (x: Rights) => x.edit))
              && (r.exporting <==> Granted(t, user, id, (x: Rights) => x.exporting))
    ensures (forall id :: id in t.permissions ==> t.permissions[id].code != code) ==>
              Effective(t, user, code) == NO_RIGHTS
  {
    if id :| id in t.permissions && t.permissions[id].code == code {
      AllowsExactly(t, user, id, (x: Rights) => x.view);
      AllowsExactly(t, user, id, (x: Rights) => x.edit);
      AllowsExactly(t, user, id, (x: Rights) => x.exporting);
    }
  }

  /** Joining a team whose role grants a right on a node gives that right. */
  lemma JoiningATeamGivesItsRights(t: Tables, team: int, user: int, role: int, permId: int, node: int)
    requires UniqueCodes(t.permissions) && permId in t.permissions
    requires (team, role) in t.teamRoles && NearestRow(t, role, permId, node)
    ensures var t' := t.(teamMembers := t.teamMembers + {(team, user)});
            AtMost(t.grants[(role, node)], Effective(t', user, t.permissions[permId].code))
  {
    var t' := t.(teamMembers := t.teamMembers + {(team, user)});
    RightsExactly(t', user, t.permissions[permId].code);
    assert (team, user) in t'.teamMembers && HoldsRole(t', user, role);
    assert NearestRow(t', role, permId, node);
  }

  // ---------------------------------------------------------------- how rights respond to change

  ghost predicate AtMost(x: Rights, y: Rights) {
    (x.view ==> y.view) && (x.edit ==> y.edit) && (x.exporting ==> y.exporting)
  }

  /** Holding more roles never takes a right away. */
  lemma MoreRolesMoreRights(t: Tables, t': Tables, user: int, code: string)
    requires t'.permissions == t.permissions && t'.grants == t.grants
    requires UserRoleIds(t, user) <= UserRoleIds(t', user)
    ensures AtMost(Effective(t, user, code), Effective(t', user, code))
  {
  }

  /** Adding a role to a user directly, or through a team, never removes a right from anyone. */
  lemma AddingRoleKeepsRights(t: Tables, user: int, role: int, team: int, who: int, code: string)
    ensures AtMost(Effective(t, who, code), Effective(t.(userRoles := t.userRoles + {(user, role)}), who, code))
    ensures AtMost(Effective(t, who, code), Effective(t.(teamRoles := t.teamRoles + {(team, role)}), who, code))
    ensures AtMost(Effective(t, who, code), Effective(t.(teamMembers := t.teamMembers + {(team, user)}), who, code))
  {
    MoreRolesMoreRights(t, t.(userRoles := t.userRoles + {(user, role)}), who, code);
    MoreRolesMoreRights(t, t.(teamRoles := t.teamRoles + {(team, role)}), who, code);
    MoreRolesMoreRights(t, t.(teamMembers := t.teamMembers + {(team, user)}), who, code);
  }

  /** `node` lies on the path above `permId` and no nearer node has a row of `role`. */
  ghost predicate Governs(t: Tables, role: int, node: int, permId: int) {
    var path := Ancestors(t.permissions, permId);
    exists k :: 0 <= k < |path| && path[k] == node && forall j :: 0 <= j < k ==> (role, path[j]) !in t.grants
  }

  lemma {:induction false} FirstGrantAfterUpsert(grants: map<(int, int), Rights>, role: int, node: int, r: Rights,
                                                 chain: seq<int>)
    ensures FirstGrant(grants[(role, node) := r], role, chain) ==
              if exists k :: 0 <= k < |chain| && chain[k] == node
                             && forall j :: 0 <= j < k ==> (role, chain[j]) !in grants
              then r else FirstGrant(grants, role, chain)
    ensures forall other :: other != role ==>
              FirstGrant(grants[(role, node) := r], other, chain) == FirstGrant(grants, other, chain)
  {
    if chain != [] {
      FirstGrantAfterUpsert(grants, role, node, r, chain[1..]);
      var tail := chain[1..];
      if k :| 0 < k < |chain| && chain[k] == node && forall j :: 0 <= j < k ==> (role, chain[j]) !in grants {
        assert tail[k - 1] == node;
        forall j | 0 <= j < k - 1 ensures (role, tail[j]) !in grants { assert tail[j] == chain[j + 1]; }
      }
      if (role, chain[0]) !in grants {
        if k :| 0 <= k < |tail| && tail[k] == node && forall j :: 0 <= j < k ==> (role, tail[j]) !in grants {
          assert chain[k + 1] == node;
          forall j | 0 <= j < k + 1 ensures (role, chain[j]) !in grants { if j > 0 { assert tail[j - 1] == chain[j]; } }
        }
      }
    }
  }

  /**
   Upserting a row at (role, node) gives the role exactly the new rights on the nodes of the subtree
   not shadowed by a nearer row, and changes nothing else.
   */
  lemma UpsertActsOnItsSubtree(t: Tables, role: int, node: int, r: Rights, permId: int)
    ensures var t' := t.(grants := t.grants[(role, node) := r]);
            && RoleRights(t', role, permId)
                == (if Governs(t, role, node, permId) then r else RoleRights(t, role, permId))
            && forall other :: other != role ==> RoleRights(t', other, permId) == RoleRights(t, other, permId)
  {
    FirstGrantAfterUpsert(t.grants, role, node, r, Ancestors(t.permissions, permId));
  }

  /** Only holders of the role can notice, and only on nodes the new row governs. */
  lemma UpsertTouchesOnlyHolders(t: Tables, role: int, node: int, r: Rights, user: int, permId: int)
    ensures var t' := t.(grants := t.grants[(role, node) := r]);
            RightsOn(t', user, permId) == RightsOn(t, user, permId)
            || (role in UserRoleIds(t, user) && Governs(t, role, node, permId))
  {
    var t' := t.(grants := t.grants[(role, node) := r]);
    if role !in UserRoleIds(t, user) || !Governs(t, role, node, permId) {
      forall other | other in UserRoleIds(t, user)
        ensures RoleRights(t', other, permId) == RoleRights(t, other, permId)
      {
        UpsertActsOnItsSubtree(t, role, node, r, permId);
      }
      SameRoleRights(t, t', user, permId);
    }
  }

  lemma SameRoleRights(t: Tables, t': Tables, user: int, permId: int)
    requires UserRoleIds(t', user) == UserRoleIds(t, user)
    requires forall role :: role in UserRoleIds(t, user) ==> RoleRights(t', role, permId) == RoleRights(t, role, permId)
    ensures RightsOn(t', user, permId) == RightsOn(t, user, permId)
  {
  }
}
