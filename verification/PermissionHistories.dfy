/**
 Histories that mix settings calls with catalog synchronisations (src/auth/settings_crud.py,
 src/auth/registry.py:39-101): when the permission tables stay a forest all the way.
 */
module PermissionHistories {
  import opened Prelude
  import opened Permissions
  import opened PermissionCache
  import opened Registry
  import opened RegistryLoops

  datatype Step =
    | Setting(change: Change)
    | Sync(nextId: int, roots: seq<Node>) // `nextId` is the sequence value the table hands out next

  ghost predicate PositiveIds(p: Forest) {
    forall id :: id in p ==> id > 0
  }

  /** The tables satisfy the schema and form a forest, and every permission id is positive. */
  ghost predicate Sane(t: Tables) {
    Valid(t) && PositiveIds(t.permissions)
  }

  /** The database accepts the call; the catalog names no code twice. */
  ghost predicate Accepted(t: Tables, step: Step) {
    match step
    case Setting(change) => Legal(t, change)
    case Sync(nextId, roots) =>
      && UniqueCodes(t.permissions) && DistinctCodes(Flatten(roots, None))
      && nextId > 0 && forall id :: id in t.permissions ==> id < nextId
  }

  ghost function Taken(t: Tables, step: Step): Tables
    requires Accepted(t, step)
  {
    match step
    case Setting(change) => After(t, change)
    case Sync(nextId, roots) => t.(permissions := Synced(t.permissions, nextId, roots))
  }

  /** A synchronisation that meets no loop of clashes; any other step. */
  ghost predicate Loopless(t: Tables, step: Step) {
    step.Sync? ==> !ClashLoop(t.permissions, Flatten(step.roots, None))
  }

  ghost predicate Follows(t: Tables, step: Step, t': Tables) {
    Accepted(t, step) && t' == Taken(t, step)
  }

  ghost predicate IsHistory(states: seq<Tables>, steps: seq<Step>) {
    |states| == |steps| + 1 && forall i :: 0 <= i < |steps| ==> Follows(states[i], steps[i], states[i + 1])
  }

  lemma SettingKeepsIds(t: Tables, c: Change)
    requires PositiveIds(t.permissions) && Legal(t, c)
    ensures PositiveIds(After(t, c).permissions)
  {
    if c.ImportLdapUsers? { ImportedShape(t, c.userIds, c.roleIds, c.teamIds); }
  }

  /** A new permissions table that satisfies the schema leaves only cycles to fear. */
  lemma ValidWith(t: Tables, p': Forest)
    requires Valid(t) && UniqueCodes(p') && ParentsExist(p') && 0 !in p'
    ensures Valid(t.(permissions := p')) <==> Acyclic(p')
  {
  }

  lemma SyncKeepsSaneExactly(t: Tables, nextId: int, roots: seq<Node>)
    requires Sane(t) && DistinctCodes(Flatten(roots, None))
    requires nextId > 0 && forall id :: id in t.permissions ==> id < nextId
    ensures Sane(t.(permissions := Synced(t.permissions, nextId, roots)))
            <==> !ClashLoop(t.permissions, Flatten(roots, None))
  {
    SyncKeepsForestExactly(t.permissions, nextId, roots);
    SyncedIsMixed(t.permissions, nextId, roots);
    ValidWith(t, Synced(t.permissions, nextId, roots));
  }

  /** One step keeps the tables sane exactly when it is not a synchronisation that ties a loop. */
  lemma StepKeepsSaneExactly(t: Tables, step: Step, t': Tables)
    requires Sane(t) && Follows(t, step, t')
    ensures Sane(t') <==> Loopless(t, step)
  {
    match step {
      case Setting(change) =>
        ChangeKeepsValid(t, change);
        SettingKeepsIds(t, change);
      case Sync(nextId, roots) => SyncKeepsSaneExactly(t, nextId, roots);
    }
  }

  lemma {:induction false} WellSoFar(well: seq<bool>, right: seq<bool>, n: nat)
    requires |well| == |right| + 1 && well[0] && n <= |right|
    requires forall i :: 0 <= i < |right| && well[i] ==> well[i + 1] == right[i]
    requires forall i :: 0 <= i < |right| ==> right[i]
    ensures well[n]
  {
    if n > 0 { WellSoFar(well, right, n - 1); }
  }

  /** What starts well and goes on exactly while each step is right goes well exactly when all are. */
  lemma GoesOn(well: seq<bool>, right: seq<bool>)
    requires |well| == |right| + 1 && well[0]
    requires forall i :: 0 <= i < |right| && well[i] ==> well[i + 1] == right[i]
    ensures (forall i :: 0 <= i < |well| ==> well[i]) <==> forall i :: 0 <= i < |right| ==> right[i]
  {
    if forall i :: 0 <= i < |right| ==> right[i] {
      forall i | 0 <= i < |well| ensures well[i] { WellSoFar(well, right, i); }
    }
    if forall i :: 0 <= i < |well| ==> well[i] {
      forall i | 0 <= i < |right| ensures right[i] { assert well[i] && well[i + 1]; }
    }
  }

  /**
   Whatever the order of settings calls and synchronisations, the tables are sane at every point, so
   that every ancestor walk ends, exactly when no synchronisation meets a loop of clashes.
   */
  lemma HistoryStaysSaneExactly(states: seq<Tables>, steps: seq<Step>)
    requires IsHistory(states, steps) && Sane(states[0])
    ensures (forall i :: 0 <= i < |states| ==> Sane(states[i]))
            <==> forall i :: 0 <= i < |steps| ==> Loopless(states[i], steps[i])
  {
    var well := seq(|states|, i requires 0 <= i < |states| => Sane(states[i]));
    var right := seq(|steps|, i requires 0 <= i < |steps| => Loopless(states[i], steps[i]));
    forall i | 0 <= i < |right| && well[i] ensures well[i + 1] == right[i] {
      StepKeepsSaneExactly(states[i], steps[i], states[i + 1]);
    }
    GoesOn(well, right);
    assert forall i :: 0 <= i < |states| ==> well[i] == Sane(states[i]);
    assert forall i :: 0 <= i < |steps| ==> right[i] == Loopless(states[i], steps[i]);
  }
}
