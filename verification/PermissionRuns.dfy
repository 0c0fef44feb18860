/**
 Every run of reads, sign-ins and settings calls by several workers over one shared cache: what the
 shared copy equals, and how old an answer can be.
 */
module PermissionRuns {
  import opened Permissions
  import opened PermissionCache

  datatype System = System(
    tables: Tables, redis: map<int, RightsMap>, workers: map<int, Local>, now: real)

  datatype Event =
    | Read(worker: int, user: int)       // user_effective_map, for a user with a live session
    | Settings(worker: int, change: Change)
    | Wait(seconds: real)
    | Expire(user: int)                  // the shared copy outlives its own time to live
    | Start(worker: int)                 // a process starts, or restarts, with an empty cache

  /** A read needs a live session, which needs an enabled account: src/auth/service.py:58-78. */
  ghost predicate Possible(s: System, e: Event) {
    match e
    case Read(w, u) => w in s.workers && u in s.tables.users && s.tables.users[u]
    case Settings(w, c) => w in s.workers && Legal(s.tables, c)
    case Wait(seconds) => seconds >= 0.0
    case _ => true
  }

  ghost function Next(ttl: real, s: System, e: Event): System
    requires Possible(s, e)
  {
    match e
    case Read(w, u) =>
      var (answer, redis, local) := ReadStep(ttl, s.tables, s.redis, s.workers[w], u, s.now);
      s.(redis := redis, workers := s.workers[w := local])
    case Settings(w, c) =>
      var scope := ScopeOf(s.tables, c);
      System(After(s.tables, c), Cleared(s.redis, scope), s.workers[w := Cleared(s.workers[w], scope)], s.now)
    case Wait(seconds) => s.(now := s.now + seconds)
    case Expire(u) => s.(redis := s.redis - {u})
    case Start(w) => s.(workers := s.workers[w := map[]])
  }

  /** Before the first read: tables seeded and synchronised, nothing cached. */
  ghost predicate Initial(s: System) {
    Valid(s.tables) && s.redis == map[] && s.workers == map[]
  }

  /** `run[i + 1]` follows from `run[i]` by `events[i]`. */
  ghost predicate IsRun(ttl: real, run: seq<System>, events: seq<Event>) {
    && |run| == |events| + 1
    && Initial(run[0])
    && forall i :: 0 <= i < |events| ==> Possible(run[i], events[i]) && run[i + 1] == Next(ttl, run[i], events[i])
  }

  /** Every shared copy belongs to an enabled account and is the map computed afresh. */
  ghost predicate SharedIsFresh(s: System) {
    && Valid(s.tables)
    && forall u :: u in s.redis ==>
                     u in s.tables.users && s.tables.users[u] && s.redis[u] == EffectiveMap(s.tables, u)
  }

  lemma UsersStay(t: Tables, c: Change)
    requires Legal(t, c)
    ensures t.users.Keys <= After(t, c).users.Keys
    ensures forall u :: u in t.users && !InScope(ScopeOf(t, c), u) ==> After(t, c).users[u] == t.users[u]
  {
    if c.ImportLdapUsers? {
      ImportedShape(t, c.userIds, c.roleIds, c.teamIds);
    }
  }

  lemma StepKeepsSharedFresh(ttl: real, s: System, e: Event)
    requires SharedIsFresh(s) && Possible(s, e)
    ensures SharedIsFresh(Next(ttl, s, e))
  {
    if e.Settings? {
      var c := e.change;
      var s' := Next(ttl, s, e);
      ChangeKeepsValid(s.tables, c);
      UsersStay(s.tables, c);
      forall u | u in s'.redis
        ensures u in s'.tables.users && s'.tables.users[u] && s'.redis[u] == EffectiveMap(s'.tables, u)
      {
        assert !InScope(ScopeOf(s.tables, c), u);
        ChangeClearsEnough(s.tables, c, u);
      }
    }
  }

  /**
   At every instant of every run, every shared copy of a user's rights equals what would be computed
   afresh from the tables, and its user's account is enabled.
   */
  lemma {:induction false} SharedCopyAlwaysFresh(ttl: real, run: seq<System>, events: seq<Event>, i: nat)
    requires IsRun(ttl, run, events) && i < |run|
    ensures SharedIsFresh(run[i])
  {
    if i > 0 {
      SharedCopyAlwaysFresh(ttl, run, events, i - 1);
      StepKeepsSharedFresh(ttl, run[i - 1], events[i - 1]);
    }
  }

  /** At `at`, not after `i`, the true rights of `user` were `m`, and the clock showed `ts`. */
  ghost predicate WasTrue(run: seq<System>, i: nat, at: nat, user: int, m: RightsMap, ts: real)
    requires i < |run|
  {
    at <= i && run[at].now == ts && EffectiveMap(run[at].tables, user) == m
  }

  /** A worker's own entry is the true map of the moment it was stored. */
  lemma {:induction false} LocalEntryWasTrue(ttl: real, run: seq<System>, events: seq<Event>, i: nat, w: int, user: int)
    returns (at: nat)
    requires IsRun(ttl, run, events) && i < |run|
    requires w in run[i].workers && user in run[i].workers[w]
    ensures WasTrue(run, i, at, user, run[i].workers[w][user].1, run[i].workers[w][user].0)
  {
    assert i > 0;
    var s, e := run[i - 1], events[i - 1];
    assert run[i] == Next(ttl, s, e);
    if w in s.workers && user in s.workers[w] && s.workers[w][user] == run[i].workers[w][user] {
      at := LocalEntryWasTrue(ttl, run, events, i - 1, w, user);
    } else {
      SharedCopyAlwaysFresh(ttl, run, events, i - 1);
      assert e.Read? && e.worker == w && e.user == user;
      at := i - 1;
    }
  }

  /** What the read at step `i` answers. */
  ghost function Answer(ttl: real, s: System, e: Event): RightsMap
    requires e.Read? && Possible(s, e)
  {
    ReadStep(ttl, s.tables, s.redis, s.workers[e.worker], e.user, s.now).0
  }

  /**
   Every map returned to a worker was the user's true map at some instant of the run less than the
   cache's time to live ago.
   */
  lemma AnswerWasTrueRecently(ttl: real, run: seq<System>, events: seq<Event>, i: nat) returns (at: nat)
    requires ttl > 0.0 && IsRun(ttl, run, events) && i < |events| && events[i].Read?
    ensures at <= i && WasTrue(run, i, at, events[i].user, Answer(ttl, run[i], events[i]), run[at].now)
    ensures 0.0 <= run[i].now - run[at].now < ttl
  {
    var s, e := run[i], events[i];
    var local := s.workers[e.worker];
    if e.user in local && s.now - local[e.user].0 < ttl {
      at := LocalEntryWasTrue(ttl, run, events, i, e.worker, e.user);
    } else {
      SharedCopyAlwaysFresh(ttl, run, events, i);
      at := i;
    }
    ClockRises(ttl, run, events, at, i);
  }

  lemma {:induction false} ClockRises(ttl: real, run: seq<System>, events: seq<Event>, i: nat, j: nat)
    requires IsRun(ttl, run, events) && i <= j < |run|
    ensures run[i].now <= run[j].now
  {
    if i < j {
      ClockRises(ttl, run, events, i, j - 1);
      assert Possible(run[j - 1], events[j - 1]) && run[j] == Next(ttl, run[j - 1], events[j - 1]);
    }
  }

  /**
   A directory login that finds the account disabled adds roles and drops no cached map. It needs to
   drop none: disabling the account dropped its shared copy, and no read has stored one since.
   */
  lemma DisabledLoginMeetsNoCopy(ttl: real, run: seq<System>, events: seq<Event>, i: nat, user: int, roleIds: seq<int>)
    requires IsRun(ttl, run, events) && i < |run|
    requires DisabledLogin(run[i].tables, LdapLogin(user, roleIds), user)
    ensures ScopeOf(run[i].tables, LdapLogin(user, roleIds)) == Only({}) && user !in run[i].redis
  {
    SharedCopyAlwaysFresh(ttl, run, events, i);
  }
}
