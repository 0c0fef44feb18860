/**
 What the two caches spare a reader, and what a clear leaves (src/auth/permission_service.py:54-71, 280-328).
 */
module PermissionReads {
  import opened Prelude
  import opened Permissions
  import opened PermissionCache

  /** A clear drops exactly the entries of the users it is about. */
  lemma ClearedExactly<T>(m: map<int, T>, s: Scope)
    ensures forall u :: u in Cleared(m, s) <==> u in m && !(s.Everyone? || u in s.users)
    ensures forall u :: u in Cleared(m, s) ==> Cleared(m, s)[u] == m[u]
  {
  }

  /**
   A read leaves everybody else's entries alone. After it the reader's map is in the shared cache or was
   served from a fresh entry of the worker's own, and the worker holds what it answered: without such an
   entry the shared copy, and without either what the tables hold.
   */
  lemma ReadFillsCaches(ttl: real, t: Tables, redis: map<int, RightsMap>, local: Local, user: int, now: real)
    requires ttl > 0.0
    ensures var (m, redis', local') := ReadStep(ttl, t, redis, local, user, now);
            && (forall u :: u != user ==> (u in redis' <==> u in redis) && (u in local' <==> u in local))
            && (forall u :: u != user && u in redis ==> redis'[u] == redis[u])
            && (forall u :: u != user && u in local ==> local'[u] == local[u])
            && user in local' && local'[user].1 == m && now - local'[user].0 < ttl
            && (user in redis' || (redis' == redis && local' == local))
            && (user in redis ==> user in redis' && redis'[user] == redis[user])
            && ((user in local ==> now - local[user].0 >= ttl) ==>
                  m == (if user in redis then redis[user] else EffectiveMap(t, user)))
  {
  }

  /** A second read before the entry is too old gives the same answer and changes nothing, whatever the tables hold. */
  lemma ReadTwice(ttl: real, t: Tables, t': Tables, redis: map<int, RightsMap>, redis'': map<int, RightsMap>,
                  local: Local, user: int, now: real, later: real)
    requires ttl > 0.0
    requires var (_, _, local') := ReadStep(ttl, t, redis, local, user, now);
             user in local' ==> later - local'[user].0 < ttl
    ensures var (m, _, local') := ReadStep(ttl, t, redis, local, user, now);
            ReadStep(ttl, t', redis'', local', user, later) == (m, redis'', local')
  {
  }

  /** The map a user is shown lists every code there is, and no other, with the rights they have on it. */
  lemma MapListsEveryCode(t: Tables, user: int)
    ensures forall code :: code in EffectiveMap(t, user)
                           <==> exists id <- t.permissions :: t.permissions[id].code == code
    ensures forall code :: code in EffectiveMap(t, user) ==>
              EffectiveMap(t, user)[code] == Effective(t, user, code)
  {
  }
}
