/** Grouping by a key, as `dict.setdefault(key, []).append(x)` does. */
module Grouping {
  import opened Sorting

  /** The keys of the entries, each where it is first seen: the dictionary's insertion order. */
  function Keys<T, K(==)>(key: T -> K, s: seq<T>): seq<K> {
    if s == [] then []
    else
      var before, k := Keys(key, s[..|s| - 1]), key(s[|s| - 1]);
      if k in before then before else before + [k]
  }

  /** The entries of one key, in order. */
  function Group<T, K(==)>(key: T -> K, s: seq<T>, k: K): seq<T> {
    if s == [] then []
    else Group(key, s[..|s| - 1], k) + if key(s[|s| - 1]) == k then [s[|s| - 1]] else []
  }

  method GroupBy<T, K(==)>(key: T -> K, s: seq<T>) returns (keys: seq<K>, groups: map<K, seq<T>>)
    ensures keys == Keys(key, s)
    ensures forall k :: k in groups <==> k in keys
    ensures forall k <- keys :: groups[k] == Group(key, s, k) != []
  {
    keys, groups := [], map[];
    for i := 0 to |s|
      invariant keys == Keys(key, s[..i])
      invariant forall k :: k in groups <==> k in keys
      invariant forall k <- keys :: groups[k] == Group(key, s[..i], k)
    {
      assert s[..i + 1][..i] == s[..i];
      var k := key(s[i]);
      if k !in groups {
        KeysAndGroups(key, s[..i]);
        assert Group(key, s[..i], k) == [];
        ghost var before := keys;
        keys, groups := keys + [k], groups[k := []];
        assert forall j <- keys :: j == k || j in before;
      }
      assert forall j :: Group(key, s[..i + 1], j) == Group(key, s[..i], j) + if k == j then [s[i]] else [];
      groups := groups[k := groups[k] + [s[i]]];
    }
    assert s[..|s|] == s;
    KeysAndGroups(key, s);
  }

  /** No key is listed twice, and the listed ones are those with entries. */
  lemma {:induction false} KeysAndGroups<T, K>(key: T -> K, s: seq<T>)
    ensures Distinct(Keys(key, s))
    ensures forall k :: k in Keys(key, s) <==> Group(key, s, k) != []
  {
    if s != [] { KeysAndGroups(key, s[..|s| - 1]); }
  }

  lemma {:induction false} GroupMembers<T, K>(key: T -> K, s: seq<T>, k: K)
    ensures forall x :: x in Group(key, s, k) <==> x in s && key(x) == k
  {
    if s != [] {
      GroupMembers(key, s[..|s| - 1], k);
      assert s == s[..|s| - 1] + [s[|s| - 1]];
    }
  }

  /** Sorting the keys loses none and repeats none. */
  lemma KeysSorted<T, K(!new)>(key: T -> K, s: seq<T>, le: (K, K) -> bool)
    requires TotalPreorder(le)
    ensures var keys := SortBy(le, Keys(key, s));
            && Distinct(keys) && Ordered(le, keys)
            && (forall k :: k in keys <==> k in Keys(key, s))
            && (forall i :: 0 <= i < |keys| ==> Group(key, s, keys[i]) != [])
  {
    var x, y := Keys(key, s), SortBy(le, Keys(key, s));
    KeysAndGroups(key, s);
    SortBySorts(le, x);
    DistinctReordered(x, y);
    forall k ensures k in y <==> k in x {
      assert k in y <==> k in multiset(y);
      assert k in x <==> k in multiset(x);
    }
    assert forall i :: 0 <= i < |y| ==> y[i] in y;
  }

  // ---------------------------------------------------------------- nothing lost

  /** The groups of the listed keys, one after the other. */
  ghost function Regrouped<T, K>(key: T -> K, s: seq<T>, keys: seq<K>): seq<T> {
    if keys == [] then [] else Regrouped(key, s, keys[..|keys| - 1]) + Group(key, s, keys[|keys| - 1])
  }

  lemma RegroupedUpTo<T, K>(key: T -> K, s: seq<T>, keys: seq<K>, n: nat)
    requires 0 < n <= |keys|
    ensures Regrouped(key, s, keys[..n]) == Regrouped(key, s, keys[..n - 1]) + Group(key, s, keys[n - 1])
  {
    assert keys[..n][..n - 1] == keys[..n - 1];
  }

  /** The entries with a listed key. */
  ghost function Listed<T, K>(key: T -> K, s: seq<T>, keys: seq<K>): seq<T> {
    if s == [] then []
    else Listed(key, s[..|s| - 1], keys) + if key(s[|s| - 1]) in keys then [s[|s| - 1]] else []
  }

  lemma {:induction false} OneKeyMore<T, K>(key: T -> K, s: seq<T>, keys: seq<K>, k: K)
    requires k !in keys
    ensures multiset(Listed(key, s, keys + [k])) == multiset(Listed(key, s, keys)) + multiset(Group(key, s, k))
  {
    if s != [] { OneKeyMore(key, s[..|s| - 1], keys, k); }
  }

  lemma {:induction false} NoKeys<T, K>(key: T -> K, s: seq<T>)
    ensures Listed(key, s, []) == []
  {
    if s != [] { NoKeys(key, s[..|s| - 1]); }
  }

  lemma {:induction false} AllKeys<T, K>(key: T -> K, s: seq<T>, keys: seq<K>)
    requires forall x <- s :: key(x) in keys
    ensures Listed(key, s, keys) == s
  {
    if s != [] {
      AllKeys(key, s[..|s| - 1], keys);
      assert s == s[..|s| - 1] + [s[|s| - 1]];
    }
  }

  lemma {:induction false} RegroupedIsListed<T, K>(key: T -> K, s: seq<T>, keys: seq<K>)
    requires Distinct(keys)
    ensures multiset(Regrouped(key, s, keys)) == multiset(Listed(key, s, keys))
  {
    if keys == [] {
      NoKeys(key, s);
    } else {
      var init, k := keys[..|keys| - 1], keys[|keys| - 1];
      RegroupedIsListed(key, s, init);
      OneKeyMore(key, s, init, k);
      assert keys == init + [k];
    }
  }

  /** Grouping and listing the groups in any order of the keys keeps every entry, once. */
  lemma GroupsConserve<T, K>(key: T -> K, s: seq<T>, keys: seq<K>)
    requires Distinct(keys) && forall k :: k in keys <==> k in Keys(key, s)
    ensures multiset(Regrouped(key, s, keys)) == multiset(s)
  {
    RegroupedIsListed(key, s, keys);
    KeysAndGroups(key, s);
    forall x | x in s ensures key(x) in keys {
      GroupMembers(key, s, key(x));
      assert x in Group(key, s, key(x));
    }
    AllKeys(key, s, keys);
  }

  function Map<T, U>(f: T -> U, s: seq<T>): seq<U> {
    seq(|s|, i requires 0 <= i < |s| => f(s[i]))
  }

  lemma MapConcat<T, U>(f: T -> U, x: seq<T>, y: seq<T>)
    ensures Map(f, x + y) == Map(f, x) + Map(f, y)
  {
  }

  /** Taking out one entry takes out its image. */
  lemma MapWithout<T, U>(f: T -> U, t: seq<T>, i: nat)
    requires i < |t|
    ensures multiset(Map(f, t)) == multiset(Map(f, t[..i] + t[i + 1..])) + multiset{f(t[i])}
  {
    assert t == t[..i] + [t[i]] + t[i + 1..];
    MapConcat(f, t[..i] + [t[i]], t[i + 1..]);
    MapConcat(f, t[..i], [t[i]]);
    MapConcat(f, t[..i], t[i + 1..]);
    assert Map(f, [t[i]]) == [f(t[i])];
  }

  /** Mapping two arrangements of the same entries gives two arrangements of the same results. */
  lemma {:induction false} MapReordered<T, U>(f: T -> U, s: seq<T>, t: seq<T>)
    requires multiset(s) == multiset(t)
    ensures multiset(Map(f, s)) == multiset(Map(f, t))
  {
    if s == [] {
      assert |multiset(t)| == 0;
    } else {
      var last := |s| - 1;
      assert s[last] in multiset(t);
      var i :| 0 <= i < |t| && t[i] == s[last];
      MultisetWithout(s, last);
      MultisetWithout(t, i);
      MapWithout(f, s, last);
      MapWithout(f, t, i);
      assert s[..last] + s[last + 1..] == s[..last];
      MapReordered(f, s[..last], t[..i] + t[i + 1..]);
    }
  }
}
