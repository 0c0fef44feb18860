/** `sorted(..., key=...)` and the orders the programs sort by. */
module Sorting {

  /** Places `x` after everything not greater than it, as a stable sort does. */
  function Insert<T>(le: (T, T) -> bool, x: T, s: seq<T>): seq<T> {
    if s == [] then [x]
    else if le(s[|s| - 1], x) then s + [x]
    else Insert(le, x, s[..|s| - 1]) + [s[|s| - 1]]
  }

  function SortBy<T>(le: (T, T) -> bool, s: seq<T>): seq<T> {
    if s == [] then [] else Insert(le, s[|s| - 1], SortBy(le, s[..|s| - 1]))
  }

  ghost predicate TotalPreorder<T(!new)>(le: (T, T) -> bool) {
    && (forall x, y :: le(x, y) || le(y, x))
    && (forall x, y, z :: le(x, y) && le(y, z) ==> le(x, z))
  }

  ghost predicate Ordered<T>(le: (T, T) -> bool, s: seq<T>) {
    forall i, j :: 0 <= i < j < |s| ==> le(s[i], s[j])
  }

  lemma {:induction false} InsertKeeps<T>(le: (T, T) -> bool, x: T, s: seq<T>)
    ensures multiset(Insert(le, x, s)) == multiset(s) + multiset{x}
  {
    if s != [] && !le(s[|s| - 1], x) {
      InsertKeeps(le, x, s[..|s| - 1]);
      assert s == s[..|s| - 1] + [s[|s| - 1]];
    }
  }

  lemma InsertMembers<T>(le: (T, T) -> bool, x: T, s: seq<T>)
    ensures forall y :: y in Insert(le, x, s) <==> y == x || y in s
  {
    InsertKeeps(le, x, s);
    forall y ensures y in Insert(le, x, s) <==> y == x || y in s {
      assert y in Insert(le, x, s) <==> y in multiset(Insert(le, x, s));
      assert y in s <==> y in multiset(s);
    }
  }

  lemma {:induction false} InsertSorts<T(!new)>(le: (T, T) -> bool, x: T, s: seq<T>)
    requires TotalPreorder(le) && Ordered(le, s)
    ensures Ordered(le, Insert(le, x, s))
  {
    if s != [] {
      var init, last := s[..|s| - 1], s[|s| - 1];
      if le(last, x) {
        forall i | 0 <= i < |s| ensures le(s[i], x) {
          assert i == |s| - 1 || le(s[i], last);
        }
      } else {
        InsertSorts(le, x, init);
        InsertMembers(le, x, init);
        var t := Insert(le, x, init);
        forall i | 0 <= i < |t| ensures le(t[i], last) {
          assert t[i] in t;
          if t[i] != x {
            var k :| 0 <= k < |init| && init[k] == t[i];
            assert le(s[k], s[|s| - 1]);
          }
        }
      }
    }
  }

  /** Sorting orders the elements and neither loses nor repeats any. */
  lemma {:induction false} SortBySorts<T(!new)>(le: (T, T) -> bool, s: seq<T>)
    requires TotalPreorder(le)
    ensures Ordered(le, SortBy(le, s)) && multiset(SortBy(le, s)) == multiset(s)
    ensures |SortBy(le, s)| == |s|
  {
    if s != [] {
      SortBySorts(le, s[..|s| - 1]);
      InsertSorts(le, s[|s| - 1], SortBy(le, s[..|s| - 1]));
    }
    SortKeeps(le, s);
    assert |multiset(SortBy(le, s))| == |multiset(s)|;
  }

  lemma LastOfMany<T>(s: seq<T>)
    requires s != []
    ensures multiset(s) == multiset(s[..|s| - 1]) + multiset{s[|s| - 1]}
  {
    assert s == s[..|s| - 1] + [s[|s| - 1]];
  }

  /** Whatever the order, sorting neither loses nor repeats an element. */
  lemma {:induction false} SortKeeps<T>(le: (T, T) -> bool, s: seq<T>)
    ensures multiset(SortBy(le, s)) == multiset(s)
  {
    if s != [] {
      LastOfMany(s);
      SortKeeps(le, s[..|s| - 1]);
      InsertKeeps(le, s[|s| - 1], SortBy(le, s[..|s| - 1]));
    }
  }

  lemma SortMembers<T>(le: (T, T) -> bool, s: seq<T>)
    ensures forall x :: x in SortBy(le, s) <==> x in s
  {
    SortKeeps(le, s);
    forall x ensures x in SortBy(le, s) <==> x in s {
      assert x in SortBy(le, s) <==> x in multiset(SortBy(le, s));
      assert x in s <==> x in multiset(s);
    }
  }

  ghost predicate Distinct<T>(s: seq<T>) {
    forall i, j :: 0 <= i < j < |s| ==> s[i] != s[j]
  }

  lemma {:induction false} CountOfDistinct<T>(s: seq<T>, x: T)
    requires Distinct(s)
    ensures multiset(s)[x] <= 1
  {
    if s != [] {
      CountOfDistinct(s[..|s| - 1], x);
      assert s == s[..|s| - 1] + [s[|s| - 1]];
    }
  }

  /** Only the order of distinct entries can change without losing any. */
  lemma DistinctReordered<T>(s: seq<T>, t: seq<T>)
    requires Distinct(s) && multiset(s) == multiset(t)
    ensures Distinct(t)
  {
    forall i, j | 0 <= i < j < |t| ensures t[i] != t[j] {
      CountOfDistinct(s, t[i]);
      Repeated(t, i, j);
    }
  }

  lemma Repeated<T>(t: seq<T>, i: nat, j: nat)
    requires i < j < |t|
    ensures t[i] == t[j] ==> multiset(t)[t[i]] >= 2
  {
    assert t == t[..i] + [t[i]] + t[i + 1..j] + [t[j]] + t[j + 1..];
  }

  function Total<T>(f: T -> int, s: seq<T>): int {
    if s == [] then 0 else Total(f, s[..|s| - 1]) + f(s[|s| - 1])
  }

  lemma {:induction false} TotalInsert<T>(le: (T, T) -> bool, f: T -> int, x: T, s: seq<T>)
    ensures Total(f, Insert(le, x, s)) == Total(f, s) + f(x)
  {
    if s != [] {
      var init, last := s[..|s| - 1], s[|s| - 1];
      if le(last, x) {
        assert (s + [x])[..|s|] == s;
      } else {
        TotalInsert(le, f, x, init);
        assert (Insert(le, x, init) + [last])[..|Insert(le, x, init)|] == Insert(le, x, init);
      }
    }
  }

  lemma {:induction false} TotalConcat<T>(f: T -> int, s: seq<T>, t: seq<T>)
    ensures Total(f, s + t) == Total(f, s) + Total(f, t)
  {
    if t == [] {
      assert s + t == s;
    } else {
      TotalConcat(f, s, t[..|t| - 1]);
      assert (s + t)[..|s + t| - 1] == s + t[..|t| - 1];
    }
  }

  lemma MultisetWithout<T>(y: seq<T>, i: nat)
    requires i < |y|
    ensures multiset(y[..i] + y[i + 1..]) == multiset(y) - multiset{y[i]}
  {
    assert y == y[..i] + [y[i]] + y[i + 1..];
  }

  lemma TotalWithout<T>(f: T -> int, s: seq<T>, i: nat)
    requires i < |s|
    ensures Total(f, s) == Total(f, s[..i] + s[i + 1..]) + f(s[i])
  {
    var before, after := s[..i], s[i + 1..];
    TotalOne(f, s[i]);
    TotalConcat(f, before, [s[i]]);
    TotalConcat(f, before + [s[i]], after);
    TotalConcat(f, before, after);
    assert s == before + [s[i]] + after;
  }

  lemma TotalOne<T>(f: T -> int, x: T)
    ensures Total(f, [x]) == f(x)
  {
    assert [x][..0] == [];
  }

  /** A sum does not notice the order of its terms. */
  lemma {:induction false} TotalReordered<T>(f: T -> int, s: seq<T>, t: seq<T>)
    requires multiset(s) == multiset(t)
    ensures Total(f, s) == Total(f, t)
  {
    if s == [] {
      assert |multiset(t)| == 0;
    } else {
      var last := |s| - 1;
      assert s[last] in multiset(t);
      var i :| 0 <= i < |t| && t[i] == s[last];
      MultisetWithout(s, last);
      MultisetWithout(t, i);
      TotalWithout(f, s, last);
      TotalWithout(f, t, i);
      assert s[..last] + s[last + 1..] == s[..last];
      TotalReordered(f, s[..last], t[..i] + t[i + 1..]);
    }
  }

  lemma {:induction false} TotalSame<T>(f: T -> int, g: T -> int, s: seq<T>)
    requires forall x <- s :: f(x) == g(x)
    ensures Total(f, s) == Total(g, s)
  {
    if s != [] { TotalSame(f, g, s[..|s| - 1]); }
  }

  /** Two lists without repeats and with the same members are arrangements of each other. */
  lemma DistinctSameMembers<T>(s: seq<T>, t: seq<T>)
    requires Distinct(s) && Distinct(t) && forall x :: x in s <==> x in t
    ensures multiset(s) == multiset(t)
  {
    forall x ensures multiset(s)[x] == multiset(t)[x] {
      CountOfDistinct(s, x);
      CountOfDistinct(t, x);
      assert x in s <==> x in multiset(s);
      assert x in t <==> x in multiset(t);
    }
  }

  /** A sum does not notice sorting. */
  lemma {:induction false} TotalSort<T>(le: (T, T) -> bool, f: T -> int, s: seq<T>)
    ensures Total(f, SortBy(le, s)) == Total(f, s)
  {
    if s != [] {
      TotalSort(le, f, s[..|s| - 1]);
      TotalInsert(le, f, s[|s| - 1], SortBy(le, s[..|s| - 1]));
    }
  }

  /** Python's order on strings. */
  predicate LexLe(a: string, b: string) {
    a == [] || (b != [] && (a[0] < b[0] || (a[0] == b[0] && LexLe(a[1..], b[1..]))))
  }

  lemma {:induction false} LexLeReflexive(a: string)
    ensures LexLe(a, a)
  {
    if a != [] { LexLeReflexive(a[1..]); }
  }

  lemma {:induction false} LexLeTotal(a: string, b: string)
    ensures LexLe(a, b) || LexLe(b, a)
    ensures LexLe(a, b) && LexLe(b, a) ==> a == b
  {
    LexLeReflexive(a);
    if a != [] && b != [] && a[0] == b[0] {
      LexLeTotal(a[1..], b[1..]);
      assert a == [a[0]] + a[1..] && b == [b[0]] + b[1..];
    }
  }

  lemma {:induction false} LexLeTransitive(a: string, b: string, c: string)
    requires LexLe(a, b) && LexLe(b, c)
    ensures LexLe(a, c)
  {
    if a != [] && a[0] == b[0] == c[0] {
      LexLeTransitive(a[1..], b[1..], c[1..]);
    }
  }
}
