/** Following one link from each element: loops, and heights where there is none. */
module Chains {
  import opened Prelude

  /** Where `n` links from `x` lead, if that far. */
  function Hops<T>(next: T -> Option<T>, x: T, n: nat): Option<T> {
    if n == 0 then Some(x)
    else match Hops(next, x, n - 1) case Some(y) => next(y) case None => None
  }

  ghost predicate Reaches<T(!new)>(next: T -> Option<T>, x: T, y: T) {
    exists n :: 1 <= n && Hops(next, x, n) == Some(y)
  }

  /** Links from `all` stay in `all`. */
  ghost predicate Closed<T>(next: T -> Option<T>, all: set<T>) {
    forall x :: x in all && next(x).Some? ==> next(x).value in all
  }

  /** Hopping once, then `n` times. */
  lemma {:induction false} HopsFromNext<T>(next: T -> Option<T>, x: T, n: nat)
    requires next(x).Some?
    ensures Hops(next, x, n + 1) == Hops(next, next(x).value, n)
  {
    if n == 0 {
      assert Hops(next, x, 0) == Some(x);
    } else {
      HopsFromNext(next, x, n - 1);
    }
  }

  lemma ReachesNext<T(!new)>(next: T -> Option<T>, s: T, x: T)
    requires (s == x || Reaches(next, s, x)) && next(x).Some?
    ensures Reaches(next, s, next(x).value)
  {
    var n: nat := 0;
    if s != x || Reaches(next, s, x) { n :| 1 <= n && Hops(next, s, n) == Some(x); }
    assert Hops(next, s, n + 1) == next(x);
  }

  /** From each element the climb ends or comes back to somewhere it has been. */
  lemma {:induction false} ClimbEnds<T(!new)>(next: T -> Option<T>, all: set<T>, x: T, seen: set<T>)
    requires Closed(next, all) && x in all && seen <= all && forall s <- seen :: Reaches(next, s, x)
    ensures (exists y <- all :: Reaches(next, y, y)) || exists n :: Hops(next, x, n) == None
    decreases |all - seen|
  {
    if x !in seen {
      if next(x) == None {
        assert Hops(next, x, 0 + 1) == None;
      } else {
        var d := next(x).value;
        forall s | s in seen + {x} ensures Reaches(next, s, d) { ReachesNext(next, s, x); }
        assert all - seen == (all - (seen + {x})) + {x};
        ClimbEnds(next, all, d, seen + {x});
        if n: nat :| Hops(next, d, n) == None {
          HopsFromNext(next, x, n);
          assert Hops(next, x, n + 1) == None;
        }
      }
    }
  }

  /** The climb from `x` ends after exactly `n` links. */
  ghost predicate IsHeight<T>(next: T -> Option<T>, x: T, n: nat) {
    Hops(next, x, n) == None && forall m: nat :: m < n ==> Hops(next, x, m).Some?
  }

  ghost function Height<T(!new)>(next: T -> Option<T>, x: Option<T>): nat {
    match x
    case None => 0
    case Some(y) => if n: nat :| IsHeight(next, y, n) then n else 0
  }

  lemma {:induction false} EndHasHeight<T(!new)>(next: T -> Option<T>, x: T, n: nat)
    requires Hops(next, x, n) == None
    ensures exists h: nat :: IsHeight(next, x, h)
  {
    if Hops(next, x, n - 1) == None {
      EndHasHeight(next, x, n - 1);
    } else {
      SomeBefore(next, x, n - 1);
      assert IsHeight(next, x, n);
    }
  }

  lemma {:induction false} SomeBefore<T>(next: T -> Option<T>, x: T, n: nat)
    requires Hops(next, x, n).Some?
    ensures forall m: nat :: m <= n ==> Hops(next, x, m).Some?
  {
    if n > 0 { SomeBefore(next, x, n - 1); }
  }

  lemma HeightIs<T(!new)>(next: T -> Option<T>, x: T, h: nat)
    requires IsHeight(next, x, h)
    ensures Height(next, Some(x)) == h
  {
    assert forall m: nat :: IsHeight(next, x, m) ==> m == h;
  }

  /** Where nothing comes back to itself, each element is higher than the next. */
  lemma HeightFalls<T(!new)>(next: T -> Option<T>, all: set<T>, x: T)
    requires Closed(next, all) && x in all && forall y <- all :: !Reaches(next, y, y)
    ensures Height(next, next(x)) < Height(next, Some(x))
  {
    ClimbEnds(next, all, x, {});
    var n :| Hops(next, x, n) == None;
    EndHasHeight(next, x, n);
    var h: nat :| IsHeight(next, x, h);
    HeightIs(next, x, h);
    assert h > 0;
    if next(x).Some? {
      var d := next(x).value;
      forall m: nat ensures Hops(next, d, m) == Hops(next, x, m + 1) { HopsFromNext(next, x, m); }
      assert IsHeight(next, d, h - 1);
      HeightIs(next, d, h - 1);
    }
  }
}
