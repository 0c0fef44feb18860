/** Small value types and sequence facts shared by the models. */
module Prelude {

  datatype Option<+T> = None | Some(value: T)

  function OrBlank(s: Option<string>): string {
    match s case Some(v) => v case None => ""
  }

  function Min(a: real, b: real): real { if a <= b then a else b }

  function Max(a: real, b: real): real { if a >= b then a else b }

  function MaxInt(a: int, b: int): int { if a >= b then a else b }

  /** Some member, in no particular order. */
  method AnyOf<T(==)>(s: set<T>) returns (x: T)
    requires s != {}
    ensures x in s
  {
    x :| x in s;
  }

  /** The results for all entries, one after the other. */
  function Collect<T, U>(f: T -> seq<U>, s: seq<T>): seq<U> {
    if s == [] then [] else Collect(f, s[..|s| - 1]) + f(s[|s| - 1])
  }

  lemma {:induction false} CollectConcat<T, U>(f: T -> seq<U>, x: seq<T>, y: seq<T>)
    ensures Collect(f, x + y) == Collect(f, x) + Collect(f, y)
  {
    if y == [] {
      assert x + y == x;
    } else {
      CollectConcat(f, x, y[..|y| - 1]);
      assert (x + y)[..|x + y| - 1] == x + y[..|y| - 1];
    }
  }

  lemma CollectOne<T, U>(f: T -> seq<U>, x: T)
    ensures Collect(f, [x]) == f(x)
  {
  }

  lemma {:induction false} CollectHas<T, U>(f: T -> seq<U>, s: seq<T>, y: U)
    ensures y in Collect(f, s) <==> exists x <- s :: y in f(x)
  {
    if s != [] {
      CollectHas(f, s[..|s| - 1], y);
      assert s == s[..|s| - 1] + [s[|s| - 1]];
    }
  }
}
