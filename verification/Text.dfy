/** Python string operations used by the matching code. */
module Text {

  /**
   The character tables Python's `str` methods consult. Every statement below holds for all tables
   with the stated properties, so no particular Unicode version is fixed. Lower-casing is one
   character to one character; upper-casing may lengthen.
   */
  datatype Alphabet = Alphabet(lower: char -> char, upper: char -> string, space: char -> bool) {

    /** Lower-casing leaves the LIKE metacharacters alone and maps nothing else onto them. */
    ghost predicate FixesWildcards() {
      forall c: char :: (lower(c) in "%_\\" || c in "%_\\") ==> lower(c) == c
    }

    /** Lower-casing an already lower-cased character changes nothing. */
    ghost predicate LowerSettles() {
      forall c: char :: lower(lower(c)) == lower(c)
    }

    /** Lower-casing turns no visible character into white space, nor the reverse. */
    ghost predicate LowerKeepsSpace() {
      forall c: char :: space(lower(c)) == space(c)
    }

    /** The characters of the rule keywords are visible and already lower case. */
    ghost predicate KeepsKeywords() {
      forall c: char :: ('a' <= c <= 'z' || c == '_') ==> lower(c) == c && !space(c)
    }

    /** Upper-casing leaves no ASCII lower-case letter. */
    ghost predicate UpperHasNoLower() {
      forall c: char, x: char :: x in upper(c) ==> !('a' <= x <= 'z')
    }

    /** Everything the worklist needs from the tables. */
    ghost predicate Sound() {
      LowerSettles() && LowerKeepsSpace() && KeepsKeywords()
    }

    /** `s.lower()` */
    function Lower(s: string): string {
      seq(|s|, i requires 0 <= i < |s| => lower(s[i]))
    }

    /** `s.upper()` */
    function Upper(s: string): string {
      if s == [] then [] else upper(s[0]) + Upper(s[1..])
    }

    function StripLeft(s: string): string {
      if s != [] && space(s[0]) then StripLeft(s[1..]) else s
    }

    function StripRight(s: string): string {
      if s != [] && space(s[|s| - 1]) then StripRight(s[..|s| - 1]) else s
    }

    /** `s.strip()` */
    function Strip(s: string): string {
      StripRight(StripLeft(s))
    }

    ghost predicate Blank(s: string) {
      Strip(s) == []
    }
  }

  predicate StartsWith(s: string, prefix: string) {
    prefix <= s
  }

  predicate EndsWith(s: string, suffix: string) {
    |suffix| <= |s| && s[|s| - |suffix|..] == suffix
  }

  /** Python's `needle in s`. */
  predicate Contains(s: string, needle: string) {
    exists k | 0 <= k <= |s| :: needle <= s[k..]
  }

  /** The text before the first occurrence of `c`, all of `s` when there is none: `s.split(c, 1)[0]`. */
  function Before(s: string, c: char): (r: string)
    ensures r <= s && c !in r
    ensures |r| < |s| ==> s[|r|] == c
  {
    if s == [] || s[0] == c then []
    else [s[0]] + Before(s[1..], c)
  }

  lemma {:induction false} StripLeftShape(a: Alphabet, s: string)
    ensures |a.StripLeft(s)| <= |s| && a.StripLeft(s) == s[|s| - |a.StripLeft(s)|..]
    ensures a.StripLeft(s) != [] ==> !a.space(a.StripLeft(s)[0])
  {
    if s != [] && a.space(s[0]) {
      StripLeftShape(a, s[1..]);
    }
  }

  lemma {:induction false} StripRightShape(a: Alphabet, s: string)
    ensures a.StripRight(s) <= s
    ensures a.StripRight(s) != [] ==> !a.space(a.StripRight(s)[|a.StripRight(s)| - 1])
    ensures s != [] && !a.space(s[0]) ==> a.StripRight(s) != []
  {
    if s != [] && a.space(s[|s| - 1]) {
      StripRightShape(a, s[..|s| - 1]);
    }
  }

  /** A stripped string neither begins nor ends with white space. */
  lemma StripShape(a: Alphabet, s: string)
    ensures a.Strip(s) != [] ==> !a.space(a.Strip(s)[0]) && !a.space(a.Strip(s)[|a.Strip(s)| - 1])
    ensures |a.Strip(s)| <= |s|
  {
    StripLeftShape(a, s);
    StripRightShape(a, a.StripLeft(s));
  }

  lemma {:induction false} StripLeftOf(a: Alphabet, lead: string, rest: string)
    requires (forall c <- lead :: a.space(c)) && (rest != [] ==> !a.space(rest[0]))
    ensures a.StripLeft(lead + rest) == rest
  {
    if lead == [] {
      assert lead + rest == rest;
    } else {
      assert (lead + rest)[1..] == lead[1..] + rest;
      StripLeftOf(a, lead[1..], rest);
    }
  }

  lemma {:induction false} StripRightOf(a: Alphabet, core: string, trail: string)
    requires (forall c <- trail :: a.space(c)) && (core != [] ==> !a.space(core[|core| - 1]))
    ensures a.StripRight(core + trail) == core
  {
    if trail == [] {
      assert core + trail == core;
    } else {
      var init := trail[..|trail| - 1];
      assert (core + trail)[..|core + trail| - 1] == core + init;
      assert (core + trail)[|core + trail| - 1] == trail[|trail| - 1];
      StripRightOf(a, core, init);
    }
  }

  /** Trimming takes off exactly the white space around a text. */
  lemma StripExactly(a: Alphabet, lead: string, core: string, trail: string)
    requires (forall c <- lead :: a.space(c)) && forall c <- trail :: a.space(c)
    requires core != [] && !a.space(core[0]) && !a.space(core[|core| - 1])
    ensures a.Strip(lead + core + trail) == core
  {
    assert lead + core + trail == lead + (core + trail);
    assert (core + trail)[0] == core[0];
    StripLeftOf(a, lead, core + trail);
    StripRightOf(a, core, trail);
  }

  /** Stripping a string that begins with a non-space keeps a prefix of it, and keeps something. */
  lemma StripKeepsPrefix(a: Alphabet, s: string)
    requires s != [] && !a.space(s[0])
    ensures a.Strip(s) <= s && a.Strip(s) != []
  {
    StripRightShape(a, s);
  }

  /** Stripping twice is stripping once. */
  lemma StripTwice(a: Alphabet, s: string)
    ensures a.Strip(a.Strip(s)) == a.Strip(s)
  {
    StripShape(a, s);
  }

  /** Keywords survive `strip().lower()`. */
  lemma KeywordKept(a: Alphabet, s: string)
    requires a.KeepsKeywords()
    requires forall c <- s :: 'a' <= c <= 'z' || c == '_'
    ensures a.Strip(s) == s && a.Lower(s) == s
  {
    forall i | 0 <= i < |s| ensures a.lower(s[i]) == s[i] && !a.space(s[i]) {
      assert s[i] in s;
    }
  }

  lemma LowerPrefix(a: Alphabet, p: string, s: string)
    requires p <= s
    ensures a.Lower(p) <= a.Lower(s)
  {
    assert s == p + s[|p|..];
  }

  lemma LowerConcat(a: Alphabet, x: string, y: string)
    ensures a.Lower(x + y) == a.Lower(x) + a.Lower(y)
  {
  }

  lemma LowerTwice(a: Alphabet, s: string)
    requires a.LowerSettles()
    ensures a.Lower(a.Lower(s)) == a.Lower(s)
  {
  }
}
