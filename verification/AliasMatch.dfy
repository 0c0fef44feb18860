/**
 Customer alias matching (shared/customer/match.py): one rule, implemented once as an ILIKE
 pattern and once as an in-memory predicate.
 */
module AliasMatch {
  import opened Prelude
  import opened Text

  /** A LIKE match as section 9.7.1 of the PostgreSQL manual describes it, backslash escaping. */
  predicate Like(s: string, pattern: string)
    decreases |s| + |pattern|
  {
    if pattern == [] then s == []
    else if pattern[0] == '%' then
      Like(s, pattern[1..]) || (s != [] && Like(s[1..], pattern))
    else if pattern[0] == '_' then s != [] && Like(s[1..], pattern[1..])
    else if pattern[0] == '\\' then
      |pattern| >= 2 && s != [] && s[0] == pattern[1] && Like(s[1..], pattern[2..])
    else s != [] && s[0] == pattern[0] && Like(s[1..], pattern[1..])
  }

  /** PostgreSQL refuses a pattern whose escape character has nothing to escape. */
  predicate WellFormed(pattern: string) {
    pattern == [] ||
    if pattern[0] == '\\' then |pattern| >= 2 && WellFormed(pattern[2..]) else WellFormed(pattern[1..])
  }

  /** ILIKE folds the case of both sides. */
  ghost predicate ILike(a: Alphabet, s: string, pattern: string) {
    Like(a.Lower(s), a.Lower(pattern))
  }

  /** `s.replace(c, sub)` for a single character `c`. */
  function Replace(s: string, c: char, sub: string): string {
    if s == [] then []
    else (if s[0] == c then sub else [s[0]]) + Replace(s[1..], c, sub)
  }

  /** match.py:45-52, the three successive replacements. */
  function EscapeLike(value: string): string {
    Replace(Replace(Replace(value, '\\', "\\\\"), '%', "\\%"), '_', "\\_")
  }

  datatype SqlMatch = ILikePattern(pattern: string) | IdExact(id: string)

  const DEFAULT_METHOD := "contains"

  /** `(method or DEFAULT_METHOD).strip().lower()` */
  function MethodKey(a: Alphabet, rule: Option<string>): string {
    a.Lower(a.Strip(if OrBlank(rule) == "" then DEFAULT_METHOD else OrBlank(rule)))
  }

  /** match.py:55-68 */
  function SqlPattern(a: Alphabet, rule: Option<string>, value: Option<string>): SqlMatch {
    var cleaned := a.Strip(OrBlank(value));
    var key := MethodKey(a, rule);
    if key == "id_exact" then IdExact(cleaned)
    else
      var escaped := EscapeLike(cleaned);
      if key == "exact" then ILikePattern(escaped)
      else if key == "prefix" then ILikePattern(escaped + "%")
      else if key == "suffix" then ILikePattern("%" + escaped)
      else ILikePattern("%" + escaped + "%")
  }

  /** match.py:71-94: the predicate that `predicate(method, value)` returns, applied to `name`. */
  predicate Accepts(a: Alphabet, rule: Option<string>, value: Option<string>, name: string) {
    var needle := a.Lower(a.Strip(OrBlank(value)));
    var key := MethodKey(a, rule);
    if key == "id_exact" || needle == "" then false
    else if key == "prefix" then StartsWith(a.Lower(name), needle)
    else if key == "suffix" then EndsWith(a.Lower(name), needle)
    else if key == "exact" then a.Lower(name) == needle
    else Contains(a.Lower(name), needle)
  }

  /** A tenant-id rule contributes no name pattern, so it selects no name. */
  ghost predicate SqlSelects(a: Alphabet, m: SqlMatch, name: string) {
    m.ILikePattern? && ILike(a, name, m.pattern)
  }

  // ---------------------------------------------------------------- which methods a source allows

  const TEXT_METHODS := ["contains", "prefix", "suffix", "exact"]
  const ID_METHODS := ["id_exact"]
  const ID_SOURCES := ["physical_device", "auranotify"]

  /** match.py:28-30 */
  function AllowedMethods(a: Alphabet, source: Option<string>): seq<string> {
    if a.Strip(OrBlank(source)) in ID_SOURCES then ID_METHODS else TEXT_METHODS
  }

  /** match.py:33-34 */
  predicate IsAllowed(a: Alphabet, source: Option<string>, rule: Option<string>) {
    a.Lower(a.Strip(OrBlank(rule))) in AllowedMethods(a, source)
  }

  /** match.py:37-42 */
  function NormalizeMethod(a: Alphabet, source: Option<string>, rule: Option<string>): string {
    var candidate := a.Lower(a.Strip(OrBlank(rule)));
    if IsAllowed(a, source, Some(candidate)) then candidate
    else if a.Strip(OrBlank(source)) in ID_SOURCES then ID_METHODS[0]
    else DEFAULT_METHOD
  }

  /**
   The normalised method is always meaningful for its source, and normalising it again changes
   nothing.
   */
  lemma NormalizedMethodIsAllowed(a: Alphabet, source: Option<string>, rule: Option<string>)
    requires a.Sound()
    ensures NormalizeMethod(a, source, rule) in AllowedMethods(a, source)
    ensures NormalizeMethod(a, source, Some(NormalizeMethod(a, source, rule))) == NormalizeMethod(a, source, rule)
  {
    var candidate := a.Lower(a.Strip(OrBlank(rule)));
    StripShape(a, OrBlank(rule));
    assert a.Strip(candidate) == candidate;
    LowerTwice(a, a.Strip(OrBlank(rule)));
    KeywordKept(a, "contains");
    KeywordKept(a, "id_exact");
  }

  // ---------------------------------------------------------------- escaping

  /** One left-to-right pass that escapes each metacharacter on sight. */
  ghost function OnePass(value: string): string {
    if value == [] then [] else Escaped(value[0]) + OnePass(value[1..])
  }

  function Escaped(c: char): string {
    if c in "%_\\" then ['\\', c] else [c]
  }

  /** What an escaped literal stands for. */
  ghost function Unescape(pattern: string): string {
    if pattern == [] then []
    else if pattern[0] == '\\' && |pattern| >= 2 then [pattern[1]] + Unescape(pattern[2..])
    else [pattern[0]] + Unescape(pattern[1..])
  }

  lemma ReplaceFirst(head: char, rest: string, c: char, sub: string)
    ensures Replace([head] + rest, c, sub) == (if head == c then sub else [head]) + Replace(rest, c, sub)
  {
    assert ([head] + rest)[1..] == rest;
  }

  lemma {:induction false} ReplaceConcat(x: string, y: string, c: char, sub: string)
    ensures Replace(x + y, c, sub) == Replace(x, c, sub) + Replace(y, c, sub)
  {
    if x == [] {
      assert x + y == y;
    } else {
      assert x == [x[0]] + x[1..] && x + y == [x[0]] + (x[1..] + y);
      ReplaceConcat(x[1..], y, c, sub);
      ReplaceFirst(x[0], x[1..] + y, c, sub);
      ReplaceFirst(x[0], x[1..], c, sub);
    }
  }

  /** The three successive replacements never escape their own output. */
  lemma {:induction false} EscapeIsOnePass(value: string)
    ensures EscapeLike(value) == OnePass(value)
  {
    if value != [] {
      EscapeIsOnePass(value[1..]);
      var head := [value[0]];
      assert value == head + value[1..];
      ReplaceConcat(head, value[1..], '\\', "\\\\");
      var h1 := Replace(head, '\\', "\\\\");
      var t1 := Replace(value[1..], '\\', "\\\\");
      ReplaceConcat(h1, t1, '%', "\\%");
      var h2 := Replace(h1, '%', "\\%");
      var t2 := Replace(t1, '%', "\\%");
      ReplaceConcat(h2, t2, '_', "\\_");
      EscapeOneCharacter(value[0]);
    }
  }

  lemma EscapeOneCharacter(c: char)
    ensures EscapeLike([c]) == (if c in "%_\\" then ['\\', c] else [c])
  {
    if c == '\\' {
      assert Replace([c], '\\', "\\\\") == "\\\\";
      assert Replace("\\\\", '%', "\\%") == "\\" + Replace("\\", '%', "\\%") == "\\\\";
      assert Replace("\\\\", '_', "\\_") == "\\" + Replace("\\", '_', "\\_") == "\\\\";
    } else if c == '%' {
      assert Replace([c], '\\', "\\\\") == [c];
      assert Replace([c], '%', "\\%") == "\\%";
      assert Replace("\\%", '_', "\\_") == "\\" + Replace("%", '_', "\\_") == "\\%";
    } else {
      assert Replace([c], '\\', "\\\\") == [c];
      assert Replace([c], '%', "\\%") == [c];
      assert Replace([c], '_', "\\_") == if c == '_' then "\\_" else [c];
    }
  }

  /** Escaping loses nothing: the pattern determines the value. */
  lemma {:induction false} UnescapeEscape(value: string)
    ensures Unescape(EscapeLike(value)) == value
  {
    EscapeIsOnePass(value);
    if value != [] {
      UnescapeEscape(value[1..]);
      EscapeIsOnePass(value[1..]);
      var step := Escaped(value[0]);
      assert OnePass(value)[|step|..] == OnePass(value[1..]);
    }
  }

  lemma EscapedWellFormed(c: char, rest: string)
    requires WellFormed(rest)
    ensures WellFormed(Escaped(c) + rest)
  {
    assert (Escaped(c) + rest)[|Escaped(c)|..] == rest;
  }

  lemma {:induction false} OnePassWellFormed(value: string, tail: string)
    requires WellFormed(tail)
    ensures WellFormed(OnePass(value) + tail)
  {
    if value == [] {
      assert OnePass(value) + tail == tail;
    } else {
      OnePassWellFormed(value[1..], tail);
      EscapedWellFormed(value[0], OnePass(value[1..]) + tail);
      assert OnePass(value) + tail == Escaped(value[0]) + (OnePass(value[1..]) + tail);
    }
  }

  lemma FoldedIsWellFormed(key: string, value: string)
    ensures WellFormed(FoldedPattern(key, OnePass(value)))
  {
    var lit := OnePass(value);
    OnePassWellFormed(value, "%");
    OnePassWellFormed(value, "");
    assert lit + "" == lit;
    assert ("%" + (lit + ""))[1..] == lit + "";
    assert ("%" + (lit + "%"))[1..] == lit + "%";
  }

  lemma PlainShape(a: Alphabet, rule: Option<string>, value: Option<string>)
    ensures SqlPattern(a, rule, value).ILikePattern? ==>
              SqlPattern(a, rule, value).pattern == FoldedPattern(MethodKey(a, rule), OnePass(a.Strip(OrBlank(value))))
  {
    EscapeIsOnePass(a.Strip(OrBlank(value)));
    var lit := OnePass(a.Strip(OrBlank(value)));
    assert lit + "" == lit && "%" + lit + "%" == "%" + (lit + "%");
  }

  /** No pattern ends in a dangling escape, before or after ILIKE folds its case. */
  lemma PatternsAreWellFormed(a: Alphabet, rule: Option<string>, value: Option<string>)
    requires a.FixesWildcards()
    ensures var m := SqlPattern(a, rule, value);
            m.ILikePattern? ==> WellFormed(m.pattern) && WellFormed(a.Lower(m.pattern))
  {
    var v := a.Strip(OrBlank(value));
    PlainShape(a, rule, value);
    PatternShape(a, rule, value);
    FoldedIsWellFormed(MethodKey(a, rule), v);
    FoldedIsWellFormed(MethodKey(a, rule), a.Lower(v));
  }

  // ---------------------------------------------------------------- what a pattern matches

  /** An escaped character consumes exactly itself. */
  lemma EscapedMatch(s: string, c: char, rest: string)
    ensures Like(s, Escaped(c) + rest) <==> s != [] && s[0] == c && Like(s[1..], rest)
  {
    assert (Escaped(c) + rest)[|Escaped(c)|..] == rest;
  }

  lemma PrefixByFirst(value: string, s: string)
    requires value != []
    ensures value <= s <==> s != [] && s[0] == value[0] && value[1..] <= s[1..]
  {
    if s != [] && s[0] == value[0] && value[1..] <= s[1..] {
      assert value == [value[0]] + value[1..] && s == [s[0]] + s[1..];
    }
  }

  /** An escaped literal consumes exactly itself. */
  lemma {:induction false} LiteralMatch(s: string, value: string, tail: string)
    ensures Like(s, OnePass(value) + tail) <==> value <= s && Like(s[|value|..], tail)
  {
    if value == [] {
      assert OnePass(value) + tail == tail;
    } else {
      assert OnePass(value) + tail == Escaped(value[0]) + (OnePass(value[1..]) + tail);
      EscapedMatch(s, value[0], OnePass(value[1..]) + tail);
      PrefixByFirst(value, s);
      if s != [] {
        LiteralMatch(s[1..], value[1..], tail);
        if |value| <= |s| { assert s[1..][|value| - 1..] == s[|value|..]; }
      }
    }
  }

  /** A leading `%` may skip any number of characters. */
  lemma {:induction false} PercentMatch(s: string, tail: string)
    ensures Like(s, "%" + tail) <==> exists k :: 0 <= k <= |s| && Like(s[k..], tail)
  {
    assert ("%" + tail)[1..] == tail;
    assert s[0..] == s;
    if s == [] {
      assert forall k :: 0 <= k <= |s| ==> s[k..] == s;
    } else {
      PercentMatch(s[1..], tail);
      if Like(s[1..], "%" + tail) {
        var k :| 0 <= k <= |s[1..]| && Like(s[1..][k..], tail);
        assert s[1..][k..] == s[k + 1..];
      }
      forall k | 0 < k <= |s| && Like(s[k..], tail)
        ensures Like(s[1..], "%" + tail)
      {
        assert s[1..][k - 1..] == s[k..];
      }
    }
  }

  lemma OnlyPercentMatch(s: string)
    ensures Like(s, "%")
  {
  }

  lemma {:induction false} LowerOnePass(a: Alphabet, value: string)
    requires a.FixesWildcards()
    ensures a.Lower(OnePass(value)) == OnePass(a.Lower(value))
  {
    if value != [] {
      LowerOnePass(a, value[1..]);
      var step := Escaped(value[0]);
      LowerConcat(a, step, OnePass(value[1..]));
      assert a.Lower(value)[1..] == a.Lower(value[1..]);
      assert a.lower('\\') == '\\';
      if value[0] in "%_\\" {
        assert a.lower(value[0]) == value[0];
        assert a.Lower(step) == step;
      } else {
        assert a.Lower(step) == [a.lower(value[0])];
      }
    }
  }

  ghost function FoldedPattern(key: string, lit: string): string {
    if key == "exact" then lit + ""
    else if key == "prefix" then lit + "%"
    else if key == "suffix" then "%" + (lit + "")
    else "%" + (lit + "%")
  }

  lemma LowerFolded(a: Alphabet, key: string, lit: string)
    requires a.FixesWildcards()
    ensures a.Lower(FoldedPattern(key, lit)) == FoldedPattern(key, a.Lower(lit))
  {
    assert a.lower('%') == '%';
  }

  /** The folded pattern, with the folded value as its literal. */
  lemma PatternShape(a: Alphabet, rule: Option<string>, value: Option<string>)
    requires a.FixesWildcards()
    ensures SqlPattern(a, rule, value).ILikePattern? <==> MethodKey(a, rule) != "id_exact"
    ensures SqlPattern(a, rule, value).ILikePattern? ==>
              a.Lower(SqlPattern(a, rule, value).pattern)
              == FoldedPattern(MethodKey(a, rule), OnePass(a.Lower(a.Strip(OrBlank(value)))))
  {
    var v := a.Strip(OrBlank(value));
    PlainShape(a, rule, value);
    LowerFolded(a, MethodKey(a, rule), OnePass(v));
    LowerOnePass(a, v);
  }

  /** `%literal` and `literal`, run to the end of the string. */
  lemma SuffixBySkipping(s: string, needle: string)
    ensures EndsWith(s, needle) <==> exists k :: 0 <= k <= |s| && needle <= s[k..] && s[k..][|needle|..] == []
  {
  }

  /**
   For a rule that is not blank, the SQL pattern selects exactly the names the in-memory predicate
   accepts. A tenant-id rule selects no name on either side.
   */
  lemma PatternAgreesWithPredicate(a: Alphabet, rule: Option<string>, value: Option<string>, name: string)
    requires a.FixesWildcards()
    requires MethodKey(a, rule) == "id_exact" || !a.Blank(OrBlank(value))
    ensures SqlSelects(a, SqlPattern(a, rule, value), name) <==> Accepts(a, rule, value, name)
    ensures MethodKey(a, rule) == "id_exact" ==> !Accepts(a, rule, value, name)
  {
    PatternShape(a, rule, value);
    if MethodKey(a, rule) != "id_exact" {
      var key := MethodKey(a, rule);
      var needle := a.Lower(a.Strip(OrBlank(value)));
      var n := a.Lower(name);
      assert needle != "";
      if key == "exact" {
        LiteralMatch(n, needle, "");
        assert needle <= n && n[|needle|..] == [] <==> n == needle;
      } else if key == "prefix" {
        LiteralMatch(n, needle, "%");
        if needle <= n { OnlyPercentMatch(n[|needle|..]); }
      } else if key == "suffix" {
        PercentMatch(n, OnePass(needle) + "");
        forall k | 0 <= k <= |n| { LiteralMatch(n[k..], needle, ""); }
        SuffixBySkipping(n, needle);
      } else {
        PercentMatch(n, OnePass(needle) + "%");
        forall k | 0 <= k <= |n|
          ensures Like(n[k..], OnePass(needle) + "%") <==> needle <= n[k..]
        {
          LiteralMatch(n[k..], needle, "%");
          if needle <= n[k..] { OnlyPercentMatch(n[k..][|needle|..]); }
        }
      }
    }
  }

  /**
   Exactly when the two implementations agree on every name: the rule goes by tenant id, or its
   value is not blank. A blank value becomes a pattern that selects the empty name while the
   predicate accepts nothing.
   */
  lemma AgreementExactlyWhenNotBlank(a: Alphabet, rule: Option<string>, value: Option<string>)
    requires a.FixesWildcards()
    ensures (forall name :: SqlSelects(a, SqlPattern(a, rule, value), name) <==> Accepts(a, rule, value, name))
            <==> (MethodKey(a, rule) == "id_exact" || !a.Blank(OrBlank(value)))
  {
    if MethodKey(a, rule) == "id_exact" || !a.Blank(OrBlank(value)) {
      forall name { PatternAgreesWithPredicate(a, rule, value, name); }
    } else {
      PatternShape(a, rule, value);
      var needle := a.Lower(a.Strip(OrBlank(value)));
      assert needle == "" && OnePass(needle) == "";
      assert a.Lower("") == "";
      OnlyPercentMatch("");
      PercentMatch("", OnePass(needle) + "%");
      PercentMatch("", OnePass(needle) + "");
      assert OnePass(needle) + "%" == "%" && OnePass(needle) + "" == "";
      assert ""[0..] == "";
      assert SqlSelects(a, SqlPattern(a, rule, value), "") && !Accepts(a, rule, value, "");
    }
  }
}
