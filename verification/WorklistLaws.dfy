/**
 Who owns a name, who is guessed to, and which rows the worklist shows, said over the raw rules,
 accounts and names (shared/customer/match.py, shared/customer/unmapped_classifier.py,
 shared/customer/backup_policy.py:101-129).
 */
module WorklistLaws {
  import opened Prelude
  import opened Text
  import opened AliasMatch
  import opened Unmapped

  // ---------------------------------------------------------------- strings

  /** What each method accepts, by how the folded name is put together. */
  lemma AcceptsExactly(a: Alphabet, rule: string, value: string, name: string)
    requires a.KeepsKeywords() && rule in TEXT_METHODS
    ensures var v, n := a.Lower(a.Strip(value)), a.Lower(name);
            && (rule == "prefix" ==>
                  (Accepts(a, Some(rule), Some(value), name) <==> v != "" && exists y :: n == v + y))
            && (rule == "suffix" ==>
                  (Accepts(a, Some(rule), Some(value), name) <==> v != "" && exists x :: n == x + v))
            && (rule == "exact" ==> (Accepts(a, Some(rule), Some(value), name) <==> v != "" && n == v))
            && (rule == "contains" ==>
                  (Accepts(a, Some(rule), Some(value), name) <==> v != "" && exists x, y :: n == x + v + y))
  {
    KeywordKept(a, rule);
    var v, n := a.Lower(a.Strip(value)), a.Lower(name);
    StartsExactly(n, v);
    EndsExactly(n, v);
    ContainsExactly(n, v);
  }

  lemma StartsExactly(s: string, v: string)
    ensures StartsWith(s, v) <==> exists y :: s == v + y
  {
    if StartsWith(s, v) { assert s == v + s[|v|..]; }
  }

  lemma EndsExactly(s: string, v: string)
    ensures EndsWith(s, v) <==> exists x :: s == x + v
  {
    if EndsWith(s, v) { assert s == s[..|s| - |v|] + v; }
  }

  lemma ContainsExactly(s: string, v: string)
    ensures Contains(s, v) <==> exists x, y :: s == x + v + y
  {
    if Contains(s, v) {
      var k :| 0 <= k <= |s| && v <= s[k..];
      assert s == s[..k] + v + s[k + |v|..];
    }
    if x, y :| s == x + v + y {
      assert s[|x|..] == v + y;
    }
  }

  /** A tenant-id source takes the id method only, any other source the text methods; what is not taken is replaced. */
  lemma NormalizedExactly(a: Alphabet, source: string, rule: string)
    requires a.Sound()
    ensures var byId, folded := a.Strip(source) in ID_SOURCES, a.Lower(a.Strip(rule));
            NormalizeMethod(a, Some(source), Some(rule))
            == if byId then "id_exact" else if folded in TEXT_METHODS then folded else "contains"
  {
    StripShape(a, rule);
    var folded := a.Lower(a.Strip(rule));
    assert a.Strip(folded) == folded;
    LowerTwice(a, a.Strip(rule));
  }

  // ---------------------------------------------------------------- loose keys

  /** A loose key is read off character by character. */
  lemma {:induction false} NormConcat(a: Alphabet, x: string, y: string)
    ensures Norm(a, x + y) == Norm(a, x) + Norm(a, y)
  {
    if x == [] {
      assert x + y == y;
    } else {
      assert (x + y)[1..] == x[1..] + y;
      NormConcat(a, x[1..], y);
    }
  }

  lemma NormOfOne(a: Alphabet, c: char)
    ensures Norm(a, [c]) == var d := a.lower(TurkishFold(c));
                            if 'a' <= d <= 'z' || '0' <= d <= '9' then [d] else []
  {
  }

  /** The Turkish letters, in both cases, become their plain counterparts. */
  lemma TurkishLetters(a: Alphabet, c: char)
    requires a.KeepsKeywords()
    ensures c in "\U{0131}\U{0130}I" ==> Norm(a, [c]) == "i"
    ensures c in "\U{015F}\U{015E}" ==> Norm(a, [c]) == "s"
    ensures c in "\U{011F}\U{011E}" ==> Norm(a, [c]) == "g"
    ensures c in "\U{00FC}\U{00DC}" ==> Norm(a, [c]) == "u"
    ensures c in "\U{00F6}\U{00D6}" ==> Norm(a, [c]) == "o"
    ensures c in "\U{00E7}\U{00C7}" ==> Norm(a, [c]) == "c"
  {
    NormOfOne(a, c);
  }

  // ---------------------------------------------------------------- guesses

  /** The account key fits the name: at least four characters, and one of the two begins with the other. */
  ghost predicate Fits(full: string, short: string, key: string) {
    |key| >= 4 && (key <= full || (|short| >= 4 && short <= key))
  }

  /** The key at `j` fits, none that fits is longer, and none as long comes earlier. */
  ghost predicate FirstLongest(full: string, short: string, keys: seq<string>, j: nat) {
    && j < |keys| && Fits(full, short, keys[j])
    && forall k :: 0 <= k < |keys| && Fits(full, short, keys[k]) ==>
         |keys[k]| < |keys[j]| || (|keys[k]| == |keys[j]| && j <= k)
  }

  lemma FirstLongestAppend(full: string, short: string, init: seq<string>, last: string, j: nat)
    ensures FirstLongest(full, short, init, j) && (!Fits(full, short, last) || |last| <= |init[j]|)
            ==> FirstLongest(full, short, init + [last], j)
    ensures FirstLongest(full, short, init, j) && Fits(full, short, last) && |last| > |init[j]|
            ==> FirstLongest(full, short, init + [last], |init|)
    ensures (forall k <- init :: !Fits(full, short, k)) && Fits(full, short, last)
            ==> FirstLongest(full, short, init + [last], |init|)
  {
    var keys := init + [last];
    assert forall k :: 0 <= k < |init| ==> keys[k] == init[k] && init[k] in init;
  }

  /** Whether a key fits, as the loop asks it. */
  lemma FitsIsQualifies(full: string, short: string)
    ensures forall k :: Fits(full, short, k) <==> Qualifies(full, short, k)
  {
  }

  lemma {:induction false} LongestIsFirst(full: string, short: string, keys: seq<string>)
    ensures var best := LongestKey(full, short, keys);
            if exists k <- keys :: Fits(full, short, k)
            then exists j: nat :: FirstLongest(full, short, keys, j) && keys[j] == best
            else best == ""
  {
    FitsIsQualifies(full, short);
    if keys != [] {
      var init, last := keys[..|keys| - 1], keys[|keys| - 1];
      assert keys == init + [last];
      LongestIsFirst(full, short, init);
      if exists k <- init :: Fits(full, short, k) {
        var j: nat :| FirstLongest(full, short, init, j) && init[j] == LongestKey(full, short, init);
        FirstLongestAppend(full, short, init, last, j);
        assert last in keys && init[j] in init;
        assert keys[j] == init[j] && keys[|init|] == last;
      } else {
        FirstLongestAppend(full, short, init, last, 0);
        assert keys[|init|] == last;
      }
    }
  }

  /**
   The guess: the loose key of the part before the first dash if it is an account; otherwise the
   longest account key that fits, the first of them; nobody when none fits or nothing is left to read.
   */
  lemma GuessExactly(a: Alphabet, name: string, accounts: Accounts)
    requires accounts.Valid()
    ensures var raw := a.Strip(name);
            var full, short := Norm(a, raw), Norm(a, Before(raw, '-'));
            var r := GuessOwner(a, name, accounts);
            && (raw == "" || (short == "" && full == "") ==> r == None)
            && (raw != "" && short != "" && short in accounts.names ==> r == Some(short))
            && (r.Some? && r.value != short ==>
                  exists j: nat :: FirstLongest(full, short, accounts.order, j) && accounts.order[j] == r.value)
            && (r == None && raw != "" && (short != "" || full != "") ==>
                  (short == "" || short !in accounts.names) && forall k <- accounts.order :: !Fits(full, short, k))
  {
    var raw := a.Strip(name);
    LongestIsFirst(Norm(a, raw), Norm(a, Before(raw, '-')), accounts.order);
  }

  // ---------------------------------------------------------------- ownership

  /** The row is for one of the sources, has a value and a method its source takes, and accepts the name. */
  ghost predicate RowClaims(a: Alphabet, row: MappingRow, sources: seq<string>, name: string) {
    var rule := a.Lower(a.Strip(if OrBlank(row.rule) == "" then "contains" else OrBlank(row.rule)));
    && OrBlank(row.source) in sources && a.Strip(OrBlank(row.value)) != ""
    && rule in AllowedMethods(a, Some(OrBlank(row.source)))
    && Accepts(a, Some(rule), Some(OrBlank(row.value)), name)
  }

  ghost predicate ClaimedByRule(a: Alphabet, rules: seq<MappingRow>, sources: seq<string>, name: string) {
    exists row <- rules :: RowClaims(a, row, sources, name)
  }

  /** A customer's display name occurs in the name. */
  ghost predicate ClaimedByName(a: Alphabet, displayNames: seq<string>, name: string) {
    exists n <- displayNames :: a.Strip(n) != "" && Contains(a.Lower(name), a.Lower(a.Strip(n)))
  }

  lemma OwnedMeansMember(a: Alphabet, owners: seq<OwnerMatcher>, name: string)
    ensures Owned(a, owners, name) <==> exists m <- owners :: m.Matches(a, name)
  {
    if Owned(a, owners, name) {
      var i :| 0 <= i < |owners| && owners[i].Matches(a, name);
      assert owners[i] in owners;
    }
    if m :| m in owners && m.Matches(a, name) {
      var i :| 0 <= i < |owners| && owners[i] == m;
      assert owners[i].Matches(a, name);
    }
  }

  lemma {:induction false} NameMatchersHave(a: Alphabet, names: seq<string>, m: OwnerMatcher)
    ensures m in NameMatchers(a, names)
            <==> exists n <- names :: a.Strip(n) != "" && m == OwnerMatcher(a.Strip(n), "contains", a.Strip(n))
  {
    if names != [] {
      NameMatchersHave(a, names[..|names| - 1], m);
      assert names == names[..|names| - 1] + [names[|names| - 1]];
    }
  }

  /** Trimming a value again makes no difference to what it accepts. */
  lemma TrimmedAccepts(a: Alphabet, rule: string, value: string, name: string)
    ensures Accepts(a, Some(rule), Some(a.Strip(value)), name) <==> Accepts(a, Some(rule), Some(value), name)
  {
    StripTwice(a, value);
  }

  lemma FoldedTwice(a: Alphabet, s: string)
    requires a.Sound()
    ensures a.Lower(a.Strip(a.Lower(a.Strip(s)))) == a.Lower(a.Strip(s))
  {
    var folded := a.Lower(a.Strip(s));
    StripShape(a, s);
    assert a.Strip(folded) == folded;
    LowerTwice(a, a.Strip(s));
  }

  lemma RowMatches(a: Alphabet, row: MappingRow, sources: seq<string>, name: string)
    requires a.Sound()
    ensures MatcherOf(a, row, sources).Some? && MatcherOf(a, row, sources).value.Matches(a, name)
            <==> RowClaims(a, row, sources, name)
  {
    var rule := if OrBlank(row.rule) == "" then "contains" else OrBlank(row.rule);
    FoldedTwice(a, rule);
    TrimmedAccepts(a, a.Lower(a.Strip(rule)), OrBlank(row.value), name);
  }

  /** The rules own exactly the names that one of their rows claims. */
  lemma RulesOwnExactly(a: Alphabet, rules: seq<MappingRow>, sources: seq<string>, name: string)
    requires a.Sound()
    ensures Owned(a, MappingMatchers(a, rules, sources), name) <==> ClaimedByRule(a, rules, sources, name)
  {
    var owners := MappingMatchers(a, rules, sources);
    OwnedMeansMember(a, owners, name);
    forall m ensures m in owners <==> exists row <- rules :: m in MatchersOf(a, sources)(row) {
      CollectHas(MatchersOf(a, sources), rules, m);
    }
    forall row | row in rules
      ensures (exists m <- MatchersOf(a, sources)(row) :: m.Matches(a, name)) <==> RowClaims(a, row, sources, name)
    {
      RowMatches(a, row, sources, name);
      OwnedBySingle(a, MatcherOf(a, row, sources), name);
      OwnedMeansMember(a, MatchersOf(a, sources)(row), name);
    }
  }

  /** Display names own exactly the names they occur in. */
  lemma NamesOwnExactly(a: Alphabet, names: seq<string>, name: string)
    requires a.Sound()
    ensures Owned(a, NameMatchers(a, names), name) <==> ClaimedByName(a, names, name)
  {
    OwnedMeansMember(a, NameMatchers(a, names), name);
    KeywordKept(a, "contains");
    forall m { NameMatchersHave(a, names, m); }
    forall n | n in names && a.Strip(n) != ""
      ensures OwnerMatcher(a.Strip(n), "contains", a.Strip(n)).Matches(a, name)
              <==> Contains(a.Lower(name), a.Lower(a.Strip(n)))
    {
      StripTwice(a, n);
    }
  }

  // ---------------------------------------------------------------- the rows shown

  /** The name is there to be shown: it says something and does not begin like a system machine's. */
  ghost predicate Visible(a: Alphabet, name: string, systemPrefixes: seq<string>) {
    && a.Strip(name) != "" && Norm(a, name) != ""
    && forall p <- systemPrefixes :: !(p <= a.Lower(a.Strip(name)))
  }

  /** What the row of a machine says of its owner. */
  ghost predicate GuessShown(a: Alphabet, e: Estate, r: Row) {
    match GuessOwner(a, r.name, e.accounts)
    case None => r.reason == Orphan && r.owner == None && r.ownerId == None && r.suggested == None
    case Some(k) =>
      && r.reason == AliasGap && k in e.accounts.names && r.owner == Some(e.accounts.names[k])
      && (k in e.ids ==> r.ownerId == Some(e.ids[k])) && (k !in e.ids ==> r.ownerId == None)
      && r.suggested == Some(Before(a.Strip(r.name), '-'))
  }

  lemma VmRowExactly(a: Alphabet, e: Estate, name: string, r: Row)
    requires e.accounts.Valid()
    ensures VmRow(a, e, name) == Some(r)
            <==> r.kind == Vm && r.name == name && Visible(a, name, e.systemPrefixes) && GuessShown(a, e, r)
  {
    GuessedKeyIsAccount(a, name, e.accounts);
    SystemExactly(a, name, e.systemPrefixes);
  }

  lemma SystemExactly(a: Alphabet, name: string, systemPrefixes: seq<string>)
    ensures IsSystemVm(a, name, systemPrefixes) <==> exists p <- systemPrefixes :: p <= a.Lower(a.Strip(name))
  {
    if IsSystemVm(a, name, systemPrefixes) {
      var i :| 0 <= i < |systemPrefixes| && StartsWith(a.Lower(a.Strip(name)), systemPrefixes[i]);
      assert systemPrefixes[i] in systemPrefixes;
    }
    if p :| p in systemPrefixes && p <= a.Lower(a.Strip(name)) {
      var i :| 0 <= i < |systemPrefixes| && systemPrefixes[i] == p;
      assert StartsWith(a.Lower(a.Strip(name)), systemPrefixes[i]);
    }
  }

  lemma AppendCount(before: seq<Row>, was: bool, row: Option<Row>, r: Row)
    ensures multiset(before + (if was then [] else Single(row)))[r]
            == multiset(before)[r] + if !was && row == Some(r) then 1 else 0
  {
    if was { assert before + [] == before; }
  }

  lemma LastVmRow(a: Alphabet, e: Estate, before: seq<Row>, last: string, owned: bool, r: Row)
    requires e.accounts.Valid()
    ensures multiset(before + (if owned then [] else Single(VmRow(a, e, last))))[r]
            == multiset(before)[r] + if last == r.name && !owned && VmRow(a, e, r.name) == Some(r) then 1 else 0
  {
    VmRowShape(a, e, last);
    AppendCount(before, owned, VmRow(a, e, last), r);
  }

  lemma CountLast(names: seq<string>, x: string)
    requires names != []
    ensures var init, last := names[..|names| - 1], names[|names| - 1];
            multiset(names)[x] == multiset(init)[x] + if last == x then 1 else 0
  {
    assert names == names[..|names| - 1] + [names[|names| - 1]];
  }

  /** A machine that is not owned has its row as often as it is listed; no other row is there. */
  lemma {:induction false} VmRowsHave(a: Alphabet, e: Estate, names: seq<string>, owners: seq<OwnerMatcher>, r: Row)
    requires e.accounts.Valid()
    ensures multiset(VmRows(a, e, names, owners))[r]
            == if !Owned(a, owners, a.Lower(a.Strip(r.name))) && VmRow(a, e, r.name) == Some(r)
               then multiset(names)[r.name] else 0
  {
    if names != [] {
      var init, last := names[..|names| - 1], names[|names| - 1];
      VmRowsHave(a, e, init, owners, r);
      CountLast(names, r.name);
      LastVmRow(a, e, VmRows(a, e, init, owners), last, Owned(a, owners, a.Lower(a.Strip(last))), r);
    }
  }

  ghost predicate VmShown(a: Alphabet, e: Estate, r: Row)
    requires e.accounts.Valid()
  {
    r.kind == Vm && Visible(a, r.name, e.systemPrefixes) && GuessShown(a, e, r)
  }

  /**
   A machine has its row exactly when it is visible and claimed by no rule of the machine sources and
   by no display name, and then as often as it is listed; the row says who is guessed, and offers the
   part before the first dash.
   */
  lemma VmRowsExactly(a: Alphabet, e: Estate, rules: seq<MappingRow>, r: Row)
    requires a.Sound() && e.accounts.Valid() && r.kind == Vm
    ensures multiset(Worklist(a, e, rules))[r]
            == if && VmShown(a, e, r) && !ClaimedByRule(a, rules, VM_OWNER_SOURCES, a.Lower(a.Strip(r.name)))
                  && !ClaimedByName(a, e.displayNames, a.Lower(a.Strip(r.name)))
               then multiset(e.names)[r.name] else 0
  {
    var own, named := MappingMatchers(a, rules, VM_OWNER_SOURCES), NameMatchers(a, e.displayNames);
    PolicyRowKinds(a, e, e.policies, MappingMatchers(a, rules, BACKUP_OWNER_SOURCES));
    assert multiset(PolicyRows(a, e, e.policies, MappingMatchers(a, rules, BACKUP_OWNER_SOURCES)))[r] == 0;
    VmRowsHave(a, e, e.names, own + named, r);
    VmRowExactly(a, e, r.name, r);
    OwnedConcat(a, own, named, a.Lower(a.Strip(r.name)));
    RulesOwnExactly(a, rules, VM_OWNER_SOURCES, a.Lower(a.Strip(r.name)));
    NamesOwnExactly(a, e.displayNames, a.Lower(a.Strip(r.name)));
  }

  // ---------------------------------------------------------------- policies

  /** The token reads as the first segments of the name: what follows, if anything, is a dash. */
  ghost predicate Leads(token: string, name: string) {
    name == token || token + "-" <= name
  }

  ghost predicate OneSegment(token: string) {
    '-' !in token
  }

  ghost predicate TwoSegments(token: string) {
    exists x, y :: OneSegment(x) && OneSegment(y) && token == x + "-" + y
  }

  ghost predicate Listed(index: map<string, seq<(string, string)>>, token: string) {
    token in index && index[token] != []
  }

  lemma LeadingSegment(name: string, token: string)
    ensures OneSegment(token) && Leads(token, name) <==> token == Before(name, '-')
  {
    var first := Before(name, '-');
    if |first| < |name| { SplitAtFirst(name); }
    if OneSegment(token) && Leads(token, name) {
      assert token == name[..|token|] && first == name[..|first|];
      assert forall i :: 0 <= i < |token| ==> name[i] == token[i] && token[i] in token;
      assert forall i :: 0 <= i < |first| ==> name[i] == first[i] && first[i] in first;
      assert |token| < |name| ==> name[|token|] == '-';
    }
  }

  lemma LeadingTwo(name: string, token: string)
    ensures var first := Before(name, '-');
            TwoSegments(token) && Leads(token, name)
            <==> |first| < |name| && token == first + "-" + Before(name[|first| + 1..], '-')
  {
    var first := Before(name, '-');
    if |first| < |name| {
      SplitAtFirst(name);
      var rest := name[|first| + 1..];
      LeadingSegment(rest, Before(rest, '-'));
      LeadsBehind(first + "-", Before(rest, '-'), rest);
      assert OneSegment(first) && OneSegment(Before(rest, '-'));
    }
    if TwoSegments(token) && Leads(token, name) {
      var x, y :| OneSegment(x) && OneSegment(y) && token == x + "-" + y;
      assert x + "-" <= token;
      LeadingSegment(name, x);
      var rest := name[|x| + 1..];
      LeadsBehind(x + "-", y, rest);
      LeadingSegment(rest, y);
    }
  }

  lemma LeadsBehind(head: string, token: string, rest: string)
    ensures Leads(head + token, head + rest) <==> Leads(token, rest)
  {
    assert head + token + "-" == head + (token + "-");
    assert (head + rest)[|head|..] == rest && (head + token)[|head|..] == token;
    if token + "-" <= rest { assert rest == token + "-" + rest[|token| + 1..]; }
    if head + token + "-" <= head + rest {
      assert (head + rest)[|head|..][..|token| + 1] == token + "-";
    }
  }

  /** The token is the one to go by: two listed segments, or one where the first two are not listed. */
  ghost predicate GoesBy(index: map<string, seq<(string, string)>>, name: string, token: string) {
    && Listed(index, token) && Leads(token, name)
    && (TwoSegments(token) || (OneSegment(token) && !TwoListed(index, name)))
  }

  ghost predicate TwoListed(index: map<string, seq<(string, string)>>, name: string) {
    exists two :: TwoSegments(two) && Leads(two, name) && Listed(index, two)
  }

  lemma TwoListedExactly(index: map<string, seq<(string, string)>>, name: string)
    ensures var first := Before(name, '-');
            TwoListed(index, name)
            <==> |first| < |name| && Listed(index, first + "-" + Before(name[|first| + 1..], '-'))
  {
    var first := Before(name, '-');
    if |first| < |name| { LeadingTwo(name, first + "-" + Before(name[|first| + 1..], '-')); }
    forall two { LeadingTwo(name, two); }
  }

  lemma GoesByExactly(index: map<string, seq<(string, string)>>, name: string, token: string)
    ensures var first := Before(name, '-');
            GoesBy(index, name, token)
            <==> Listed(index, token)
                 && if TwoListed(index, name) then |first| < |name|
                                                   && token == first + "-" + Before(name[|first| + 1..], '-')
                    else token == first
  {
    var first := Before(name, '-');
    LeadingSegment(name, token);
    LeadingTwo(name, token);
    TwoListedExactly(index, name);
  }

  /**
   The guess for a policy: the first two segments of its folded name if the index lists anyone for
   them, otherwise the first segment, otherwise nobody; whole segments only.
   */
  lemma PolicyGuessExactly(a: Alphabet, policy: string, index: map<string, seq<(string, string)>>, token: string)
    ensures var name, r := a.Lower(a.Strip(policy)), GuessPolicyOwner(a, policy, index);
            (r.Some? && r.value.0 == token) <==> name != "" && GoesBy(index, name, token)
    ensures GuessPolicyOwner(a, policy, index).Some? ==>
              var r := GuessPolicyOwner(a, policy, index).value; r.0 in index && r.1 == index[r.0]
  {
    var name := a.Lower(a.Strip(policy));
    GoesByExactly(index, name, token);
    TwoListedExactly(index, name);
  }

  /** What the row of a policy says of its owner: one candidate is a gap, several leave it open. */
  ghost predicate PolicyGuessShown(a: Alphabet, e: Estate, r: Row) {
    var hit := GuessPolicyOwner(a, r.name, e.policyIndex);
    if hit.Some? && |hit.value.1| == 1
    then r.reason == AliasGap && r.suggested == Some(hit.value.0)
         && r.owner == Some(hit.value.1[0].0) && r.ownerId == Some(hit.value.1[0].1)
    else r.reason == (if hit.Some? then Ambiguous else Orphan)
         && r.owner == None && r.ownerId == None && r.suggested == None
  }

  ghost predicate PolicyShown(a: Alphabet, e: Estate, r: Row) {
    r.kind == Backup && r.name != "" && Norm(a, r.name) != "" && PolicyGuessShown(a, e, r)
  }

  lemma PolicyRowExactly(a: Alphabet, e: Estate, r: Row)
    requires a.Strip(r.name) == r.name
    ensures PolicyRow(a, e, r.name) == Some(r) <==> PolicyShown(a, e, r)
  {
  }

  /** The names of the policies, trimmed. */
  function Trimmed(a: Alphabet, policies: seq<string>): seq<string> {
    seq(|policies|, i requires 0 <= i < |policies| => a.Strip(policies[i]))
  }

  lemma LastPolicyRow(a: Alphabet, e: Estate, before: seq<Row>, last: string, owned: bool, r: Row)
    ensures multiset(before + (if owned then [] else Single(PolicyRow(a, e, last))))[r]
            == multiset(before)[r]
               + if a.Strip(last) == r.name && !owned && PolicyRow(a, e, r.name) == Some(r) then 1 else 0
  {
    PolicyRowShape(a, e, last);
    AppendCount(before, owned, PolicyRow(a, e, last), r);
  }

  lemma {:induction false} PolicyRowsHave(a: Alphabet, e: Estate, policies: seq<string>, owners: seq<OwnerMatcher>,
                                          r: Row)
    ensures multiset(PolicyRows(a, e, policies, owners))[r]
            == if !Owned(a, owners, a.Lower(r.name)) && PolicyRow(a, e, r.name) == Some(r)
               then multiset(Trimmed(a, policies))[r.name] else 0
  {
    if policies != [] {
      var init, last := policies[..|policies| - 1], policies[|policies| - 1];
      PolicyRowsHave(a, e, init, owners, r);
      assert Trimmed(a, policies)[..|init|] == Trimmed(a, init);
      CountLast(Trimmed(a, policies), r.name);
      LastPolicyRow(a, e, PolicyRows(a, e, init, owners), last, Owned(a, owners, a.Lower(a.Strip(last))), r);
    }
  }

  /**
   A policy has its row exactly when its trimmed name says something and no rule of a backup source
   claims it, and then as often as it is listed.
   */
  lemma PolicyRowsExactly(a: Alphabet, e: Estate, rules: seq<MappingRow>, r: Row)
    requires a.Sound() && e.accounts.Valid() && r.kind == Backup && a.Strip(r.name) == r.name
    ensures multiset(Worklist(a, e, rules))[r]
            == if PolicyShown(a, e, r) && !ClaimedByRule(a, rules, BACKUP_OWNER_SOURCES, a.Lower(r.name))
               then multiset(Trimmed(a, e.policies))[r.name] else 0
  {
    VmRowKinds(a, e, e.names, MappingMatchers(a, rules, VM_OWNER_SOURCES) + NameMatchers(a, e.displayNames));
    var vms := VmRows(a, e, e.names, MappingMatchers(a, rules, VM_OWNER_SOURCES) + NameMatchers(a, e.displayNames));
    assert multiset(vms)[r] == 0;
    PolicyRowsHave(a, e, e.policies, MappingMatchers(a, rules, BACKUP_OWNER_SOURCES), r);
    RulesOwnExactly(a, rules, BACKUP_OWNER_SOURCES, a.Lower(r.name));
    PolicyRowExactly(a, e, r);
  }

  // ---------------------------------------------------------------- the rule written

  /** The rule written for a row assigns to the row's owner whatever it claims. */
  lemma RuleAssignsToGuess(a: Alphabet, r: Row, name: string)
    requires a.Sound() && Actionable(a, r)
    ensures var m := MatcherOf(a, RuleFor(a, r), if r.kind == Backup then BACKUP_OWNER_SOURCES else VM_OWNER_SOURCES);
            && m.Some?
            && m.value.owner == (if r.owner.Some? && r.owner.value != "" then r.owner.value
                                 else a.Strip(r.ownerId.value))
            && (m.value.Matches(a, a.Lower(name)) <==> a.Lower(a.Strip(r.suggested.value)) <= a.Lower(name))
  {
    RuleMatcher(a, r);
    StripTwice(a, r.suggested.value);
    PrefixMatcherAccepts(a, OwnerMatcher("", "prefix", a.Strip(r.suggested.value)), name);
  }
}
