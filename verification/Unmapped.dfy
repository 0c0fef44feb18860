/**
 The worklist of infrastructure names that belong to no customer
 (shared/customer/unmapped_classifier.py, backup_policy.py) and the one-click action that writes the
 suggested alias rule.
 */
module Unmapped {
  import opened Prelude
  import opened Text
  import opened AliasMatch

  datatype OwnerMatcher = OwnerMatcher(owner: string, kind: string, value: string) {
    /** unmapped_classifier.py:64-65 */
    predicate Matches(a: Alphabet, nameLower: string) {
      Accepts(a, Some(kind), Some(value), nameLower)
    }
  }

  datatype MappingRow = MappingRow(
    source: Option<string>, rule: Option<string>, value: Option<string>,
    accountName: Option<string>, accountId: Option<string>)

  datatype Reason = AliasGap | Ambiguous | Orphan

  datatype Kind = Vm | Backup

  datatype Row = Row(
    kind: Kind, name: string, owner: Option<string>, ownerId: Option<string>,
    suggested: Option<string>, reason: Reason)

  const VM_OWNER_SOURCES := ["virtualization", "netbox_vm_customer"]
  const BACKUP_OWNER_SOURCES := ["backup_netbackup", "backup_veeam", "backup_zerto"]
  const MIN_STARTSWITH_KEY := 4

  // ---------------------------------------------------------------- loose keys

  /** unmapped_classifier.py:32-39 */
  function TurkishFold(c: char): char {
    if c in "\U{0131}\U{0130}I" then 'i'
    else if c in "\U{015F}\U{015E}" then 's'
    else if c in "\U{011F}\U{011E}" then 'g'
    else if c in "\U{00FC}\U{00DC}" then 'u'
    else if c in "\U{00F6}\U{00D6}" then 'o'
    else if c in "\U{00E7}\U{00C7}" then 'c'
    else c
  }

  predicate IsAlnum(c: char) {
    'a' <= c <= 'z' || '0' <= c <= '9'
  }

  /** unmapped_classifier.py:43-48 */
  function Norm(a: Alphabet, s: string): string {
    if s == [] then []
    else
      var c := a.lower(TurkishFold(s[0]));
      (if IsAlnum(c) then [c] else []) + Norm(a, s[1..])
  }

  /** The CRM accounts by loose key; `order` is the iteration order of the dictionary. */
  datatype Accounts = Accounts(order: seq<string>, names: map<string, string>) {
    ghost predicate Valid() {
      forall k :: k in order <==> k in names
    }
  }

  predicate Qualifies(full: string, pkey: string, key: string) {
    |key| >= MIN_STARTSWITH_KEY
    && (StartsWith(full, key) || (|pkey| >= MIN_STARTSWITH_KEY && StartsWith(key, pkey)))
  }

  /** The longest qualifying key, the first of them on a tie; "" when none qualifies. */
  function LongestKey(full: string, pkey: string, keys: seq<string>): string {
    if keys == [] then ""
    else
      var best := LongestKey(full, pkey, keys[..|keys| - 1]);
      var k := keys[|keys| - 1];
      if |k| > |best| && Qualifies(full, pkey, k) then k else best
  }

  /** What the loop of `guess_owner_key` finds, said without the loop. */
  lemma {:induction false} LongestKeyIsBest(full: string, pkey: string, keys: seq<string>)
    ensures var best := LongestKey(full, pkey, keys);
            if exists k :: k in keys && Qualifies(full, pkey, k) then
              && best in keys && Qualifies(full, pkey, best)
              && forall k :: k in keys && Qualifies(full, pkey, k) ==> |k| <= |best|
            else best == ""
  {
    if keys != [] {
      var init := keys[..|keys| - 1];
      LongestKeyIsBest(full, pkey, init);
      assert forall k :: k in keys <==> k in init || k == keys[|keys| - 1];
    }
  }

  /** unmapped_classifier.py:82-116, as a function of the account table. */
  function GuessOwner(a: Alphabet, name: string, accounts: Accounts): Option<string> {
    var raw := a.Strip(name);
    var pkey := Norm(a, Before(raw, '-'));
    if raw == "" then None
    else if pkey == "" && Norm(a, raw) == "" then None
    else if pkey != "" && pkey in accounts.names then Some(pkey)
    else
      var best := LongestKey(Norm(a, raw), pkey, accounts.order);
      if best == "" then None else Some(best)
  }

  /** unmapped_classifier.py:82-116 */
  method GuessOwnerKey(a: Alphabet, name: string, accounts: Accounts) returns (r: Option<string>)
    requires accounts.Valid()
    ensures r == GuessOwner(a, name, accounts)
    ensures r.Some? ==> r.value in accounts.names
  {
    var raw := a.Strip(name);
    if raw == "" {
      return None;
    }
    var pkey := Norm(a, Before(raw, '-'));
    var full := Norm(a, raw);
    if pkey == "" && full == "" {
      return None;
    }
    if pkey != "" && pkey in accounts.names {
      return Some(pkey);
    }
    var bestKey := "";
    var pkeyUsable := |pkey| >= MIN_STARTSWITH_KEY;
    for i := 0 to |accounts.order|
      invariant bestKey == LongestKey(full, pkey, accounts.order[..i])
    {
      var k := accounts.order[i];
      assert accounts.order[..i + 1][..i] == accounts.order[..i];
      if |k| < MIN_STARTSWITH_KEY || |k| <= |bestKey| {
        continue;
      }
      if StartsWith(full, k) || (pkeyUsable && StartsWith(k, pkey)) {
        bestKey := k;
      }
    }
    assert accounts.order[..|accounts.order|] == accounts.order;
    LongestKeyIsBest(full, pkey, accounts.order);
    r := if bestKey == "" then None else Some(bestKey);
  }

  /** unmapped_classifier.py:119-132 */
  function AliasSuggestion(a: Alphabet, name: string): Option<string> {
    var raw := a.Strip(name);
    if raw == "" then None else Some(Before(raw, '-'))
  }

  // ---------------------------------------------------------------- ownership rules

  /** The matcher one mapping row contributes, if any. */
  function MatcherOf(a: Alphabet, row: MappingRow, sources: seq<string>): Option<OwnerMatcher> {
    var value := a.Strip(OrBlank(row.value));
    var rule := a.Lower(a.Strip(if OrBlank(row.rule) == "" then DEFAULT_METHOD else OrBlank(row.rule)));
    if OrBlank(row.source) !in sources || value == "" || !IsAllowed(a, Some(OrBlank(row.source)), Some(rule)) then None
    else
      var owner := if OrBlank(row.accountName) != "" then OrBlank(row.accountName) else OrBlank(row.accountId);
      Some(OwnerMatcher(owner, rule, value))
  }

  function Single<T>(o: Option<T>): seq<T> {
    match o case Some(v) => [v] case None => []
  }

  function MappingMatchers(a: Alphabet, rows: seq<MappingRow>, sources: seq<string>): seq<OwnerMatcher> {
    Collect(MatchersOf(a, sources), rows)
  }

  function MatchersOf(a: Alphabet, sources: seq<string>): MappingRow -> seq<OwnerMatcher> {
    row => Single(MatcherOf(a, row, sources))
  }

  function NameMatchers(a: Alphabet, names: seq<string>): seq<OwnerMatcher> {
    if names == [] then []
    else
      var n := a.Strip(names[|names| - 1]);
      NameMatchers(a, names[..|names| - 1]) + (if n == "" then [] else [OwnerMatcher(n, "contains", n)])
  }

  /** unmapped_classifier.py:146-178 */
  method OwnerMatchersFromMappings(a: Alphabet, rows: seq<MappingRow>, displayNames: seq<string>, sources: seq<string>)
    returns (matchers: seq<OwnerMatcher>)
    ensures matchers == MappingMatchers(a, rows, sources) + NameMatchers(a, displayNames)
  {
    matchers := [];
    for i := 0 to |rows|
      invariant matchers == MappingMatchers(a, rows[..i], sources)
    {
      assert rows[..i + 1][..i] == rows[..i];
      var row := rows[i];
      var value := a.Strip(OrBlank(row.value));
      if OrBlank(row.source) !in sources || value == "" {
        continue;
      }
      var rule := a.Lower(a.Strip(if OrBlank(row.rule) == "" then DEFAULT_METHOD else OrBlank(row.rule)));
      if !IsAllowed(a, Some(OrBlank(row.source)), Some(rule)) {
        continue;
      }
      var owner := if OrBlank(row.accountName) != "" then OrBlank(row.accountName) else OrBlank(row.accountId);
      matchers := matchers + [OwnerMatcher(owner, rule, value)];
    }
    assert rows[..|rows|] == rows;
    ghost var fromRows := matchers;
    for i := 0 to |displayNames|
      invariant matchers == fromRows + NameMatchers(a, displayNames[..i])
    {
      assert displayNames[..i + 1][..i] == displayNames[..i];
      var n := a.Strip(displayNames[i]);
      if n != "" {
        matchers := matchers + [OwnerMatcher(n, "contains", n)];
      }
    }
    assert displayNames[..|displayNames|] == displayNames;
  }

  predicate Owned(a: Alphabet, owners: seq<OwnerMatcher>, nameLower: string) {
    exists i | 0 <= i < |owners| :: owners[i].Matches(a, nameLower)
  }

  // ---------------------------------------------------------------- classification

  predicate IsSystemVm(a: Alphabet, name: string, systemPrefixes: seq<string>) {
    exists i | 0 <= i < |systemPrefixes| :: StartsWith(a.Lower(a.Strip(name)), systemPrefixes[i])
  }

  /** What the platform knows besides the alias rules. */
  datatype Estate = Estate(
    names: seq<string>, policies: seq<string>, displayNames: seq<string>, systemPrefixes: seq<string>,
    accounts: Accounts, ids: map<string, string>, policyIndex: map<string, seq<(string, string)>>)

  /** The row `classify_unmapped` emits for one name, when nobody owns it. */
  function VmRow(a: Alphabet, e: Estate, name: string): Option<Row>
    requires e.accounts.Valid()
  {
    if a.Strip(name) == "" || Norm(a, name) == "" || IsSystemVm(a, name, e.systemPrefixes) then None
    else
      var key := GuessOwner(a, name, e.accounts);
      GuessedKeyIsAccount(a, name, e.accounts);
      Some(match key
           case Some(k) =>
             Row(Vm, name, Some(e.accounts.names[k]), if k in e.ids then Some(e.ids[k]) else None,
                 AliasSuggestion(a, name), AliasGap)
           case None => Row(Vm, name, None, None, None, Orphan))
  }

  lemma GuessedKeyIsAccount(a: Alphabet, name: string, accounts: Accounts)
    requires accounts.Valid()
    ensures GuessOwner(a, name, accounts).Some? ==> GuessOwner(a, name, accounts).value in accounts.names
  {
    LongestKeyIsBest(Norm(a, a.Strip(name)), Norm(a, Before(a.Strip(name), '-')), accounts.order);
  }

  /** backup_policy.py:101-129 */
  function GuessPolicyOwner(a: Alphabet, policy: string, index: map<string, seq<(string, string)>>)
    : Option<(string, seq<(string, string)>)>
  {
    var cleaned := a.Lower(a.Strip(policy));
    if cleaned == "" then None
    else
      var first := Before(cleaned, '-');
      var two := if |first| < |cleaned| then first + "-" + Before(cleaned[|first| + 1..], '-') else first;
      if |first| < |cleaned| && two in index && index[two] != [] then Some((two, index[two]))
      else if first in index && index[first] != [] then Some((first, index[first]))
      else None
  }

  /** The row `classify_unmapped_policies` emits for one policy, when nobody owns it. */
  function PolicyRow(a: Alphabet, e: Estate, policy: string): Option<Row> {
    var name := a.Strip(policy);
    if name == "" || Norm(a, name) == "" then None
    else
      match GuessPolicyOwner(a, name, e.policyIndex)
      case None => Some(Row(Backup, name, None, None, None, Orphan))
      case Some((token, candidates)) =>
        if |candidates| == 1 then
          Some(Row(Backup, name, Some(candidates[0].0), Some(candidates[0].1), Some(token), AliasGap))
        else Some(Row(Backup, name, None, None, None, Ambiguous))
  }

  function VmRows(a: Alphabet, e: Estate, names: seq<string>, owners: seq<OwnerMatcher>): seq<Row>
    requires e.accounts.Valid()
  {
    if names == [] then []
    else
      var name := names[|names| - 1];
      VmRows(a, e, names[..|names| - 1], owners)
      + if Owned(a, owners, a.Lower(a.Strip(name))) then [] else Single(VmRow(a, e, name))
  }

  function PolicyRows(a: Alphabet, e: Estate, policies: seq<string>, owners: seq<OwnerMatcher>): seq<Row> {
    if policies == [] then []
    else
      var policy := policies[|policies| - 1];
      PolicyRows(a, e, policies[..|policies| - 1], owners)
      + if Owned(a, owners, a.Lower(a.Strip(policy))) then [] else Single(PolicyRow(a, e, policy))
  }

  /** unmapped_classifier.py:270-299 */
  method ClassifyUnmapped(a: Alphabet, e: Estate, owners: seq<OwnerMatcher>) returns (rows: seq<Row>)
    requires e.accounts.Valid()
    ensures rows == VmRows(a, e, e.names, owners)
  {
    rows := [];
    for i := 0 to |e.names|
      invariant rows == VmRows(a, e, e.names[..i], owners)
    {
      assert e.names[..i + 1][..i] == e.names[..i];
      var name := e.names[i];
      if a.Strip(name) == "" || Norm(a, name) == "" {
        continue;
      }
      if IsSystemVm(a, name, e.systemPrefixes) {
        continue;
      }
      if Owned(a, owners, a.Lower(a.Strip(name))) {
        continue;
      }
      var key := GuessOwnerKey(a, name, e.accounts);
      match key {
        case Some(k) =>
          rows := rows + [Row(Vm, name, Some(e.accounts.names[k]), if k in e.ids then Some(e.ids[k]) else None,
                              AliasSuggestion(a, name), AliasGap)];
        case None =>
          rows := rows + [Row(Vm, name, None, None, None, Orphan)];
      }
    }
    assert e.names[..|e.names|] == e.names;
  }

  /** unmapped_classifier.py:325-364 */
  method GuessPolicyRow(a: Alphabet, e: Estate, policy: string) returns (row: Row)
    requires a.Strip(policy) != "" && Norm(a, a.Strip(policy)) != ""
    ensures PolicyRow(a, e, policy) == Some(row)
  {
    var name := a.Strip(policy);
    var hit := GuessPolicyOwner(a, name, e.policyIndex);
    var candidates := if hit.Some? then hit.value.1 else [];
    if |candidates| == 1 {
      row := Row(Backup, name, Some(candidates[0].0), Some(candidates[0].1), Some(hit.value.0), AliasGap);
    } else if |candidates| > 1 {
      row := Row(Backup, name, None, None, None, Ambiguous);
    } else {
      row := Row(Backup, name, None, None, None, Orphan);
    }
  }

  /** unmapped_classifier.py:302-365 */
  method ClassifyUnmappedPolicies(a: Alphabet, e: Estate, owners: seq<OwnerMatcher>) returns (rows: seq<Row>)
    ensures rows == PolicyRows(a, e, e.policies, owners)
  {
    rows := [];
    for i := 0 to |e.policies|
      invariant rows == PolicyRows(a, e, e.policies[..i], owners)
    {
      assert e.policies[..i + 1][..i] == e.policies[..i];
      var name := a.Strip(e.policies[i]);
      if name == "" || Norm(a, name) == "" {
        continue;
      }
      if Owned(a, owners, a.Lower(name)) {
        continue;
      }
      var row := GuessPolicyRow(a, e, e.policies[i]);
      rows := rows + [row];
    }
    assert e.policies[..|e.policies|] == e.policies;
  }

  /** The rows on the page for a set of alias rules; customer_service.py:619-668 wires the two owner sets. */
  function Worklist(a: Alphabet, e: Estate, rules: seq<MappingRow>): seq<Row>
    requires e.accounts.Valid()
  {
    VmRows(a, e, e.names, MappingMatchers(a, rules, VM_OWNER_SOURCES) + NameMatchers(a, e.displayNames))
    + PolicyRows(a, e, e.policies, MappingMatchers(a, rules, BACKUP_OWNER_SOURCES))
  }

  // ---------------------------------------------------------------- the one-click action

  /** A row the page offers the action on, and the action accepts: src/pages/unmapped_resources.py:147-148. */
  predicate Actionable(a: Alphabet, r: Row) {
    r.reason == AliasGap && r.ownerId.Some? && a.Strip(r.ownerId.value) != ""
    && r.suggested.Some? && a.Strip(r.suggested.value) != ""
  }

  /** The rule the action writes: src/pages/unmapped_resources_callbacks.py:85-100. */
  function RuleFor(a: Alphabet, r: Row): MappingRow
    requires Actionable(a, r)
  {
    MappingRow(Some(if r.kind == Backup then "backup_netbackup" else "virtualization"), Some("prefix"),
               Some(a.Strip(r.suggested.value)), r.owner, Some(a.Strip(r.ownerId.value)))
  }

  /** The names the rule written for `r` claims. */
  ghost predicate Claims(a: Alphabet, r: Row, other: Row) {
    r.suggested.Some? && r.kind == other.kind
    && a.Lower(a.Strip(r.suggested.value)) <= a.Lower(a.Strip(other.name))
  }

  ghost function Without(a: Alphabet, r: Row, rows: seq<Row>): seq<Row> {
    if rows == [] then []
    else Without(a, r, rows[..|rows| - 1]) + if Claims(a, r, rows[|rows| - 1]) then [] else [rows[|rows| - 1]]
  }

  ghost function ActionableCount(a: Alphabet, rows: seq<Row>): nat {
    if rows == [] then 0
    else ActionableCount(a, rows[..|rows| - 1]) + if Actionable(a, rows[|rows| - 1]) then 1 else 0
  }

  // ---------------------------------------------------------------- proofs about the action

  lemma OwnedConcat(a: Alphabet, x: seq<OwnerMatcher>, y: seq<OwnerMatcher>, name: string)
    ensures Owned(a, x + y, name) <==> Owned(a, x, name) || Owned(a, y, name)
  {
    if Owned(a, x, name) {
      var i :| 0 <= i < |x| && x[i].Matches(a, name);
      assert (x + y)[i].Matches(a, name);
    }
    if Owned(a, y, name) {
      var i :| 0 <= i < |y| && y[i].Matches(a, name);
      assert (x + y)[|x| + i].Matches(a, name);
    }
  }

  lemma OwnedAround(a: Alphabet, x: seq<OwnerMatcher>, own: seq<OwnerMatcher>, y: seq<OwnerMatcher>,
                    rest: seq<OwnerMatcher>, name: string)
    ensures Owned(a, x + own + y + rest, name) <==> Owned(a, x + y + rest, name) || Owned(a, own, name)
  {
    OwnedConcat(a, x + own + y, rest, name);
    OwnedConcat(a, x + own, y, name);
    OwnedConcat(a, x, own, name);
    OwnedConcat(a, x + y, rest, name);
    OwnedConcat(a, x, y, name);
  }

  lemma MatchersAround(a: Alphabet, before: seq<MappingRow>, rule: MappingRow, after: seq<MappingRow>,
                       sources: seq<string>)
    ensures MappingMatchers(a, before + [rule] + after, sources)
            == MappingMatchers(a, before, sources) + Single(MatcherOf(a, rule, sources))
                + MappingMatchers(a, after, sources)
    ensures MappingMatchers(a, before + after, sources)
            == MappingMatchers(a, before, sources) + MappingMatchers(a, after, sources)
  {
    var f := MatchersOf(a, sources);
    CollectConcat(f, before + [rule], after);
    CollectConcat(f, before, [rule]);
    CollectConcat(f, before, after);
    CollectOne(f, rule);
  }

  lemma OwnedBySingle(a: Alphabet, m: Option<OwnerMatcher>, name: string)
    ensures Owned(a, Single(m), name) <==> m.Some? && m.value.Matches(a, name)
  {
    if m.Some? { assert Single(m)[0] == m.value; }
  }

  /** Inserting a rule anywhere adds exactly what its own matcher owns. */
  lemma OwnedAfterInsert(a: Alphabet, rules: seq<MappingRow>, at: nat, rule: MappingRow, sources: seq<string>,
                         rest: seq<OwnerMatcher>, name: string)
    requires at <= |rules|
    ensures Owned(a, MappingMatchers(a, rules[..at] + [rule] + rules[at..], sources) + rest, name)
            <==> Owned(a, MappingMatchers(a, rules, sources) + rest, name)
                 || (MatcherOf(a, rule, sources).Some? && MatcherOf(a, rule, sources).value.Matches(a, name))
  {
    var before, after := rules[..at], rules[at..];
    assert rules == before + after;
    MatchersAround(a, before, rule, after, sources);
    OwnedAround(a, MappingMatchers(a, before, sources), Single(MatcherOf(a, rule, sources)),
                MappingMatchers(a, after, sources), rest, name);
    OwnedBySingle(a, MatcherOf(a, rule, sources), name);
  }

  /** What a stripped prefix rule with an allowed source yields. */
  lemma PrefixRuleMatcher(a: Alphabet, row: MappingRow, source: string, value: string, sources: seq<string>)
    requires a.KeepsKeywords() && IsAllowed(a, Some(source), Some("prefix"))
    requires row.source == Some(source) && row.rule == Some("prefix") && row.value == Some(value)
    requires a.Strip(value) == value && value != ""
    ensures MatcherOf(a, row, sources).Some? <==> source in sources
    ensures source in sources ==>
              MatcherOf(a, row, sources).value.kind == "prefix" && MatcherOf(a, row, sources).value.value == value
  {
    KeywordKept(a, "prefix");
  }

  lemma PrefixAllowed(a: Alphabet, source: string)
    requires a.KeepsKeywords() && (source == "virtualization" || source == "backup_netbackup")
    ensures IsAllowed(a, Some(source), Some("prefix"))
  {
    KeywordKept(a, "prefix");
    KeywordKept(a, source);
    assert TEXT_METHODS[1] == "prefix";
  }

  /** The written rule yields a matcher on its own side of the page and none on the other. */
  lemma RuleMatcher(a: Alphabet, r: Row)
    requires a.Sound() && Actionable(a, r)
    ensures var rule, value := RuleFor(a, r), a.Strip(r.suggested.value);
            var vm, backup := MatcherOf(a, rule, VM_OWNER_SOURCES), MatcherOf(a, rule, BACKUP_OWNER_SOURCES);
            && vm.Some? == (r.kind == Vm) && backup.Some? == (r.kind == Backup)
            && (vm.Some? ==> vm.value.kind == "prefix" && vm.value.value == value)
            && (backup.Some? ==> backup.value.kind == "prefix" && backup.value.value == value)
  {
    var source := if r.kind == Backup then "backup_netbackup" else "virtualization";
    StripTwice(a, r.suggested.value);
    PrefixAllowed(a, source);
    PrefixRuleMatcher(a, RuleFor(a, r), source, a.Strip(r.suggested.value), VM_OWNER_SOURCES);
    PrefixRuleMatcher(a, RuleFor(a, r), source, a.Strip(r.suggested.value), BACKUP_OWNER_SOURCES);
    assert VM_OWNER_SOURCES[0] == "virtualization";
    assert BACKUP_OWNER_SOURCES[0] == "backup_netbackup";
  }

  /** What the written matcher accepts among lower-cased names. */
  lemma PrefixMatcherAccepts(a: Alphabet, m: OwnerMatcher, name: string)
    requires a.Sound() && m.kind == "prefix" && a.Strip(m.value) == m.value && m.value != ""
    ensures m.Matches(a, a.Lower(name)) <==> a.Lower(m.value) <= a.Lower(name)
  {
    KeywordKept(a, "prefix");
    LowerTwice(a, name);
  }

  lemma {:induction false} VmRowsAfter(a: Alphabet, e: Estate, names: seq<string>, r: Row, old_: seq<OwnerMatcher>,
                                       new_: seq<OwnerMatcher>)
    requires e.accounts.Valid() && r.kind == Vm && r.suggested.Some?
    requires forall n: string :: Owned(a, new_, a.Lower(a.Strip(n))) <==>
               Owned(a, old_, a.Lower(a.Strip(n))) || a.Lower(a.Strip(r.suggested.value)) <= a.Lower(a.Strip(n))
    ensures VmRows(a, e, names, new_) == Without(a, r, VmRows(a, e, names, old_))
  {
    if names != [] {
      var init, name := names[..|names| - 1], names[|names| - 1];
      VmRowsAfter(a, e, init, r, old_, new_);
      VmRowShape(a, e, name);
      WithoutAppend(a, r, VmRows(a, e, init, old_), VmRow(a, e, name),
                    Owned(a, old_, a.Lower(a.Strip(name))), Owned(a, new_, a.Lower(a.Strip(name))));
    }
  }

  lemma {:induction false} PolicyRowsAfter(a: Alphabet, e: Estate, policies: seq<string>, r: Row,
                                           old_: seq<OwnerMatcher>, new_: seq<OwnerMatcher>)
    requires r.kind == Backup && r.suggested.Some?
    requires forall n: string :: Owned(a, new_, a.Lower(a.Strip(n))) <==>
               Owned(a, old_, a.Lower(a.Strip(n))) || a.Lower(a.Strip(r.suggested.value)) <= a.Lower(a.Strip(n))
    ensures PolicyRows(a, e, policies, new_) == Without(a, r, PolicyRows(a, e, policies, old_))
  {
    if policies != [] {
      var init, policy := policies[..|policies| - 1], policies[|policies| - 1];
      PolicyRowsAfter(a, e, init, r, old_, new_);
      PolicyRowShape(a, e, policy);
      StripTwice(a, policy);
      WithoutAppend(a, r, PolicyRows(a, e, init, old_), PolicyRow(a, e, policy),
                    Owned(a, old_, a.Lower(a.Strip(policy))), Owned(a, new_, a.Lower(a.Strip(policy))));
    }
  }

  /** A row that leaves the list exactly when `r` claims it. */
  lemma WithoutAppend(a: Alphabet, r: Row, rows: seq<Row>, row: Option<Row>, was: bool, now: bool)
    requires row.Some? ==> (now <==> was || Claims(a, r, row.value))
    ensures Without(a, r, rows + if was then [] else Single(row))
            == Without(a, r, rows) + if now then [] else Single(row)
  {
    if !was && row.Some? {
      assert (rows + [row.value])[..|rows|] == rows;
    } else {
      assert rows + [] == rows;
    }
  }

  lemma VmRowShape(a: Alphabet, e: Estate, name: string)
    requires e.accounts.Valid()
    ensures VmRow(a, e, name).Some? ==> VmRow(a, e, name).value.kind == Vm && VmRow(a, e, name).value.name == name
  {
  }

  lemma {:induction false} WithoutConcat(a: Alphabet, r: Row, x: seq<Row>, y: seq<Row>)
    ensures Without(a, r, x + y) == Without(a, r, x) + Without(a, r, y)
  {
    if y == [] {
      assert x + y == x;
    } else {
      WithoutConcat(a, r, x, y[..|y| - 1]);
      assert (x + y)[..|x + y| - 1] == x + y[..|y| - 1];
    }
  }

  lemma {:induction false} WithoutOtherKind(a: Alphabet, r: Row, rows: seq<Row>)
    requires forall x <- rows :: x.kind != r.kind
    ensures Without(a, r, rows) == rows
  {
    if rows != [] {
      var init, last := rows[..|rows| - 1], rows[|rows| - 1];
      assert rows == init + [last] && last in rows;
      WithoutOtherKind(a, r, init);
    }
  }

  lemma PolicyRowShape(a: Alphabet, e: Estate, policy: string)
    ensures var row := PolicyRow(a, e, policy);
            && row == PolicyRow(a, e, a.Strip(policy))
            && (row.Some? ==> row.value.kind == Backup && row.value.name == a.Strip(policy))
  {
    StripTwice(a, policy);
  }

  lemma {:induction false} VmRowKinds(a: Alphabet, e: Estate, names: seq<string>, owners: seq<OwnerMatcher>)
    requires e.accounts.Valid()
    ensures forall x <- VmRows(a, e, names, owners) :: x.kind == Vm && VmRow(a, e, x.name) == Some(x)
  {
    if names != [] {
      VmRowKinds(a, e, names[..|names| - 1], owners);
    }
  }

  lemma {:induction false} PolicyRowKinds(a: Alphabet, e: Estate, policies: seq<string>, owners: seq<OwnerMatcher>)
    ensures forall x <- PolicyRows(a, e, policies, owners) ::
              x.kind == Backup && a.Strip(x.name) == x.name && PolicyRow(a, e, x.name) == Some(x)
  {
    if policies != [] {
      PolicyRowKinds(a, e, policies[..|policies| - 1], owners);
      PolicyRowShape(a, e, policies[|policies| - 1]);
      StripTwice(a, policies[|policies| - 1]);
    }
  }

  /**
   Writing the suggested rule removes exactly the rows of the same kind whose name starts with the
   suggestion. Every other row stays, in its place and unchanged, and none is added.
   */
  lemma ClickRemovesExactlyTheClaimed(a: Alphabet, e: Estate, rules: seq<MappingRow>, at: nat, r: Row)
    requires a.Sound() && e.accounts.Valid() && at <= |rules| && Actionable(a, r)
    ensures Worklist(a, e, rules[..at] + [RuleFor(a, r)] + rules[at..]) == Without(a, r, Worklist(a, e, rules))
  {
    var rule := RuleFor(a, r);
    var after := rules[..at] + [rule] + rules[at..];
    var value := a.Strip(r.suggested.value);
    RuleMatcher(a, r);
    StripTwice(a, r.suggested.value);
    var named := NameMatchers(a, e.displayNames);
    var vmOld, vmNew := MappingMatchers(a, rules, VM_OWNER_SOURCES) + named,
        MappingMatchers(a, after, VM_OWNER_SOURCES) + named;
    var bOld, bNew := MappingMatchers(a, rules, BACKUP_OWNER_SOURCES), MappingMatchers(a, after, BACKUP_OWNER_SOURCES);
    assert bOld + [] == bOld && bNew + [] == bNew;
    forall n: string
      ensures Owned(a, vmNew, a.Lower(a.Strip(n))) <==>
                Owned(a, vmOld, a.Lower(a.Strip(n))) || (r.kind == Vm && a.Lower(value) <= a.Lower(a.Strip(n)))
      ensures Owned(a, bNew, a.Lower(a.Strip(n))) <==>
                Owned(a, bOld, a.Lower(a.Strip(n))) || (r.kind == Backup && a.Lower(value) <= a.Lower(a.Strip(n)))
    {
      OwnedAfterInsert(a, rules, at, rule, VM_OWNER_SOURCES, named, a.Lower(a.Strip(n)));
      OwnedAfterInsert(a, rules, at, rule, BACKUP_OWNER_SOURCES, [], a.Lower(a.Strip(n)));
      PrefixMatcherAccepts(a, OwnerMatcher("", "prefix", value), a.Strip(n));
    }
    VmRowKinds(a, e, e.names, vmOld);
    PolicyRowKinds(a, e, e.policies, bOld);
    WithoutConcat(a, r, VmRows(a, e, e.names, vmOld), PolicyRows(a, e, e.policies, bOld));
    if r.kind == Vm {
      VmRowsAfter(a, e, e.names, r, vmOld, vmNew);
      WithoutOtherKind(a, r, PolicyRows(a, e, e.policies, bOld));
      PolicyRowsSame(a, e, e.policies, bOld, bNew);
    } else {
      PolicyRowsAfter(a, e, e.policies, r, bOld, bNew);
      WithoutOtherKind(a, r, VmRows(a, e, e.names, vmOld));
      VmRowsSame(a, e, e.names, vmOld, vmNew);
    }
  }

  lemma {:induction false} VmRowsSame(a: Alphabet, e: Estate, names: seq<string>, x: seq<OwnerMatcher>,
                                      y: seq<OwnerMatcher>)
    requires e.accounts.Valid()
    requires forall n: string :: Owned(a, x, a.Lower(a.Strip(n))) <==> Owned(a, y, a.Lower(a.Strip(n)))
    ensures VmRows(a, e, names, x) == VmRows(a, e, names, y)
  {
    if names != [] { VmRowsSame(a, e, names[..|names| - 1], x, y); }
  }

  lemma {:induction false} PolicyRowsSame(a: Alphabet, e: Estate, policies: seq<string>, x: seq<OwnerMatcher>,
                                          y: seq<OwnerMatcher>)
    requires forall n: string :: Owned(a, x, a.Lower(a.Strip(n))) <==> Owned(a, y, a.Lower(a.Strip(n)))
    ensures PolicyRows(a, e, policies, x) == PolicyRows(a, e, policies, y)
  {
    if policies != [] { PolicyRowsSame(a, e, policies[..|policies| - 1], x, y); }
  }

  /** A suggestion is always a prefix of the name it was made for. */
  lemma SuggestionClaimsItsRow(a: Alphabet, e: Estate, rules: seq<MappingRow>, r: Row)
    requires a.Sound() && e.accounts.Valid()
    requires r in Worklist(a, e, rules) && Actionable(a, r)
    ensures Claims(a, r, r)
  {
    VmRowKinds(a, e, e.names, MappingMatchers(a, rules, VM_OWNER_SOURCES) + NameMatchers(a, e.displayNames));
    PolicyRowKinds(a, e, e.policies, MappingMatchers(a, rules, BACKUP_OWNER_SOURCES));
    var raw, s := a.Strip(r.name), r.suggested.value;
    StripShape(a, r.name);
    StripTwice(a, r.name);
    if r.kind == Vm {
      assert VmRow(a, e, r.name) == Some(r);
      assert s <= raw && raw != "";
      assert a.Strip("") == "";
      StripKeepsPrefix(a, s);
      LowerPrefix(a, a.Strip(s), raw);
    } else {
      assert PolicyRow(a, e, r.name) == Some(r);
      TokenIsPrefix(a, raw, e.policyIndex);
      assert a.Strip("") == "";
      assert s[0] == a.Lower(raw)[0] == a.lower(raw[0]);
      StripKeepsPrefix(a, s);
      LowerPrefix(a, a.Strip(s), a.Lower(raw));
      LowerTwice(a, raw);
    }
  }

  lemma PrefixBehind(x: string, y: string, z: string)
    requires y <= z
    ensures x + y <= x + z
  {
    assert x + z == x + y + z[|y|..];
  }

  lemma SplitAtFirst(s: string)
    requires |Before(s, '-')| < |s|
    ensures s == Before(s, '-') + "-" + s[|Before(s, '-')| + 1..]
  {
    var first := Before(s, '-');
    assert s == s[..|first|] + [s[|first|]] + s[|first| + 1..];
  }

  /** The first part of a name, and the first two, are prefixes of it. */
  lemma PartsArePrefixes(s: string)
    ensures var first := Before(s, '-');
            first <= s && (|first| < |s| ==> first + "-" + Before(s[|first| + 1..], '-') <= s)
  {
    var first := Before(s, '-');
    if |first| < |s| {
      SplitAtFirst(s);
      PrefixBehind(first + "-", Before(s[|first| + 1..], '-'), s[|first| + 1..]);
    }
  }

  lemma TokenIsPrefix(a: Alphabet, policy: string, index: map<string, seq<(string, string)>>)
    ensures GuessPolicyOwner(a, policy, index).Some? ==>
              GuessPolicyOwner(a, policy, index).value.0 <= a.Lower(a.Strip(policy))
  {
    PartsArePrefixes(a.Lower(a.Strip(policy)));
  }

  lemma {:induction false} WithoutMembers(a: Alphabet, r: Row, rows: seq<Row>)
    ensures forall x :: x in Without(a, r, rows) <==> x in rows && !Claims(a, r, x)
  {
    if rows != [] {
      var init, last := rows[..|rows| - 1], rows[|rows| - 1];
      WithoutMembers(a, r, init);
      assert rows == init + [last];
    }
  }

  lemma {:induction false} WithoutShrinks(a: Alphabet, r: Row, rows: seq<Row>, i: int)
    requires 0 <= i < |rows| ==> Actionable(a, rows[i]) && Claims(a, r, rows[i])
    ensures ActionableCount(a, Without(a, r, rows)) + (if 0 <= i < |rows| then 1 else 0) <= ActionableCount(a, rows)
  {
    if rows != [] {
      var init, last := rows[..|rows| - 1], rows[|rows| - 1];
      WithoutShrinks(a, r, init, i);
      assert rows == init + [last];
      CountAppend(a, init, last);
      CountAppend(a, Without(a, r, init), last);
      WithoutAppend(a, r, init, Some(last), false, Claims(a, r, last));
      assert Without(a, r, init) + [] == Without(a, r, init);
    }
  }

  lemma CountAppend(a: Alphabet, rows: seq<Row>, x: Row)
    ensures ActionableCount(a, rows + [x]) == ActionableCount(a, rows) + if Actionable(a, x) then 1 else 0
  {
    assert (rows + [x])[..|rows|] == rows;
  }

  /** A click takes its row off the page for good and leaves strictly fewer rows to act on. */
  lemma ClickMakesProgress(a: Alphabet, e: Estate, rules: seq<MappingRow>, at: nat, r: Row)
    requires a.Sound() && e.accounts.Valid() && at <= |rules|
    requires r in Worklist(a, e, rules) && Actionable(a, r)
    ensures var after := Worklist(a, e, rules[..at] + [RuleFor(a, r)] + rules[at..]);
            && r !in after
            && (forall x :: x in after ==> x in Worklist(a, e, rules))
            && ActionableCount(a, after) < ActionableCount(a, Worklist(a, e, rules))
  {
    ClickRemovesExactlyTheClaimed(a, e, rules, at, r);
    SuggestionClaimsItsRow(a, e, rules, r);
    WithoutMembers(a, r, Worklist(a, e, rules));
    var i :| 0 <= i < |Worklist(a, e, rules)| && Worklist(a, e, rules)[i] == r;
    WithoutShrinks(a, r, Worklist(a, e, rules), i);
  }

  // ---------------------------------------------------------------- the rule is always new

  /** What makes two mapping rows the same rule: src/utils/crm_source_mapping_ui.py:521-532. */
  function RuleIdentity(a: Alphabet, m: MappingRow): (string, string, string) {
    (a.Strip(OrBlank(m.source)), a.Lower(a.Strip(OrBlank(m.rule))), a.Lower(a.Strip(OrBlank(m.value))))
  }

  /** src/utils/crm_source_mapping_ui.py:535-548 */
  method MergeSourceMapping(a: Alphabet, existing: seq<MappingRow>, entry: MappingRow)
    returns (merged: seq<MappingRow>, needsWrite: bool)
    ensures needsWrite <==> forall m <- existing :: RuleIdentity(a, m) != RuleIdentity(a, entry)
    ensures merged == if needsWrite then existing + [entry] else existing
  {
    for i := 0 to |existing|
      invariant forall j :: 0 <= j < i ==> RuleIdentity(a, existing[j]) != RuleIdentity(a, entry)
    {
      if RuleIdentity(a, existing[i]) == RuleIdentity(a, entry) {
        return existing, false;
      }
    }
    return existing + [entry], true;
  }

  lemma {:induction false} VmRowsUnowned(a: Alphabet, e: Estate, names: seq<string>, owners: seq<OwnerMatcher>)
    requires e.accounts.Valid()
    ensures forall x <- VmRows(a, e, names, owners) :: !Owned(a, owners, a.Lower(a.Strip(x.name)))
  {
    if names != [] {
      VmRowsUnowned(a, e, names[..|names| - 1], owners);
      VmRowShape(a, e, names[|names| - 1]);
    }
  }

  lemma {:induction false} PolicyRowsUnowned(a: Alphabet, e: Estate, policies: seq<string>, owners: seq<OwnerMatcher>)
    ensures forall x <- PolicyRows(a, e, policies, owners) :: !Owned(a, owners, a.Lower(a.Strip(x.name)))
  {
    if policies != [] {
      PolicyRowsUnowned(a, e, policies[..|policies| - 1], owners);
      PolicyRowShape(a, e, policies[|policies| - 1]);
      StripTwice(a, policies[|policies| - 1]);
    }
  }

  /** A rule with the identity of the suggested one owns whatever the suggestion claims. */
  lemma SameRuleOwns(a: Alphabet, m: MappingRow, value: string, source: string, sources: seq<string>, name: string)
    requires a.Sound() && m.source == Some(source) && source in sources
    requires source == "virtualization" || source == "backup_netbackup"
    requires a.Lower(a.Strip(OrBlank(m.rule))) == "prefix" && a.Lower(a.Strip(OrBlank(m.value))) == a.Lower(value)
    requires value != "" && a.Lower(value) <= a.Lower(name)
    ensures MatcherOf(a, m, sources).Some? && MatcherOf(a, m, sources).value.Matches(a, a.Lower(name))
  {
    assert a.Strip("") == "";
    assert |a.Lower(value)| == |value|;
    PrefixAllowed(a, source);
    StripTwice(a, OrBlank(m.value));
    PrefixMatcherAccepts(a, MatcherOf(a, m, sources).value, name);
  }

  lemma OwnedByRule(a: Alphabet, rules: seq<MappingRow>, m: MappingRow, sources: seq<string>, rest: seq<OwnerMatcher>,
                    name: string)
    requires m in rules && MatcherOf(a, m, sources).Some? && MatcherOf(a, m, sources).value.Matches(a, name)
    ensures Owned(a, MappingMatchers(a, rules, sources) + rest, name)
  {
    var own := MatcherOf(a, m, sources).value;
    CollectHas(MatchersOf(a, sources), rules, own);
    var i :| 0 <= i < |MappingMatchers(a, rules, sources)| && MappingMatchers(a, rules, sources)[i] == own;
    assert (MappingMatchers(a, rules, sources) + rest)[i].Matches(a, name);
  }

  /**
   No stored rule with a trimmed source is the one the page suggests for a row it still shows, so
   the action is never turned down as already present.
   */
  lemma OfferedRuleIsNew(a: Alphabet, e: Estate, rules: seq<MappingRow>, r: Row, m: MappingRow)
    requires a.Sound() && e.accounts.Valid()
    requires r in Worklist(a, e, rules) && Actionable(a, r)
    requires m in rules && m.source.Some? && a.Strip(m.source.value) == m.source.value
    ensures RuleIdentity(a, m) != RuleIdentity(a, RuleFor(a, r))
  {
    var named := NameMatchers(a, e.displayNames);
    var vm, backup := MappingMatchers(a, rules, VM_OWNER_SOURCES) + named,
        MappingMatchers(a, rules, BACKUP_OWNER_SOURCES);
    var source := if r.kind == Backup then "backup_netbackup" else "virtualization";
    var sources := if r.kind == Backup then BACKUP_OWNER_SOURCES else VM_OWNER_SOURCES;
    VmRowsUnowned(a, e, e.names, vm);
    PolicyRowsUnowned(a, e, e.policies, backup);
    VmRowKinds(a, e, e.names, vm);
    PolicyRowKinds(a, e, e.policies, backup);
    assert !Owned(a, if r.kind == Backup then backup else vm, a.Lower(a.Strip(r.name)));
    SuggestedIdentity(a, r, source);
    SuggestionClaimsItsRow(a, e, rules, r);
    assert VM_OWNER_SOURCES[0] == "virtualization" && BACKUP_OWNER_SOURCES[0] == "backup_netbackup";
    assert backup + [] == backup;
    if RuleIdentity(a, m) == RuleIdentity(a, RuleFor(a, r)) {
      SameRuleOwns(a, m, a.Strip(r.suggested.value), source, sources, a.Strip(r.name));
      OwnedByRule(a, rules, m, sources, if r.kind == Backup then [] else named, a.Lower(a.Strip(r.name)));
    }
  }

  lemma SuggestedIdentity(a: Alphabet, r: Row, source: string)
    requires a.Sound() && Actionable(a, r)
    requires source == if r.kind == Backup then "backup_netbackup" else "virtualization"
    ensures RuleIdentity(a, RuleFor(a, r)) == (source, "prefix", a.Lower(a.Strip(r.suggested.value)))
  {
    KeywordKept(a, "prefix");
    KeywordKept(a, source);
    StripTwice(a, r.suggested.value);
  }

  datatype Click = Click(at: nat, row: Row)

  ghost function RulesAfter(a: Alphabet, rules: seq<MappingRow>, c: Click): seq<MappingRow>
    requires c.at <= |rules| && Actionable(a, c.row)
  {
    rules[..c.at] + [RuleFor(a, c.row)] + rules[c.at..]
  }

  /** Every click in turn is on a row that the page then offers. */
  ghost predicate ClickRun(a: Alphabet, e: Estate, rules: seq<MappingRow>, clicks: seq<Click>)
    requires e.accounts.Valid()
    decreases |clicks|
  {
    clicks == [] ||
    (var c := clicks[0];
     && c.at <= |rules| && c.row in Worklist(a, e, rules) && Actionable(a, c.row)
     && ClickRun(a, e, RulesAfter(a, rules, c), clicks[1..]))
  }

  /** However the operator proceeds, the page runs out of rows to act on. */
  lemma {:induction false} ClicksTerminate(a: Alphabet, e: Estate, rules: seq<MappingRow>, clicks: seq<Click>)
    requires a.Sound() && e.accounts.Valid() && ClickRun(a, e, rules, clicks)
    ensures |clicks| <= ActionableCount(a, Worklist(a, e, rules))
    decreases |clicks|
  {
    if clicks != [] {
      ClickMakesProgress(a, e, rules, clicks[0].at, clicks[0].row);
      ClicksTerminate(a, e, RulesAfter(a, rules, clicks[0]), clicks[1..]);
    }
  }
}
