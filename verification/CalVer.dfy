/**
 Weekly releases rebuilt from a commit log (scripts/backfill_platform_versions.py): one release for
 each ISO week with commits, numbered within its month, and written to the release tables.
 */
module CalVer {
  import opened Prelude
  import opened Sorting
  import opened Calendar
  import opened Grouping

  datatype Commit = Commit(sha: string, date: Date, changeType: string, scope: Option<string>, summary: string)

  datatype Change = Change(changeType: string, summary: string, sha: string, scope: Option<string>)

  datatype Release = Release(version: string, releasedAt: Date, changes: seq<Change>)

  // ---------------------------------------------------------------- version names

  function Digits(n: nat): (s: string)
    ensures s != [] && forall c <- s :: '0' <= c <= '9'
  {
    if n < 10 then ['0' + n as char] else Digits(n / 10) + ['0' + (n % 10) as char]
  }

  function TwoDigits(n: nat): string {
    if n < 10 then "0" + Digits(n) else Digits(n)
  }

  /** scripts/backfill_platform_versions.py:29-30 */
  function VersionName(m: Month, number: nat): string
    requires m.year >= 0 && m.month >= 0
  {
    Digits(m.year) + "." + (TwoDigits(m.month) + "." + Digits(number))
  }

  lemma {:induction false} DigitsDiffer(m: nat, n: nat)
    ensures Digits(m) == Digits(n) ==> m == n
  {
    if Digits(m) == Digits(n) {
      var s, t := Digits(m), Digits(n);
      assert s[|s| - 1] == t[|t| - 1];
      assert s[..|s| - 1] == t[..|t| - 1];
      if m >= 10 && n >= 10 {
        DigitsDiffer(m / 10, n / 10);
      }
    }
  }

  /** The text up to the first dot is settled by the whole. */
  lemma {:induction false} DotSettles(x: string, y: string, x': string, y': string)
    requires '.' !in x && '.' !in x'
    requires x + "." + y == x' + "." + y'
    ensures x == x' && y == y'
  {
    var whole, whole' := x + "." + y, x' + "." + y';
    if x != [] && x' != [] {
      assert whole[1..] == x[1..] + "." + y && whole'[1..] == x'[1..] + "." + y';
      DotSettles(x[1..], y, x'[1..], y');
      assert x == [whole[0]] + x[1..] && x' == [whole'[0]] + x'[1..];
    } else {
      assert whole[0] == whole'[0];
      assert x == [] ==> whole == ['.'] + y && whole[1..] == y;
      assert x' == [] ==> whole' == ['.'] + y' && whole'[1..] == y';
    }
  }

  /** A version name tells its year, month and number. */
  lemma VersionNamesDiffer(m: Month, i: nat, n: Month, j: nat)
    requires m.year >= 0 && n.year >= 0 && 1 <= m.month <= 12 && 1 <= n.month <= 12
    requires VersionName(m, i) == VersionName(n, j)
    ensures m == n && i == j
  {
    DotSettles(Digits(m.year), TwoDigits(m.month) + "." + Digits(i), Digits(n.year),
        TwoDigits(n.month) + "." + Digits(j));
    DotSettles(TwoDigits(m.month), Digits(i), TwoDigits(n.month), Digits(j));
    DigitsDiffer(m.year, n.year);
    DigitsDiffer(i, j);
    DigitsDiffer(m.month, n.month);
    assert m.month >= 10 ==> Digits(m.month)[0] == '1';
    assert n.month >= 10 ==> Digits(n.month)[0] == '1';
    assert m.month < 10 && n.month < 10
        ==> TwoDigits(m.month)[1..] == Digits(m.month) && TwoDigits(n.month)[1..] == Digits(n.month);
  }

  // ---------------------------------------------------------------- releases

  function KeyOf(c: Commit): Week {
    IsoWeek(c.date)
  }

  function MonthOf(d: Date): Month {
    Month(d.year, d.month)
  }

  /** `min` of the dates: the first day of activity. */
  function Earliest(group: seq<Commit>): Date
    requires group != []
  {
    if |group| == 1 then group[0].date
    else
      var d, last := Earliest(group[..|group| - 1]), group[|group| - 1].date;
      if DateLess(last, d) then last else d
  }

  function ChangeOf(c: Commit): Change {
    Change(c.changeType, c.summary, if |c.sha| > 12 then c.sha[..12] else c.sha, c.scope)
  }

  /** Of the first `n` releases, dated `days`, those made in a month. */
  function MonthCount(days: seq<Date>, n: nat, m: Month): nat
    requires n <= |days|
  {
    if n == 0 then 0 else MonthCount(days, n - 1, m) + if MonthOf(days[n - 1]) == m then 1 else 0
  }

  /** The number of a release in its month: one more than the releases of that month before it. */
  function NumberAt(days: seq<Date>, i: nat): nat
    requires i < |days|
  {
    MonthCount(days, i, MonthOf(days[i])) + 1
  }

  ghost predicate NoneEmpty(groups: seq<seq<Commit>>) {
    forall i :: 0 <= i < |groups| ==> groups[i] != []
  }

  function Days(groups: seq<seq<Commit>>): seq<Date>
    requires NoneEmpty(groups)
  {
    seq(|groups|, i requires 0 <= i < |groups| => Earliest(groups[i]))
  }

  function ReleaseOf(day: Date, number: nat, group: seq<Commit>): Release {
    Release(VersionName(MonthOf(day), number), day, Map(ChangeOf, group))
  }

  function Releases(groups: seq<seq<Commit>>): seq<Release>
    requires NoneEmpty(groups)
  {
    seq(|groups|, i requires 0 <= i < |groups| => ReleaseOf(Earliest(groups[i]), NumberAt(Days(groups), i), groups[i]))
  }

  lemma WeekLeIsOrder()
    ensures TotalPreorder(WeekLe)
  {
  }

  /** The weeks with commits, in time order. */
  function Weeks(commits: seq<Commit>): seq<Week> {
    SortBy(WeekLe, Keys(KeyOf, commits))
  }

  /** The commits of each week. */
  function ByWeek(commits: seq<Commit>): (groups: seq<seq<Commit>>)
    ensures NoneEmpty(groups)
  {
    WeekLeIsOrder();
    KeysSorted(KeyOf, commits, WeekLe);
    Map((w: Week) => Group(KeyOf, commits, w), Weeks(commits))
  }

  /** The history of releases. */
  function History(commits: seq<Commit>): seq<Release> {
    Releases(ByWeek(commits))
  }

  // ---------------------------------------------------------------- the loop

  /** `min(c["date"] for c in group)` */
  method EarliestDate(group: seq<Commit>) returns (day: Date)
    requires group != []
    ensures day == Earliest(group)
  {
    day := group[0].date;
    for i := 1 to |group|
      invariant day == Earliest(group[..i])
    {
      assert group[..i + 1][..i] == group[..i];
      if DateLess(group[i].date, day) {
        day := group[i].date;
      }
    }
    assert group[..|group|] == group;
  }

  /** The counters `month_seq` hold the releases made so far in each month. */
  ghost predicate Counts(monthSeq: map<Month, nat>, days: seq<Date>, n: nat)
    requires n <= |days|
  {
    forall m :: MonthCount(days, n, m) == if m in monthSeq then monthSeq[m] else 0
  }

  function Counted(monthSeq: map<Month, nat>, m: Month): map<Month, nat> {
    monthSeq[m := (if m in monthSeq then monthSeq[m] else 0) + 1]
  }

  /** Counting one more release gives it its number. */
  lemma CountOneMore(monthSeq: map<Month, nat>, days: seq<Date>, i: nat)
    requires i < |days| && Counts(monthSeq, days, i)
    ensures var m := MonthOf(days[i]);
            Counts(Counted(monthSeq, m), days, i + 1) && Counted(monthSeq, m)[m] == NumberAt(days, i)
  {
  }

  /** One week's release: scripts/backfill_platform_versions.py:69-82. */
  method MakeRelease(group: seq<Commit>, monthSeq: map<Month, nat>, ghost days: seq<Date>, ghost i: nat)
    returns (r: Release, counted: map<Month, nat>)
    requires i < |days| && group != [] && days[i] == Earliest(group) && Counts(monthSeq, days, i)
    ensures r == ReleaseOf(days[i], NumberAt(days, i), group) && Counts(counted, days, i + 1)
  {
    var day := EarliestDate(group);
    var m := MonthOf(day);
    CountOneMore(monthSeq, days, i);
    counted := Counted(monthSeq, m);
    r := ReleaseOf(day, counted[m], group);
  }

  /** Release `i` of the groups dated `days`. */
  ghost predicate Made(r: Release, days: seq<Date>, groups: seq<seq<Commit>>, i: nat)
    requires i < |days| && i < |groups|
  {
    r == ReleaseOf(days[i], NumberAt(days, i), groups[i])
  }

  lemma AllMade(groups: seq<seq<Commit>>, releases: seq<Release>)
    requires NoneEmpty(groups) && |releases| == |groups|
    requires forall j :: 0 <= j < |groups| ==> Made(releases[j], Days(groups), groups, j)
    ensures releases == Releases(groups)
  {
  }

  /** scripts/backfill_platform_versions.py:67-82 */
  method NumberReleases(order: seq<Week>, byWeek: map<Week, seq<Commit>>, ghost groups: seq<seq<Commit>>)
    returns (releases: seq<Release>)
    requires NoneEmpty(groups) && |groups| == |order|
    requires forall i :: 0 <= i < |order| ==> order[i] in byWeek && byWeek[order[i]] == groups[i]
    ensures releases == Releases(groups)
  {
    ghost var days := Days(groups);
    var monthSeq: map<Month, nat> := map[];
    releases := [];
    for i := 0 to |order|
      invariant Counts(monthSeq, days, i)
      invariant |releases| == i && forall j :: 0 <= j < i ==> Made(releases[j], days, groups, j)
    {
      var release: Release;
      release, monthSeq := MakeRelease(byWeek[order[i]], monthSeq, days, i);
      assert Made(release, days, groups, i);
      releases := releases + [release];
    }
    AllMade(groups, releases);
  }

  /** scripts/backfill_platform_versions.py:62-83 */
  method BucketWeekly(commits: seq<Commit>) returns (releases: seq<Release>)
    ensures releases == History(commits)
  {
    var weeks, byWeek := GroupBy(KeyOf, commits);
    var order := SortBy(WeekLe, weeks);
    WeekLeIsOrder();
    KeysSorted(KeyOf, commits, WeekLe);
    assert forall i :: 0 <= i < |order| ==> order[i] in order;
    releases := NumberReleases(order, byWeek, ByWeek(commits));
  }

  // ---------------------------------------------------------------- every commit released once

  /** All changes of the first `n` releases. */
  ghost function ChangesUpTo(releases: seq<Release>, n: nat): seq<Change>
    requires n <= |releases|
  {
    if n == 0 then [] else ChangesUpTo(releases, n - 1) + releases[n - 1].changes
  }

  ghost function AllChanges(releases: seq<Release>): seq<Change> {
    ChangesUpTo(releases, |releases|)
  }

  lemma {:induction false} ChangesOfWeeks(commits: seq<Commit>, n: nat)
    requires n <= |Weeks(commits)|
    ensures ChangesUpTo(History(commits), n) == Map(ChangeOf, Regrouped(KeyOf, commits, Weeks(commits)[..n]))
  {
    if n > 0 {
      var weeks := Weeks(commits);
      ChangesOfWeeks(commits, n - 1);
      RegroupedUpTo(KeyOf, commits, weeks, n);
      MapConcat(ChangeOf, Regrouped(KeyOf, commits, weeks[..n - 1]), Group(KeyOf, commits, weeks[n - 1]));
      ChangesAt(commits, n - 1);
    }
  }

  lemma HistoryAt(commits: seq<Commit>, i: nat)
    requires i < |Weeks(commits)|
    ensures |History(commits)| == |Weeks(commits)|
    ensures History(commits)[i] == ReleaseOf(Earliest(ByWeek(commits)[i]), NumberAt(Days(ByWeek(commits)), i),
            ByWeek(commits)[i])
    ensures ByWeek(commits)[i] == Group(KeyOf, commits, Weeks(commits)[i])
  {
  }

  lemma ChangesAt(commits: seq<Commit>, i: nat)
    requires i < |Weeks(commits)|
    ensures |History(commits)| == |Weeks(commits)|
    ensures History(commits)[i].changes == Map(ChangeOf, Group(KeyOf, commits, Weeks(commits)[i]))
  {
  }

  /** No commit is lost and none is released twice. */
  lemma EveryCommitReleasedOnce(commits: seq<Commit>)
    ensures multiset(AllChanges(History(commits))) == multiset(Map(ChangeOf, commits))
  {
    WeekLeIsOrder();
    KeysSorted(KeyOf, commits, WeekLe);
    var weeks := Weeks(commits);
    ChangesOfWeeks(commits, |weeks|);
    assert weeks[..|weeks|] == weeks;
    GroupsConserve(KeyOf, commits, weeks);
    MapReordered(ChangeOf, Regrouped(KeyOf, commits, weeks), commits);
  }

  // ---------------------------------------------------------------- releases in order

  lemma {:induction false} EarliestIn(group: seq<Commit>)
    requires group != []
    ensures exists c <- group :: c.date == Earliest(group)
    ensures forall c <- group :: !DateLess(c.date, Earliest(group))
  {
    var init, last := group[..|group| - 1], group[|group| - 1];
    if init == [] {
      assert group[0] in group;
    } else {
      EarliestIn(init);
      assert group == init + [last];
      var c :| c in init && c.date == Earliest(init);
      assert c in group && last in group;
      forall x | x in group ensures !DateLess(x.date, Earliest(group)) {
        if x in init { assert !DateLess(x.date, Earliest(init)); }
      }
    }
  }

  /** The dates of a history's releases. */
  function ReleaseDays(commits: seq<Commit>): seq<Date> {
    Days(ByWeek(commits))
  }

  /** A release holds the commits of its week, in order, and is dated and named by the first of them. */
  lemma ReleaseHoldsItsWeek(commits: seq<Commit>, i: nat)
    requires i < |Weeks(commits)|
    ensures |History(commits)| == |ReleaseDays(commits)| == |Weeks(commits)|
    ensures var r, day := History(commits)[i], ReleaseDays(commits)[i];
            && r.changes == Map(ChangeOf, Group(KeyOf, commits, Weeks(commits)[i]))
            && r.releasedAt == day && IsoWeek(day) == Weeks(commits)[i]
            && (exists c <- commits :: c.date == day)
            && (forall c <- commits :: KeyOf(c) == Weeks(commits)[i] ==> !DateLess(c.date, day))
            && r.version == VersionName(MonthOf(day), NumberAt(ReleaseDays(commits), i))
  {
    var group := Group(KeyOf, commits, Weeks(commits)[i]);
    HistoryAt(commits, i);
    GroupMembers(KeyOf, commits, Weeks(commits)[i]);
    EarliestIn(group);
    var c :| c in group && c.date == Earliest(group);
    assert c in commits && KeyOf(c) == Weeks(commits)[i];
  }

  lemma {:induction false} CountGrows(days: seq<Date>, i: nat, j: nat, m: Month)
    requires i <= j <= |days|
    ensures MonthCount(days, i, m) <= MonthCount(days, j, m)
    ensures i < j && MonthOf(days[i]) == m ==> MonthCount(days, i, m) < MonthCount(days, j, m)
    decreases j
  {
    if i < j { CountGrows(days, i, j - 1, m); }
  }

  /** The order of versions: by month, then by number. */
  predicate VersionLess(m: Month, i: nat, n: Month, j: nat) {
    MonthLess(m, n) || (m == n && i < j)
  }

  /** Releases come out in time order, and their versions rise strictly with them. */
  lemma VersionsRise(commits: seq<Commit>, i: nat, j: nat)
    requires i < j < |Weeks(commits)|
    ensures |ReleaseDays(commits)| == |Weeks(commits)|
    ensures var days := ReleaseDays(commits);
            && DateLess(days[i], days[j])
            && VersionLess(MonthOf(days[i]), NumberAt(days, i), MonthOf(days[j]), NumberAt(days, j))
  {
    ReleaseHoldsItsWeek(commits, i);
    ReleaseHoldsItsWeek(commits, j);
    WeekLeIsOrder();
    KeysSorted(KeyOf, commits, WeekLe);
    var days := ReleaseDays(commits);
    EarlierWeekEarlierDate(days[i], days[j]);
    CountGrows(days, i, j, MonthOf(days[i]));
  }

  /** No two releases share a version name. */
  lemma VersionsAreUnique(commits: seq<Commit>, i: nat, j: nat)
    requires i < j < |Weeks(commits)|
    ensures |History(commits)| == |Weeks(commits)|
    ensures History(commits)[i].version != History(commits)[j].version
  {
    VersionsRise(commits, i, j);
    ReleaseHoldsItsWeek(commits, i);
    ReleaseHoldsItsWeek(commits, j);
    var rs, days := History(commits), ReleaseDays(commits);
    if rs[i].version == rs[j].version {
      VersionNamesDiffer(MonthOf(days[i]), NumberAt(days, i), MonthOf(days[j]), NumberAt(days, j));
    }
  }

  /** The numbers of a month run from 1 without a gap. */
  lemma {:induction false} NumbersHaveNoGap(days: seq<Date>, n: nat, m: Month, number: nat)
    requires n <= |days| && 1 <= number <= MonthCount(days, n, m)
    ensures exists i :: 0 <= i < n && MonthOf(days[i]) == m && NumberAt(days, i) == number
  {
    if number <= MonthCount(days, n - 1, m) {
      NumbersHaveNoGap(days, n - 1, m, number);
    } else {
      assert MonthOf(days[n - 1]) == m && NumberAt(days, n - 1) == number;
    }
  }

  // ---------------------------------------------------------------- the release tables

  /** `platform_releases` by version, with the changes stored for each. */
  datatype Row = Row(releasedAt: Date, changes: seq<Change>)

  function WriteOne(table: map<string, Row>, r: Release): map<string, Row> {
    if r.version in table && table[r.version].changes != [] then table
    else
      table[r.version := Row(if r.version in table then table[r.version].releasedAt else r.releasedAt, r.changes)]
  }

  function Written(table: map<string, Row>, releases: seq<Release>): map<string, Row> {
    if releases == [] then table
    else WriteOne(Written(table, releases[..|releases| - 1]), releases[|releases| - 1])
  }

  /** scripts/backfill_platform_versions.py:96-120 */
  method StoreRelease(table: map<string, Row>, r: Release) returns (after: map<string, Row>)
    ensures after == WriteOne(table, r)
  {
    after := if r.version in table then table else table[r.version := Row(r.releasedAt, [])];
    if after[r.version].changes != [] {
      return;
    }
    ghost var row := after[r.version];
    for j := 0 to |r.changes|
      invariant after == table[r.version := row.(changes := r.changes[..j])]
    {
      assert r.changes[..j + 1] == r.changes[..j] + [r.changes[j]];
      after := after[r.version := after[r.version].(changes := after[r.version].changes + [r.changes[j]])];
    }
    assert r.changes[..|r.changes|] == r.changes;
  }

  /** scripts/backfill_platform_versions.py:93-120 */
  method WriteReleases(table: map<string, Row>, releases: seq<Release>) returns (after: map<string, Row>)
    ensures after == Written(table, releases)
  {
    after := table;
    for i := 0 to |releases|
      invariant after == Written(table, releases[..i])
    {
      assert releases[..i + 1][..i] == releases[..i];
      after := StoreRelease(after, releases[i]);
    }
    assert releases[..|releases|] == releases;
  }

  /** Nothing written is ever replaced, and afterwards every release has its row. */
  lemma {:induction false} WrittenKeepsRows(table: map<string, Row>, releases: seq<Release>)
    ensures var after := Written(table, releases);
            && (forall v <- table :: v in after && after[v].releasedAt == table[v].releasedAt)
            && (forall v <- table :: table[v].changes != [] ==> after[v] == table[v])
            && (forall r <- releases :: r.version in after && (r.changes != [] ==> after[r.version].changes != []))
  {
    if releases != [] {
      WrittenKeepsRows(table, releases[..|releases| - 1]);
      assert releases == releases[..|releases| - 1] + [releases[|releases| - 1]];
    }
  }

  lemma {:induction false} NothingToWrite(table: map<string, Row>, releases: seq<Release>)
    requires forall r <- releases :: r.version in table && (r.changes != [] ==> table[r.version].changes != [])
    ensures Written(table, releases) == table
  {
    if releases != [] {
      NothingToWrite(table, releases[..|releases| - 1]);
      assert releases[|releases| - 1] in releases;
    }
  }

  /** Running the backfill again writes nothing. */
  lemma WriteTwice(table: map<string, Row>, releases: seq<Release>)
    ensures Written(Written(table, releases), releases) == Written(table, releases)
  {
    WrittenKeepsRows(table, releases);
    NothingToWrite(Written(table, releases), releases);
  }

  lemma {:induction false} OnlyReleasesWritten(table: map<string, Row>, releases: seq<Release>, v: string)
    requires v !in table && forall r <- releases :: r.version != v
    ensures v !in Written(table, releases)
  {
    if releases != [] {
      assert releases[|releases| - 1] in releases;
      OnlyReleasesWritten(table, releases[..|releases| - 1], v);
    }
  }

  ghost predicate UniqueVersions(releases: seq<Release>) {
    forall j, k :: 0 <= j < k < |releases| ==> releases[j].version != releases[k].version
  }

  /** On tables that hold none of the versions, each release of a history is stored as it is. */
  lemma {:induction false} FreshReleasesStored(table: map<string, Row>, releases: seq<Release>, i: nat)
    requires UniqueVersions(releases) && (forall r <- releases :: r.version !in table) && i < |releases|
    ensures releases[i].version in Written(table, releases)
    ensures Written(table, releases)[releases[i].version] == Row(releases[i].releasedAt, releases[i].changes)
  {
    var last := |releases| - 1;
    assert releases[last] in releases;
    if i < last {
      FreshReleasesStored(table, releases[..last], i);
    } else {
      OnlyReleasesWritten(table, releases[..last], releases[last].version);
    }
  }

  lemma HistoryIsStored(table: map<string, Row>, commits: seq<Commit>, i: nat)
    requires forall r <- History(commits) :: r.version !in table
    requires i < |History(commits)|
    ensures var r := History(commits)[i];
            r.version in Written(table, History(commits))
            && Written(table, History(commits))[r.version] == Row(r.releasedAt, r.changes)
  {
    var rs := History(commits);
    assert |rs| == |Weeks(commits)|;
    forall j, k | 0 <= j < k < |rs| ensures rs[j].version != rs[k].version {
      VersionsAreUnique(commits, j, k);
    }
    FreshReleasesStored(table, rs, i);
  }
}
