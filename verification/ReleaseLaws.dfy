/**
 What a release says of its commits and its month, and what the backfill leaves in tables that already
 hold something (scripts/backfill_platform_versions.py).
 */
module ReleaseLaws {
  import opened Prelude
  import opened Calendar
  import opened Grouping
  import opened CalVer

  // ---------------------------------------------------------------- version names

  /** The number a string of digits stands for. */
  function Decimal(s: string): int {
    if s == [] then 0 else 10 * Decimal(s[..|s| - 1]) + (s[|s| - 1] as int - '0' as int)
  }

  /** A number in decimal, without leading zeros. */
  lemma {:induction false} DigitsRead(n: nat)
    ensures Decimal(Digits(n)) == n && (Digits(n)[0] == '0' ==> n == 0)
    ensures |Digits(n)| == 1 <==> n < 10
    ensures |Digits(n)| == 2 <==> 10 <= n < 100
  {
    if n < 10 {
      assert Digits(n)[..0] == [];
    } else {
      DigitsRead(n / 10);
      assert Digits(n)[..|Digits(n)| - 1] == Digits(n / 10);
    }
  }

  lemma TwoDigitsRead(n: nat)
    requires n < 100
    ensures |TwoDigits(n)| == 2 && Decimal(TwoDigits(n)) == n
  {
    DigitsRead(n);
    if n < 10 {
      assert TwoDigits(n) == ['0', Digits(n)[0]];
      assert TwoDigits(n)[..1] == "0" && "0"[..0] == "" && Digits(n)[..0] == "";
    }
  }

  lemma Dotted(x: string, y: string, z: string)
    ensures x + "." + (y + "." + z) == x + "." + y + "." + z
  {
  }

  /** A version reads year, two-digit month and number, in decimal, with dots between. */
  lemma VersionReads(m: Month, number: nat) returns (y: string, mm: string, n: string)
    requires m.year >= 0 && 1 <= m.month <= 12
    ensures VersionName(m, number) == y + "." + mm + "." + n
    ensures Decimal(y) == m.year && Decimal(mm) == m.month && |mm| == 2 && Decimal(n) == number
  {
    DigitsRead(m.year);
    DigitsRead(number);
    TwoDigitsRead(m.month);
    y, mm, n := Digits(m.year), TwoDigits(m.month), Digits(number);
    Dotted(y, mm, n);
  }

  // ---------------------------------------------------------------- changes

  /** What a change tells of its commit: type, summary and scope whole, and of the hash the first twelve places. */
  ghost predicate Tells(x: Change, c: Commit) {
    && x.changeType == c.changeType && x.summary == c.summary && x.scope == c.scope
    && x.sha <= c.sha && (|x.sha| == 12 || (x.sha == c.sha && |c.sha| < 12))
  }

  lemma EachTells(group: seq<Commit>, j: nat)
    requires j < |group|
    ensures |Map(ChangeOf, group)| == |group| && Tells(Map(ChangeOf, group)[j], group[j])
  {
    assert Map(ChangeOf, group)[j] == ChangeOf(group[j]);
  }

  /** The changes of a release tell of the commits of its week, one each and in log order. */
  lemma ChangesTell(commits: seq<Commit>, i: nat, j: nat)
    requires i < |Weeks(commits)| && j < |Group(KeyOf, commits, Weeks(commits)[i])|
    ensures |History(commits)| == |Weeks(commits)|
    ensures var changes, group := History(commits)[i].changes, Group(KeyOf, commits, Weeks(commits)[i]);
            |changes| == |group| && Tells(changes[j], group[j])
  {
    ChangesAt(commits, i);
    EachTells(Group(KeyOf, commits, Weeks(commits)[i]), j);
  }

  // ---------------------------------------------------------------- what is written

  /** What the row of a release becomes: its date and changes are kept where it has them. */
  ghost predicate StoredAs(table: map<string, Row>, r: Release, row: Row) {
    && row.releasedAt == (if r.version in table then table[r.version].releasedAt else r.releasedAt)
    && row.changes == (if r.version in table && table[r.version].changes != [] then table[r.version].changes
                       else r.changes)
  }

  lemma {:induction false} OthersUntouched(table: map<string, Row>, releases: seq<Release>, v: string)
    requires forall r <- releases :: r.version != v
    ensures v in Written(table, releases) <==> v in table
    ensures v in table ==> Written(table, releases)[v] == table[v]
  {
    if releases != [] {
      assert releases[|releases| - 1] in releases;
      OthersUntouched(table, releases[..|releases| - 1], v);
    }
  }

  /**
   Whatever the tables held, a release ends with its own date and changes unless its row already had
   some, and a row of any other version is left alone.
   */
  lemma {:induction false} WrittenExactly(table: map<string, Row>, releases: seq<Release>, i: nat)
    requires UniqueVersions(releases) && i < |releases|
    ensures releases[i].version in Written(table, releases)
    ensures StoredAs(table, releases[i], Written(table, releases)[releases[i].version])
    ensures forall v :: (forall r <- releases :: r.version != v) ==>
              (v in Written(table, releases) <==> v in table)
              && (v in table ==> Written(table, releases)[v] == table[v])
  {
    var last := |releases| - 1;
    if i < last {
      WrittenExactly(table, releases[..last], i);
    } else {
      OthersUntouched(table, releases[..last], releases[last].version);
    }
    forall v | forall r <- releases :: r.version != v
      ensures v in Written(table, releases) <==> v in table
      ensures v in table ==> Written(table, releases)[v] == table[v]
    {
      OthersUntouched(table, releases, v);
    }
  }
}
