/**
 Calendar dates and the week dates of ISO 8601:2004, section 4.1.4, as Python's `datetime.date` has
 them: the proleptic Gregorian calendar, days numbered from 1 January of year 1, a Monday.
 */
module Calendar {

  datatype YearMonthDay = YearMonthDay(year: int, month: int, day: int) {
    predicate Valid() {
      1 <= year <= 9999 && 1 <= month <= 12 && 1 <= day <= DaysInMonth(year, month)
    }
  }

  type Date = d: YearMonthDay | d.Valid() witness YearMonthDay(1, 1, 1)

  /** A month of a year. */
  datatype Month = Month(year: int, month: int)

  /** An ISO year and week number: the key of a release. */
  datatype Week = Week(year: int, number: int)

  predicate Leap(year: int) {
    year % 4 == 0 && (year % 100 != 0 || year % 400 == 0)
  }

  function DaysInMonth(year: int, month: int): int
    requires 1 <= month <= 12
  {
    if month == 2 then if Leap(year) then 29 else 28
    else if month == 4 || month == 6 || month == 9 || month == 11 then 30
    else 31
  }

  function DaysInYear(year: int): int {
    if Leap(year) then 366 else 365
  }

  function DaysBeforeYear(year: int): int {
    if year <= 1 then 0 else DaysBeforeYear(year - 1) + DaysInYear(year - 1)
  }

  function DaysBeforeMonth(year: int, month: int): int
    requires 1 <= month <= 13
    decreases month
  {
    if month == 1 then 0 else DaysBeforeMonth(year, month - 1) + DaysInMonth(year, month - 1)
  }

  /** `date.toordinal()` */
  function Ordinal(d: Date): int
  {
    DaysBeforeYear(d.year) + DaysBeforeMonth(d.year, d.month) + d.day
  }

  /** The Monday of the week of day `n`; day 1 is a Monday. */
  function MondayOf(n: int): int {
    7 * ((n - 1) / 7) + 1
  }

  /** Week 1 of a year is the week of 4 January. */
  function FirstMonday(year: int): int {
    MondayOf(DaysBeforeYear(year) + 4)
  }

  /** `date.isocalendar()`, without the day of the week. */
  function IsoWeek(d: Date): Week {
    WeekOf(Ordinal(d), d.year)
  }

  /** The ISO week of day `n` of a calendar year. */
  function WeekOf(n: int, year: int): Week {
    var isoYear := IsoYear(n, year);
    Week(isoYear, (n - FirstMonday(isoYear)) / 7 + 1)
  }

  /** The ISO year of day `n` of a calendar year. */
  function IsoYear(n: int, year: int): int {
    if n < FirstMonday(year) then year - 1 else if n >= FirstMonday(year + 1) then year + 1 else year
  }

  // ---------------------------------------------------------------- orders

  predicate DateLess(d: Date, e: Date) {
    d.year < e.year || (d.year == e.year && (d.month < e.month || (d.month == e.month && d.day < e.day)))
  }

  predicate MonthLess(m: Month, n: Month) {
    m.year < n.year || (m.year == n.year && m.month < n.month)
  }

  /** The order Python sorts the release keys in. */
  predicate WeekLe(v: Week, w: Week) {
    v.year < w.year || (v.year == w.year && v.number <= w.number)
  }

  lemma {:induction false} YearsInOrder(year: int, later: int)
    requires 1 <= year <= later
    ensures DaysBeforeYear(later) - DaysBeforeYear(year) >= 365 * (later - year)
    decreases later - year
  {
    if year < later {
      YearsInOrder(year + 1, later);
    }
  }

  lemma {:induction false} MonthsInOrder(year: int, month: int, later: int)
    requires 1 <= month < later <= 13
    ensures DaysBeforeMonth(year, month) + DaysInMonth(year, month) <= DaysBeforeMonth(year, later)
    decreases later
  {
    if month < later - 1 { MonthsInOrder(year, month, later - 1); }
  }

  lemma MonthsFillTheYear(year: int)
    ensures DaysBeforeMonth(year, 13) == DaysInYear(year)
  {
    assert DaysBeforeMonth(year, 2) == 31;
    assert DaysBeforeMonth(year, 5) == DaysBeforeMonth(year, 3) + 61;
    assert DaysBeforeMonth(year, 9) == DaysBeforeMonth(year, 5) + 123;
    assert DaysBeforeMonth(year, 13) == DaysBeforeMonth(year, 9) + 122;
  }

  /** A date falls inside its year. */
  lemma InsideYear(d: Date)
    ensures DaysBeforeYear(d.year) < Ordinal(d) <= DaysBeforeYear(d.year + 1)
  {
    MonthsInOrder(d.year, d.month, 13);
    MonthsFillTheYear(d.year);
    if d.month > 1 { MonthsInOrder(d.year, 1, d.month); }
  }

  lemma EarlierDateEarlierDay(d: Date, e: Date)
    requires DateLess(d, e)
    ensures Ordinal(d) < Ordinal(e)
  {
    if d.year < e.year {
      InsideYear(d);
      InsideYear(e);
      YearsInOrder(d.year + 1, e.year);
    } else if d.month < e.month {
      MonthsInOrder(d.year, d.month, e.month);
    }
  }

  /** Comparing dates by year, month and day is comparing them by day number. */
  lemma DatesInDayOrder(d: Date, e: Date)
    ensures DateLess(d, e) <==> Ordinal(d) < Ordinal(e)
  {
    if DateLess(d, e) {
      EarlierDateEarlierDay(d, e);
    } else if DateLess(e, d) {
      EarlierDateEarlierDay(e, d);
    }
  }

  // ---------------------------------------------------------------- weeks

  /** A Monday starts seven days, one of them `n`. */
  lemma MondayStarts(n: int)
    ensures MondayOf(n) <= n < MondayOf(n) + 7 && (MondayOf(n) - 1) % 7 == 0
  {
  }

  /** Every ISO year has 52 or 53 weeks, the first of which holds 4 January. */
  lemma FirstMondays(year: int)
    requires year >= 1
    ensures (FirstMonday(year) - 1) % 7 == 0
    ensures FirstMonday(year) <= DaysBeforeYear(year) + 4 < FirstMonday(year) + 7
    ensures FirstMonday(year + 1) - FirstMonday(year) in {364, 371}
  {
    MondaysApart(DaysBeforeYear(year) + 4, DaysBeforeYear(year + 1) - DaysBeforeYear(year));
  }

  lemma MondaysApart(n: int, days: int)
    requires days == 365 || days == 366
    ensures MondayOf(n) <= n < MondayOf(n) + 7 && (MondayOf(n) - 1) % 7 == 0
    ensures MondayOf(n + days) - MondayOf(n) in {364, 371}
  {
  }

  lemma {:induction false} FirstMondaysInOrder(year: int, later: int)
    requires 1 <= year <= later
    ensures FirstMonday(later) - FirstMonday(year) >= 364 * (later - year)
    decreases later - year
  {
    if year < later {
      FirstMondays(year);
      FirstMondaysInOrder(year + 1, later);
    }
  }

  /** Counting weeks from a Monday. */
  lemma WeeksFrom(n: int, first: int)
    requires (first - 1) % 7 == 0 && first <= n
    ensures MondayOf(n) == first + 7 * ((n - first) / 7) && MondayOf(n) >= first
  {
  }

  /** A day before a Monday is in an earlier week. */
  lemma WeeksBefore(n: int, next: int)
    requires (next - 1) % 7 == 0 && n < next
    ensures MondayOf(n) < next
  {
  }

  /** Day `n` of a calendar year lies in its ISO year. */
  lemma IsoYearHolds(n: int, year: int)
    requires year >= 1 && DaysBeforeYear(year) < n <= DaysBeforeYear(year + 1)
    ensures IsoYear(n, year) >= 1
    ensures FirstMonday(IsoYear(n, year)) <= n < FirstMonday(IsoYear(n, year) + 1)
  {
    if year > 1 { FirstMondays(year - 1); }
    FirstMondays(year);
    FirstMondays(year + 1);
  }

  /** Counting the weeks from the first Monday of a year up to day `n`, before the next year's. */
  lemma WeeksOfYear(n: int, first: int, next: int)
    requires (first - 1) % 7 == 0 && (next - 1) % 7 == 0 && first <= n < next && next - first in {364, 371}
    ensures first <= MondayOf(n) < next && MondayOf(n) == first + 7 * ((n - first) / 7)
    ensures 1 <= (n - first) / 7 + 1 <= 53
  {
    WeeksFrom(n, first);
    WeeksBefore(n, next);
  }

  lemma YearOfWeeks(year: int)
    requires year >= 1
    ensures (FirstMonday(year) - 1) % 7 == 0 && (FirstMonday(year + 1) - 1) % 7 == 0
    ensures FirstMonday(year + 1) - FirstMonday(year) in {364, 371}
  {
    FirstMondays(year);
    FirstMondays(year + 1);
  }

  /** A day's week belongs to its ISO year, and its number counts the Mondays of that year. */
  lemma DayInItsWeek(n: int, year: int)
    requires year >= 1 && DaysBeforeYear(year) < n <= DaysBeforeYear(year + 1)
    ensures Numbered(MondayOf(n), WeekOf(n, year))
  {
    IsoYearHolds(n, year);
    var isoYear := IsoYear(n, year);
    YearOfWeeks(isoYear);
    WeeksOfYear(n, FirstMonday(isoYear), FirstMonday(isoYear + 1));
  }

  /** The Monday starts week `w`. */
  ghost predicate Numbered(monday: int, w: Week) {
    && w.year >= 1 && 1 <= w.number <= 53
    && FirstMonday(w.year) <= monday < FirstMonday(w.year + 1)
    && monday == FirstMonday(w.year) + 7 * (w.number - 1)
  }

  lemma WeekInItsYear(d: Date)
    ensures Numbered(MondayOf(Ordinal(d)), IsoWeek(d))
  {
    InsideYear(d);
    DayInItsWeek(Ordinal(d), d.year);
  }

  /** ISO 8601:2004, section 4.1.4: a week belongs to the calendar year its Thursday falls in. */
  lemma WeekBelongsToItsThursday(d: Date)
    ensures var thursday := MondayOf(Ordinal(d)) + 3;
            DaysBeforeYear(IsoWeek(d).year) < thursday <= DaysBeforeYear(IsoWeek(d).year + 1)
  {
    WeekInItsYear(d);
    var year, monday := IsoWeek(d).year, MondayOf(Ordinal(d));
    FirstMondays(year);
    FirstMondays(year + 1);
    MondayStarts(Ordinal(d));
    ThursdayBetween(monday, DaysBeforeYear(year), DaysBeforeYear(year + 1), FirstMonday(year), FirstMonday(year + 1));
  }

  lemma ThursdayBetween(monday: int, b: int, b2: int, f: int, f2: int)
    requires f <= b + 4 < f + 7 && f2 <= b2 + 4 < f2 + 7 && f <= monday < f2
    requires (monday - 1) % 7 == 0 && (f2 - 1) % 7 == 0
    ensures b < monday + 3 <= b2
  {
  }

  /** Weeks numbered within years are in order when their Mondays are. */
  lemma WeekOrder(v: Week, w: Week, m: int, n: int)
    requires Numbered(m, v) && Numbered(n, w)
    ensures WeekLe(v, w) <==> m <= n
  {
    if v.year < w.year {
      FirstMondaysInOrder(v.year + 1, w.year);
    } else if w.year < v.year {
      FirstMondaysInOrder(w.year + 1, v.year);
    }
  }

  /** Sorting dates by ISO year and week sorts their weeks in time, and equal keys are the same week. */
  lemma WeeksInTimeOrder(d: Date, e: Date)
    ensures WeekLe(IsoWeek(d), IsoWeek(e)) <==> MondayOf(Ordinal(d)) <= MondayOf(Ordinal(e))
  {
    WeekInItsYear(d);
    WeekInItsYear(e);
    WeekOrder(IsoWeek(d), IsoWeek(e), MondayOf(Ordinal(d)), MondayOf(Ordinal(e)));
  }

  /** So a date in an earlier week is an earlier date. */
  lemma EarlierWeekEarlierDate(d: Date, e: Date)
    requires WeekLe(IsoWeek(d), IsoWeek(e)) && IsoWeek(d) != IsoWeek(e)
    ensures DateLess(d, e)
  {
    WeeksInTimeOrder(d, e);
    WeeksInTimeOrder(e, d);
    DatesInDayOrder(d, e);
    if MondayOf(Ordinal(d)) < MondayOf(Ordinal(e)) && Ordinal(e) <= Ordinal(d) {
      MondayMono(Ordinal(e), Ordinal(d));
    }
  }

  lemma MondayMono(m: int, n: int)
    requires m <= n
    ensures MondayOf(m) <= MondayOf(n)
  {
  }

  // ---------------------------------------------------------------- known days

  /** The days before a year: 365 a year, and a leap day every fourth, but not the hundredth, but the 400th. */
  lemma {:induction false} DaysBeforeYearAre(year: int)
    requires year >= 1
    ensures var y := year - 1; DaysBeforeYear(year) == 365 * y + y / 4 - y / 100 + y / 400
  {
    if year > 1 {
      DaysBeforeYearAre(year - 1);
      LeapDay(year - 1);
    }
  }

  lemma LeapDay(y: int)
    requires y >= 1
    ensures y / 4 - y / 100 + y / 400 - ((y - 1) / 4 - (y - 1) / 100 + (y - 1) / 400) == if Leap(y) then 1 else 0
  {
    Quotients(y, 4);
    Quotients(y, 100);
    Quotients(y, 400);
    CenturiesAreFours(y);
  }

  lemma CenturiesAreFours(y: int)
    ensures y % 400 == 0 ==> y % 100 == 0
    ensures y % 100 == 0 ==> y % 4 == 0
  {
    if y % 400 == 0 { FourCenturies(y, y / 400); }
    if y % 100 == 0 { OneCentury(y, y / 100); }
  }

  lemma FourCenturies(y: int, q: int)
    requires y == 400 * q
    ensures y % 100 == 0
  {
    assert y == 100 * (4 * q);
  }

  lemma OneCentury(y: int, q: int)
    requires y == 100 * q
    ensures y % 4 == 0
  {
    assert y == 4 * (25 * q);
  }

  lemma Quotients(y: int, d: int)
    requires y >= 1 && (d == 4 || d == 100 || d == 400)
    ensures y / d - (y - 1) / d == if y % d == 0 then 1 else 0
  {
  }

  /** The days of a common year before each month; one more from March on in a leap year. */
  lemma DaysBeforeMonthsAre(year: int)
    ensures var leap := if Leap(year) then 1 else 0;
            && DaysBeforeMonth(year, 1) == 0 && DaysBeforeMonth(year, 2) == 31
            && DaysBeforeMonth(year, 3) == 59 + leap && DaysBeforeMonth(year, 4) == 90 + leap
            && DaysBeforeMonth(year, 5) == 120 + leap && DaysBeforeMonth(year, 6) == 151 + leap
            && DaysBeforeMonth(year, 7) == 181 + leap && DaysBeforeMonth(year, 8) == 212 + leap
            && DaysBeforeMonth(year, 9) == 243 + leap && DaysBeforeMonth(year, 10) == 273 + leap
            && DaysBeforeMonth(year, 11) == 304 + leap && DaysBeforeMonth(year, 12) == 334 + leap
  {
    assert DaysBeforeMonth(year, 2) == 31;
    assert DaysBeforeMonth(year, 4) == DaysBeforeMonth(year, 3) + 31;
    assert DaysBeforeMonth(year, 6) == DaysBeforeMonth(year, 5) + 31;
    assert DaysBeforeMonth(year, 8) == DaysBeforeMonth(year, 7) + 31;
    assert DaysBeforeMonth(year, 10) == DaysBeforeMonth(year, 9) + 30;
    assert DaysBeforeMonth(year, 12) == DaysBeforeMonth(year, 11) + 30;
  }

  lemma OrdinalIs(d: Date)
    ensures var y, leap := d.year - 1, if Leap(d.year) then 1 else 0;
            && (d.month == 1 ==> Ordinal(d) == 365 * y + y / 4 - y / 100 + y / 400 + d.day)
            && (d.month == 12 ==> Ordinal(d) == 365 * y + y / 4 - y / 100 + y / 400 + 334 + leap + d.day)
  {
    DaysBeforeYearAre(d.year);
    DaysBeforeMonthsAre(d.year);
  }

  /** 1 January 1970 is day 719163. */
  lemma KnownDay(d: Date)
    requires d.year == 1970 && d.month == 1 && d.day == 1
    ensures Ordinal(d) == 719163
  {
    OrdinalIs(d);
  }

  /** The week of day `n` of a year, by the first Mondays of the three years it can fall in. */
  function WeekByMondays(n: int, year: int, before: int, first: int, next: int): Week {
    if n < first then Week(year - 1, (n - before) / 7 + 1)
    else if n >= next then Week(year + 1, (n - next) / 7 + 1)
    else Week(year, (n - first) / 7 + 1)
  }

  lemma WeekIs(d: Date, n: int, before: int, first: int, next: int)
    requires Ordinal(d) == n
    requires FirstMonday(d.year - 1) == before && FirstMonday(d.year) == first && FirstMonday(d.year + 1) == next
    ensures IsoWeek(d) == WeekByMondays(n, d.year, before, first, next)
  {
  }

  lemma FirstMondayAt(year: int, leaps: int, first: int)
    requires year >= 1 && leaps == (year - 1) / 4 - (year - 1) / 100 + (year - 1) / 400
    requires first == MondayOf(365 * (year - 1) + leaps + 4)
    ensures FirstMonday(year) == first
  {
    DaysBeforeYearAre(year);
  }

  /** 1 January 2026, a Thursday, begins the first week of its year. */
  lemma NewYearInFirstWeek(d: Date)
    requires d.year == 2026 && d.month == 1 && d.day == 1
    ensures IsoWeek(d) == Week(2026, 1)
  {
    OrdinalIs(d);
    FirstMondayAt(d.year - 1, 491, 739250);
    FirstMondayAt(d.year, 491, 739614);
    FirstMondayAt(d.year + 1, 491, 739985);
    WeekIs(d, 739617, 739250, 739614, 739985);
  }

  /** 3 January 2021, a Sunday, ends the last week of the year before. */
  lemma JanuaryInOldYear(d: Date)
    requires d.year == 2021 && d.month == 1 && d.day == 3
    ensures IsoWeek(d) == Week(2020, 53)
  {
    OrdinalIs(d);
    FirstMondayAt(d.year - 1, 489, 737423);
    FirstMondayAt(d.year, 490, 737794);
    FirstMondayAt(d.year + 1, 490, 738158);
    WeekIs(d, 737793, 737423, 737794, 738158);
  }

  /** 30 December 2024, a Monday, begins the first week of the year after. */
  lemma DecemberInNewYear(d: Date)
    requires d.year == 2024 && d.month == 12 && d.day == 30
    ensures IsoWeek(d) == Week(2025, 1)
  {
    OrdinalIs(d);
    FirstMondayAt(d.year - 1, 490, 738522);
    FirstMondayAt(d.year, 490, 738886);
    FirstMondayAt(d.year + 1, 491, 739250);
    WeekIs(d, 739250, 738522, 738886, 739250);
  }
}
