/** The four-year calendar of utils/time.c as a reference: every fourth year is a leap year, with
    no exception for centuries, and time is counted from the start of 1980.
  */
module CalendarSpec {
  datatype Date = Date(year: nat, month: nat, day: nat, hour: nat, minute: nat, second: nat)

  const BASE_YEAR: nat := 1980

  predicate Leap(year: nat) { year % 4 == 0 }

  function DaysIn(leap: bool, month: nat): nat {
    if month == 2 then (if leap then 29 else 28)
    else if month == 4 || month == 6 || month == 9 || month == 11 then 30
    else 31
  }

  lemma MonthLengths(month: nat)
    requires 1 <= month <= 12
    ensures DaysIn(false, month) == [31, 28, 31, 30, 31, 30, 31, 31, 30, 31, 30, 31][month - 1]
    ensures DaysIn(true, month) == DaysIn(false, month) + if month == 2 then 1 else 0
  {
  }

  function YearLength(year: nat): nat { if Leap(year) then 366 else 365 }

  predicate Real(d: Date) {
    && BASE_YEAR <= d.year && 1 <= d.month <= 12
    && 1 <= d.day <= DaysIn(Leap(d.year), d.month)
    && d.hour < 24 && d.minute < 60 && d.second < 60
  }

  // Days from the start of 1980 to the start of the year.
  function DaysBefore(year: nat): nat
    requires BASE_YEAR <= year
  {
    if year == BASE_YEAR then 0 else DaysBefore(year - 1) + YearLength(year - 1)
  }

  // The first years, and four centuries: a day every four years, with no exception.
  lemma YearStarts()
    ensures DaysBefore(1981) == 366 && DaysBefore(1982) == 731 && DaysBefore(1983) == 1096
    ensures DaysBefore(1984) == 1461 && DaysBefore(2380) == 146100
  {
    YearTabRight(100, 0);
    YearTabRight(1, 0);
  }

  // Days from the start of the year to the start of the month.
  function MonthStart(leap: bool, month: nat): nat
    requires 1 <= month
  {
    if month == 1 then 0 else MonthStart(leap, month - 1) + DaysIn(leap, month - 1)
  }

  function DayNumber(d: Date): int
    requires BASE_YEAR <= d.year && 1 <= d.month
  {
    DaysBefore(d.year) + MonthStart(Leap(d.year), d.month) + d.day - 1
  }

  // Seconds from the start of 1980.
  function SecondsOf(d: Date): int
    requires BASE_YEAR <= d.year && 1 <= d.month
  {
    ((DayNumber(d) * 24 + d.hour) * 60 + d.minute) * 60 + d.second
  }

  // Year by year, month by month and so on.
  predicate Earlier(a: Date, b: Date) {
    if a.year != b.year then a.year < b.year
    else if a.month != b.month then a.month < b.month
    else if a.day != b.day then a.day < b.day
    else if a.hour != b.hour then a.hour < b.hour
    else if a.minute != b.minute then a.minute < b.minute
    else a.second < b.second
  }

  lemma {:induction false} MonthsGrow(leap: bool, a: nat, b: nat)
    requires 1 <= a < b
    ensures MonthStart(leap, a) + DaysIn(leap, a) <= MonthStart(leap, b)
  {
    if a + 1 < b {
      MonthsGrow(leap, a, b - 1);
    }
  }

  lemma YearEnds(leap: bool)
    ensures MonthStart(leap, 13) == if leap then 366 else 365
  {
    MonthTabRight(leap, 12);
  }

  lemma {:induction false} YearsGrow(a: nat, b: nat)
    requires BASE_YEAR <= a < b
    ensures DaysBefore(a) + YearLength(a) <= DaysBefore(b)
  {
    if a + 1 < b {
      YearsGrow(a, b - 1);
    }
  }

  lemma DaysEarlier(a: Date, b: Date)
    requires Real(a) && Real(b) && (a.year, a.month, a.day) != (b.year, b.month, b.day) && Earlier(a, b)
    ensures DayNumber(a) < DayNumber(b)
  {
    var la, lb := Leap(a.year), Leap(b.year);
    if a.year < b.year {
      YearsGrow(a.year, b.year);
      MonthsGrow(la, a.month, 13);
      YearEnds(la);
    } else if a.month < b.month {
      MonthsGrow(la, a.month, b.month);
    }
  }

  // Time order is the order of the fields.
  lemma OrderAgrees(a: Date, b: Date)
    requires Real(a) && Real(b)
    ensures Earlier(a, b) <==> SecondsOf(a) < SecondsOf(b)
  {
    if Earlier(a, b) {
      EarlierSeconds(a, b);
    } else if a != b {
      EarlierSeconds(b, a);
    }
  }

  lemma EarlierSeconds(a: Date, b: Date)
    requires Real(a) && Real(b) && Earlier(a, b)
    ensures SecondsOf(a) < SecondsOf(b)
  {
    hide DayNumber;
    if (a.year, a.month, a.day) != (b.year, b.month, b.day) {
      DaysEarlier(a, b);
    } else {
      SameDay(a, b);
    }
  }

  lemma SameDay(a: Date, b: Date)
    requires Real(a) && Real(b) && (a.year, a.month, a.day) == (b.year, b.month, b.day)
    ensures DayNumber(a) == DayNumber(b)
  {
  }

  // A date is known by its seconds.
  lemma SecondsTell(a: Date, b: Date)
    requires Real(a) && Real(b) && SecondsOf(a) == SecondsOf(b)
    ensures a == b
  {
    OrderAgrees(a, b);
    OrderAgrees(b, a);
  }

  /// The program's tables

  const QUAD_YEAR: nat := 366 + 3 * 365
  const YEAR_TAB: seq<nat> := [0, 366, 366 + 365, 366 + 365 + 365, 366 + 365 + 365 + 365]
  const NORM_MONTH_TAB: seq<nat> := [0, 31, 59, 90, 120, 151, 181, 212, 243, 273, 304, 334, 365]
  const LEAP_MONTH_TAB: seq<nat> := [0, 31, 60, 91, 121, 152, 182, 213, 244, 274, 305, 335, 366]
  const DAY_OFFSET: seq<nat> := [1, 1 + 2, 1 + 2 + 1, 1 + 2 + 1 + 1]

  function MonthTab(leap: bool): seq<nat> { if leap then LEAP_MONTH_TAB else NORM_MONTH_TAB }

  lemma MonthTabRight(leap: bool, m: nat)
    requires m <= 12
    ensures MonthTab(leap)[m] == MonthStart(leap, m + 1)
    ensures m > 0 ==> MonthTab(leap)[m] - MonthTab(leap)[m - 1] == DaysIn(leap, m)
  {
    if m > 0 {
      MonthTabRight(leap, m - 1);
    }
  }

  lemma {:induction false} YearTabRight(quads: nat, i: nat)
    requires i < 4
    ensures DaysBefore(BASE_YEAR + 4 * quads + i) == QUAD_YEAR * quads + YEAR_TAB[i]
    ensures YEAR_TAB[i + 1] - YEAR_TAB[i] == YearLength(BASE_YEAR + 4 * quads + i)
  {
    var y := BASE_YEAR + 4 * quads + i;
    if i > 0 {
      YearTabRight(quads, i - 1);
      assert DaysBefore(y) == DaysBefore(y - 1) + YearLength(y - 1);
    } else if quads > 0 {
      YearTabRight(quads - 1, 3);
      assert y - 1 == BASE_YEAR + 4 * (quads - 1) + 3;
    }
  }

  // The calendar carried on to years before 1980; 495 four-year cycles reach back to the year 0.
  function DayOf(d: Date): int
    requires 1 <= d.month
  {
    DayNumber(d.(year := d.year + BASE_YEAR)) - 495 * QUAD_YEAR
  }

  function SecondsFrom(d: Date): int
    requires 1 <= d.month
  {
    ((DayOf(d) * 24 + d.hour) * 60 + d.minute) * 60 + d.second
  }

  lemma CarriedOn(d: Date)
    requires BASE_YEAR <= d.year && 1 <= d.month
    ensures DayOf(d) == DayNumber(d) && SecondsFrom(d) == SecondsOf(d)
  {
    var quads, i := (d.year - BASE_YEAR) / 4, d.year % 4;
    YearTabRight(quads, i);
    YearTabRight(quads + 495, i);
    hide DaysBefore, MonthStart;
    assert Leap(d.year + BASE_YEAR) == Leap(d.year);
  }

  function TruncDiv(a: int, b: nat): int
    requires b > 0
  {
    if a >= 0 then a / b else -(-a / b)
  }

  // The year the table arithmetic takes a year for: division truncates towards 1980.
  function ReadAs(year: nat): nat { if year >= BASE_YEAR || year % 4 == 0 then year else year + 4 }

  lemma CyclesOf(year: nat)
    ensures TruncDiv(year - BASE_YEAR, 4) == ReadAs(year) / 4 - 495
    ensures ReadAs(year) % 4 == year % 4
  {
  }

  // The tables add up to the days before a month.
  lemma TablesAddUp(d: Date)
    requires 1 <= d.month <= 13
    ensures DayOf(d.(year := ReadAs(d.year)))
         == QUAD_YEAR * TruncDiv(d.year - BASE_YEAR, 4) + d.day - 1
            + if d.year % 4 == 0 then LEAP_MONTH_TAB[d.month - 1] else YEAR_TAB[d.year % 4] + NORM_MONTH_TAB[d.month - 1]
  {
    var y := ReadAs(d.year) + BASE_YEAR;
    CyclesOf(d.year);
    hide ReadAs, TruncDiv;
    YearTabRight(ReadAs(d.year) / 4, d.year % 4);
    MonthTabRight(Leap(y), d.month - 1);
    hide DaysBefore, MonthStart;
    assert y == BASE_YEAR + 4 * (ReadAs(d.year) / 4) + d.year % 4;
  }
}
