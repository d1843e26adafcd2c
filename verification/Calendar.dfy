/**
 Civil dates and the days since 1970-01-01 they stand for, in the proleptic
 Gregorian calendar of ECMA-262, section 21.4.1. A day past the end of its
 month, or a month outside the year, overflows as MakeDay lets it.
 */
module Calendar {

  datatype Date = Date(year: int, month: int, day: int)

  predicate IsLeap(year: int) {
    year % 4 == 0 && (year % 100 != 0 || year % 400 == 0)
  }

  /** The first day of a year. */
  function YearStart(year: int): int {
    365 * (year - 1970) + (year - 1969) / 4 - (year - 1901) / 100 + (year - 1601) / 400
  }

  lemma YearLength(year: int)
    ensures YearStart(year + 1) == YearStart(year) + if IsLeap(year) then 366 else 365
  {
    Multiples(year);
    assert (year - 1968) / 4 == (year - 1969) / 4 + if year % 4 == 0 then 1 else 0;
    assert (year - 1900) / 100 == (year - 1901) / 100 + if year % 100 == 0 then 1 else 0;
    assert (year - 1600) / 400 == (year - 1601) / 400 + if year % 400 == 0 then 1 else 0;
  }

  /** Years are 365 or 366 days long, by the rule of the Gregorian calendar. */
  lemma LeapYears(year: int)
    ensures YearStart(year + 1) - YearStart(year)
         == if year % 4 == 0 && (year % 100 != 0 || year % 400 == 0) then 366 else 365
  {
    YearLength(year);
    hide YearStart;
  }

  lemma Multiples(year: int)
    ensures year % 400 == 0 ==> year % 100 == 0
    ensures year % 100 == 0 ==> year % 4 == 0
  {
    if year % 400 == 0 {
      HundredTimes(4 * (year / 400));
    }
    if year % 100 == 0 {
      FourTimes(25 * (year / 100));
    }
  }

  lemma HundredTimes(k: int)
    ensures 100 * k % 100 == 0
  {
  }

  lemma FourTimes(k: int)
    ensures 4 * k % 4 == 0
  {
  }

  lemma {:induction false} YearsGrow(a: int, b: int)
    requires a <= b
    ensures YearStart(a) + (b - a) <= YearStart(b)
    decreases b - a
  {
    if a < b {
      YearLength(b - 1);
      YearsGrow(a, b - 1);
    }
  }

  /** The days of a year before month m, counting months from 0. */
  function MonthStart(m: nat, leap: bool): nat
    requires m <= 12
  {
    var shift := if leap then 1 else 0;
    match m
    case 0 => 0
    case 1 => 31
    case 2 => 59 + shift
    case 3 => 90 + shift
    case 4 => 120 + shift
    case 5 => 151 + shift
    case 6 => 181 + shift
    case 7 => 212 + shift
    case 8 => 243 + shift
    case 9 => 273 + shift
    case 10 => 304 + shift
    case 11 => 334 + shift
    case _ => 365 + shift
  }

  /** The year a day lies in, by search from the epoch. */
  function YearFrom(day: int, year: int): (y: int)
    ensures YearStart(y) <= day < YearStart(y + 1)
    decreases day < YearStart(year), if day < YearStart(year) then YearStart(year) - day else day - YearStart(year)
  {
    YearLength(year);
    YearLength(year - 1);
    if day < YearStart(year) then YearFrom(day, year - 1)
    else if day >= YearStart(year + 1) then YearFrom(day, year + 1)
    else year
  }

  function MonthFrom(dayOfYear: nat, leap: bool, m: nat): (r: nat)
    requires m <= 11 && dayOfYear < MonthStart(m + 1, leap)
    ensures r <= m && MonthStart(r, leap) <= dayOfYear < MonthStart(r + 1, leap)
  {
    if MonthStart(m, leap) <= dayOfYear then m else MonthFrom(dayOfYear, leap, m - 1)
  }

  /** A date names a day: the day is in that year, in that month of it, at that place. */
  ghost predicate Names(d: Date, day: int) {
    && 1 <= d.month <= 12
    && var leap := IsLeap(d.year);
       && YearStart(d.year) <= day < YearStart(d.year + 1)
       && MonthStart(d.month - 1, leap) <= day - YearStart(d.year) < MonthStart(d.month, leap)
       && d.day == day - YearStart(d.year) - MonthStart(d.month - 1, leap) + 1
  }

  lemma NamesParts(day: int, year: int, month: nat)
    requires month <= 11 && YearStart(year) <= day < YearStart(year + 1)
    requires MonthStart(month, IsLeap(year)) <= day - YearStart(year) < MonthStart(month + 1, IsLeap(year))
    ensures Names(Date(year, month + 1, day - YearStart(year) - MonthStart(month, IsLeap(year)) + 1), day)
  {
    hide YearStart, MonthStart, IsLeap;
  }

  /** The civil date of a day. */
  function CivilOf(day: int): (date: Date)
    ensures Names(date, day)
  {
    var year := YearFrom(day, 1970);
    YearLength(year);
    var leap := IsLeap(year);
    assert MonthStart(12, leap) == if leap then 366 else 365;
    var month := MonthFrom(day - YearStart(year), leap, 11);
    NamesParts(day, year, month);
    Date(year, month + 1, day - YearStart(year) - MonthStart(month, leap) + 1)
  }

  function MonthDays(year: int, month: int): int
    requires 1 <= month <= 12
  {
    MonthStart(month, IsLeap(year)) - MonthStart(month - 1, IsLeap(year))
  }

  /** How long the months are. */
  lemma MonthDaysAre(year: int, month: int)
    requires 1 <= month <= 12
    ensures MonthDays(year, month)
         == if month in {4, 6, 9, 11} then 30
            else if month != 2 then 31
            else if year % 4 == 0 && (year % 100 != 0 || year % 400 == 0) then 29
            else 28
  {
  }

  predicate IsDate(d: Date) {
    1 <= d.month <= 12 && 1 <= d.day <= MonthDays(d.year, d.month)
  }

  /** MakeDay, section 21.4.1.28: months count from 0 and may lie outside the year, days may be any. */
  function MakeDay(year: int, month: int, day: int): int {
    var y := year + month / 12;
    YearStart(y) + MonthStart(month % 12, IsLeap(y)) + day - 1
  }

  /** Every valid date names the day it makes. */
  lemma DateNamesItsDay(d: Date)
    requires IsDate(d)
    ensures Names(d, MakeDay(d.year, d.month - 1, d.day))
  {
    var leap := IsLeap(d.year);
    hide MakeDay, YearStart, MonthStart, IsLeap;
    MonthLength(12, leap);
    MakesInYear(d.year, d.month - 1, d.day);
    YearLength(d.year);
    MonthsGrow(d.month, 12, leap);
  }

  /** No day has two names. */
  lemma OneName(d: Date, e: Date, day: int)
    requires Names(d, day) && Names(e, day)
    ensures d == e
  {
    hide YearStart, MonthStart, IsLeap;
    SameYear(d.year, e.year, day);
    SameMonth(d.month - 1, e.month - 1, IsLeap(d.year), day - YearStart(d.year));
  }

  /** A day is found again from its civil date, however many days are added to it. */
  lemma DayOfCivil(day: int, offset: int)
    ensures var d := CivilOf(day); IsDate(d) && MakeDay(d.year, d.month - 1, d.day + offset) == day + offset
  {
    var d := CivilOf(day);
    hide CivilOf, YearStart, MonthStart, IsLeap;
    assert (d.month - 1) / 12 == 0 && (d.month - 1) % 12 == d.month - 1;
  }

  /** A valid date is the civil date of its day. */
  lemma CivilOfDay(d: Date)
    requires IsDate(d)
    ensures CivilOf(MakeDay(d.year, d.month - 1, d.day)) == d
  {
    hide *;
    var day := MakeDay(d.year, d.month - 1, d.day);
    DateNamesItsDay(d);
    OneName(d, CivilOf(day), day);
  }

  /** Months outside the year count on from it. */
  lemma MonthsWrap(year: int, month: int, day: int)
    ensures MakeDay(year, month, day) == MakeDay(year - 1, month + 12, day)
  {
    assert (month + 12) / 12 == month / 12 + 1 && (month + 12) % 12 == month % 12;
  }

  lemma MakesInYear(year: int, month: int, day: int)
    requires 0 <= month < 12
    ensures MakeDay(year, month, day) == YearStart(year) + MonthStart(month, IsLeap(year)) + day - 1
  {
    hide YearStart, MonthStart, IsLeap;
    assert month / 12 == 0 && month % 12 == month;
  }

  lemma MonthLength(month: int, leap: bool)
    requires 1 <= month <= 12
    ensures MonthStart(month, leap) - MonthStart(month - 1, leap) >= 28
    ensures MonthStart(0, leap) == 0 && MonthStart(12, leap) == if leap then 366 else 365
  {
  }

  /** The day after the last one of a month is the first of the next, across the end of the year too. */
  lemma NextMonth(year: int, month: int)
    requires 1 <= month <= 12
    ensures MakeDay(year, month, 1) == MakeDay(year, month - 1, MonthDays(year, month)) + 1
    ensures MonthDays(year, month) >= 28
  {
    hide MakeDay, YearStart, MonthStart, IsLeap;
    MonthLength(month, IsLeap(year));
    MakesInYear(year, month - 1, MonthDays(year, month));
    if month < 12 {
      MakesInYear(year, month, 1);
    } else {
      YearLength(year);
      MonthsWrap(year + 1, 0, 1);
      MakesInYear(year + 1, 0, 1);
      MonthLength(1, IsLeap(year + 1));
    }
  }

  lemma SameYear(a: int, b: int, day: int)
    requires YearStart(a) <= day < YearStart(a + 1) && YearStart(b) <= day < YearStart(b + 1)
    ensures a == b
  {
    if a < b {
      YearsGrow(a + 1, b);
    } else if b < a {
      YearsGrow(b + 1, a);
    }
  }

  lemma {:induction false} MonthsGrow(a: nat, b: nat, leap: bool)
    requires a <= b <= 12
    ensures MonthStart(a, leap) <= MonthStart(b, leap)
  {
    if a < b {
      MonthsGrow(a, b - 1, leap);
    }
  }

  lemma SameMonth(a: nat, b: nat, leap: bool, day: int)
    requires a <= 11 && b <= 11
    requires MonthStart(a, leap) <= day < MonthStart(a + 1, leap)
    requires MonthStart(b, leap) <= day < MonthStart(b + 1, leap)
    ensures a == b
  {
    if a < b {
      MonthsGrow(a + 1, b, leap);
    } else if b < a {
      MonthsGrow(b + 1, a, leap);
    }
  }

  /** 0 is Sunday. */
  function WeekDay(day: int): int {
    (day + 4) % 7
  }

  lemma EpochYear()
    ensures YearStart(1970) == 0
  {
  }

  lemma EpochWeekDay()
    ensures WeekDay(0) == 4
  {
  }

  /** Days count from 1970-01-01, a Thursday. */
  lemma Epoch()
    ensures MakeDay(1970, 0, 1) == 0 && CivilOf(0) == Date(1970, 1, 1) && WeekDay(0) == 4
  {
    hide *;
    EpochYear();
    EpochWeekDay();
    MakesInYear(1970, 0, 1);
    MonthLength(1, IsLeap(1970));
    FirstIsDate(1970, 1);
    CivilOfDay(Date(1970, 1, 1));
  }

  lemma FirstIsDate(year: int, month: int)
    requires 1 <= month <= 12
    ensures IsDate(Date(year, month, 1))
  {
    hide MonthStart, IsLeap;
    MonthLength(month, IsLeap(year));
  }

  /** Week days go round. */
  lemma WeekDaysGoRound(day: int)
    ensures 0 <= WeekDay(day) <= 6 && WeekDay(day + 1) == if WeekDay(day) == 6 then 0 else WeekDay(day) + 1
  {
  }
}
