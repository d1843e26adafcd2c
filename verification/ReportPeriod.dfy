/** The report period presets, on Moscow's civil calendar. */
module ReportPeriod {
  import opened Calendar
  import opened BusinessTime

  datatype PeriodPreset = Today | Yesterday | ThisWeek | LastWeek | ThisMonth | LastMonth

  /** Both ends are part of the period. */
  datatype Period = Period(from: int, to: int)

  /** The first instant of a day of the month, either of which may overflow. */
  function Midnight(year: int, month: int, day: int): int {
    MakeDay(year, month - 1, day) * DAY_MS - 3 * HOUR
  }

  function MoscowPresetPeriod(preset: PeriodPreset, now: int): Period {
    var d := CivilOf(Day(now));
    var today := Midnight(d.year, d.month, d.day);
    var endOfToday := today + DAY_MS - 1;
    var sunday0 := WeekDay(MakeDay(d.year, d.month - 1, d.day));
    var weekday := if sunday0 == 0 then 7 else sunday0;
    var monday := Midnight(d.year, d.month, d.day - weekday + 1);
    match preset
    case Today => Period(today, endOfToday)
    case Yesterday => Period(today - DAY_MS, today - 1)
    case ThisWeek => Period(monday, endOfToday)
    case LastWeek => Period(monday - 7 * DAY_MS, monday - 1)
    case ThisMonth => Period(Midnight(d.year, d.month, 1), endOfToday)
    case LastMonth => Period(Midnight(d.year, d.month - 1, 1), Midnight(d.year, d.month, 1) - 1)
  }

  /** The dates that a period prints as. */
  function MoscowPresetDates(preset: PeriodPreset, now: int): (Date, Date) {
    var p := MoscowPresetPeriod(preset, now);
    (CivilOf(Day(p.from)), CivilOf(Day(p.to)))
  }

  /** Two periods meet with no instant between them and none in both. */
  ghost predicate Abut(p: Period, q: Period) {
    p.to + 1 == q.from
  }

  /** The first and last civil day of a preset, without the calendar where it drops out. */
  ghost function PresetDays(preset: PeriodPreset, day: int): (int, int) {
    var d := CivilOf(day);
    var sunday := if WeekDay(day) == 0 then day else day - WeekDay(day) + 7;
    match preset
    case Today => (day, day)
    case Yesterday => (day - 1, day - 1)
    case ThisWeek => (sunday - 6, day)
    case LastWeek => (sunday - 13, sunday - 7)
    case ThisMonth => (day - d.day + 1, day)
    case LastMonth => (MakeDay(d.year, d.month - 2, 1), day - d.day)
  }

  /** Every preset runs from the midnight of its first day to the last millisecond of its last. */
  lemma PresetSpansItsDays(preset: PeriodPreset, now: int)
    ensures var (first, last) := PresetDays(preset, Day(now));
            MoscowPresetPeriod(preset, now) == Period(At(first, 0), At(last + 1, 0) - 1)
  {
    hide CivilOf, MakeDay, WeekDay, IsDate, Day, Names;
    var day := Day(now);
    var d := CivilOf(day);
    DayOfCivil(day, 0);
    DayOfCivil(day, 1 - d.day);
    DayOfCivil(day, 1 - if WeekDay(day) == 0 then 7 else WeekDay(day));
  }

  ghost predicate Contains(p: Period, t: int) {
    p.from <= t <= p.to
  }

  /** Each last_ period ends right where its this_ period starts, and every current one contains now. */
  lemma PresetsTile(now: int)
    ensures Abut(MoscowPresetPeriod(Yesterday, now), MoscowPresetPeriod(Today, now))
    ensures Abut(MoscowPresetPeriod(LastWeek, now), MoscowPresetPeriod(ThisWeek, now))
    ensures Abut(MoscowPresetPeriod(LastMonth, now), MoscowPresetPeriod(ThisMonth, now))
    ensures Contains(MoscowPresetPeriod(Today, now), now)
    ensures Contains(MoscowPresetPeriod(ThisWeek, now), now)
    ensures Contains(MoscowPresetPeriod(ThisMonth, now), now)
  {
    var day := Day(now);
    assert CivilOf(day).day >= 1;
    hide MoscowPresetPeriod, CivilOf, MakeDay, Day, WeekDay, Names;
    WithinDay(now, day);
    SundayOf(day);
    PresetSpansItsDays(Yesterday, now);
    PresetSpansItsDays(Today, now);
    PresetSpansItsDays(LastWeek, now);
    PresetSpansItsDays(ThisWeek, now);
    PresetSpansItsDays(LastMonth, now);
    PresetSpansItsDays(ThisMonth, now);
  }

  /** Every current period ends with the last millisecond of today; today and yesterday are one day long. */
  lemma CurrentPeriodsEndToday(now: int)
    ensures forall preset <- {Today, ThisWeek, ThisMonth} ::
              var p := MoscowPresetPeriod(preset, now); Day(p.to) == Day(now) && Day(p.to + 1) == Day(now) + 1
    ensures Day(MoscowPresetPeriod(Today, now).from) == Day(now)
    ensures forall preset <- {Today, Yesterday} ::
              var p := MoscowPresetPeriod(preset, now); p.to - p.from == 86400000 - 1
  {
    var day := Day(now);
    PresetSpansItsDays(Today, now);
    PresetSpansItsDays(Yesterday, now);
    PresetSpansItsDays(ThisWeek, now);
    PresetSpansItsDays(ThisMonth, now);
    InstantsOfDay(day);
    InstantsOfDay(day + 1);
    hide MoscowPresetPeriod, CivilOf, MakeDay, Day, WeekDay, Names;
  }

  /** This month starts on the first of the month that today is in. */
  lemma ThisMonthStartsOnFirst(now: int)
    ensures var d := CivilOf(Day(now));
            CivilOf(Day(MoscowPresetPeriod(ThisMonth, now).from)) == Date(d.year, d.month, 1)
  {
    hide CivilOf, MakeDay, MoscowPresetPeriod, Day, WeekDay, At, IsDate, Names;
    PresetSpansItsDays(ThisMonth, now);
    var day := Day(now);
    var d := CivilOf(day);
    InstantsOfDay(day - d.day + 1);
    FirstOfMonth(day);
  }

  lemma FirstOfMonth(day: int)
    ensures var d := CivilOf(day); CivilOf(day - d.day + 1) == Date(d.year, d.month, 1)
  {
    var d := CivilOf(day);
    hide CivilOf, MakeDay, MonthDays, Names;
    DayOfCivil(day, 1 - d.day);
    FirstIsDate(d.year, d.month);
    CivilOfDay(Date(d.year, d.month, 1));
  }

  lemma SundayOf(day: int)
    ensures var sunday := if WeekDay(day) == 0 then day else day - WeekDay(day) + 7;
            && day <= sunday < day + 7
            && WeekDay(sunday) == WeekDay(sunday - 7) == 0 && WeekDay(sunday - 6) == WeekDay(sunday - 13) == 1
  {
    var sunday := if WeekDay(day) == 0 then day else day - WeekDay(day) + 7;
    assert sunday % 7 == 3;
  }

  /** Weeks run from Monday to Sunday. */
  lemma WeeksStartOnMonday(day: int)
    ensures var (monday, today) := PresetDays(ThisWeek, day);
            WeekDay(monday) == 1 && monday <= today == day < monday + 7
    ensures var (monday, sunday) := PresetDays(LastWeek, day);
            WeekDay(monday) == 1 && WeekDay(sunday) == 0 && sunday == monday + 6
  {
    hide CivilOf, MakeDay, WeekDay, Names;
    SundayOf(day);
  }

  function PreviousMonth(d: Date): (int, int) {
    if d.month == 1 then (d.year - 1, 12) else (d.year, d.month - 1)
  }

  /** MakeDay goes back over the end of the year. */
  lemma MonthBefore(d: Date)
    requires IsDate(d)
    ensures var (year, month) := PreviousMonth(d);
            && 1 <= month <= 12
            && MakeDay(d.year, d.month - 2, 1) == MakeDay(year, month - 1, 1)
            && MakeDay(d.year, d.month - 1, 1) == MakeDay(year, month - 1, MonthDays(year, month)) + 1
            && IsDate(Date(year, month, 1)) && IsDate(Date(year, month, MonthDays(year, month)))
  {
    hide MakeDay, MonthDays;
    var (year, month) := PreviousMonth(d);
    NextMonth(year, month);
    MonthsWrap(d.year, d.month - 2, 1);
    MonthsWrap(d.year, d.month - 1, 1);
  }

  /** last_month prints as the first and the last day of the month before, whatever its length or year. */
  lemma LastMonthDates(now: int)
    ensures var (year, month) := PreviousMonth(CivilOf(Day(now)));
            && 1 <= month <= 12
            && MoscowPresetDates(LastMonth, now) == (Date(year, month, 1), Date(year, month, MonthDays(year, month)))
  {
    hide CivilOf, MakeDay, MonthDays, PresetDays, PreviousMonth, MoscowPresetPeriod, Day, At, Names;
    var day := Day(now);
    PresetSpansItsDays(LastMonth, now);
    InstantsOfDay(PresetDays(LastMonth, day).0);
    InstantsOfDay(PresetDays(LastMonth, day).1);
    LastMonthDays(day);
  }

  lemma LastMonthDays(day: int)
    ensures var (year, month) := PreviousMonth(CivilOf(day));
            && 1 <= month <= 12
            && CivilOf(PresetDays(LastMonth, day).0) == Date(year, month, 1)
            && CivilOf(PresetDays(LastMonth, day).1) == Date(year, month, MonthDays(year, month))
  {
    var d := CivilOf(day);
    hide CivilOf, MakeDay, MonthDays, IsDate, Names;
    DayOfCivil(day, 1 - d.day);
    MonthBefore(d);
    var (year, month) := PreviousMonth(d);
    CivilOfDay(Date(year, month, 1));
    CivilOfDay(Date(year, month, MonthDays(year, month)));
    assert PresetDays(LastMonth, day).0 == MakeDay(year, month - 1, 1);
    assert PresetDays(LastMonth, day).1 == MakeDay(year, month - 1, MonthDays(year, month));
  }

  lemma InstantsOfDay(day: int)
    ensures Day(At(day, 0)) == day && Day(At(day + 1, 0) - 1) == day
  {
    WithinDay(At(day, 0), day);
    WithinDay(At(day + 1, 0) - 1, day);
  }
}
