/**
 Moscow working time: Monday to Friday, 10:00 to 19:00, at the fixed offset
 UTC+3. Instants are milliseconds since the epoch.
 */
module BusinessTime {
  import opened Base
  import opened Calendar

  const HOUR: int := 3600000
  const DAY_MS: int := 86400000
  const MOSCOW_WORKDAY_START_HOUR: int := 10
  const MOSCOW_WORKDAY_END_HOUR: int := 19

  /** The civil day of an instant in Moscow, and the milliseconds since its midnight. */
  function Day(t: int): int {
    (t + 3 * HOUR) / DAY_MS
  }

  function TimeOfDay(t: int): int {
    (t + 3 * HOUR) % DAY_MS
  }

  /** Business time, millisecond by millisecond. */
  predicate Workday(day: int) {
    1 <= WeekDay(day) <= 5
  }

  predicate Business(t: int) {
    Workday(Day(t)) && 10 * HOUR <= TimeOfDay(t) < 19 * HOUR
  }

  /** How many milliseconds of [a, b) are business time. */
  function Count(a: int, b: int): nat
    decreases b - a
  {
    if b <= a then 0 else Count(a, b - 1) + if Business(b - 1) then 1 else 0
  }

  // ----- the count itself -----

  lemma {:induction false} Additive(a: int, b: int, c: int)
    requires a <= b <= c
    ensures Count(a, b) + Count(b, c) == Count(a, c)
    decreases c - b
  {
    if b < c {
      Additive(a, b, c - 1);
    }
  }

  lemma {:induction false} CountNone(a: int, b: int)
    requires forall t :: a <= t < b ==> !Business(t)
    ensures Count(a, b) == 0
    decreases b - a
  {
    if a < b {
      CountNone(a, b - 1);
    }
  }

  lemma {:induction false} CountAll(a: int, b: int)
    requires a <= b && forall t :: a <= t < b ==> Business(t)
    ensures Count(a, b) == b - a
    decreases b - a
  {
    if a < b {
      CountAll(a, b - 1);
    }
  }

  lemma Monotone(a: int, b: int, b': int)
    requires b <= b'
    ensures Count(a, b) <= Count(a, b')
  {
    if a <= b {
      Additive(a, b, b');
    }
  }

  // ----- instants of a day -----

  /** An hour of a Moscow day as an instant. */
  function At(day: int, hour: int): int {
    day * DAY_MS + (hour - 3) * HOUR
  }

  lemma WithinDay(t: int, day: int)
    ensures Day(t) == day <==> At(day, 0) <= t < At(day + 1, 0)
    ensures Day(t) == day ==> t == At(day, 0) + TimeOfDay(t)
  {
  }

  lemma AtHour(day: int, hour: int)
    ensures At(day, hour) == At(day, 0) + hour * HOUR && At(day + 1, 0) == At(day, 24)
    ensures 0 <= hour < 24 ==> Day(At(day, hour)) == day && TimeOfDay(At(day, hour)) == hour * HOUR
  {
  }

  /** The business time of one day, as an interval. */
  lemma BusinessHours(t: int, day: int)
    requires Day(t) == day
    ensures Business(t) <==> Workday(day) && At(day, 10) <= t < At(day, 19)
  {
    WithinDay(t, day);
    AtHour(day, 10);
    AtHour(day, 19);
  }

  lemma DaysInOrder(t: int, u: int)
    requires t <= u
    ensures Day(t) <= Day(u)
  {
  }

  // ----- parts of an instant -----

  datatype Parts = Parts(year: int, month: int, day: int, hour: int, minute: int, dayOfWeek: int)

  function MoscowPartsFromMs(value: int): Parts {
    var date := CivilOf(Day(value));
    Parts(date.year, date.month, date.day, TimeOfDay(value) / HOUR, TimeOfDay(value) / 60000 % 60,
          WeekDay(MakeDay(date.year, date.month - 1, date.day)))
  }

  function MoscowDateMs(year: int, month: int, day: int, hour: int): int {
    MakeDay(year, month - 1, day) * DAY_MS + (hour - 3) * HOUR
  }

  predicate IsMoscowBusinessDay(parts: Parts) {
    1 <= parts.dayOfWeek <= 5
  }

  /** Parts and back: the calendar drops out, whatever month or year the day overflows into. */
  lemma PartsMean(value: int, offset: int, hour: int)
    ensures var parts := MoscowPartsFromMs(value);
            && (IsMoscowBusinessDay(parts) <==> Workday(Day(value)))
            && parts.hour * 60 + parts.minute == TimeOfDay(value) / 60000
            && MoscowDateMs(parts.year, parts.month, parts.day + offset, hour) == At(Day(value) + offset, hour)
  {
    DayOfCivil(Day(value), 0);
    DayOfCivil(Day(value), offset);
    hide CivilOf, MakeDay, WeekDay, Names;
    assert TimeOfDay(value) / 60000 == TimeOfDay(value) / HOUR * 60 + TimeOfDay(value) / 60000 % 60;
  }

  /** An instant is business time exactly when Moscow's clock shows 10 to 18 hours on a Monday to Friday. */
  lemma BusinessIff(t: int)
    ensures var parts := MoscowPartsFromMs(t);
            Business(t) <==> 1 <= parts.dayOfWeek <= 5 && 10 <= parts.hour <= 18
  {
    PartsMean(t, 0, 0);
    hide CivilOf, MakeDay, WeekDay, Workday, Day, Names;
  }

  lemma FirstHours(t: int)
    requires 0 <= t < 20 * 3600000
    ensures Day(t) == 0 && TimeOfDay(t) == t + 3 * HOUR
  {
  }

  /** On 1970-01-01, a Thursday, business time was from 7 to 16 hours UTC. */
  lemma FirstDay(t: int)
    requires 0 <= t < 20 * 3600000
    ensures Business(t) <==> 7 * 3600000 <= t < 16 * 3600000
  {
    hide Day, TimeOfDay, WeekDay;
    FirstHours(t);
    EpochWeekDay();
  }

  /** Nothing between an instant and the morning of a later workday is business time, if its own day is over. */
  lemma Quiet(value: int, start: int, offset: int, t: int)
    requires start == At(Day(value) + offset, 10) && offset >= 1 && value <= t < start
    requires !Workday(Day(value)) || TimeOfDay(value) >= 19 * HOUR
    requires forall d :: Day(value) < d < Day(value) + offset ==> !Workday(d)
    ensures !Business(t)
  {
    var day, last := Day(t), Day(value) + offset;
    DaysInOrder(value, t);
    DaysInOrder(t, start);
    AtHour(last, 10);
    BusinessHours(t, day);
    WithinDay(value, Day(value));
    AtHour(Day(value), 19);
  }

  /** The least business instant at or after the given one. */
  method NextMoscowBusinessStartMs(value: int) returns (r: int)
    ensures value <= r && Business(r)
    ensures forall t :: value <= t < r ==> !Business(t)
  {
    hide CivilOf, MakeDay, WeekDay, MoscowPartsFromMs, MoscowDateMs, Day, TimeOfDay, At, Workday, Names;
    var parts := MoscowPartsFromMs(value);
    var minutes := parts.hour * 60 + parts.minute;
    ghost var day := Day(value);
    PartsMean(value, 0, MOSCOW_WORKDAY_START_HOUR);
    AtHour(day, 10);
    WithinDay(value, day);
    if IsMoscowBusinessDay(parts) && minutes < MOSCOW_WORKDAY_START_HOUR * 60 {
      r := MoscowDateMs(parts.year, parts.month, parts.day, MOSCOW_WORKDAY_START_HOUR);
      BeforeWork(value, r);
      return;
    }
    if IsMoscowBusinessDay(parts) && minutes < MOSCOW_WORKDAY_END_HOUR * 60 {
      return value;
    }
    for offset := 1 to 8
      invariant forall d :: day < d < day + offset ==> !Workday(d)
    {
      PartsMean(value, offset, 12);
      var candidate := MoscowPartsFromMs(MoscowDateMs(parts.year, parts.month, parts.day + offset, 12));
      AtHour(day + offset, 12);
      PartsMean(At(day + offset, 12), 0, MOSCOW_WORKDAY_START_HOUR);
      if IsMoscowBusinessDay(candidate) {
        r := MoscowDateMs(candidate.year, candidate.month, candidate.day, MOSCOW_WORKDAY_START_HOUR);
        NextWorkday(value, r, offset);
        return;
      }
    }
    AWorkdayAWeek(day);
    r := MoscowDateMs(parts.year, parts.month, parts.day + 1, MOSCOW_WORKDAY_START_HOUR);
  }

  lemma BeforeWork(value: int, r: int)
    requires r == At(Day(value), 10) && Workday(Day(value)) && TimeOfDay(value) < 10 * HOUR
    ensures value <= r && Business(r) && forall t :: value <= t < r ==> !Business(t)
  {
    var day := Day(value);
    WithinDay(value, day);
    AtHour(day, 10);
    forall t | value <= t < r
      ensures !Business(t)
    {
      WithinDay(t, day);
      AtHour(day, 24);
      BusinessHours(t, day);
    }
  }

  lemma NextWorkday(value: int, r: int, offset: int)
    requires r == At(Day(value) + offset, 10) && offset >= 1 && Workday(Day(value) + offset)
    requires !Workday(Day(value)) || TimeOfDay(value) >= 19 * HOUR
    requires forall d :: Day(value) < d < Day(value) + offset ==> !Workday(d)
    ensures value <= r && Business(r) && forall t :: value <= t < r ==> !Business(t)
  {
    AtHour(Day(value) + offset, 10);
    if r < value {
      DaysInOrder(r, value);
    }
    forall t | value <= t < r
      ensures !Business(t)
    {
      Quiet(value, r, offset, t);
    }
  }

  lemma AWorkdayAWeek(day: int)
    ensures exists d :: day < d < day + 8 && Workday(d)
  {
    var d := day + 1 + (10 - day % 7) % 7;
    assert d % 7 == 4;
    assert Workday(d);
  }

  /**
   The skipping loop counts exactly the business milliseconds of [start, end);
   moscowBusinessElapsedSeconds divides that total by 1000 when it returns.
   */
  method MoscowBusinessElapsedMs(startMs: int, endMs: int) returns (total: int)
    ensures total == Count(startMs, endMs)
  {
    hide CivilOf, MakeDay, WeekDay, MoscowPartsFromMs, MoscowDateMs, Day, TimeOfDay, At, Business, Names;
    if endMs <= startMs {
      return 0;
    }
    var cursor := startMs;
    total := 0;
    while cursor < endMs
      invariant startMs <= cursor && total == Count(startMs, Min(cursor, endMs))
      decreases endMs - cursor
    {
      var workStart := NextMoscowBusinessStartMs(cursor);
      if workStart >= endMs {
        CountNone(cursor, endMs);
        Additive(startMs, cursor, endMs);
        break;
      }
      var parts := MoscowPartsFromMs(workStart);
      var workEnd := MoscowDateMs(parts.year, parts.month, parts.day, MOSCOW_WORKDAY_END_HOUR);
      PartsMean(workStart, 0, MOSCOW_WORKDAY_END_HOUR);
      var chunkEnd := Min(workEnd, endMs);
      Chunk(startMs, cursor, workStart, workEnd, endMs);
      total := total + Max(0, chunkEnd - workStart);
      cursor := workEnd + 1;
    }
  }

  /** One working day, or what of it lies before the end. */
  lemma Chunk(start: int, cursor: int, workStart: int, workEnd: int, end: int)
    requires start <= cursor <= workStart < end && Business(workStart) && workEnd == At(Day(workStart), 19)
    requires forall t :: cursor <= t < workStart ==> !Business(t)
    ensures workStart < workEnd
    ensures Count(start, Min(workEnd + 1, end)) == Count(start, cursor) + Min(workEnd, end) - workStart
  {
    var day, chunkEnd := Day(workStart), Min(workEnd, end);
    BusinessHours(workStart, day);
    WithinDay(workStart, day);
    AtHour(day, 19);
    AtHour(day, 24);
    forall t | workStart <= t < chunkEnd
      ensures Business(t)
    {
      WithinDay(t, day);
      BusinessHours(t, day);
    }
    CountNone(cursor, workStart);
    CountAll(workStart, chunkEnd);
    Additive(start, cursor, workStart);
    Additive(start, workStart, chunkEnd);
    assert !Business(workEnd);
  }

  // ----- weeks -----

  lemma OneDay(day: int)
    ensures Count(At(day, 0), At(day + 1, 0)) == if Workday(day) then 9 * HOUR else 0
  {
    var midnight, start, end, next := At(day, 0), At(day, 10), At(day, 19), At(day + 1, 0);
    AtHour(day, 10);
    AtHour(day, 19);
    forall t | midnight <= t < next
      ensures Business(t) <==> Workday(day) && start <= t < end
    {
      WithinDay(t, day);
      BusinessHours(t, day);
    }
    CountNone(midnight, start);
    CountNone(end, next);
    if Workday(day) {
      CountAll(start, end);
    } else {
      CountNone(start, end);
    }
    Additive(midnight, start, end);
    Additive(midnight, end, next);
  }

  const WEEK_MS: int := 7 * DAY_MS

  lemma {:induction false} SameNextWeek(a: int, b: int)
    ensures Count(a + WEEK_MS, b + WEEK_MS) == Count(a, b)
    decreases b - a
  {
    if a < b {
      SameNextWeek(a, b - 1);
      assert Day(b - 1 + WEEK_MS) == Day(b - 1) + 7 && TimeOfDay(b - 1 + WEEK_MS) == TimeOfDay(b - 1);
      assert WeekDay(Day(b - 1) + 7) == WeekDay(Day(b - 1));
      assert b + WEEK_MS - 1 == b - 1 + WEEK_MS;
    }
  }

  lemma {:induction false} DaysOfWeek(n: nat)
    requires n <= 7
    ensures Count(At(4, 0), At(4 + n, 0)) == Min(n, 5) * 9 * HOUR
  {
    if n > 0 {
      var day := 3 + n;
      assert Workday(day) <==> n <= 5;
      assert At(4, 0) <= At(day, 0) <= At(day + 1, 0);
      hide At, Workday, Business;
      DaysOfWeek(n - 1);
      OneDay(day);
      Additive(At(4, 0), At(day, 0), At(day + 1, 0));
    }
  }

  /** Any seven days in a row hold 45 working hours. */
  lemma AnyWeek(t: int)
    ensures Count(t, t + WEEK_MS) == 45 * HOUR
  {
    var monday := At(4, 0);
    DaysOfWeek(7);
    assert At(11, 0) == monday + WEEK_MS;
    if t >= monday {
      SameNextWeek(monday, t);
      Additive(monday, t, t + WEEK_MS);
      Additive(monday, monday + WEEK_MS, t + WEEK_MS);
    } else {
      SameNextWeek(t, monday);
      Additive(t, monday, monday + WEEK_MS);
      Additive(t, t + WEEK_MS, monday + WEEK_MS);
    }
  }
}
