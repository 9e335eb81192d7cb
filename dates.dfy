/** Local calendar dates with the arithmetic of ECMAScript's Date objects
    (ECMA-262, section 21.4), without time zones: a date is a record of year,
    month (0-11), day, hour, minute, second and millisecond, and its time value
    is the number of milliseconds since 1970-01-01 00:00 on the proleptic
    Gregorian calendar. */
module Dates {

  const MsPerSecond := 1000
  const MsPerMinute := 60000
  const MsPerHour := 3600000
  const MsPerDay := 86400000

  predicate IsLeapYear(y: int) {
    (y % 4 == 0 && y % 100 != 0) || y % 400 == 0
  }

  function YearLength(y: int): (n: int)
    ensures n == 365 || n == 366
  {
    if IsLeapYear(y) then 366 else 365
  }

  /** Number of days of month `m` (0 = January) of year `y`. */
  function DaysInMonth(y: int, m: int): (n: int)
    requires 0 <= m < 12
    ensures 28 <= n <= 31
    ensures n == 29 <==> m == 1 && IsLeapYear(y)
    ensures n == 28 <==> m == 1 && !IsLeapYear(y)
  {
    if m == 1 then (if IsLeapYear(y) then 29 else 28)
    else if m == 3 || m == 5 || m == 8 || m == 10 then 30
    else 31
  }

  /** Days of year `y` that precede the first of month `m`. */
  function DaysBeforeMonth(y: int, m: int): int
    requires 0 <= m < 12
  {
    var common :=
      if m == 0 then 0 else if m == 1 then 31 else if m == 2 then 59
      else if m == 3 then 90 else if m == 4 then 120 else if m == 5 then 151
      else if m == 6 then 181 else if m == 7 then 212 else if m == 8 then 243
      else if m == 9 then 273 else if m == 10 then 304 else 334;
    if m >= 2 && IsLeapYear(y) then common + 1 else common
  }

  /** Leap years in (0, y], extended to all integers with floor division. */
  function LeapYearsThrough(y: int): int {
    y / 4 - y / 100 + y / 400
  }

  /** Days from 1970-01-01 to January 1st of year `y` (negative before 1970). */
  function DaysBeforeYear(y: int): int {
    365 * (y - 1970) + LeapYearsThrough(y - 1) - LeapYearsThrough(1969)
  }

  /** Days from 1970-01-01 to the given calendar day; `d` may lie outside the month. */
  function DayNumber(y: int, m: int, d: int): int
    requires 0 <= m < 12
  {
    DaysBeforeYear(y) + DaysBeforeMonth(y, m) + d - 1
  }

  /** Day number of the first of month `m` of year `y`, where `m` may lie
      outside 0..11 and then rolls over into neighbouring years (MakeDay). */
  function MonthStart(y: int, m: int): int {
    DayNumber(y + m / 12, m % 12, 1)
  }

  predicate ValidDate(y: int, m: int, d: int) {
    0 <= m < 12 && 1 <= d <= DaysInMonth(y, m)
  }

  datatype DateTime = DateTime(year: int, month: int, day: int,
                               hour: int, minute: int, second: int, ms: int)

  predicate Valid(dt: DateTime) {
    && ValidDate(dt.year, dt.month, dt.day)
    && 0 <= dt.hour < 24 && 0 <= dt.minute < 60
    && 0 <= dt.second < 60 && 0 <= dt.ms < 1000
  }

  /** A date as a Date object holds it: every component within its range. */
  type LocalDate = dt: DateTime | Valid(dt) witness DateTime(1970, 0, 1, 0, 0, 0, 0)

  /** A JavaScript Date value: a real date, or `Invalid Date` (time value NaN). */
  datatype JsDate = At(date: LocalDate) | InvalidDate

  datatype Ymd = Ymd(year: int, month: int, day: int)

  function TimeOfDay(h: int, mi: int, s: int, ms: int): int {
    h * MsPerHour + mi * MsPerMinute + s * MsPerSecond + ms
  }

  /** Milliseconds since 1970-01-01 00:00 (getTime, zone-free). */
  function TimeValue(dt: LocalDate): int {
    DayNumber(dt.year, dt.month, dt.day) * MsPerDay
      + TimeOfDay(dt.hour, dt.minute, dt.second, dt.ms)
  }

  /** Day of the week, 0 = Sunday .. 6 = Saturday (getDay); 1970-01-01 was a Thursday. */
  function Weekday(dt: LocalDate): (w: int)
    ensures 0 <= w < 7
  {
    (DayNumber(dt.year, dt.month, dt.day) + 4) % 7
  }

  /** Weekdays run on across a month end: the first of the next month is
      one day of the week after the last day of this one. */
  lemma WeekdayAcrossMonthEnd(dt: LocalDate)
    requires dt.day == DaysInMonth(dt.year, dt.month)
    ensures var n := NextMonth(dt.year, dt.month);
            Weekday(DateTime(n.year, n.month, 1, 0, 0, 0, 0)) == (Weekday(dt) + 1) % 7
  {
    var n := NextMonth(dt.year, dt.month);
    NextMonthStart(dt.year, dt.month);
    var a := DayNumber(dt.year, dt.month, dt.day) + 4;
    assert DayNumber(n.year, n.month, 1) + 4 == a + 1;
    NextWeekday(a);
  }

  lemma NextWeekday(a: int)
    ensures (a + 1) % 7 == (a % 7 + 1) % 7
  {
    var q, r := a / 7, a % 7;
    if r == 6 {
      assert a + 1 == 7 * (q + 1);
    } else {
      assert a + 1 == 7 * q + (r + 1);
    }
  }

  /** The anchor agrees with the calendar: 1 January 2024 was a Monday and
      29 February 2024 a Thursday. */
  lemma WeekdayAnchors()
    ensures Weekday(DateTime(2024, 0, 1, 0, 0, 0, 0)) == 1
    ensures Weekday(DateTime(2024, 1, 29, 0, 0, 0, 0)) == 4
  {
    assert DaysBeforeYear(2024) == 19723;
  }

  lemma QuarterStep(y: int)
    ensures y / 4 - (y - 1) / 4 == if y % 4 == 0 then 1 else 0
  {
  }

  lemma CenturyStep(y: int)
    ensures y / 100 - (y - 1) / 100 == if y % 100 == 0 then 1 else 0
  {
  }

  lemma FourCenturyStep(y: int)
    ensures y / 400 - (y - 1) / 400 == if y % 400 == 0 then 1 else 0
  {
  }

  lemma YearStep(y: int)
    ensures DaysBeforeYear(y + 1) == DaysBeforeYear(y) + YearLength(y)
  {
    QuarterStep(y);
    CenturyStep(y);
    FourCenturyStep(y);
    assert LeapYearsThrough(y) - LeapYearsThrough(y - 1)
        == (if y % 4 == 0 then 1 else 0) - (if y % 100 == 0 then 1 else 0) + (if y % 400 == 0 then 1 else 0);
  }

  function NextMonth(y: int, m: int): (r: Ymd)
    requires 0 <= m < 12
    ensures 0 <= r.month < 12
  {
    if m == 11 then Ymd(y + 1, 0, 1) else Ymd(y, m + 1, 1)
  }

  function PrevMonth(y: int, m: int): (r: Ymd)
    requires 0 <= m < 12
    ensures 0 <= r.month < 12
  {
    if m == 0 then Ymd(y - 1, 11, 1) else Ymd(y, m - 1, 1)
  }

  /** Moving from month `m` to the next month advances the day number by the
      length of month `m`, including across the December/January boundary. */
  lemma NextMonthStart(y: int, m: int)
    requires 0 <= m < 12
    ensures var n := NextMonth(y, m);
            DayNumber(n.year, n.month, 1) == DayNumber(y, m, 1) + DaysInMonth(y, m)
  {
    if m == 11 {
      YearStep(y);
    }
  }

  lemma PrevMonthStart(y: int, m: int)
    requires 0 <= m < 12
    ensures var p := PrevMonth(y, m);
            DayNumber(y, m, 1) == DayNumber(p.year, p.month, 1) + DaysInMonth(p.year, p.month)
  {
    var p := PrevMonth(y, m);
    NextMonthStart(p.year, p.month);
  }

  /** Day normalisation within the calendar: the valid date `d - 1` days after
      the first of month `m` (so day 0 is the last day of the previous month). */
  function NormalizeInMonth(y: int, m: int, d: int): (r: Ymd)
    requires 0 <= m < 12
    ensures ValidDate(r.year, r.month, r.day)
    decreases if d < 1 then 1 else 0, if d < 1 then 1 - d else d
  {
    if d < 1 then
      var p := PrevMonth(y, m);
      NormalizeInMonth(p.year, p.month, d + DaysInMonth(p.year, p.month))
    else if d > DaysInMonth(y, m) then
      var n := NextMonth(y, m);
      NormalizeInMonth(n.year, n.month, d - DaysInMonth(y, m))
    else
      Ymd(y, m, d)
  }

  /** The normalised date lies exactly `d - 1` days after the first of month `m`. */
  lemma {:induction false} NormalizeInMonthDayNumber(y: int, m: int, d: int)
    requires 0 <= m < 12
    ensures var r := NormalizeInMonth(y, m, d);
            DayNumber(r.year, r.month, r.day) == DayNumber(y, m, 1) + d - 1
    decreases if d < 1 then 1 else 0, if d < 1 then 1 - d else d
  {
    if d < 1 {
      var p := PrevMonth(y, m);
      PrevMonthStart(y, m);
      NormalizeInMonthDayNumber(p.year, p.month, d + DaysInMonth(p.year, p.month));
    } else if d > DaysInMonth(y, m) {
      var n := NextMonth(y, m);
      NextMonthStart(y, m);
      NormalizeInMonthDayNumber(n.year, n.month, d - DaysInMonth(y, m));
    }
  }

  /** The normalisation MakeDay performs: month `m` may lie outside 0..11 and
      rolls over into neighbouring years, then the day rolls over months. */
  function NormalizeDay(y: int, m: int, d: int): (r: Ymd)
    ensures ValidDate(r.year, r.month, r.day)
  {
    NormalizeInMonth(y + m / 12, m % 12, d)
  }

  lemma NormalizeDayNumber(y: int, m: int, d: int)
    ensures var r := NormalizeDay(y, m, d);
            DayNumber(r.year, r.month, r.day) == MonthStart(y, m) + d - 1
  {
    NormalizeInMonthDayNumber(y + m / 12, m % 12, d);
  }

  /** The clock reading of `rest` milliseconds after midnight. */
  function Clock(rest: int): (r: DateTime)
    requires 0 <= rest < MsPerDay
    ensures 0 <= r.hour < 24 && 0 <= r.minute < 60 && 0 <= r.second < 60 && 0 <= r.ms < 1000
    ensures TimeOfDay(r.hour, r.minute, r.second, r.ms) == rest
  {
    var inHour := rest % MsPerHour;
    var inMinute := inHour % MsPerMinute;
    DateTime(0, 0, 1, rest / MsPerHour, inHour / MsPerMinute, inMinute / MsPerSecond, inMinute % MsPerSecond)
  }

  /** ECMAScript's MakeDate(MakeDay(y, m, d), MakeTime(h, mi, s, ms)) followed
      by the decomposition into local components: every field may overflow. */
  function MakeDateTime(y: int, m: int, d: int, h: int, mi: int, s: int, ms: int): (r: LocalDate)
    ensures TimeValue(r) == (MonthStart(y, m) + d - 1) * MsPerDay + TimeOfDay(h, mi, s, ms)
  {
    var t := TimeOfDay(h, mi, s, ms);
    var carry, rest := t / MsPerDay, t % MsPerDay;
    assert t == carry * MsPerDay + rest;
    var date := NormalizeDay(y, m, d + carry);
    NormalizeDayNumber(y, m, d + carry);
    var c := Clock(rest);
    DateTime(date.year, date.month, date.day, c.hour, c.minute, c.second, c.ms)
  }

  /** The year rule of `new Date(y, m, d)`: years 0..99 mean 1900..1999. */
  function ConstructorYear(y: int): int {
    if 0 <= y <= 99 then 1900 + y else y
  }

  /** `new Date(y, m, d)`: local midnight of the normalised day. */
  function NewDate(y: int, m: int, d: int): (r: LocalDate)
    ensures r.hour == 0 && r.minute == 0 && r.second == 0 && r.ms == 0
    ensures DayNumber(r.year, r.month, r.day) == MonthStart(ConstructorYear(y), m) + d - 1
  {
    var r := MakeDateTime(ConstructorYear(y), m, d, 0, 0, 0, 0);
    TimeOfDayBounds(r);
    r
  }

  /** For a month within 0..11 no rolling takes place. */
  lemma MonthStartInYear(y: int, m: int)
    requires 0 <= m < 12
    ensures MonthStart(y, m) == DayNumber(y, m, 1)
  {
    assert m / 12 == 0 && m % 12 == m;
  }

  /** `date.setDate(d)` on a copy: day `d` of the same month, with overflow,
      at the same clock time; so the time value moves by whole days. */
  function SetDate(dt: LocalDate, d: int): (r: LocalDate)
    ensures r.hour == dt.hour && r.minute == dt.minute && r.second == dt.second && r.ms == dt.ms
    ensures TimeValue(r) == TimeValue(dt) + (d - dt.day) * MsPerDay
  {
    MakeDateTimeKeepsClock(dt.year, dt.month, d, dt);
    MonthStartInYear(dt.year, dt.month);
    MakeDateTime(dt.year, dt.month, d, dt.hour, dt.minute, dt.second, dt.ms)
  }

  /** `date.setMonth(m)` on a copy: the same day of month `m`, with overflow
      of both month and day, at the same clock time. */
  function SetMonth(dt: LocalDate, m: int): (r: LocalDate)
    ensures r.hour == dt.hour && r.minute == dt.minute && r.second == dt.second && r.ms == dt.ms
    ensures DayNumber(r.year, r.month, r.day) == MonthStart(dt.year, m) + dt.day - 1
  {
    MakeDateTimeKeepsClock(dt.year, m, dt.day, dt);
    NormalizeDayNumber(dt.year, m, dt.day);
    MakeDateTime(dt.year, m, dt.day, dt.hour, dt.minute, dt.second, dt.ms)
  }

  /** `date.setHours(h, mi)` on a copy: local midnight of the same day plus
      the new clock reading, keeping seconds and milliseconds. */
  function SetHours(dt: LocalDate, h: int, mi: int): (r: LocalDate)
    ensures TimeValue(r) == DayNumber(dt.year, dt.month, dt.day) * MsPerDay + TimeOfDay(h, mi, dt.second, dt.ms)
  {
    MonthStartInYear(dt.year, dt.month);
    MakeDateTime(dt.year, dt.month, dt.day, h, mi, dt.second, dt.ms)
  }

  predicate SameCalendarDay(a: LocalDate, b: LocalDate) {
    a.year == b.year && a.month == b.month && a.day == b.day
  }

  /** Lexicographic order on (year, month, day, hour, minute, second, ms). */
  predicate LexBefore(a: LocalDate, b: LocalDate) {
    if a.year != b.year then a.year < b.year
    else if a.month != b.month then a.month < b.month
    else if a.day != b.day then a.day < b.day
    else if a.hour != b.hour then a.hour < b.hour
    else if a.minute != b.minute then a.minute < b.minute
    else if a.second != b.second then a.second < b.second
    else a.ms < b.ms
  }

  lemma TimeOfDayBounds(dt: LocalDate)
    ensures 0 <= TimeOfDay(dt.hour, dt.minute, dt.second, dt.ms) < MsPerDay
  {
  }

  lemma {:induction false} DaysBeforeYearMonotone(y1: int, y2: int)
    requires y1 < y2
    ensures DaysBeforeYear(y1) + YearLength(y1) <= DaysBeforeYear(y2)
    decreases y2 - y1
  {
    YearStep(y1);
    if y1 + 1 < y2 {
      DaysBeforeYearMonotone(y1 + 1, y2);
    }
  }

  /** Day numbers grow strictly with the calendar order of valid dates. */
  lemma DayNumberMonotone(a: Ymd, b: Ymd)
    requires ValidDate(a.year, a.month, a.day) && ValidDate(b.year, b.month, b.day)
    requires a.year < b.year
          || (a.year == b.year && a.month < b.month)
          || (a.year == b.year && a.month == b.month && a.day < b.day)
    ensures DayNumber(a.year, a.month, a.day) < DayNumber(b.year, b.month, b.day)
  {
    assert DaysBeforeMonth(a.year, a.month) + DaysInMonth(a.year, a.month) <= YearLength(a.year);
    if a.year < b.year {
      DaysBeforeYearMonotone(a.year, b.year);
    } else if a.month < b.month {
      assert DaysBeforeMonth(a.year, a.month) + DaysInMonth(a.year, a.month)
          <= DaysBeforeMonth(b.year, b.month);
    }
  }

  /** Two valid dates with the same day number are the same calendar day. */
  lemma DayNumberInjective(a: Ymd, b: Ymd)
    requires ValidDate(a.year, a.month, a.day) && ValidDate(b.year, b.month, b.day)
    requires DayNumber(a.year, a.month, a.day) == DayNumber(b.year, b.month, b.day)
    ensures a == b
  {
    if a.year < b.year || (a.year == b.year && a.month < b.month)
       || (a.year == b.year && a.month == b.month && a.day < b.day) {
      DayNumberMonotone(a, b);
    } else if a != b {
      DayNumberMonotone(b, a);
    }
  }

  /** Comparing time values (what `<` on two Date objects does) is the
      lexicographic order of the component records. */
  lemma TimeOrderIsLexicographic(a: LocalDate, b: LocalDate)
    ensures TimeValue(a) < TimeValue(b) <==> LexBefore(a, b)
    ensures TimeValue(a) == TimeValue(b) <==> a == b
  {
    TimeOfDayBounds(a);
    TimeOfDayBounds(b);
    var ya, yb := Ymd(a.year, a.month, a.day), Ymd(b.year, b.month, b.day);
    var na, nb := DayNumber(a.year, a.month, a.day), DayNumber(b.year, b.month, b.day);
    if ya == yb {
      assert na == nb;
    } else if LexBefore(a, b) {
      DayNumberMonotone(ya, yb);
      assert na * MsPerDay + MsPerDay <= nb * MsPerDay;
    } else {
      DayNumberMonotone(yb, ya);
      assert nb * MsPerDay + MsPerDay <= na * MsPerDay;
    }
  }

  /** Two dates fall on the same calendar day exactly when their time values
      lie in the same 24-hour block starting at local midnight. */
  lemma SameDayIffSameBlock(a: LocalDate, b: LocalDate)
    ensures SameCalendarDay(a, b) <==> TimeValue(a) / MsPerDay == TimeValue(b) / MsPerDay
  {
    TimeOfDayBounds(a);
    TimeOfDayBounds(b);
    var na, nb := DayNumber(a.year, a.month, a.day), DayNumber(b.year, b.month, b.day);
    assert TimeValue(a) / MsPerDay == na;
    assert TimeValue(b) / MsPerDay == nb;
    if na == nb {
      DayNumberInjective(Ymd(a.year, a.month, a.day), Ymd(b.year, b.month, b.day));
    }
  }

  /** The clock of a valid date reads back unchanged. */
  lemma ClockOfValid(dt: LocalDate)
    ensures 0 <= TimeOfDay(dt.hour, dt.minute, dt.second, dt.ms) < MsPerDay
    ensures var c := Clock(TimeOfDay(dt.hour, dt.minute, dt.second, dt.ms));
            c.hour == dt.hour && c.minute == dt.minute && c.second == dt.second && c.ms == dt.ms
  {
    var t := TimeOfDay(dt.hour, dt.minute, dt.second, dt.ms);
    var inMinute := dt.second * MsPerSecond + dt.ms;
    var inHour := dt.minute * MsPerMinute + inMinute;
    assert t == dt.hour * MsPerHour + inHour;
    assert t / MsPerHour == dt.hour && t % MsPerHour == inHour;
    assert inHour / MsPerMinute == dt.minute && inHour % MsPerMinute == inMinute;
    assert inMinute / MsPerSecond == dt.second && inMinute % MsPerSecond == dt.ms;
  }

  /** Setting date fields of a valid date (setDate, setMonth, setFullYear)
      normalises the day and keeps the clock time. */
  lemma MakeDateTimeKeepsClock(y: int, m: int, d: int, dt: LocalDate)
    ensures var r := MakeDateTime(y, m, d, dt.hour, dt.minute, dt.second, dt.ms);
            var n := NormalizeDay(y, m, d);
            && r.year == n.year && r.month == n.month && r.day == n.day
            && r.hour == dt.hour && r.minute == dt.minute && r.second == dt.second && r.ms == dt.ms
  {
    ClockOfValid(dt);
    var t := TimeOfDay(dt.hour, dt.minute, dt.second, dt.ms);
    assert t / MsPerDay == 0 && t % MsPerDay == t;
  }

  /** A valid date passes through the normalising constructor unchanged. */
  lemma MakeDateTimeOfValid(dt: LocalDate)
    ensures MakeDateTime(dt.year, dt.month, dt.day, dt.hour, dt.minute, dt.second, dt.ms) == dt
  {
    MakeDateTimeKeepsClock(dt.year, dt.month, dt.day, dt);
    assert dt.month / 12 == 0 && dt.month % 12 == dt.month;
  }

  /** `new Date(y, m, 0)` is the last day of month `m - 1`: the day it
      reports is the length of that month (outside years 0..99). */
  lemma DayZeroIsLastDayOfPreviousMonth(y: int, m: int)
    requires 0 <= m < 12
    requires !(0 <= y <= 99)
    ensures NewDate(y, m + 1, 0).year == y && NewDate(y, m + 1, 0).month == m
    ensures NewDate(y, m + 1, 0).day == DaysInMonth(y, m)
  {
    MakeDateTimeKeepsClock(y, m + 1, 0, DateTime(1970, 0, 1, 0, 0, 0, 0));
    var n := NextMonth(y, m);
    assert y + (m + 1) / 12 == n.year && (m + 1) % 12 == n.month;
    assert PrevMonth(n.year, n.month) == Ymd(y, m, 1);
  }

  /** Month `m` of year `y` after rolling `m` into 0..11 (MakeDay's first step). */
  function RollMonth(y: int, m: int): (r: Ymd)
    ensures 0 <= r.month < 12
    ensures r.year * 12 + r.month == y * 12 + m
  {
    Ymd(y + m / 12, m % 12, 1)
  }

  /** `setMonth(m)` when the day of month exists in month `m`: only year and
      month change. */
  lemma SetMonthSameDay(dt: LocalDate, m: int)
    requires var t := RollMonth(dt.year, m); dt.day <= DaysInMonth(t.year, t.month)
    ensures var t := RollMonth(dt.year, m);
            SetMonth(dt, m) == dt.(year := t.year, month := t.month)
  {
    var t := RollMonth(dt.year, m);
    MakeDateTimeKeepsClock(dt.year, m, dt.day, dt);
    NormalizeDayRolls(dt.year, m, dt.day);
    NormalizeValidDay(t.year, t.month, dt.day);
  }

  /** `setMonth(m)` when month `m` is too short for the day: the date
      overflows into the following month by the excess, at the same clock time. */
  lemma SetMonthOverflow(dt: LocalDate, m: int)
    requires var t := RollMonth(dt.year, m); dt.day > DaysInMonth(t.year, t.month)
    ensures var t := RollMonth(dt.year, m);
            var n := NextMonth(t.year, t.month);
            SetMonth(dt, m) == dt.(year := n.year, month := n.month, day := dt.day - DaysInMonth(t.year, t.month))
  {
    var t := RollMonth(dt.year, m);
    MakeDateTimeKeepsClock(dt.year, m, dt.day, dt);
    NormalizeDayRolls(dt.year, m, dt.day);
    NormalizeValidDay(t.year, t.month, dt.day);
  }

  /** `setMonth(getMonth() + k)`: when the day of month exists in the target
      month the result keeps it; otherwise it overflows into the following
      month by the excess. The clock time is kept either way. */
  lemma SetMonthShift(dt: LocalDate, k: int)
    ensures var r := SetMonth(dt, dt.month + k);
            var t := RollMonth(dt.year, dt.month + k);
            && r.hour == dt.hour && r.minute == dt.minute && r.second == dt.second && r.ms == dt.ms
            && (dt.day <= DaysInMonth(t.year, t.month) ==>
                  r.year == t.year && r.month == t.month && r.day == dt.day)
            && (dt.day > DaysInMonth(t.year, t.month) ==>
                  var n := NextMonth(t.year, t.month);
                  r.year == n.year && r.month == n.month && r.day == dt.day - DaysInMonth(t.year, t.month))
  {
    var t := RollMonth(dt.year, dt.month + k);
    if dt.day <= DaysInMonth(t.year, t.month) {
      SetMonthSameDay(dt, dt.month + k);
    } else {
      SetMonthOverflow(dt, dt.month + k);
    }
  }

  /** MakeDay first rolls the month into 0..11, then normalises the day. */
  lemma NormalizeDayRolls(y: int, m: int, d: int)
    ensures var t := RollMonth(y, m);
            NormalizeDay(y, m, d) == NormalizeInMonth(t.year, t.month, d)
  {
  }

  /** A day of month 1..31 either exists in month `m` or overflows into the
      next month by the excess. */
  lemma NormalizeValidDay(y: int, m: int, d: int)
    requires 0 <= m < 12 && 1 <= d <= 31
    ensures d <= DaysInMonth(y, m) ==> NormalizeInMonth(y, m, d) == Ymd(y, m, d)
    ensures d > DaysInMonth(y, m) ==>
              var n := NextMonth(y, m);
              NormalizeInMonth(y, m, d) == Ymd(n.year, n.month, d - DaysInMonth(y, m))
  {
    if d > DaysInMonth(y, m) {
      OverflowIntoNextMonth(y, m, d);
    }
  }

  lemma OverflowIntoNextMonth(y: int, m: int, d: int)
    requires 0 <= m < 12
    requires DaysInMonth(y, m) < d <= 31
    ensures var n := NextMonth(y, m);
            NormalizeInMonth(y, m, d) == Ymd(n.year, n.month, d - DaysInMonth(y, m))
  {
    var n := NextMonth(y, m);
    assert NormalizeInMonth(y, m, d) == NormalizeInMonth(n.year, n.month, d - DaysInMonth(y, m));
  }
}
