/** Time as the client sees it: millisecond timestamps, calendar days (`startOfDay`, `isToday`,
    `isSameDay`), date-fns `differenceInDays`, and the Gregorian month grid behind the heatmaps.
    Days are counted in one fixed time zone; daylight-saving shifts are not modelled. */
module Calendar {

  const MS_PER_DAY: int := 86400000

  /** The calendar day (days since 1970-01-01) a timestamp falls on: `startOfDay`. */
  function DayOf(t: int): (d: int)
    ensures d * MS_PER_DAY <= t < d * MS_PER_DAY + MS_PER_DAY
  {
    t / MS_PER_DAY
  }

  /** The first millisecond of a day: `startOfDay(...)` as a timestamp. */
  function DayStart(d: int): int {
    d * MS_PER_DAY
  }

  /** date-fns `differenceInDays(later, earlier)`: the number of whole 24-hour periods between
      the two instants, truncated toward zero (negative when `later` is before `earlier`). */
  function DifferenceInDays(later: int, earlier: int): (r: int)
    ensures later >= earlier ==> 0 <= r && r * MS_PER_DAY <= later - earlier < r * MS_PER_DAY + MS_PER_DAY
    ensures later < earlier ==> r <= 0 && -r * MS_PER_DAY <= earlier - later < -r * MS_PER_DAY + MS_PER_DAY
  {
    var diff := later - earlier;
    if diff >= 0 then diff / MS_PER_DAY else -((-diff) / MS_PER_DAY)
  }

  lemma DayOfUnique(t: int, d: int)
    requires d * MS_PER_DAY <= t < d * MS_PER_DAY + MS_PER_DAY
    ensures DayOf(t) == d
  {
  }

  /** From an instant back to the start of an earlier (or the same) day, the whole-day difference
      is the difference of the calendar days. */
  lemma DifferenceToDayStart(now: int, d: int)
    requires d <= DayOf(now)
    ensures DifferenceInDays(now, DayStart(d)) == DayOf(now) - d
  {
    assert now - DayStart(d) == (DayOf(now) - d) * MS_PER_DAY + (now - DayOf(now) * MS_PER_DAY);
  }

  /** `differenceInDays(now, startOfDay(x)) === 1` holds exactly when x is yesterday. */
  lemma YesterdayIff(now: int, d: int)
    ensures DifferenceInDays(now, DayStart(d)) == 1 <==> d == DayOf(now) - 1
  {
    var today := DayOf(now);
    if d <= today {
      DifferenceToDayStart(now, d);
    } else {
      assert now < DayStart(d);
    }
  }

  /** Between two day starts the whole-day difference is exact. */
  lemma DifferenceBetweenDayStarts(a: int, b: int)
    ensures DifferenceInDays(DayStart(a), DayStart(b)) == a - b
  {
    assert DayStart(a) - DayStart(b) == (a - b) * MS_PER_DAY;
  }

  /** `differenceInDays(now, t) <= 7` accepts exactly the instants less than 8 whole days ago,
      and every instant after `now`. */
  lemma WithinAWeekIff(now: int, t: int)
    ensures DifferenceInDays(now, t) <= 7 <==> now - t < 8 * MS_PER_DAY
  {
  }

  /** `subDays(now, i)` lands on the calendar day i days before today. */
  lemma DaysBefore(now: int, i: int)
    ensures DayOf(now - i * MS_PER_DAY) == DayOf(now) - i
  {
    DayOfUnique(now - i * MS_PER_DAY, DayOf(now) - i);
  }

  // ---------------------------------------------------------------- Gregorian month grid

  /** A calendar month; `month` runs 1..12. */
  datatype YearMonth = YearMonth(year: int, month: int) {
    predicate Valid() {
      1 <= month <= 12
    }
  }

  predicate IsLeapYear(y: int) {
    y % 4 == 0 && (y % 100 != 0 || y % 400 == 0)
  }

  /** `endOfMonth` as a day count: the number of days in the month. */
  function DaysInMonth(ym: YearMonth): (n: int)
    requires ym.Valid()
    ensures 28 <= n <= 31
  {
    var m := ym.month;
    if m == 2 then (if IsLeapYear(ym.year) then 29 else 28)
    else if m == 4 || m == 6 || m == 9 || m == 11 then 30
    else 31
  }

  /** Leap years in 1..y (floor division, so this also counts backwards for y <= 0). */
  function LeapsThrough(y: int): int {
    y / 4 - y / 100 + y / 400
  }

  /** Days from 1970-01-01 to January 1 of year y. */
  function YearStart(y: int): int {
    365 * (y - 1970) + LeapsThrough(y - 1) - LeapsThrough(1969)
  }

  /** Days from January 1 to the first of month m of year y. */
  function DaysBeforeMonth(y: int, m: int): int
    requires 1 <= m <= 12
  {
    if m == 1 then 0 else DaysBeforeMonth(y, m - 1) + DaysInMonth(YearMonth(y, m - 1))
  }

  /** The day number of `startOfMonth`. */
  function FirstDay(ym: YearMonth): int
    requires ym.Valid()
  {
    YearStart(ym.year) + DaysBeforeMonth(ym.year, ym.month)
  }

  /** date-fns `getDay`: 0 = Sunday .. 6 = Saturday; 1970-01-01 was a Thursday. */
  function Weekday(d: int): (w: int)
    ensures 0 <= w < 7
  {
    (d + 4) % 7
  }

  function NextMonth(ym: YearMonth): (r: YearMonth)
    requires ym.Valid()
    ensures r.Valid()
  {
    if ym.month == 12 then YearMonth(ym.year + 1, 1) else YearMonth(ym.year, ym.month + 1)
  }

  /** date-fns `subMonths(date, 1)` as far as the month is concerned. */
  function PrevMonth(ym: YearMonth): (r: YearMonth)
    requires ym.Valid()
    ensures r.Valid()
    ensures NextMonth(r) == ym
  {
    if ym.month == 1 then YearMonth(ym.year - 1, 12) else YearMonth(ym.year, ym.month - 1)
  }

  lemma DivStep4(y: int)
    ensures y / 4 - (y - 1) / 4 == if y % 4 == 0 then 1 else 0
  {
  }

  lemma DivStep100(y: int)
    ensures y / 100 - (y - 1) / 100 == if y % 100 == 0 then 1 else 0
  {
  }

  lemma DivStep400(y: int)
    ensures y / 400 - (y - 1) / 400 == if y % 400 == 0 then 1 else 0
  {
  }

  lemma DaysBeforeDecember(y: int)
    ensures DaysBeforeMonth(y, 12) == if IsLeapYear(y) then 335 else 334
  {
    var l := if IsLeapYear(y) then 1 else 0;
    assert DaysBeforeMonth(y, 2) == 31;
    assert DaysBeforeMonth(y, 3) == 59 + l;
    assert DaysBeforeMonth(y, 4) == 90 + l;
    assert DaysBeforeMonth(y, 5) == 120 + l;
    assert DaysBeforeMonth(y, 6) == 151 + l;
    assert DaysBeforeMonth(y, 7) == 181 + l;
    assert DaysBeforeMonth(y, 8) == 212 + l;
    assert DaysBeforeMonth(y, 9) == 243 + l;
    assert DaysBeforeMonth(y, 10) == 273 + l;
    assert DaysBeforeMonth(y, 11) == 304 + l;
  }

  lemma LeapStep(y: int)
    ensures LeapsThrough(y) - LeapsThrough(y - 1) == if IsLeapYear(y) then 1 else 0
  {
    DivStep4(y);
    DivStep100(y);
    DivStep400(y);
  }

  /** Months tile the day line: the next month starts right after the last day of this one. */
  lemma FirstDayOfNextMonth(ym: YearMonth)
    requires ym.Valid()
    ensures FirstDay(NextMonth(ym)) == FirstDay(ym) + DaysInMonth(ym)
  {
    if ym.month == 12 {
      LeapStep(ym.year);
      DaysBeforeDecember(ym.year);
    }
  }

  lemma ModShift(x: int, n: int)
    ensures (x + n) % 7 == (x % 7 + n) % 7
  {
    var q := x / 7;
    assert x + n == (x % 7 + n) + 7 * q;
  }

  /** The weekday of the next month's first day follows from this month's length. */
  lemma NextMonthWeekday(ym: YearMonth)
    requires ym.Valid()
    ensures Weekday(FirstDay(NextMonth(ym))) == (Weekday(FirstDay(ym)) + DaysInMonth(ym)) % 7
  {
    FirstDayOfNextMonth(ym);
    ModShift(FirstDay(ym) + 4, DaysInMonth(ym));
    assert FirstDay(NextMonth(ym)) + 4 == FirstDay(ym) + 4 + DaysInMonth(ym);
  }

  /** Anchors of the day numbering: 1970-01-01 is day 0 (a Thursday) and 2024-01-01 a Monday. */
  lemma CalendarAnchors()
    ensures FirstDay(YearMonth(1970, 1)) == 0 && Weekday(0) == 4
    ensures FirstDay(YearMonth(2024, 1)) == 19723 && Weekday(19723) == 1
  {
  }
}
