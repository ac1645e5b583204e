/** The proleptic Gregorian calendar in UTC, as far as the cron engine uses the time package:
    civil date-times, their order, weekdays and the day normalisation of `AddDate`. */
module Calendar {

  predicate IsLeap(y: int) {
    y % 4 == 0 && (y % 100 != 0 || y % 400 == 0)
  }

  function DaysInMonth(y: int, m: int): (n: nat)
    ensures 28 <= n <= 31
  {
    if m == 2 then (if IsLeap(y) then 29 else 28)
    else if m == 4 || m == 6 || m == 9 || m == 11 then 30
    else 31
  }

  function DaysInYear(y: int): int {
    if IsLeap(y) then 366 else 365
  }

  predicate ValidDate(y: int, m: int, d: int) {
    1 <= m <= 12 && 1 <= d <= DaysInMonth(y, m)
  }

  /** A civil date-time; field ranges are those `time.Date` leaves unchanged. */
  datatype RawTime = Time(year: int, month: int, day: int, hour: int, minute: int, second: int, nanosecond: int)

  predicate ValidTime(t: RawTime) {
    && ValidDate(t.year, t.month, t.day)
    && 0 <= t.hour < 24 && 0 <= t.minute < 60 && 0 <= t.second < 60
    && 0 <= t.nanosecond < 1_000_000_000
  }

  type Time = t: RawTime | ValidTime(t) witness RawTime.Time(1, 1, 1, 0, 0, 0, 0)

  /** The zero value of the source's time type. */
  const ZERO_TIME: Time := RawTime.Time(1, 1, 1, 0, 0, 0, 0)

  // ------------------------------------------------------------ Order

  datatype Precision = Years | Months | Days | Hours | Minutes | Seconds | Nanoseconds

  /** `u` is after `t` when both are cut off at the given precision. */
  predicate After(p: Precision, t: Time, u: Time) {
    if u.year != t.year then u.year > t.year
    else if p == Years then false
    else if u.month != t.month then u.month > t.month
    else if p == Months then false
    else if u.day != t.day then u.day > t.day
    else if p == Days then false
    else if u.hour != t.hour then u.hour > t.hour
    else if p == Hours then false
    else if u.minute != t.minute then u.minute > t.minute
    else if p == Minutes then false
    else if u.second != t.second then u.second > t.second
    else if p == Seconds then false
    else u.nanosecond > t.nanosecond
  }

  function Rank(p: Precision): nat {
    match p
    case Years => 0
    case Months => 1
    case Days => 2
    case Hours => 3
    case Minutes => 4
    case Seconds => 5
    case Nanoseconds => 6
  }

  predicate Before(t: Time, u: Time) {
    After(Nanoseconds, t, u)
  }

  // ------------------------------------------------------------ Day numbers and weekdays

  /** Days before 1 January of year `y`, counted from 1 January of year 1. */
  function DaysBeforeYear(y: int): int
    decreases if y < 1 then 1 - y else y - 1
  {
    if y == 1 then 0
    else if y > 1 then DaysBeforeYear(y - 1) + DaysInYear(y - 1)
    else DaysBeforeYear(y + 1) - DaysInYear(y)
  }

  function DaysBeforeMonth(y: int, m: int): (n: int)
    requires 1 <= m
    ensures n >= 0
  {
    if m == 1 then 0 else DaysBeforeMonth(y, m - 1) + DaysInMonth(y, m - 1)
  }

  /** Number of a day on the absolute day line; 1 January of year 1 is day 1. */
  function DayNumber(y: int, m: int, d: int): int
    requires 1 <= m
  {
    DaysBeforeYear(y) + DaysBeforeMonth(y, m) + d
  }

  /** Weekday, 0 being Sunday; day 1 of the day line is a Monday. */
  function Weekday(y: int, m: int, d: int): (w: int)
    requires 1 <= m
    ensures 0 <= w < 7
  {
    DayNumber(y, m, d) % 7
  }

  lemma YearLength(y: int)
    ensures DaysBeforeYear(y + 1) == DaysBeforeYear(y) + DaysInYear(y)
  {
  }

  /** The closed form of the day count: one leap day in four years, but three fewer in four hundred. */
  lemma {:induction false} DaysBeforeYearClosed(y: int)
    ensures DaysBeforeYear(y) == 365 * (y - 1) + (y - 1) / 4 - (y - 1) / 100 + (y - 1) / 400
    decreases if y < 1 then 1 - y else y - 1
  {
    if y > 1 {
      DaysBeforeYearClosed(y - 1);
      LeapDays(y - 1);
    } else if y < 1 {
      DaysBeforeYearClosed(y + 1);
      LeapDays(y);
    }
  }

  lemma LeapDays(y: int)
    ensures (y / 4 - y / 100 + y / 400) - ((y - 1) / 4 - (y - 1) / 100 + (y - 1) / 400) == (if IsLeap(y) then 1 else 0)
  {
    QuotientStep(y, 4);
    QuotientStep(y, 100);
    QuotientStep(y, 400);
    CenturyYears(y);
  }

  lemma CenturyYears(y: int)
    ensures y % 100 == 0 ==> y % 4 == 0
    ensures y % 400 == 0 ==> y % 100 == 0
  {
    if y % 100 == 0 { MultipleOf(y, 4, 25 * (y / 100)); }
    if y % 400 == 0 { MultipleOf(y, 100, 4 * (y / 400)); }
  }

  lemma MultipleOf(y: int, n: int, k: int)
    requires (n == 4 || n == 100) && y == n * k
    ensures y % n == 0
  {
    if n == 4 { assert y % 4 == 0; } else { assert y % 100 == 0; }
  }

  lemma QuotientStep(y: int, n: int)
    requires n == 4 || n == 100 || n == 400
    ensures y / n == (y - 1) / n + (if y % n == 0 then 1 else 0)
  {
  }

  lemma MonthsFillYear(y: int)
    ensures DaysBeforeMonth(y, 12) + 31 == DaysInYear(y)
  {
    assert DaysBeforeMonth(y, 2) == 31;
    assert DaysBeforeMonth(y, 3) == 31 + DaysInMonth(y, 2);
    assert DaysBeforeMonth(y, 5) == DaysBeforeMonth(y, 3) + 61;
    assert DaysBeforeMonth(y, 7) == DaysBeforeMonth(y, 5) + 61;
    assert DaysBeforeMonth(y, 9) == DaysBeforeMonth(y, 7) + 62;
    assert DaysBeforeMonth(y, 11) == DaysBeforeMonth(y, 9) + 61;
  }

  /** Where the months start, by a formula that knows no month lengths but February's: with the length of the year it
      fixes all twelve. */
  lemma MonthStarts(y: int, m: int)
    requires 1 <= m <= 12
    ensures DaysBeforeMonth(y, m) == (367 * m - 362) / 12 + (if m <= 2 then 0 else if IsLeap(y) then -1 else -2)
  {
    assert DaysBeforeMonth(y, 2) == 31;
    assert DaysBeforeMonth(y, 3) == 31 + DaysInMonth(y, 2);
    assert DaysBeforeMonth(y, 4) == DaysBeforeMonth(y, 3) + 31;
    assert DaysBeforeMonth(y, 5) == DaysBeforeMonth(y, 4) + 30;
    assert DaysBeforeMonth(y, 6) == DaysBeforeMonth(y, 5) + 31;
    assert DaysBeforeMonth(y, 7) == DaysBeforeMonth(y, 6) + 30;
    assert DaysBeforeMonth(y, 8) == DaysBeforeMonth(y, 7) + 31;
    assert DaysBeforeMonth(y, 9) == DaysBeforeMonth(y, 8) + 31;
    assert DaysBeforeMonth(y, 10) == DaysBeforeMonth(y, 9) + 30;
    assert DaysBeforeMonth(y, 11) == DaysBeforeMonth(y, 10) + 31;
    assert DaysBeforeMonth(y, 12) == DaysBeforeMonth(y, 11) + 30;
  }

  lemma {:induction false} MonthsAscend(y: int, m: int, n: int)
    requires 1 <= m < n
    ensures DaysBeforeMonth(y, m) + DaysInMonth(y, m) <= DaysBeforeMonth(y, n)
  {
    if m + 1 < n { MonthsAscend(y, m, n - 1); }
  }

  lemma {:induction false} YearsAscend(y: int, z: int)
    requires y < z
    ensures DaysBeforeYear(y) + DaysInYear(y) <= DaysBeforeYear(z)
    decreases z - y
  {
    YearLength(y);
    if y + 1 < z { YearsAscend(y + 1, z); }
  }

  /** Every date of a year lies inside that year's stretch of the day line. */
  lemma DateInYear(y: int, m: int, d: int)
    requires ValidDate(y, m, d)
    ensures DaysBeforeYear(y) < DayNumber(y, m, d) <= DaysBeforeYear(y) + DaysInYear(y)
  {
    MonthsFillYear(y);
    if m < 12 { MonthsAscend(y, m, 12); }
  }

  lemma DayOrder(t: Time, u: Time)
    requires After(Days, t, u)
    ensures DayNumber(t.year, t.month, t.day) < DayNumber(u.year, u.month, u.day)
  {
    if After(Years, t, u) {
      DateInYear(t.year, t.month, t.day);
      DateInYear(u.year, u.month, u.day);
      YearsAscend(t.year, u.year);
    } else if After(Months, t, u) {
      MonthsAscend(t.year, t.month, u.month);
    }
  }

  /** Nanoseconds on the absolute time line. */
  function Instant(t: Time): int {
    OnDay(DayNumber(t.year, t.month, t.day), t)
  }

  function OnDay(day: int, t: Time): int {
    (((day * 24 + t.hour) * 60 + t.minute) * 60 + t.second) * 1_000_000_000 + t.nanosecond
  }

  lemma BeforeIsEarlier(t: Time, u: Time)
    requires Before(t, u)
    ensures Instant(t) < Instant(u)
  {
    var m, n := DayNumber(t.year, t.month, t.day), DayNumber(u.year, u.month, u.day);
    if After(Days, t, u) {
      DayOrder(t, u);
      LaterDay(m, t, n, u);
    } else {
      assert m == n;
      SameDayLater(m, t, u);
    }
  }

  lemma LaterDay(m: int, t: Time, n: int, u: Time)
    requires m < n
    ensures OnDay(m, t) < OnDay(n, u)
  {
  }

  lemma SameDayLater(m: int, t: Time, u: Time)
    requires Before(t, u) && !After(Days, t, u)
    ensures OnDay(m, t) < OnDay(m, u)
  {
  }

  /** The field-by-field order is the order of absolute instants. */
  lemma BeforeIffEarlier(t: Time, u: Time)
    ensures Before(t, u) <==> Instant(t) < Instant(u)
    ensures t == u <==> Instant(t) == Instant(u)
  {
    if Before(t, u) {
      BeforeIsEarlier(t, u);
    } else if Before(u, t) {
      BeforeIsEarlier(u, t);
    } else {
      assert t == u;
    }
  }

  // ------------------------------------------------------------ AddDate

  function PreviousMonth(y: int, m: int): (int, int) {
    if m == 1 then (y - 1, 12) else (y, m - 1)
  }

  function NextMonth(y: int, m: int): (int, int) {
    if m == 12 then (y + 1, 1) else (y, m + 1)
  }

  /** The first day of the next month follows the last day of this one. */
  lemma MonthsAdjoin(y: int, m: int, d: int)
    requires 1 <= m <= 12
    ensures var (ny, nm) := NextMonth(y, m); DayNumber(ny, nm, d) == DayNumber(y, m, d + DaysInMonth(y, m))
  {
    if m == 12 {
      YearLength(y);
      MonthsFillYear(y);
    }
  }

  /** Normalises a day that lies outside its month, moving month by month. */
  function Normalise(y: int, m: int, d: int): (date: (int, int, int))
    requires 1 <= m <= 12
    ensures ValidDate(date.0, date.1, date.2)
    decreases if d < 1 then 32 - d else if d > DaysInMonth(y, m) then d else 0
  {
    if d < 1 then
      var (py, pm) := PreviousMonth(y, m);
      Normalise(py, pm, d + DaysInMonth(py, pm))
    else if d > DaysInMonth(y, m) then
      var (ny, nm) := NextMonth(y, m);
      Normalise(ny, nm, d - DaysInMonth(y, m))
    else (y, m, d)
  }

  /** Normalising keeps the absolute day. */
  lemma {:induction false} NormaliseKeepsDay(y: int, m: int, d: int)
    requires 1 <= m <= 12
    ensures var date := Normalise(y, m, d); DayNumber(date.0, date.1, date.2) == DayNumber(y, m, d)
    decreases if d < 1 then 32 - d else if d > DaysInMonth(y, m) then d else 0
  {
    if d < 1 {
      var (py, pm) := PreviousMonth(y, m);
      MonthsAdjoin(py, pm, d);
      NormaliseKeepsDay(py, pm, d + DaysInMonth(py, pm));
    } else if d > DaysInMonth(y, m) {
      var (ny, nm) := NextMonth(y, m);
      MonthsAdjoin(y, m, d - DaysInMonth(y, m));
      NormaliseKeepsDay(ny, nm, d - DaysInMonth(y, m));
    }
  }

  /** `AddDate(0, months, days)` on a date. */
  function AddDate(y: int, m: int, d: int, months: int, days: int): (date: (int, int, int))
    requires ValidDate(y, m, d)
    ensures ValidDate(date.0, date.1, date.2)
  {
    var k := m - 1 + months;
    Normalise(y + k / 12, k % 12 + 1, d + days)
  }

  /** Going one month on from the first of a month and `back` days back stays in that month. */
  lemma BackFromMonthEnd(y: int, m: int, back: int)
    requires 1 <= m <= 12 && 1 <= back <= 28
    ensures AddDate(y, m, 1, 1, -back) == (y, m, DaysInMonth(y, m) + 1 - back)
  {
    var (ny, nm) := NextMonth(y, m);
    assert PreviousMonth(ny, nm) == (y, m);
    var d := 1 - back + DaysInMonth(y, m);
    assert Normalise(y, m, d) == (y, m, d);
    assert Normalise(ny, nm, 1 - back) == Normalise(y, m, d);
    assert AddDate(y, m, 1, 1, -back) == Normalise(ny, nm, 1 - back);
  }

  lemma AddDaysInMonth(y: int, m: int, d: int)
    requires ValidDate(y, m, d)
    ensures AddDate(y, m, 1, 0, d - 1) == (y, m, d)
  {
  }

  /** Weekdays repeat with period seven inside a month. */
  lemma WeekdayShift(y: int, m: int, d: int, k: int)
    requires 1 <= m
    ensures Weekday(y, m, d + k) == (Weekday(y, m, d) + k) % 7
  {
  }

  /** The weekday scale is the civil one: the day after any date has the following weekday, across
      month and year ends too. */
  lemma WeekdaysFollow(y: int, m: int, d: int)
    requires ValidDate(y, m, d)
    ensures var next := AddDate(y, m, d, 0, 1);
            Weekday(next.0, next.1, next.2) == (Weekday(y, m, d) + 1) % 7
  {
    var next := AddDate(y, m, d, 0, 1);
    assert next == Normalise(y, m, d + 1);
    NormaliseKeepsDay(y, m, d + 1);
    WeekdayShift(y, m, d, 1);
  }

  /** 1 January 1970 was a Thursday. */
  lemma EpochWeekday()
    ensures Weekday(1970, 1, 1) == 4
  {
    DaysBeforeYearClosed(1970);
    hide DaysBeforeYear;
    assert DayNumber(1970, 1, 1) == 719163;
  }
}
