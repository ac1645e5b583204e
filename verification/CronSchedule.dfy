/** What a parsed cron expression means, stated apart from the code that evaluates it. */
module CronSchedule {
  import opened Outcomes
  import opened Calendar
  import opened SortedInts
  import opened WeekArithmetic

  /** The fields of an expression, without its cache. */
  datatype Schedule = Schedule(
    seconds: seq<int>,
    minutes: seq<int>,
    hours: seq<int>,
    daysOfMonth: set<int>,
    workdaysOfMonth: set<int>,
    lastDayOfMonth: bool,
    lastWorkdayOfMonth: bool,
    daysOfMonthRestricted: bool,
    months: seq<int>,
    daysOfWeek: set<int>,
    specificWeekDaysOfWeek: set<int>,
    lastWeekDaysOfWeek: set<int>,
    daysOfWeekRestricted: bool,
    years: seq<int>)

  const MIN_YEAR := 1970
  const MAX_YEAR := 2099

  ghost predicate ListWithin(a: seq<int>, lo: int, hi: int) {
    Ascending(a) && forall i :: 0 <= i < |a| ==> lo <= a[i] <= hi
  }

  ghost predicate SetWithin(s: set<int>, lo: int, hi: int) {
    forall v :: v in s ==> lo <= v <= hi
  }

  /** The lists whose first element the evaluation code reads have one. */
  predicate Complete(s: Schedule) {
    s.seconds != [] && s.minutes != [] && s.hours != [] && s.months != []
  }

  ghost predicate WellFormed(s: Schedule) {
    InRange(s) && Complete(s)
  }

  ghost predicate InRange(s: Schedule) {
    && ListWithin(s.seconds, 0, 59) && ListWithin(s.minutes, 0, 59) && ListWithin(s.hours, 0, 23)
    && ListWithin(s.months, 1, 12) && ListWithin(s.years, MIN_YEAR, MAX_YEAR)
    && SetWithin(s.daysOfMonth, 1, 31) && SetWithin(s.workdaysOfMonth, 1, 31)
    && SetWithin(s.daysOfWeek, 0, 6) && SetWithin(s.specificWeekDaysOfWeek, 0, 34)
    && SetWithin(s.lastWeekDaysOfWeek, 0, 6)
  }

  // ------------------------------------------------------------ Days

  ghost predicate IsWorkday(y: int, m: int, d: int)
    requires 1 <= m <= 12
  {
    1 <= d <= DaysInMonth(y, m) && 1 <= Weekday(y, m, d) <= 5
  }

  function Distance(a: int, b: int): nat {
    if a < b then b - a else a - b
  }

  /** `d` is a workday of the month and no workday of the month is nearer to `target`. */
  ghost predicate NearestWorkday(y: int, m: int, target: int, d: int)
    requires 1 <= m <= 12
  {
    && IsWorkday(y, m, d)
    && forall e :: IsWorkday(y, m, e) ==> Distance(target, d) <= Distance(target, e)
  }

  ghost predicate LastWorkday(y: int, m: int, d: int)
    requires 1 <= m <= 12
  {
    && IsWorkday(y, m, d)
    && forall e :: IsWorkday(y, m, e) ==> e <= d
  }

  /** How many of the days 1..d have weekday `w`. */
  ghost function WeekdayCount(y: int, m: int, w: int, d: nat): (n: nat)
    requires 1 <= m <= 12
  {
    if d == 0 then 0 else WeekdayCount(y, m, w, d - 1) + (if Weekday(y, m, d) == w then 1 else 0)
  }

  /** `d` is the last day of the month with its weekday. */
  ghost predicate LastOfItsWeekday(y: int, m: int, d: int)
    requires 1 <= m <= 12
  {
    forall e :: d < e <= DaysInMonth(y, m) ==> Weekday(y, m, e) != Weekday(y, m, d)
  }

  /** `5#2` style entries are stored as `7 * (week - 1) + weekday`. */
  ghost predicate NthWeekday(y: int, m: int, d: nat, code: int)
    requires 1 <= m <= 12
  {
    Weekday(y, m, d) == code % 7 && WeekdayCount(y, m, code % 7, d) == code / 7 + 1
  }

  ghost predicate DayOfMonthHit(s: Schedule, y: int, m: int, d: nat)
    requires 1 <= m <= 12
  {
    || (s.lastDayOfMonth && d == DaysInMonth(y, m))
    || (s.lastWorkdayOfMonth && LastWorkday(y, m, d))
    || d in s.daysOfMonth
    || exists v :: v in s.workdaysOfMonth && v <= DaysInMonth(y, m) && NearestWorkday(y, m, v, d)
  }

  ghost predicate DayOfWeekHit(s: Schedule, y: int, m: int, d: nat)
    requires 1 <= m <= 12
  {
    || Weekday(y, m, d) in s.daysOfWeek
    || (Weekday(y, m, d) in s.lastWeekDaysOfWeek && LastOfItsWeekday(y, m, d))
    || exists code :: code in s.specificWeekDaysOfWeek && NthWeekday(y, m, d, code)
  }

  /** The day rule of crontab(5): both fields open, every day; one restricted, that one; both, either. */
  ghost predicate DayHit(s: Schedule, y: int, m: int, d: nat)
    requires 1 <= m <= 12
  {
    if !s.daysOfMonthRestricted && !s.daysOfWeekRestricted then true
    else
      || (s.daysOfMonthRestricted && DayOfMonthHit(s, y, m, d))
      || (s.daysOfWeekRestricted && DayOfWeekHit(s, y, m, d))
  }

  /** The schedule fires at `t`. */
  ghost predicate Matches(s: Schedule, t: Time) {
    && t.year in s.years && t.month in s.months && DayHit(s, t.year, t.month, t.day)
    && t.hour in s.hours && t.minute in s.minutes && t.second in s.seconds && t.nanosecond == 0
  }

  /** `days` lists the days of the month on which the schedule fires. */
  ghost predicate IsDayList(s: Schedule, y: int, m: int, days: seq<int>) {
    && 1 <= m <= 12
    && Ascending(days)
    && forall d :: d in days <==> 1 <= d <= DaysInMonth(y, m) && DayHit(s, y, m, d)
  }

  // ------------------------------------------------------------ First match

  /** `r` is the earliest match that is after `t` at precision `p`, or the zero time if there is none. */
  ghost predicate IsFirst(s: Schedule, p: Precision, t: Time, r: Time) {
    if r == ZERO_TIME then
      forall u: Time :: Matches(s, u) ==> !After(p, t, u)
    else
      && Matches(s, r) && After(p, t, r)
      && forall u: Time :: Matches(s, u) && After(p, t, u) ==> !Before(u, r)
  }

  /** The earliest match is unique, so a result that is one depends on nothing but schedule and `t`. */
  lemma FirstUnique(s: Schedule, p: Precision, t: Time, r1: Time, r2: Time)
    requires IsFirst(s, p, t, r1) && IsFirst(s, p, t, r2)
    ensures r1 == r2
  {
    if r1 != ZERO_TIME && r2 != ZERO_TIME {
      assert !Before(r1, r2) && !Before(r2, r1);
    }
  }

  // ------------------------------------------------------------ What an evaluation ends in

  /** Indexing a list at 0. */
  function Head(list: seq<int>): (head: Outcome<int>)
    ensures head.Returned? <==> list != []
  {
    if list == [] then Panicked else Returned(list[0])
  }

  /** The fields of `t` fit the schedule down to precision `p`. */
  ghost predicate Fits(s: Schedule, p: Precision, t: Time) {
    && t.year in s.years
    && (Rank(p) >= Rank(Months) ==> t.month in s.months)
    && (Rank(p) >= Rank(Days) ==> DayHit(s, t.year, t.month, t.day))
    && (Rank(p) >= Rank(Hours) ==> t.hour in s.hours)
    && (Rank(p) >= Rank(Minutes) ==> t.minute in s.minutes)
    && (Rank(p) >= Rank(Seconds) ==> t.second in s.seconds)
    && (Rank(p) >= Rank(Nanoseconds) ==> t.nanosecond == 0)
  }

  /** A head is missing, yet the leading fields of some later time fit, at a precision up to `p`. */
  ghost predicate Panics(s: Schedule, p: Precision, t: Time) {
    !Complete(s) && exists q, u: Time :: Rank(q) <= Rank(p) && Fits(s, q, u) && After(q, t, u)
  }

  /** The outcome of evaluating a schedule after `t` at precision `p`. */
  ghost predicate Evaluates(s: Schedule, p: Precision, t: Time, o: Outcome<Time>) {
    if Panics(s, p, t) then o.Panicked? else o.Returned? && IsFirst(s, p, t, o.value)
  }

  /** No argument makes the evaluation panic exactly if it has all the heads it reads or no year at all. */
  lemma NeverPanicsIff(s: Schedule)
    requires InRange(s)
    ensures (forall from: Time :: from != ZERO_TIME ==> !Panics(s, Nanoseconds, from)) <==>
            Complete(s) || s.years == []
  {
    hide DayHit;
    if s.years != [] && !Complete(s) {
      var early := RawTime.Time(2, 1, 1, 0, 0, 0, 0);
      assert Fits(s, Years, RawTime.Time(s.years[0], 1, 1, 0, 0, 0, 0));
      assert Panics(s, Nanoseconds, early);
    }
  }

  /** A schedule that matches somewhere has all its heads. */
  lemma MatchIsComplete(s: Schedule, t: Time)
    requires Matches(s, t)
    ensures Complete(s) && Fits(s, Minutes, t)
  {
  }

  /** Without a head the evaluation of a schedule with a later fitting time panics. */
  lemma HeadMissing(s: Schedule, p: Precision, t: Time, u: Time)
    requires Fits(s, p, u) && After(p, t, u)
    ensures !Complete(s) ==> Evaluates(s, p, t, Panicked)
  {
  }

  /** A month has one day list. */
  lemma DayListUnique(s: Schedule, y: int, m: int, a: seq<int>, b: seq<int>)
    requires IsDayList(s, y, m, a) && IsDayList(s, y, m, b)
    ensures a == b
  {
    AscendingUnique(a, b);
  }

  // ------------------------------------------------------------ The first matches

  function LastOr(from: Time, times: seq<Time>): Time {
    if times == [] then from else times[|times| - 1]
  }

  /** Each listed time is the first match after the one before it, the first one after `from`. */
  ghost predicate Consecutive(s: Schedule, from: Time, times: seq<Time>) {
    forall k :: 0 <= k < |times| ==>
                  times[k] != ZERO_TIME && IsFirst(s, Nanoseconds, LastOr(from, times[..k]), times[k])
  }

  /** `times` is exactly the matches after `from` up to its last one, in chronological order; it is
      shorter than `n` only if nothing is left. */
  ghost predicate FirstMatches(s: Schedule, from: Time, n: nat, times: seq<Time>) {
    && |times| <= n
    && (forall i :: 0 <= i < |times| - 1 ==> Before(times[i], times[i + 1]))
    && (forall u: Time :: u in times <==>
                          Matches(s, u) && Before(from, u) && !Before(LastOr(from, times), u))
    && (|times| < n ==> forall u: Time :: Matches(s, u) && Before(from, u) ==> u in times)
  }

  /** The matches up to the next first match are those up to `last` and that match. */
  lemma NextEnumerates(s: Schedule, from: Time, last: Time, t: Time)
    requires t != ZERO_TIME && IsFirst(s, Nanoseconds, last, t) && (last == from || Before(from, last))
    ensures Before(from, t) && Before(last, t)
    ensures forall u: Time :: Matches(s, u) && Before(from, u) && !Before(t, u) <==>
                              u == t || (Matches(s, u) && Before(from, u) && !Before(last, u))
  {
    forall u: Time | Matches(s, u) && Before(from, u)
      ensures !Before(t, u) <==> u == t || !Before(last, u)
    {
      if Before(last, u) { assert !Before(u, t); }
    }
  }

  lemma ConsecutiveInit(s: Schedule, from: Time, times: seq<Time>)
    requires Consecutive(s, from, times) && times != []
    ensures var n := |times| - 1;
            && Consecutive(s, from, times[..n])
            && times[n] != ZERO_TIME && IsFirst(s, Nanoseconds, LastOr(from, times[..n]), times[n])
  {
    var init := times[..|times| - 1];
    forall k | 0 <= k < |init|
      ensures init[k] != ZERO_TIME && IsFirst(s, Nanoseconds, LastOr(from, init[..k]), init[k])
    {
      assert init[..k] == times[..k];
    }
  }

  lemma {:induction false} ConsecutiveAscends(s: Schedule, from: Time, times: seq<Time>)
    requires Consecutive(s, from, times)
    ensures times != [] ==> Before(from, LastOr(from, times))
    ensures forall i :: 0 <= i < |times| - 1 ==> Before(times[i], times[i + 1])
  {
    if times != [] {
      ConsecutiveInit(s, from, times);
      var n := |times| - 1;
      var init := times[..n];
      ConsecutiveAscends(s, from, init);
      NextEnumerates(s, from, LastOr(from, init), times[n]);
      forall i | 0 <= i < n ensures Before(times[i], times[i + 1]) {
        assert times[i] == init[i];
        if i + 1 < n { assert times[i + 1] == init[i + 1]; }
      }
    }
  }

  lemma {:induction false} ConsecutiveEnumerates(s: Schedule, from: Time, times: seq<Time>, u: Time)
    requires Consecutive(s, from, times)
    ensures u in times <==> Matches(s, u) && Before(from, u) && !Before(LastOr(from, times), u)
  {
    hide After, Matches;
    if times != [] {
      ConsecutiveInit(s, from, times);
      var n := |times| - 1;
      var init := times[..n];
      ConsecutiveAscends(s, from, init);
      ConsecutiveEnumerates(s, from, init, u);
      NextEnumerates(s, from, LastOr(from, init), times[n]);
      assert times == init + [times[n]];
      assert u in times <==> u in init || u == times[n];
    }
  }

  lemma ConsecutiveIsFirstMatches(s: Schedule, from: Time, n: nat, times: seq<Time>)
    requires Consecutive(s, from, times) && |times| <= n
    requires |times| < n ==> IsFirst(s, Nanoseconds, LastOr(from, times), ZERO_TIME)
    ensures FirstMatches(s, from, n, times)
  {
    ConsecutiveAscends(s, from, times);
    forall u: Time ensures u in times <==> Matches(s, u) && Before(from, u) && !Before(LastOr(from, times), u) {
      ConsecutiveEnumerates(s, from, times, u);
    }
  }

  // ------------------------------------------------------------ Finding the first match

  /** Whatever fits and is after `t` at the fine precision is already after it at the coarse one. */
  ghost predicate NoneBetween(s: Schedule, coarse: Precision, fine: Precision, t: Time) {
    forall p, u: Time :: Rank(coarse) < Rank(p) <= Rank(fine) && Fits(s, p, u) && After(p, t, u) ==> After(coarse, t, u)
  }

  lemma PanicsCarry(s: Schedule, coarse: Precision, fine: Precision, t: Time)
    requires NoneBetween(s, coarse, fine, t) && Rank(coarse) <= Rank(fine)
    ensures Panics(s, fine, t) <==> Panics(s, coarse, t)
  {
    hide DayHit, After;
    if q, u: Time :| !Complete(s) && Rank(q) <= Rank(fine) && Fits(s, q, u) && After(q, t, u) {
      if Rank(coarse) < Rank(q) { assert Fits(s, coarse, u) && After(coarse, t, u); }
    }
  }

  /** With nothing in between, the outcome at the coarse precision is the outcome at the fine one. */
  lemma Carry(s: Schedule, coarse: Precision, fine: Precision, t: Time, o: Outcome<Time>)
    requires Evaluates(s, coarse, t, o) && NoneBetween(s, coarse, fine, t)
    requires Rank(coarse) <= Rank(fine)
    ensures Evaluates(s, fine, t, o)
  {
    PanicsCarry(s, coarse, fine, t);
    hide Panics, DayHit;
    forall u: Time | Matches(s, u) && After(fine, t, u) ensures After(coarse, t, u) {
      assert Fits(s, fine, u);
    }
  }

  lemma HeadsLeast(s: Schedule, u: Time)
    requires WellFormed(s) && Matches(s, u)
    ensures s.months[0] <= u.month && s.hours[0] <= u.hour && s.minutes[0] <= u.minute && s.seconds[0] <= u.second
  {
    SplitLeast(s.months, 0, s.months[0], u.month);
    SplitLeast(s.hours, 0, s.hours[0], u.hour);
    SplitLeast(s.minutes, 0, s.minutes[0], u.minute);
    SplitLeast(s.seconds, 0, s.seconds[0], u.second);
  }

  /** The least firing second of the least firing hour and minute. */
  ghost predicate AtHeads(s: Schedule, r: Time)
    requires WellFormed(s)
  {
    r.hour == s.hours[0] && r.minute == s.minutes[0] && r.second == s.seconds[0] && r.nanosecond == 0
  }

  lemma FirstOfYear(s: Schedule, t: Time, i: nat, days: seq<int>, r: Time)
    requires WellFormed(s) && Splits(s.years, i, t.year + 1) && i < |s.years|
    requires IsDayList(s, s.years[i], s.months[0], days) && days != []
    requires r.year == s.years[i] && r.month == s.months[0] && r.day == days[0] && AtHeads(s, r)
    ensures Evaluates(s, Years, t, Returned(r))
  {
    assert days[0] in days;
    forall u: Time | Matches(s, u) && After(Years, t, u) ensures !Before(u, r) {
      SplitLeast(s.years, i, t.year + 1, u.year);
      HeadsLeast(s, u);
      if u.year == r.year && u.month == r.month { SplitLeast(days, 0, days[0], u.day); }
    }
  }

  lemma FirstOfMonth(s: Schedule, t: Time, i: nat, days: seq<int>, r: Time)
    requires WellFormed(s) && t.year in s.years && Splits(s.months, i, t.month + 1) && i < |s.months|
    requires IsDayList(s, t.year, s.months[i], days) && days != []
    requires r.year == t.year && r.month == s.months[i] && r.day == days[0] && AtHeads(s, r)
    ensures Evaluates(s, Months, t, Returned(r))
  {
    assert days[0] in days;
    forall u: Time | Matches(s, u) && After(Months, t, u) ensures !Before(u, r) {
      if u.year == t.year { SplitLeast(s.months, i, t.month + 1, u.month); }
      HeadsLeast(s, u);
      if u.year == r.year && u.month == r.month { SplitLeast(days, 0, days[0], u.day); }
    }
  }

  lemma FirstOfDay(s: Schedule, t: Time, i: nat, days: seq<int>, r: Time)
    requires WellFormed(s) && t.year in s.years && t.month in s.months
    requires IsDayList(s, t.year, t.month, days) && Splits(days, i, t.day + 1) && i < |days|
    requires r.year == t.year && r.month == t.month && r.day == days[i] && AtHeads(s, r)
    ensures Evaluates(s, Days, t, Returned(r))
  {
    assert days[i] in days;
    forall u: Time | Matches(s, u) && After(Days, t, u) ensures !Before(u, r) {
      if u.year == t.year && u.month == t.month { SplitLeast(days, i, t.day + 1, u.day); }
      HeadsLeast(s, u);
    }
  }

  lemma FirstOfHour(s: Schedule, t: Time, i: nat, r: Time)
    requires WellFormed(s) && Fits(s, Days, t) && Splits(s.hours, i, t.hour + 1) && i < |s.hours|
    requires r == t.(hour := s.hours[i], minute := s.minutes[0], second := s.seconds[0], nanosecond := 0)
    ensures Evaluates(s, Hours, t, Returned(r))
  {
    forall u: Time | Matches(s, u) && After(Hours, t, u) ensures !Before(u, r) {
      if u.year == t.year && u.month == t.month && u.day == t.day { SplitLeast(s.hours, i, t.hour + 1, u.hour); }
      HeadsLeast(s, u);
    }
  }

  lemma FirstOfMinute(s: Schedule, t: Time, i: nat, r: Time)
    requires WellFormed(s) && Fits(s, Hours, t)
    requires Splits(s.minutes, i, t.minute + 1) && i < |s.minutes|
    requires r == t.(minute := s.minutes[i], second := s.seconds[0], nanosecond := 0)
    ensures Evaluates(s, Minutes, t, Returned(r))
  {
    forall u: Time | Matches(s, u) && After(Minutes, t, u) ensures !Before(u, r) {
      if !After(Hours, t, u) { SplitLeast(s.minutes, i, t.minute + 1, u.minute); }
      HeadsLeast(s, u);
    }
  }

  lemma FirstOfSecond(s: Schedule, t: Time, i: nat, r: Time)
    requires WellFormed(s) && Fits(s, Minutes, t)
    requires Splits(s.seconds, i, t.second + 1) && i < |s.seconds|
    requires r == t.(second := s.seconds[i], nanosecond := 0)
    ensures Evaluates(s, Nanoseconds, t, Returned(r))
  {
    forall u: Time | Matches(s, u) && After(Nanoseconds, t, u) ensures !Before(u, r) {
      if !After(Minutes, t, u) && u.second != t.second { SplitLeast(s.seconds, i, t.second + 1, u.second); }
      HeadsLeast(s, u);
    }
  }

  /** An empty first month of the next year is passed over. */
  lemma SkipYearHead(s: Schedule, t: Time, i: nat, head: Time, o: Outcome<Time>)
    requires WellFormed(s) && Splits(s.years, i, t.year + 1) && i < |s.years|
    requires head.year == s.years[i] && head.month == s.months[0]
    requires IsDayList(s, head.year, head.month, []) && Evaluates(s, Months, head, o)
    ensures Evaluates(s, Years, t, o)
  {
    forall u: Time | Matches(s, u) && After(Years, t, u) ensures After(Months, head, u) {
      SplitLeast(s.years, i, t.year + 1, u.year);
      HeadsLeast(s, u);
      assert u.day !in [];
    }
  }

  /** An empty next month is passed over. */
  lemma SkipMonth(s: Schedule, t: Time, i: nat, head: Time, o: Outcome<Time>)
    requires WellFormed(s) && Splits(s.months, i, t.month + 1) && i < |s.months|
    requires head.year == t.year && head.month == s.months[i]
    requires IsDayList(s, head.year, head.month, []) && Evaluates(s, Months, head, o)
    ensures Evaluates(s, Months, t, o)
  {
    forall u: Time | Matches(s, u) && After(Months, t, u) ensures After(Months, head, u) {
      if u.year == t.year { SplitLeast(s.months, i, t.month + 1, u.month); }
      assert u.day !in [];
    }
  }

  // Where a field of `t` is past every listed value, or between two, nothing fires before the next
  // higher field moves on, or before this one does.

  lemma MissedYear(s: Schedule, t: Time, i: nat)
    requires InRange(s) && Splits(s.years, i, t.year)
    ensures i == |s.years| ==> Evaluates(s, Nanoseconds, t, Returned(ZERO_TIME))
    ensures i < |s.years| && s.years[i] != t.year ==> NoneBetween(s, Years, Nanoseconds, t)
  {
    forall p, u: Time | Fits(s, p, u) && After(p, t, u)
      ensures i < |s.years| && (s.years[i] == t.year || After(Years, t, u))
    {
      SplitLeast(s.years, i, t.year, u.year);
    }
  }

  lemma NoLaterYear(s: Schedule, t: Time)
    requires Splits(s.years, |s.years|, t.year + 1)
    ensures Evaluates(s, Years, t, Returned(ZERO_TIME))
  {
  }

  lemma MissedEmptyMonth(s: Schedule, t: Time)
    requires IsDayList(s, t.year, t.month, [])
    ensures NoneBetween(s, Months, Nanoseconds, t)
  {
    forall p, u: Time | Rank(p) >= Rank(Days) && Fits(s, p, u) && After(p, t, u) ensures After(Months, t, u) {
      assert u.day !in [];
    }
  }

  lemma MissedMonth(s: Schedule, t: Time, i: nat)
    requires InRange(s) && Splits(s.months, i, t.month)
    ensures i == |s.months| ==> NoneBetween(s, Years, Nanoseconds, t)
    ensures i < |s.months| && s.months[i] != t.month ==> NoneBetween(s, Months, Nanoseconds, t)
  {
    forall p, u: Time | Rank(p) >= Rank(Months) && Fits(s, p, u) && After(p, t, u) && !After(Years, t, u)
      ensures i < |s.months| && (s.months[i] == t.month || After(Months, t, u))
    {
      SplitLeast(s.months, i, t.month, u.month);
    }
  }

  lemma MissedDay(s: Schedule, t: Time, i: nat, days: seq<int>)
    requires Splits(days, i, t.day) && IsDayList(s, t.year, t.month, days)
    ensures i == |days| ==> NoneBetween(s, Months, Nanoseconds, t)
    ensures i < |days| && days[i] != t.day ==> NoneBetween(s, Days, Nanoseconds, t)
  {
    hide DayHit;
    forall p, u: Time | Rank(p) >= Rank(Days) && Fits(s, p, u) && After(p, t, u) && !After(Months, t, u)
      ensures u.day in days
    {
    }
  }

  lemma MissedHour(s: Schedule, t: Time, i: nat)
    requires InRange(s) && Splits(s.hours, i, t.hour)
    ensures i == |s.hours| ==> NoneBetween(s, Days, Nanoseconds, t)
    ensures i < |s.hours| && s.hours[i] != t.hour ==> NoneBetween(s, Hours, Nanoseconds, t)
  {
    forall p, u: Time | Rank(p) >= Rank(Hours) && Fits(s, p, u) && After(p, t, u) && !After(Days, t, u)
      ensures i < |s.hours| && (s.hours[i] == t.hour || After(Hours, t, u))
    {
      SplitLeast(s.hours, i, t.hour, u.hour);
    }
  }

  lemma MissedMinute(s: Schedule, t: Time, i: nat)
    requires InRange(s) && Splits(s.minutes, i, t.minute)
    ensures i == |s.minutes| ==> NoneBetween(s, Hours, Nanoseconds, t)
    ensures i < |s.minutes| && s.minutes[i] != t.minute ==> NoneBetween(s, Minutes, Nanoseconds, t)
  {
    forall p, u: Time | Rank(p) >= Rank(Minutes) && Fits(s, p, u) && After(p, t, u) && !After(Hours, t, u)
      ensures i < |s.minutes| && (s.minutes[i] == t.minute || After(Minutes, t, u))
    {
      SplitLeast(s.minutes, i, t.minute, u.minute);
    }
  }

  lemma MissedSecond(s: Schedule, t: Time)
    requires Splits(s.seconds, |s.seconds|, t.second)
    ensures NoneBetween(s, Minutes, Nanoseconds, t)
  {
  }

  // ------------------------------------------------------------ Weekday arithmetic of one month

  /** Weekday of a day from the weekday of the first. */
  lemma WeekdayFromFirst(y: int, m: int, d: int)
    requires 1 <= m <= 12
    ensures Weekday(y, m, d) == (Weekday(y, m, 1) + d - 1) % 7
  {
    WeekdayShift(y, m, 1, d - 1);
  }

  /** The column `(7 - first + w) % 7` of the offset table holds exactly the days with weekday `w`. */
  lemma OffsetColumn(y: int, m: int, w: int, d: int)
    requires 1 <= m <= 12 && 0 <= w < 7
    ensures Weekday(y, m, d) == w <==> (d - 1) % 7 == (7 - Weekday(y, m, 1) + w) % 7
  {
    hide Weekday;
    WeekdayFromFirst(y, m, d);
  }

  /** Up to day `d` there are `d / 7` full weeks, and one more hit once `d`'s own column is reached. */
  lemma {:induction false} CountByColumn(y: int, m: int, w: int, d: nat)
    requires 1 <= m <= 12 && 0 <= w < 7
    ensures WeekdayCount(y, m, w, d) == (d + 6 - (7 - Weekday(y, m, 1) + w) % 7) / 7
  {
    hide Weekday;
    if d > 0 {
      CountByColumn(y, m, w, d - 1);
      OffsetColumn(y, m, w, d);
    }
  }

  /** The `#` formula: day `1 + 7 * (code / 7) + (7 - first + code) % 7` is the only candidate. */
  lemma NthWeekdayFormula(y: int, m: int, d: nat, code: int)
    requires 1 <= m <= 12 && 0 <= code && 1 <= d
    ensures NthWeekday(y, m, d, code) <==> d == 1 + 7 * (code / 7) + (7 - Weekday(y, m, 1) + code) % 7
  {
    var w := code % 7;
    var first := Weekday(y, m, 1);
    OffsetColumn(y, m, w, d);
    CountByColumn(y, m, w, d);
    ModAbsorbs(7 - first, code);
    ColumnAndRow(d, (7 - first + w) % 7, code / 7);
  }

  /** A day is the last with its weekday exactly if it is in the last seven days. */
  lemma LastSevenDays(y: int, m: int, d: int)
    requires 1 <= m <= 12 && 1 <= d <= DaysInMonth(y, m)
    ensures LastOfItsWeekday(y, m, d) <==> d >= DaysInMonth(y, m) - 6
  {
    hide Weekday;
    if d < DaysInMonth(y, m) - 6 {
      WeekdayShift(y, m, d, 7);
      assert Weekday(y, m, d + 7) == Weekday(y, m, d);
    } else {
      forall e | d < e <= DaysInMonth(y, m) ensures Weekday(y, m, e) != Weekday(y, m, d) {
        WeekdayShift(y, m, d, e - d);
      }
    }
  }

  /** The `L` formula, counted from the day a week before the month ends. */
  lemma LastWeekdayFormula(y: int, m: int, d: int, w: int)
    requires 1 <= m <= 12 && 0 <= w < 7 && 1 <= d <= DaysInMonth(y, m)
    ensures var origin := DaysInMonth(y, m) - 6;
            (Weekday(y, m, d) == w && LastOfItsWeekday(y, m, d))
            <==> d == origin + (7 - Weekday(y, m, origin) + w) % 7
  {
    hide Weekday, LastOfItsWeekday;
    var origin := DaysInMonth(y, m) - 6;
    LastSevenDays(y, m, d);
    if d >= origin {
      WeekdayShift(y, m, origin, d - origin);
      DayOfWeek(Weekday(y, m, origin), w, d - origin);
    }
  }

  // ------------------------------------------------------------ Workdays

  /** What the workday correction returns for a day of the month. */
  function WorkdayFor(dom: int, dow: int, lastDom: int): int {
    if dow == 6 then (if dom > 1 then dom - 1 else dom + 2)
    else if dow == 0 then (if dom < lastDom then dom + 1 else dom - 2)
    else dom
  }

  lemma WorkdayForIsNearest(y: int, m: int, v: int)
    requires 1 <= m <= 12 && 1 <= v <= DaysInMonth(y, m)
    ensures NearestWorkday(y, m, v, WorkdayFor(v, Weekday(y, m, v), DaysInMonth(y, m)))
  {
    hide Weekday;
    WeekdayShift(y, m, v, 1);
    WeekdayShift(y, m, v, 2);
    WeekdayShift(y, m, v, -1);
    WeekdayShift(y, m, v, -2);
    assert 0 <= Weekday(y, m, v) < 7;
  }

  lemma NearestWorkdayUnique(y: int, m: int, v: int, d: int, e: int)
    requires 1 <= m <= 12 && 1 <= v <= DaysInMonth(y, m)
    requires NearestWorkday(y, m, v, d) && NearestWorkday(y, m, v, e)
    ensures d == e
  {
    hide Weekday;
    WeekdayShift(y, m, v, d - v);
    WeekdayShift(y, m, v, e - v);
    WorkdayForIsNearest(y, m, v);
  }

  /** The workday nearest to the last day of the month is the last workday. */
  lemma NearestToLast(y: int, m: int, d: int)
    requires 1 <= m <= 12
    ensures NearestWorkday(y, m, DaysInMonth(y, m), d) <==> LastWorkday(y, m, d)
  {
    hide Weekday;
    var last := DaysInMonth(y, m);
    WorkdayForIsNearest(y, m, last);
    var w := WorkdayFor(last, Weekday(y, m, last), last);
    assert IsWorkday(y, m, w);
    if LastWorkday(y, m, d) {
      assert w <= d;
    }
  }
}
