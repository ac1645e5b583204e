/** The expression object and its evaluation: day lists, `Next` and `NextN`. */
module CronExpression {
  import opened Outcomes
  import opened Calendar
  import opened SetIteration
  import opened SortedInts
  import opened CronSchedule
  import opened WeekArithmetic
  import opened CronFields

  /** 0..59, from which "every day" is cut. */
  const GENERIC_DEFAULT_LIST: seq<int> := seq(60, i => i)

  /** Row k: the days of a month that lie k days after a day 1, 8, 15, 22 or 29. */
  const DOW_NORMALIZED_OFFSETS: seq<seq<int>> := [
    [1, 8, 15, 22, 29],
    [2, 9, 16, 23, 30],
    [3, 10, 17, 24, 31],
    [4, 11, 18, 25],
    [5, 12, 19, 26],
    [6, 13, 20, 27],
    [7, 14, 21, 28]
  ]

  /** The nearest workday inside the month: Saturday goes back to Friday, Sunday on to Monday,
      unless that leaves the month. */
  method WorkdayOfMonth(target: (int, int, int), last: (int, int, int)) returns (dom: int)
    requires ValidDate(target.0, target.1, target.2)
    requires last == (target.0, target.1, DaysInMonth(target.0, target.1))
    ensures NearestWorkday(target.0, target.1, target.2, dom)
  {
    dom := target.2;
    var dow := Weekday(target.0, target.1, target.2);
    if dow == 6 {
      if dom > 1 {
        dom := dom - 1;
      } else {
        dom := dom + 2;
      }
    } else if dow == 0 {
      if dom < last.2 {
        dom := dom + 1;
      } else {
        dom := dom - 2;
      }
    }
    WorkdayForIsNearest(target.0, target.1, target.2);
  }

  /** Adds to `days` what the day-of-month field selects. */
  method AddDaysOfMonth(y: int, m: int, lastDay: int, days: set<int>, daysOfMonth: set<int>) returns (r: set<int>)
    requires 1 <= m <= 12 && lastDay == DaysInMonth(y, m)
    ensures forall d :: d in r <==> d in days || (d in daysOfMonth && d <= lastDay)
  {
    r := days;
    var rest := daysOfMonth;
    while rest != {}
      invariant rest <= daysOfMonth
      invariant forall d :: d in r <==> d in days || (d in daysOfMonth - rest && d <= lastDay)
      decreases |rest|
    {
      var v := Pick(rest);
      rest := rest - {v};
      if v <= lastDay {
        r := r + {v};
      }
    }
  }

  /** Adds to `days` the workdays nearest to the given days. */
  method AddWorkdays(y: int, m: int, lastDay: int, days: set<int>, workdaysOfMonth: set<int>) returns (r: set<int>)
    requires 1 <= m <= 12 && lastDay == DaysInMonth(y, m) && SetWithin(workdaysOfMonth, 1, 31)
    ensures forall d :: d in r <==>
                     d in days
                     || exists v :: v in workdaysOfMonth && v <= lastDay && NearestWorkday(y, m, v, d)
  {
    r := days;
    var last := AddDate(y, m, 1, 1, -1);
    BackFromMonthEnd(y, m, 1);
    var rest := workdaysOfMonth;
    while rest != {}
      invariant rest <= workdaysOfMonth
      invariant forall d :: d in r <==>
                         d in days
                         || exists v :: v in workdaysOfMonth && v !in rest && v <= lastDay && NearestWorkday(y, m, v, d)
      decreases |rest|
    {
      var v := Pick(rest);
      rest := rest - {v};
      if v <= lastDay {
        AddDaysInMonth(y, m, v);
        var dom := WorkdayOfMonth(AddDate(y, m, 1, 0, v - 1), last);
        forall d | NearestWorkday(y, m, v, d) ensures d == dom {
          NearestWorkdayUnique(y, m, v, d, dom);
        }
        r := r + {dom};
      }
    }
  }

  /** Row `c` of the table is the days `c + 1`, `c + 8`, ... of a month of at most 31 days. */
  lemma TableRow(c: int)
    requires 0 <= c < 7
    ensures var w := DOW_NORMALIZED_OFFSETS[c];
            && |w| == (if c < 3 then 5 else 4)
            && w[0] == c + 1 && w[1] == c + 8 && w[2] == c + 15 && w[3] == c + 22
            && (c < 3 ==> w[4] == c + 29)
  {
    assert c == 0 || c == 1 || c == 2 || c == 3 || c == 4 || c == 5 || c == 6;
  }

  /** The row `c` that the offset selects, cut at the month end, is the days of weekday `w`. */
  lemma RowOfWeekday(y: int, m: int, lastDay: int, w: int, c: int, d: int)
    requires 1 <= m <= 12 && lastDay == DaysInMonth(y, m) && 0 <= w < 7 && c == (7 - Weekday(y, m, 1) + w) % 7
    ensures d == c + 1 || d == c + 8 || d == c + 15 || d == c + 22 || (c + 29 <= lastDay && d == c + 29)
            <==> 1 <= d <= lastDay && Weekday(y, m, d) == w
  {
    OffsetColumn(y, m, w, d);
    RowOfColumn(c, d, lastDay);
  }

  /** Adds to `days` every day whose weekday is given. */
  method AddWeekdays(y: int, m: int, lastDay: int, days: set<int>, daysOfWeek: set<int>) returns (r: set<int>)
    requires 1 <= m <= 12 && lastDay == DaysInMonth(y, m) && SetWithin(daysOfWeek, 0, 6)
    ensures forall d :: d in r <==> d in days || (1 <= d <= lastDay && Weekday(y, m, d) in daysOfWeek)
  {
    hide Weekday;
    r := days;
    var offset := 7 - Weekday(y, m, 1);
    assert 1 <= offset <= 7;
    var rest := daysOfWeek;
    while rest != {}
      invariant rest <= daysOfWeek
      invariant forall d :: d in r <==>
                         d in days
                         || (1 <= d <= lastDay && Weekday(y, m, d) in daysOfWeek && Weekday(y, m, d) !in rest)
      decreases |rest|
    {
      var v := Pick(rest);
      rest := rest - {v};
      var w := DOW_NORMALIZED_OFFSETS[(offset + v) % 7];
      TableRow((offset + v) % 7);
      var column := {w[0], w[1], w[2], w[3]};
      if |w| > 4 && w[4] <= lastDay {
        column := column + {w[4]};
      }
      forall d ensures d in column <==> 1 <= d <= lastDay && Weekday(y, m, d) == v {
        RowOfWeekday(y, m, lastDay, v, (offset + v) % 7, d);
      }
      r := r + column;
    }
  }

  /** Adds to `days` the nth weekdays of the month. */
  method AddNthWeekdays(y: int, m: int, lastDay: int, days: set<int>, codes: set<int>) returns (r: set<int>)
    requires 1 <= m <= 12 && lastDay == DaysInMonth(y, m) && SetWithin(codes, 0, 34)
    ensures forall d :: d in r <==>
                     d in days
                     || (1 <= d <= lastDay && exists code :: code in codes && NthWeekday(y, m, d, code))
  {
    r := days;
    var offset := 7 - Weekday(y, m, 1);
    var rest := codes;
    while rest != {}
      invariant rest <= codes
      invariant forall d :: d in r <==>
                         d in days
                         || (1 <= d <= lastDay
                             && exists code :: code in codes && code !in rest && NthWeekday(y, m, d, code))
      decreases |rest|
    {
      var code := Pick(rest);
      rest := rest - {code};
      var v := 1 + 7 * (code / 7) + (offset + code) % 7;
      forall d: nat | 1 <= d ensures NthWeekday(y, m, d, code) <==> d == v {
        NthWeekdayFormula(y, m, d, code);
      }
      if v <= lastDay {
        r := r + {v};
      }
    }
  }

  /** Adds to `days` the last days of the month with the given weekdays. */
  method AddLastWeekdays(y: int, m: int, lastDay: int, days: set<int>, weekdays: set<int>) returns (r: set<int>)
    requires 1 <= m <= 12 && lastDay == DaysInMonth(y, m) && SetWithin(weekdays, 0, 6)
    ensures forall d :: d in r <==>
                     d in days
                     || (1 <= d <= lastDay && Weekday(y, m, d) in weekdays && LastOfItsWeekday(y, m, d))
  {
    r := days;
    var lastWeekOrigin := AddDate(y, m, 1, 1, -7);
    BackFromMonthEnd(y, m, 7);
    var offset := 7 - Weekday(lastWeekOrigin.0, lastWeekOrigin.1, lastWeekOrigin.2);
    var rest := weekdays;
    while rest != {}
      invariant rest <= weekdays
      invariant forall d :: d in r <==>
                         d in days
                         || (1 <= d <= lastDay && Weekday(y, m, d) in weekdays - rest && LastOfItsWeekday(y, m, d))
      decreases |rest|
    {
      var w := Pick(rest);
      rest := rest - {w};
      var v := lastWeekOrigin.2 + (offset + w) % 7;
      forall d | 1 <= d <= lastDay
        ensures (Weekday(y, m, d) == w && LastOfItsWeekday(y, m, d)) <==> d == v
      {
        LastWeekdayFormula(y, m, d, w);
      }
      if v <= lastDay {
        r := r + {v};
      }
    }
  }

  class Expression {
    var secondList: seq<int>
    var minuteList: seq<int>
    var hourList: seq<int>
    var daysOfMonth: set<int>
    var workdaysOfMonth: set<int>
    var lastDayOfMonth: bool
    var lastWorkdayOfMonth: bool
    var daysOfMonthRestricted: bool
    var actualDaysOfMonthList: seq<int>
    var monthList: seq<int>
    var daysOfWeek: set<int>
    var specificWeekDaysOfWeek: set<int>
    var lastWeekDaysOfWeek: set<int>
    var daysOfWeekRestricted: bool
    var yearList: seq<int>

    /** The parsed fields; everything but the cache. */
    ghost function Fields(): Schedule
      reads this
    {
      Schedule(secondList, minuteList, hourList, daysOfMonth, workdaysOfMonth, lastDayOfMonth, lastWorkdayOfMonth,
               daysOfMonthRestricted, monthList, daysOfWeek, specificWeekDaysOfWeek, lastWeekDaysOfWeek,
               daysOfWeekRestricted, yearList)
    }

    /** The cache holds the day list of the month of `t`. */
    ghost predicate CacheFor(t: Time)
      reads this
    {
      IsDayList(Fields(), t.year, t.month, actualDaysOfMonthList)
    }

    /** A zero expression, all of whose fields are still unset. */
    constructor ()
      ensures Fields() == Schedule([], [], [], {}, {}, false, false, false, [], {}, {}, {}, false, [])
    {
      secondList, minuteList, hourList := [], [], [];
      daysOfMonth, workdaysOfMonth := {}, {};
      lastDayOfMonth, lastWorkdayOfMonth, daysOfMonthRestricted := false, false, false;
      actualDaysOfMonthList, monthList, yearList := [], [], [];
      daysOfWeek, specificWeekDaysOfWeek, lastWeekDaysOfWeek := {}, {}, {};
      daysOfWeekRestricted := false;
    }

    /** Stores what one day-of-month directive says, unless it is a special entry of another field. */
    method ApplyDomDirective(d: Directive, ghost e: Entry, ghost before: seq<Entry>) returns (read: bool)
      requires d == DirectiveOf(e, DOM) && !BadInterval(e, DOM) && DomDescribed(before, Fields())
      modifies this`daysOfMonthRestricted, this`lastDayOfMonth, this`lastWorkdayOfMonth, this`daysOfMonth,
               this`workdaysOfMonth
      ensures read <==> DomReads(e)
      ensures read ==> DomDescribed(before + [e], Fields())
    {
      hide Covers, FieldCovers, DomDescribed, BadInterval;
      ghost var stored := Fields();
      SpecialCoversNothing(e);
      if d.kind == None {
        if d.special == LastDom {
          lastDayOfMonth := true;
        } else if d.special == LastWorkdom {
          lastWorkdayOfMonth := true;
        } else if d.special.Workdom? {
          workdaysOfMonth := workdaysOfMonth + {d.special.day};
        } else {
          return false;
        }
      } else {
        daysOfMonth := Populate(daysOfMonth, e, DOM, d);
        if d.kind == All {
          daysOfMonthRestricted := false;
        }
      }
      DomStep(before, e, stored, Fields());
      read := true;
    }

    /** Stores what the day-of-month entries say, or reports the entry it cannot read. */
    method DomFieldHandler(entries: seq<Entry>) returns (r: Result<()>)
      requires AllLexed(entries, DOM)
      modifies this`daysOfMonthRestricted, this`lastDayOfMonth, this`lastWorkdayOfMonth, this`daysOfMonth,
               this`workdaysOfMonth
      ensures r.Ok? <==> GoodDomField(entries)
      ensures r.Ok? ==> DomDescribed(entries, Fields())
      ensures r.Err? ==> IsDomError(entries, r.error)
    {
      hide DomDescribed, DomReads;
      daysOfMonthRestricted := true;
      lastDayOfMonth := false;
      lastWorkdayOfMonth := false;
      daysOfMonth := {};
      workdaysOfMonth := {};

      var parsed := GenericFieldParse(entries, DOM);
      if parsed.Err? {
        return Err(parsed.error);
      }
      DomStart(Fields());
      assert entries[..0] == [];
      for i := 0 to |entries|
        invariant DomDescribed(entries[..i], Fields())
        invariant forall k :: 0 <= k < i ==> DomReads(entries[k])
      {
        assert entries[i] in entries;
        var read := ApplyDomDirective(parsed.value[i], entries[i], entries[..i]);
        if !read {
          return Err(SyntaxError(i));
        }
        assert entries[..i + 1] == entries[..i] + [entries[i]];
      }
      assert entries[..|entries|] == entries;
      r := Ok(());
    }

    /** Stores what one day-of-week directive says, unless it is a special entry of another field. */
    method ApplyDowDirective(d: Directive, ghost e: Entry, ghost before: seq<Entry>) returns (read: bool)
      requires d == DirectiveOf(e, DOW) && !BadInterval(e, DOW) && DowDescribed(before, Fields())
      modifies this`daysOfWeekRestricted, this`daysOfWeek, this`lastWeekDaysOfWeek, this`specificWeekDaysOfWeek
      ensures read <==> DowReads(e)
      ensures read ==> DowDescribed(before + [e], Fields())
    {
      hide Covers, FieldCovers, DowDescribed, BadInterval;
      ghost var stored := Fields();
      SpecialCoversNothing(e);
      if d.kind == None {
        if d.special.DowOfLastWeek? {
          lastWeekDaysOfWeek := lastWeekDaysOfWeek + {d.special.dow};
        } else if d.special.DowOfSpecificWeek? {
          specificWeekDaysOfWeek := specificWeekDaysOfWeek + {(d.special.week - 1) * 7 + d.special.dow % 7};
        } else {
          return false;
        }
      } else {
        daysOfWeek := Populate(daysOfWeek, e, DOW, d);
        if d.kind == All {
          daysOfWeekRestricted := false;
        }
      }
      DowStep(before, e, stored, Fields());
      read := true;
    }

    /** Stores what the day-of-week entries say, or reports the entry it cannot read. */
    method DowFieldHandler(entries: seq<Entry>) returns (r: Result<()>)
      requires AllLexed(entries, DOW)
      modifies this`daysOfWeekRestricted, this`daysOfWeek, this`lastWeekDaysOfWeek, this`specificWeekDaysOfWeek
      ensures r.Ok? <==> GoodDowField(entries)
      ensures r.Ok? ==> DowDescribed(entries, Fields())
      ensures r.Err? ==> IsDowError(entries, r.error)
    {
      hide DowDescribed, DowReads;
      daysOfWeekRestricted := true;
      daysOfWeek := {};
      lastWeekDaysOfWeek := {};
      specificWeekDaysOfWeek := {};

      var parsed := GenericFieldParse(entries, DOW);
      if parsed.Err? {
        return Err(parsed.error);
      }
      DowStart(Fields());
      assert entries[..0] == [];
      for i := 0 to |entries|
        invariant DowDescribed(entries[..i], Fields())
        invariant forall k :: 0 <= k < i ==> DowReads(entries[k])
      {
        assert entries[i] in entries;
        var read := ApplyDowDirective(parsed.value[i], entries[i], entries[..i]);
        if !read {
          return Err(SyntaxError(i));
        }
        assert entries[..i + 1] == entries[..i] + [entries[i]];
      }
      assert entries[..|entries|] == entries;
      r := Ok(());
    }

    /** The five fields every line has, in their order on the line. */
    method MandatoryFields(minute: seq<Entry>, hour: seq<Entry>, dom: seq<Entry>, month: seq<Entry>, dow: seq<Entry>)
      returns (r: Result<()>)
      requires AllLexed(minute, MINUTE) && AllLexed(hour, HOUR) && AllLexed(dom, DOM) && AllLexed(month, MONTH)
      requires AllLexed(dow, DOW)
      modifies this
      ensures r.Ok? <==>
              && GoodListField(minute, MINUTE) && GoodListField(hour, HOUR) && GoodDomField(dom)
              && GoodListField(month, MONTH) && GoodDowField(dow)
      ensures r.Ok? ==>
                && ListDescribed(minute, MINUTE, minuteList) && ListDescribed(hour, HOUR, hourList)
                && DomDescribed(dom, Fields()) && ListDescribed(month, MONTH, monthList) && DowDescribed(dow, Fields())
      ensures r.Err? ==> IsMandatoryError(minute, hour, dom, month, dow, r.error)
      ensures secondList == old(secondList)
    {
      hide ListDescribed, DomDescribed, DowDescribed, GoodDomField, GoodDowField, GoodListField, AllLexed;
      hide IsListError, IsDomError, IsDowError;
      var minutes := GenericFieldHandler(minute, MINUTE);
      if minutes.Err? { return Err(minutes.error); }
      minuteList := minutes.value;

      var hours := GenericFieldHandler(hour, HOUR);
      if hours.Err? { return Err(hours.error); }
      hourList := hours.value;

      r := DomFieldHandler(dom);
      if r.Err? { return; }
      ghost var stored := Fields();

      var months := GenericFieldHandler(month, MONTH);
      if months.Err? { return Err(months.error); }
      monthList := months.value;

      r := DowFieldHandler(dow);
      if r.Err? { return; }
      DomStands(dom, stored, Fields());
    }

    method DaysOfMonthHits(year: int, month: int) returns (days: set<int>)
      requires InRange(Fields()) && 1 <= month <= 12
      ensures forall d :: d in days <==> 1 <= d <= DaysInMonth(year, month) && DayOfMonthHit(Fields(), year, month, d)
    {
      var last := AddDate(year, month, 1, 1, -1);
      BackFromMonthEnd(year, month, 1);
      days := {};
      if lastDayOfMonth {
        days := days + {last.2};
      }
      if lastWorkdayOfMonth {
        var dom := WorkdayOfMonth(last, last);
        NearestToLast(year, month, dom);
        days := days + {dom};
      }
      days := AddDaysOfMonth(year, month, last.2, days, daysOfMonth);
      days := AddWorkdays(year, month, last.2, days, workdaysOfMonth);
    }

    /** Exactly the days of the month on which the schedule fires, ascending. */
    method CalculateActualDaysOfMonth(year: int, month: int) returns (list: seq<int>)
      requires InRange(Fields()) && 1 <= month <= 12
      ensures IsDayList(Fields(), year, month, list)
    {
      var last := AddDate(year, month, 1, 1, -1);
      BackFromMonthEnd(year, month, 1);

      if !daysOfMonthRestricted && !daysOfWeekRestricted {
        list := GENERIC_DEFAULT_LIST[1..last.2 + 1];
        forall d | 1 <= d <= last.2 ensures d in list {
          assert list[d - 1] == d;
        }
        return;
      }

      var days: set<int> := {};
      if daysOfMonthRestricted {
        days := DaysOfMonthHits(year, month);
      }
      if daysOfWeekRestricted {
        days := AddWeekdays(year, month, last.2, days, daysOfWeek);
        days := AddNthWeekdays(year, month, last.2, days, specificWeekDaysOfWeek);
        days := AddLastWeekdays(year, month, last.2, days, lastWeekDaysOfWeek);
      }
      list := ToList(days);
    }

    /** The cache is left right for the month of the time found. */
    ghost predicate CacheFits(o: Outcome<Time>)
      reads this
    {
      o.Returned? && o.value != ZERO_TIME ==> CacheFor(o.value)
    }

    /** The earliest match in a later year than `t`. */
    method NextYear(t: Time) returns (o: Outcome<Time>)
      requires InRange(Fields())
      modifies this`actualDaysOfMonthList
      ensures Fields() == old(Fields())
      ensures Evaluates(Fields(), Years, t, o) && CacheFits(o)
      decreases 2100 - t.year, 0
    {
      hide Evaluates, DayHit;
      ghost var s := Fields();
      var i := SearchInts(yearList, t.year + 1);
      if i == |yearList| {
        NoLaterYear(s, t);
        return Returned(ZERO_TIME);
      }
      HeadMissing(s, Years, t, RawTime.Time(yearList[i], 1, 1, 0, 0, 0, 0));
      var month :- Head(monthList);
      actualDaysOfMonthList := CalculateActualDaysOfMonth(yearList[i], month);
      assert Fields() == s && IsDayList(s, yearList[i], month, actualDaysOfMonthList);
      var hour :- Head(hourList);
      var minute :- Head(minuteList);
      var second :- Head(secondList);
      if |actualDaysOfMonthList| == 0 {
        var head := RawTime.Time(yearList[i], month, 1, hour, minute, second, 0);
        o := NextMonth(head);
        SkipYearHead(s, t, i, head, o);
        return;
      }
      assert actualDaysOfMonthList[0] in actualDaysOfMonthList;
      var r := RawTime.Time(yearList[i], month, actualDaysOfMonthList[0], hour, minute, second, 0);
      FirstOfYear(s, t, i, actualDaysOfMonthList, r);
      o := Returned(r);
    }

    /** The earliest match in a later month than that of `t`. */
    method NextMonth(t: Time) returns (o: Outcome<Time>)
      requires InRange(Fields()) && t.year in yearList
      modifies this`actualDaysOfMonthList
      ensures Fields() == old(Fields())
      ensures Evaluates(Fields(), Months, t, o) && CacheFits(o)
      decreases 2100 - t.year, 13 - t.month
    {
      hide Evaluates, DayHit;
      ghost var s := Fields();
      var i := SearchInts(monthList, t.month + 1);
      if i == |monthList| {
        o := NextYear(t);
        Carry(s, Years, Months, t, o);
        return;
      }
      HeadMissing(s, Months, t, RawTime.Time(t.year, monthList[i], 1, 0, 0, 0, 0));
      actualDaysOfMonthList := CalculateActualDaysOfMonth(t.year, monthList[i]);
      assert Fields() == s && IsDayList(s, t.year, monthList[i], actualDaysOfMonthList);
      var hour :- Head(hourList);
      var minute :- Head(minuteList);
      var second :- Head(secondList);
      if |actualDaysOfMonthList| == 0 {
        var head := RawTime.Time(t.year, monthList[i], 1, hour, minute, second, 0);
        o := NextMonth(head);
        SkipMonth(s, t, i, head, o);
        return;
      }
      assert actualDaysOfMonthList[0] in actualDaysOfMonthList;
      var r := RawTime.Time(t.year, monthList[i], actualDaysOfMonthList[0], hour, minute, second, 0);
      FirstOfMonth(s, t, i, actualDaysOfMonthList, r);
      o := Returned(r);
    }

    /** The earliest match on a later day than that of `t`, whose month the cache describes. */
    method NextDayOfMonth(t: Time) returns (o: Outcome<Time>)
      requires InRange(Fields()) && t.year in yearList && t.month in monthList && CacheFor(t)
      modifies this`actualDaysOfMonthList
      ensures Fields() == old(Fields())
      ensures Evaluates(Fields(), Days, t, o) && CacheFits(o)
    {
      hide Evaluates;
      ghost var s := Fields();
      var i := SearchInts(actualDaysOfMonthList, t.day + 1);
      if i == |actualDaysOfMonthList| {
        o := NextMonth(t);
        Carry(s, Months, Days, t, o);
        return;
      }
      assert actualDaysOfMonthList[i] in actualDaysOfMonthList;
      HeadMissing(s, Days, t, RawTime.Time(t.year, t.month, actualDaysOfMonthList[i], 0, 0, 0, 0));
      var hour :- Head(hourList);
      var minute :- Head(minuteList);
      var second :- Head(secondList);
      var r := RawTime.Time(t.year, t.month, actualDaysOfMonthList[i], hour, minute, second, 0);
      FirstOfDay(s, t, i, actualDaysOfMonthList, r);
      o := Returned(r);
    }

    /** The earliest match in a later hour than that of `t`, on whose day the schedule fires. */
    method NextHour(t: Time) returns (o: Outcome<Time>)
      requires InRange(Fields()) && Fits(Fields(), Days, t) && CacheFor(t)
      modifies this`actualDaysOfMonthList
      ensures Fields() == old(Fields())
      ensures Evaluates(Fields(), Hours, t, o) && CacheFits(o)
    {
      hide Evaluates;
      ghost var s := Fields();
      var i := SearchInts(hourList, t.hour + 1);
      if i == |hourList| {
        o := NextDayOfMonth(t);
        Carry(s, Days, Hours, t, o);
        return;
      }
      HeadMissing(s, Hours, t, t.(hour := hourList[i]));
      var minute :- Head(minuteList);
      var second :- Head(secondList);
      var r := RawTime.Time(t.year, t.month, t.day, hourList[i], minute, second, 0);
      FirstOfHour(s, t, i, r);
      o := Returned(r);
    }

    /** The earliest match in a later minute than that of `t`, whose day and hour fit. */
    method NextMinute(t: Time) returns (o: Outcome<Time>)
      requires InRange(Fields()) && Fits(Fields(), Hours, t) && CacheFor(t)
      modifies this`actualDaysOfMonthList
      ensures Fields() == old(Fields())
      ensures Evaluates(Fields(), Minutes, t, o) && CacheFits(o)
    {
      hide Evaluates;
      ghost var s := Fields();
      var i := SearchInts(minuteList, t.minute + 1);
      if i == |minuteList| {
        o := NextHour(t);
        Carry(s, Hours, Minutes, t, o);
        return;
      }
      HeadMissing(s, Minutes, t, t.(minute := minuteList[i]));
      var second :- Head(secondList);
      var r := RawTime.Time(t.year, t.month, t.day, t.hour, minuteList[i], second, 0);
      FirstOfMinute(s, t, i, r);
      o := Returned(r);
    }

    /** The earliest match after `t`, all of whose fields above the second fit. */
    method NextSecond(t: Time) returns (o: Outcome<Time>)
      requires InRange(Fields()) && Fits(Fields(), Minutes, t) && CacheFor(t)
      modifies this`actualDaysOfMonthList
      ensures Fields() == old(Fields())
      ensures Evaluates(Fields(), Nanoseconds, t, o) && CacheFits(o)
    {
      hide Evaluates;
      ghost var s := Fields();
      var i := SearchInts(secondList, t.second + 1);
      if i == |secondList| {
        o := NextMinute(t);
        Carry(s, Minutes, Nanoseconds, t, o);
        return;
      }
      var r := RawTime.Time(t.year, t.month, t.day, t.hour, t.minute, secondList[i], 0);
      FirstOfSecond(s, t, i, r);
      o := Returned(r);
    }

    /** `Next` from its hour step on: the schedule fires on the day of `from`. */
    method NextOnDay(from: Time) returns (o: Outcome<Time>)
      requires InRange(Fields()) && Fits(Fields(), Days, from) && CacheFor(from)
      modifies this`actualDaysOfMonthList
      ensures Fields() == old(Fields())
      ensures Evaluates(Fields(), Nanoseconds, from, o) && CacheFits(o)
    {
      hide Evaluates, NoneBetween;
      ghost var s := Fields();
      var v := from.hour;
      var i := SearchInts(hourList, v);
      MissedHour(s, from, i);
      if i == |hourList| {
        o := NextDayOfMonth(from);
        Carry(s, Days, Nanoseconds, from, o);
        return;
      }
      if v != hourList[i] {
        o := NextHour(from);
        Carry(s, Hours, Nanoseconds, from, o);
        return;
      }
      assert from.hour in hourList;

      v := from.minute;
      i := SearchInts(minuteList, v);
      MissedMinute(s, from, i);
      if i == |minuteList| {
        o := NextHour(from);
        Carry(s, Hours, Nanoseconds, from, o);
        return;
      }
      if v != minuteList[i] {
        o := NextMinute(from);
        Carry(s, Minutes, Nanoseconds, from, o);
        return;
      }
      assert from.minute in minuteList;

      v := from.second;
      i := SearchInts(secondList, v);
      if i == |secondList| {
        MissedSecond(s, from);
        o := NextMinute(from);
        Carry(s, Minutes, Nanoseconds, from, o);
        return;
      }

      o := NextSecond(from);
    }

    /** `Next` from its day-of-month step on: year and month fit and the day list has been computed. */
    method NextInMonth(from: Time) returns (o: Outcome<Time>)
      requires InRange(Fields()) && from.year in yearList && from.month in monthList && CacheFor(from)
      modifies this`actualDaysOfMonthList
      ensures Fields() == old(Fields())
      ensures Evaluates(Fields(), Nanoseconds, from, o) && CacheFits(o)
    {
      hide Evaluates, NoneBetween;
      ghost var s := Fields();
      var v := from.day;
      var i := SearchInts(actualDaysOfMonthList, v);
      MissedDay(s, from, i, actualDaysOfMonthList);
      if i == |actualDaysOfMonthList| {
        o := NextMonth(from);
        Carry(s, Months, Nanoseconds, from, o);
        return;
      }
      if v != actualDaysOfMonthList[i] {
        o := NextDayOfMonth(from);
        Carry(s, Days, Nanoseconds, from, o);
        return;
      }
      o := NextOnDay(from);
    }

    /** The earliest match strictly after `from`, whatever earlier calls left in the cache. */
    method Next(from: Time) returns (o: Outcome<Time>)
      requires InRange(Fields())
      modifies this`actualDaysOfMonthList
      ensures Fields() == old(Fields())
      ensures from == ZERO_TIME ==> o == Returned(ZERO_TIME)
      ensures from != ZERO_TIME ==> Evaluates(Fields(), Nanoseconds, from, o)
      ensures CacheFits(o)
    {
      hide Evaluates, NoneBetween;
      ghost var s := Fields();
      if from == ZERO_TIME {
        return Returned(from);
      }

      var v := from.year;
      var i := SearchInts(yearList, v);
      MissedYear(s, from, i);
      if i == |yearList| {
        return Returned(ZERO_TIME);
      }
      if v != yearList[i] {
        o := NextYear(from);
        Carry(s, Years, Nanoseconds, from, o);
        return;
      }

      v := from.month;
      i := SearchInts(monthList, v);
      MissedMonth(s, from, i);
      if i == |monthList| {
        o := NextYear(from);
        Carry(s, Years, Nanoseconds, from, o);
        return;
      }
      if v != monthList[i] {
        o := NextMonth(from);
        Carry(s, Months, Nanoseconds, from, o);
        return;
      }

      actualDaysOfMonthList := CalculateActualDaysOfMonth(from.year, from.month);
      if |actualDaysOfMonthList| == 0 {
        MissedEmptyMonth(s, from);
        o := NextMonth(from);
        Carry(s, Months, Nanoseconds, from, o);
        return;
      }

      o := NextInMonth(from);
    }

    /** The first `n` matches after `from`, or all of them if there are fewer. */
    method NextN(from: Time, n: nat) returns (o: Outcome<seq<Time>>)
      requires InRange(Fields())
      modifies this`actualDaysOfMonthList
      ensures Fields() == old(Fields())
      ensures o.Panicked? <==> n > 0 && from != ZERO_TIME && Panics(Fields(), Nanoseconds, from)
      ensures o.Returned? && from == ZERO_TIME ==> o.value == []
      ensures o.Returned? && from != ZERO_TIME ==> FirstMatches(Fields(), from, n, o.value)
    {
      hide Matches, After, InRange;
      ghost var s := Fields();
      var times: seq<Time> := [];
      var left := n;
      if left > 0 {
        var t :- Next(from);
        while t != ZERO_TIME
          invariant Fields() == s && left == n - |times| && left > 0
          invariant from == ZERO_TIME ==> t == ZERO_TIME && times == []
          invariant from != ZERO_TIME ==>
                      Consecutive(s, from, times) && IsFirst(s, Nanoseconds, LastOr(from, times), t)
          invariant t != ZERO_TIME ==> Matches(s, t) && CacheFor(t)
          invariant from != ZERO_TIME ==> !Panics(s, Nanoseconds, from)
          decreases left
        {
          times := times + [t];
          left := left - 1;
          if left == 0 {
            break;
          }
          MatchIsComplete(s, t);
          var next := NextSecond(t);
          t := next.value;
        }
        if from != ZERO_TIME {
          ConsecutiveIsFirstMatches(s, from, n, times);
        }
      }
      o := Returned(times);
    }
  }

  /** Parses a line of five to seven fields (more are ignored): accepted exactly if every field is good,
      and then the new expression holds what the padded line says. */
  method Parse(fields: seq<seq<Entry>>) returns (r: Result<Expression>)
    requires |fields| >= 5 ==> LineLexed(Padded(fields))
    ensures r.Ok? <==> |fields| >= 5 && GoodLine(Padded(fields))
    ensures r.Ok? ==> fresh(r.value) && Described(Padded(fields), r.value.Fields())
    ensures r.Err? ==> if |fields| < 5 then r.error == MissingFields else IsLineError(Padded(fields), r.error)
  {
    hide ListDescribed, DomDescribed, DowDescribed, GoodDomField, GoodDowField, GoodListField, AllLexed, Padded;
    hide LineLexed, IsListError, IsMandatoryError;
    if |fields| < 5 {
      return Err(MissingFields);
    }
    var fieldCount := if |fields| > 7 then 7 else |fields|;
    ghost var line := Padded(fields);
    LexedFields(line);
    PaddedFields(fields);
    PaddingDescribed();
    var expr := new Expression();
    var field := 0;

    if fieldCount == 7 {
      var seconds := GenericFieldHandler(fields[field], SECOND);
      if seconds.Err? { return Err(seconds.error); }
      expr.secondList := seconds.value;
      field := field + 1;
    } else {
      expr.secondList := [0];
    }

    var mandatory := expr.MandatoryFields(fields[field], fields[field + 1], fields[field + 2], fields[field + 3],
                                          fields[field + 4]);
    if mandatory.Err? { return Err(mandatory.error); }
    field := field + 5;
    ghost var stored := expr.Fields();

    if field < fieldCount {
      var years := GenericFieldHandler(fields[field], YEAR);
      if years.Err? { return Err(years.error); }
      expr.yearList := years.value;
    } else {
      expr.yearList := YEAR.DefaultList();
    }
    DomStands(line[3], stored, expr.Fields());
    DowStands(line[5], stored, expr.Fields());
    r := Ok(expr);
  }
}
