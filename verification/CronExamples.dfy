/** What lines mean in plain numbers: the ranges of the fields, the readings of the layouts, the day rule, and days
    of the calendar of 2024. */
module CronExamples {
  import opened Outcomes
  import opened Calendar
  import opened SortedInts
  import opened CronSchedule
  import opened WeekArithmetic
  import opened CronFields

  // ------------------------------------------------------------ Ranges

  /** A field of one wildcard covers its whole range. */
  lemma OneWildcard(desc: Descriptor, v: int)
    ensures FieldCovers([Wildcard], desc, v) <==> desc.min <= v <= desc.max
  {
    assert Wildcard in [Wildcard];
  }

  /** A line of seven wildcards fires at every full second of the years 1970 to 2099. */
  lemma EveryWildcard(t: Time)
    ensures var any := [Wildcard];
            LineFires([any, any, any, any, any, any, any], t) <==> 1970 <= t.year <= 2099 && t.nanosecond == 0
  {
    OneWildcard(SECOND, t.second);
    OneWildcard(MINUTE, t.minute);
    OneWildcard(HOUR, t.hour);
    OneWildcard(MONTH, t.month);
    OneWildcard(YEAR, t.year);
    hide FieldCovers;
  }

  /** The other entries stay in the ranges, too: values from a step on, counted by remainder. */
  lemma CoversByRemainder(e: Entry, desc: Descriptor, v: int)
    requires !BadInterval(e, desc)
    ensures match e
            case Wildcard => Covers(e, desc, v) <==> desc.min <= v <= desc.max
            case Value(a) => Covers(e, desc, v) <==> v == a
            case Range(a, b) => Covers(e, desc, v) <==> a <= v <= b
            case WildcardStep(k) => Covers(e, desc, v) <==> desc.min <= v <= desc.max && (v - desc.min) % k == 0
            case ValueStep(a, k) => Covers(e, desc, v) <==> a <= v <= desc.max && (v - a) % k == 0
            case RangeStep(a, b, k) => Covers(e, desc, v) <==> a <= v <= b && (v - a) % k == 0
            case Other(_) => !Covers(e, desc, v)
  {
    match e
    case WildcardStep(k) => ProgressionByRemainder(desc.min, desc.max, k, v);
    case ValueStep(a, k) => ProgressionByRemainder(a, desc.max, k, v);
    case RangeStep(a, b, k) => ProgressionByRemainder(a, b, k, v);
    case _ =>
  }

  lemma ProgressionByRemainder(first: int, last: int, step: int, v: int)
    requires step >= 1
    ensures InProgression(first, last, step, v) <==> first <= v <= last && (v - first) % step == 0
  {
    if k: nat :| v <= last && v == Nth(first, step, k) {
      NthAscends(first, step, 0, k);
      MultipleRemainder(k, step);
    }
    if first <= v <= last && (v - first) % step == 0 {
      QuotientNotNegative(v - first, step);
      assert v == Nth(first, step, (v - first) / step);
    }
  }

  lemma {:induction false} MultipleRemainder(k: nat, step: int)
    requires step >= 1
    ensures (k * step) % step == 0
  {
    if k > 0 {
      MultipleRemainder(k - 1, step);
      var n := (k - 1) * step;
      assert k * step == n + step;
      assert (n + step) % step == n % step by { AddOnce(n, step); }
    }
  }

  lemma AddOnce(n: int, step: int)
    requires step >= 1
    ensures (n + step) % step == n % step
  {
    var q, r := n / step, n % step;
    assert n + step == (q + 1) * step + r;
    QuotientUnique(n + step, step, q + 1, r);
  }

  lemma QuotientUnique(n: int, step: int, q: int, r: int)
    requires step >= 1 && n == q * step + r && 0 <= r < step
    ensures n % step == r
  {
    var p, s := n / step, n % step;
    assert (p - q) * step == p * step - q * step;
    SmallMultiple(p - q, step, r - s);
  }

  lemma SmallMultiple(d: int, step: int, x: int)
    requires x == d * step && -step < x < step
    ensures x == 0
  {
    AtLeastOnce(if d < 0 then -d else d, step);
    assert d < 0 ==> d * step == -((-d) * step);
  }

  lemma AtLeastOnce(d: nat, step: int)
    requires step >= 1
    ensures d > 0 ==> d * step >= step
  {
    if d > 0 { assert d * step == (d - 1) * step + step; }
  }

  lemma QuotientNotNegative(n: int, step: int)
    requires n >= 0 && step >= 1
    ensures n / step >= 0 && n == step * (n / step) + n % step
  {
  }

  /** The ranges in which steps are accepted, and what a step of one covers, field by field. */
  lemma StepRanges(k: nat, v: int)
    ensures GoodField([WildcardStep(k)], SECOND) <==> 1 <= k <= 59
    ensures GoodField([WildcardStep(k)], MINUTE) <==> 1 <= k <= 59
    ensures GoodField([WildcardStep(k)], HOUR) <==> 1 <= k <= 23
    ensures GoodField([WildcardStep(k)], DOM) <==> 1 <= k <= 31
    ensures GoodField([WildcardStep(k)], MONTH) <==> 1 <= k <= 12
    ensures GoodField([WildcardStep(k)], DOW) <==> 1 <= k <= 6
    ensures GoodField([WildcardStep(k)], YEAR) <==> 1 <= k <= 2099
    ensures FieldCovers([WildcardStep(1)], SECOND, v) <==> 0 <= v <= 59
    ensures FieldCovers([WildcardStep(1)], MINUTE, v) <==> 0 <= v <= 59
    ensures FieldCovers([WildcardStep(1)], HOUR, v) <==> 0 <= v <= 23
    ensures FieldCovers([WildcardStep(1)], DOM, v) <==> 1 <= v <= 31
    ensures FieldCovers([WildcardStep(1)], MONTH, v) <==> 1 <= v <= 12
    ensures FieldCovers([WildcardStep(1)], DOW, v) <==> 0 <= v <= 6
    ensures FieldCovers([WildcardStep(1)], YEAR, v) <==> 1970 <= v <= 2099
  {
    OneGoodStep(k, SECOND);
    OneGoodStep(k, MINUTE);
    OneGoodStep(k, HOUR);
    OneGoodStep(k, DOM);
    OneGoodStep(k, MONTH);
    OneGoodStep(k, DOW);
    OneGoodStep(k, YEAR);
    StepOfOne(SECOND, v);
    StepOfOne(MINUTE, v);
    StepOfOne(HOUR, v);
    StepOfOne(DOM, v);
    StepOfOne(MONTH, v);
    StepOfOne(DOW, v);
    StepOfOne(YEAR, v);
    hide GoodField, FieldCovers;
  }

  lemma OneGoodStep(k: nat, desc: Descriptor)
    ensures GoodField([WildcardStep(k)], desc) <==> 1 <= k <= desc.max
  {
    assert WildcardStep(k) in [WildcardStep(k)];
  }

  lemma StepOfOne(desc: Descriptor, v: int)
    ensures FieldCovers([WildcardStep(1)], desc, v) <==> desc.min <= v <= desc.max
  {
    StepOneCovers(desc.min, desc.max, v);
    assert WildcardStep(1) in [WildcardStep(1)];
  }

  // ------------------------------------------------------------ Places on a line

  /** Of five fields the first is the minute; the second is 0 and the year any. Of six the last is the year, of seven
      or more the first is the second. */
  lemma PaddedFires(fields: seq<seq<Entry>>, t: Time)
    requires |fields| >= 5
    ensures var n := if |fields| >= 7 then 1 else 0;
            LineFires(Padded(fields), t) <==>
            && (if |fields| >= 7 then FieldCovers(fields[0], SECOND, t.second) else t.second == 0)
            && FieldCovers(fields[n], MINUTE, t.minute) && FieldCovers(fields[n + 1], HOUR, t.hour)
            && FieldCovers(fields[n + 3], MONTH, t.month)
            && DayEntriesHit(fields[n + 2], fields[n + 4], t.year, t.month, t.day)
            && (if |fields| >= 6 then FieldCovers(fields[n + 5], YEAR, t.year) else 1970 <= t.year <= 2099)
            && t.nanosecond == 0
  {
    PaddedFields(fields);
    OneWildcard(YEAR, t.year);
    ZeroCoversZero(t.second);
    hide FieldCovers, DayEntriesHit, Padded;
  }

  lemma ZeroCoversZero(v: int)
    ensures FieldCovers([Value(0)], SECOND, v) <==> v == 0
  {
    assert Value(0) in [Value(0)];
  }

  /** Which field reads which special entry. */
  lemma SpecialPlaces(s: Special)
    ensures GoodDomField([Other(s)]) <==> s == LastDom || s == LastWorkdom || s.Workdom?
    ensures GoodDowField([Other(s)]) <==> s.DowOfLastWeek? || s.DowOfSpecificWeek?
    ensures !GoodListField([Other(s)], HOUR) && GoodListField([Wildcard, Other(s)], HOUR)
  {
    var e := Other(s);
    assert e in [e] && [e][..0] == [];
    assert [Wildcard, e][..1] == [Wildcard];
  }

  // ------------------------------------------------------------ First errors

  /** Of several bad intervals the first is reported. */
  lemma FirstBadReported(before: seq<Entry>, bad: Entry, after: seq<Entry>, desc: Descriptor, error: FieldError)
    requires (forall e :: e in before ==> !BadInterval(e, desc)) && BadInterval(bad, desc)
    ensures IsParseError(before + [bad] + after, desc, error) <==> error == InvalidInterval(|before|)
  {
    var all := before + [bad] + after;
    assert all[|before|] == bad;
    assert forall i :: 0 <= i < |before| ==> all[i] == before[i] && before[i] in before;
  }

  ghost predicate GoodNth(line: seq<seq<Entry>>, i: nat)
    requires |line| == 7 && i < 7
  {
    if i == 3 then GoodDomField(line[3])
    else if i == 5 then GoodDowField(line[5])
    else GoodListField(line[i], DESCRIPTORS[i])
  }

  ghost predicate IsNthError(line: seq<seq<Entry>>, i: nat, error: FieldError)
    requires |line| == 7 && i < 7
  {
    if i == 3 then IsDomError(line[3], error)
    else if i == 5 then IsDowError(line[5], error)
    else IsListError(line[i], DESCRIPTORS[i], error)
  }

  /** A line is accepted exactly if all of its fields are good, and otherwise the first bad field is reported. */
  lemma FirstBadField(line: seq<seq<Entry>>, i: nat, error: FieldError)
    requires |line| == 7
    ensures GoodLine(line) <==> forall j :: 0 <= j < 7 ==> GoodNth(line, j)
    ensures i < 7 && !GoodNth(line, i) && (forall j :: 0 <= j < i ==> GoodNth(line, j)) ==>
              (IsLineError(line, error) <==> IsNthError(line, i, error))
  {
    hide GoodListField, GoodDomField, GoodDowField, IsListError, IsDomError, IsDowError;
    assert forall j :: 0 <= j < 7 ==> GoodNth(line, j) || !GoodNth(line, j);
    assert GoodNth(line, 0) <==> GoodListField(line[0], SECOND);
    assert GoodNth(line, 1) <==> GoodListField(line[1], MINUTE);
    assert GoodNth(line, 2) <==> GoodListField(line[2], HOUR);
    assert GoodNth(line, 3) <==> GoodDomField(line[3]);
    assert GoodNth(line, 4) <==> GoodListField(line[4], MONTH);
    assert GoodNth(line, 5) <==> GoodDowField(line[5]);
    assert GoodNth(line, 6) <==> GoodListField(line[6], YEAR);
  }

  // ------------------------------------------------------------ The day rule

  /** The either-field rule for a day of the month and a weekday: a wildcard leaves the day to the other field. */
  lemma EitherDay(v: int, w: int, y: int, m: int, d: nat)
    requires 1 <= m <= 12
    ensures DayEntriesHit([Value(v)], [Value(w)], y, m, d) <==> d == v || Weekday(y, m, d) == w
    ensures DayEntriesHit([Value(v)], [Wildcard], y, m, d) <==> d == v
    ensures DayEntriesHit([Wildcard], [Value(w)], y, m, d) <==> Weekday(y, m, d) == w
    ensures DayEntriesHit([Wildcard], [Wildcard], y, m, d)
    ensures DayEntriesHit([Value(v), Wildcard], [Value(w)], y, m, d) <==> Weekday(y, m, d) == w
  {
    hide Weekday;
    assert Value(v) in [Value(v)] && Value(w) in [Value(w)] && Wildcard in [Wildcard];
    assert Wildcard in [Value(v), Wildcard];
    assert Wildcard !in [Value(v)] && Wildcard !in [Value(w)];
  }

  // ------------------------------------------------------------ 2024

  lemma Starts2024()
    ensures Weekday(2024, 2, 1) == 4 && Weekday(2024, 3, 1) == 5 && Weekday(2024, 6, 1) == 6
    ensures DaysInMonth(2024, 2) == 29 && DaysInMonth(2023, 2) == 28 && DaysInMonth(1900, 2) == 28
    ensures DaysInMonth(2000, 2) == 29
  {
    DaysBeforeYearClosed(2024);
    MonthStarts(2024, 2);
    MonthStarts(2024, 3);
    MonthStarts(2024, 6);
    hide DaysBeforeYear, DaysBeforeMonth;
    assert DayNumber(2024, 2, 1) == 738917;
    assert DayNumber(2024, 3, 1) == 738946;
    assert DayNumber(2024, 6, 1) == 739038;
  }

  lemma NearestIs(y: int, m: int, v: int, d: int)
    requires 1 <= m <= 12 && 1 <= v <= DaysInMonth(y, m)
    ensures NearestWorkday(y, m, v, d) <==> d == WorkdayFor(v, Weekday(y, m, v), DaysInMonth(y, m))
  {
    hide Weekday, NearestWorkday, WorkdayFor;
    WorkdayForIsNearest(y, m, v);
    if NearestWorkday(y, m, v, d) {
      NearestWorkdayUnique(y, m, v, d, WorkdayFor(v, Weekday(y, m, v), DaysInMonth(y, m)));
    }
  }

  /** `L` in February, `LW` in March, which ends on a Sunday, and `15W`, `1W` and `30W` in June, where these are a
      Saturday, a Saturday and a Sunday. */
  lemma DomDays2024(d: nat)
    ensures DomEntryHit(Other(LastDom), 2024, 2, d) <==> d == 29
    ensures DomEntryHit(Other(LastWorkdom), 2024, 3, d) <==> d == 29
    ensures DomEntryHit(Other(Workdom(15)), 2024, 6, d) <==> d == 14
    ensures DomEntryHit(Other(Workdom(1)), 2024, 6, d) <==> d == 3
    ensures DomEntryHit(Other(Workdom(30)), 2024, 6, d) <==> d == 28
    ensures DomEntryHit(Other(Workdom(9)), 2024, 6, d) <==> d == 10
    ensures DomEntryHit(Other(Workdom(11)), 2024, 6, d) <==> d == 11
    ensures !DomEntryHit(Other(Workdom(31)), 2024, 6, d)
  {
    Starts2024();
    hide Weekday, NearestWorkday, LastWorkday;
    WeekdayFromFirst(2024, 3, 31);
    NearestIs(2024, 3, 31, d);
    NearestToLast(2024, 3, d);
    JuneWorkday(15, d);
    JuneWorkday(1, d);
    JuneWorkday(30, d);
    JuneWorkday(9, d);
    JuneWorkday(11, d);
  }

  lemma JuneWorkday(v: int, d: int)
    requires 1 <= v <= 30
    ensures NearestWorkday(2024, 6, v, d) <==> d == WorkdayFor(v, (v + 5) % 7, 30)
  {
    Starts2024();
    hide Weekday, NearestWorkday;
    WeekdayFromFirst(2024, 6, v);
    NearestIs(2024, 6, v, d);
  }

  /** The last Friday of March. */
  lemma LastFriday2024(d: nat)
    requires 1 <= d <= 31
    ensures DowEntryHit(Other(DowOfLastWeek(5)), 2024, 3, d) <==> d == 29
  {
    Starts2024();
    hide Weekday, LastOfItsWeekday;
    WeekdayFromFirst(2024, 3, 25);
    LastWeekdayFormula(2024, 3, d, 5);
  }

  /** The third Friday of March; the first Monday of February, and a fifth one, which is none of its days. */
  lemma NthDays2024(d: nat)
    requires 1 <= d
    ensures DowEntryHit(Other(DowOfSpecificWeek(5, 3)), 2024, 3, d) <==> d == 15
    ensures DowEntryHit(Other(DowOfSpecificWeek(1, 1)), 2024, 2, d) <==> d == 5
    ensures d <= 29 ==> !DowEntryHit(Other(DowOfSpecificWeek(1, 5)), 2024, 2, d)
  {
    Starts2024();
    hide Weekday, WeekdayCount, NthWeekday;
    NthDay(2024, 3, d, 5, 3);
    NthDay(2024, 2, d, 1, 1);
    NthDay(2024, 2, d, 1, 5);
  }

  lemma NthDay(y: int, m: int, d: nat, w: int, n: int)
    requires 1 <= m <= 12 && 1 <= d && 0 <= w <= 6 && 1 <= n
    ensures DowEntryHit(Other(DowOfSpecificWeek(w, n)), y, m, d) <==> d == 7 * n - 6 + (7 - Weekday(y, m, 1) + w) % 7
  {
    hide Weekday, WeekdayCount, NthWeekday, WeekCode;
    WeekCodeDecodes(y, m, d, w, n);
    CodeIs(w, n);
    NthWeekdayFormula(y, m, d, WeekCode(w, n));
    ModAbsorbs(7 - Weekday(y, m, 1), WeekCode(w, n));
  }

  lemma CodeIs(w: int, n: int)
    requires 0 <= w <= 6 && 1 <= n
    ensures 0 <= WeekCode(w, n) && WeekCode(w, n) / 7 == n - 1 && WeekCode(w, n) % 7 == w
  {
  }

  /** The Sundays of March. */
  lemma Sundays2024(d: nat)
    ensures DowEntryHit(Value(0), 2024, 3, d) <==> d % 7 == 3
  {
    Starts2024();
    hide Weekday;
    WeekdayFromFirst(2024, 3, d);
  }
}
