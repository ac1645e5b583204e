/** Fields of a cron line after lexing: entries, the directives made of them, and value lists. */
module CronFields {
  import opened Outcomes
  import opened Calendar
  import opened SortedInts
  import opened CronSchedule

  /** An entry that no generic layout matched, as the day fields read it. */
  datatype Special =
    | LastDom                               // L
    | LastWorkdom                           // LW
    | Workdom(day: int)                     // 15W
    | DowOfLastWeek(dow: int)               // 5L
    | DowOfSpecificWeek(dow: int, week: int) // 5#3
    | Unknown

  /** One comma-separated entry, by the layout it matches; numbers are the token values. */
  datatype Entry =
    | Wildcard
    | Value(first: int)
    | Range(first: int, last: int)
    | WildcardStep(step: int)
    | ValueStep(first: int, step: int)
    | RangeStep(first: int, last: int, step: int)
    | Other(special: Special)

  datatype Descriptor = Descriptor(min: int, max: int) {
    /** What a wildcard stands for. */
    function DefaultList(): (list: seq<int>)
      requires min <= max
      ensures Ascending(list)
      ensures forall v :: v in list <==> min <= v <= max
    {
      var list := seq(max - min + 1, k requires 0 <= k => min + k);
      assert forall v :: v in list <==> min <= v <= max by {
        forall v | min <= v <= max ensures v in list { assert list[v - min] == v; }
      }
      list
    }
  }

  const SECOND := Descriptor(0, 59)
  const MINUTE := Descriptor(0, 59)
  const HOUR := Descriptor(0, 23)
  const DOM := Descriptor(1, 31)
  const MONTH := Descriptor(1, 12)
  const DOW := Descriptor(0, 6)
  const YEAR := Descriptor(MIN_YEAR, MAX_YEAR)

  datatype FieldError =
    | MissingFields
    | MissingDirective
    | InvalidInterval(entry: nat)
    | SyntaxError(entry: nat)

  datatype Result<+T> = Ok(value: T) | Err(error: FieldError)

  datatype Kind = None | One | Span | All

  datatype Directive = Directive(kind: Kind, first: int, last: int, step: int, special: Special)

  /** What the value patterns and token tables guarantee of an entry. */
  predicate Lexed(e: Entry, desc: Descriptor) {
    match e
    case Wildcard => true
    case Value(v) => desc.min <= v <= desc.max
    case Range(a, b) => desc.min <= a <= desc.max && desc.min <= b <= desc.max
    case WildcardStep(k) => 0 <= k
    case ValueStep(a, k) => desc.min <= a <= desc.max && 0 <= k
    case RangeStep(a, b, k) => desc.min <= a <= desc.max && desc.min <= b <= desc.max && 0 <= k
    case Other(Workdom(d)) => 1 <= d <= 31
    case Other(DowOfLastWeek(w)) => 0 <= w <= 6
    case Other(DowOfSpecificWeek(w, n)) => 0 <= w <= 6 && 1 <= n <= 5
    case Other(_) => true
  }

  predicate AllLexed(entries: seq<Entry>, desc: Descriptor) {
    forall e :: e in entries ==> Lexed(e, desc)
  }

  // ------------------------------------------------------------ Meaning of entries

  function Nth(first: int, step: int, k: nat): int {
    first + k * step
  }

  /** `v` is `first + k * step` for some k and at most `last`. */
  ghost predicate InProgression(first: int, last: int, step: int, v: int) {
    v <= last && exists k: nat :: v == Nth(first, step, k)
  }

  ghost predicate Covers(e: Entry, desc: Descriptor, v: int) {
    match e
    case Wildcard => desc.min <= v <= desc.max
    case Value(a) => v == a
    case Range(a, b) => a <= v <= b
    case WildcardStep(k) => InProgression(desc.min, desc.max, k, v)
    case ValueStep(a, k) => InProgression(a, desc.max, k, v)
    case RangeStep(a, b, k) => InProgression(a, b, k, v)
    case Other(_) => false
  }

  ghost predicate FieldCovers(entries: seq<Entry>, desc: Descriptor, v: int) {
    exists e :: e in entries && Covers(e, desc, v)
  }

  predicate BadInterval(e: Entry, desc: Descriptor) {
    (e.WildcardStep? || e.ValueStep? || e.RangeStep?) && (e.step < 1 || e.step > desc.max)
  }

  /** A field that the generic parser accepts. */
  ghost predicate GoodField(entries: seq<Entry>, desc: Descriptor) {
    entries != [] && forall e :: e in entries ==> !BadInterval(e, desc)
  }

  /** A range written backwards, which selects nothing. */
  predicate Reversed(e: Entry) {
    (e.Range? || e.RangeStep?) && e.first > e.last
  }

  // ------------------------------------------------------------ Directives

  function DirectiveOf(e: Entry, desc: Descriptor): Directive {
    match e
    case Wildcard => Directive(All, desc.min, desc.max, 1, Unknown)
    case Value(v) => Directive(One, v, 0, 0, Unknown)
    case Range(a, b) => Directive(Span, a, b, 1, Unknown)
    case WildcardStep(k) => Directive(Span, desc.min, desc.max, k, Unknown)
    case ValueStep(a, k) => Directive(Span, a, desc.max, k, Unknown)
    case RangeStep(a, b, k) => Directive(Span, a, b, k, Unknown)
    case Other(s) => Directive(None, 0, 0, 0, s)
  }

  /** An empty field is missing its directive; otherwise the first bad interval is reported. */
  ghost predicate IsParseError(entries: seq<Entry>, desc: Descriptor, error: FieldError) {
    if entries == [] then error == MissingDirective
    else
      && error.InvalidInterval? && error.entry < |entries| && BadInterval(entries[error.entry], desc)
      && forall i :: 0 <= i < error.entry ==> !BadInterval(entries[i], desc)
  }

  /** One directive per entry, in order, unless the field is empty or an interval is out of bounds. */
  method GenericFieldParse(entries: seq<Entry>, desc: Descriptor) returns (r: Result<seq<Directive>>)
    ensures r.Ok? <==> GoodField(entries, desc)
    ensures r.Ok? ==> |r.value| == |entries|
    ensures r.Ok? ==> forall i :: 0 <= i < |entries| ==> r.value[i] == DirectiveOf(entries[i], desc)
    ensures r.Err? ==> IsParseError(entries, desc, r.error)
  {
    if |entries| == 0 {
      return Err(MissingDirective);
    }
    var directives := [];
    for i := 0 to |entries|
      invariant |directives| == i
      invariant forall k :: 0 <= k < i ==>
                  directives[k] == DirectiveOf(entries[k], desc) && !BadInterval(entries[k], desc)
    {
      if BadInterval(entries[i], desc) {
        assert entries[i] in entries;
        return Err(InvalidInterval(i));
      }
      directives := directives + [DirectiveOf(entries[i], desc)];
    }
    r := Ok(directives);
  }

  lemma NthAscends(first: int, step: int, j: nat, k: nat)
    requires step >= 1 && j <= k
    ensures Nth(first, step, j) <= Nth(first, step, k)
  {
    assert k * step == j * step + (k - j) * step;
  }

  /** Adds every value of the progression up to `max`; a step of at least one makes it end. */
  method PopulateMany(values: set<int>, min: int, max: int, step: int) returns (r: set<int>)
    requires step >= 1
    ensures forall v :: v in r <==> v in values || InProgression(min, max, step, v)
  {
    r := values;
    var i := min;
    ghost var n: nat := 0;
    while i <= max
      invariant i == Nth(min, step, n)
      invariant forall v :: v in r <==> v in values || exists k: nat :: k < n && v == Nth(min, step, k) && v <= max
      decreases max - i
    {
      r := r + {i};
      i := i + step;
      n := n + 1;
      assert i == Nth(min, step, n) by { assert n * step == (n - 1) * step + step; }
    }
    forall v ensures v in r <==> v in values || InProgression(min, max, step, v) {
      forall k: nat | v == Nth(min, step, k) && v <= max ensures k < n {
        if n <= k { NthAscends(min, step, n, k); }
      }
    }
  }

  lemma CoversInRange(e: Entry, desc: Descriptor, v: int)
    requires Lexed(e, desc) && !BadInterval(e, desc) && Covers(e, desc, v)
    ensures desc.min <= v <= desc.max
  {
    if e.WildcardStep? || e.ValueStep? || e.RangeStep? {
      var first := DirectiveOf(e, desc).first;
      var k: nat :| v == Nth(first, e.step, k);
      NthAscends(first, e.step, 0, k);
    }
  }

  /** A wildcard makes the field cover its whole range, whatever stands beside it. */
  lemma WildcardCovers(entries: seq<Entry>, desc: Descriptor)
    requires AllLexed(entries, desc) && GoodField(entries, desc) && Wildcard in entries
    ensures forall v :: FieldCovers(entries, desc, v) <==> desc.min <= v <= desc.max
  {
    forall v ensures FieldCovers(entries, desc, v) <==> desc.min <= v <= desc.max {
      if FieldCovers(entries, desc, v) {
        var e :| e in entries && Covers(e, desc, v);
        CoversInRange(e, desc, v);
      } else {
        assert !Covers(Wildcard, desc, v);
      }
    }
  }

  /** A field selects nothing exactly when all it has are reversed ranges and special entries. */
  lemma SelectsNothing(entries: seq<Entry>, desc: Descriptor)
    requires AllLexed(entries, desc) && GoodField(entries, desc) && desc.min <= desc.max
    ensures (forall v :: !FieldCovers(entries, desc, v)) <==> forall e :: e in entries ==> Reversed(e) || e.Other?
  {
    forall e | e in entries
      ensures Reversed(e) || e.Other? || Covers(e, desc, DirectiveOf(e, desc).first)
      ensures Reversed(e) || e.Other? ==> forall v :: !Covers(e, desc, v)
    {
      var d := DirectiveOf(e, desc);
      assert Nth(d.first, d.step, 0) == d.first;
      forall v | Covers(e, desc, v) ensures !Reversed(e) {
        if e.RangeStep? {
          var k: nat :| v == Nth(e.first, e.step, k);
          NthAscends(e.first, e.step, 0, k);
        }
      }
    }
    if e :| e in entries && !Reversed(e) && !e.Other? {
      assert FieldCovers(entries, desc, DirectiveOf(e, desc).first);
    }
  }

  lemma StepOneCovers(first: int, last: int, v: int)
    ensures InProgression(first, last, 1, v) <==> first <= v <= last
  {
    if first <= v <= last { assert v == Nth(first, 1, v - first); }
  }

  /** Applies a directive that is not of kind `None`: adds exactly what its entry covers. */
  method Populate(values: set<int>, ghost e: Entry, desc: Descriptor, d: Directive) returns (r: set<int>)
    requires d == DirectiveOf(e, desc) && !e.Other? && !BadInterval(e, desc)
    ensures forall v :: v in r <==> v in values || Covers(e, desc, v)
  {
    if d.kind == One {
      r := values + {d.first};
    } else {
      r := PopulateMany(values, d.first, d.last, d.step);
      if d.step == 1 {
        forall v ensures InProgression(d.first, d.last, 1, v) <==> d.first <= v <= d.last {
          StepOneCovers(d.first, d.last, v);
        }
      }
    }
  }

  /** Entries that fit no layout are an error unless a wildcard has ended the scan before them. */
  ghost predicate NoStraySpecial(entries: seq<Entry>) {
    forall i :: 0 <= i < |entries| && entries[i].Other? ==> Wildcard in entries[..i]
  }

  /** A field that the list handler accepts. */
  ghost predicate GoodListField(entries: seq<Entry>, desc: Descriptor) {
    GoodField(entries, desc) && NoStraySpecial(entries)
  }

  /** The parser's error if it has one, else the first entry that fits no layout, before any wildcard. */
  ghost predicate IsListError(entries: seq<Entry>, desc: Descriptor, error: FieldError) {
    if !GoodField(entries, desc) then IsParseError(entries, desc, error)
    else
      && error.SyntaxError? && error.entry < |entries| && entries[error.entry].Other?
      && forall i :: 0 <= i < error.entry ==> !entries[i].Other? && entries[i] != Wildcard
  }

  /** `list` enumerates what the field covers. */
  ghost predicate ListDescribed(entries: seq<Entry>, desc: Descriptor, list: seq<int>) {
    Ascending(list) && forall v :: v in list <==> FieldCovers(entries, desc, v)
  }

  /** The value list of a field: the ascending list of everything one of its entries covers. */
  method GenericFieldHandler(entries: seq<Entry>, desc: Descriptor) returns (r: Result<seq<int>>)
    requires AllLexed(entries, desc) && desc.min <= desc.max
    ensures r.Ok? <==> GoodListField(entries, desc)
    ensures r.Ok? ==> ListDescribed(entries, desc, r.value)
    ensures r.Err? ==> IsListError(entries, desc, r.error)
  {
    var parsed := GenericFieldParse(entries, desc);
    if parsed.Err? {
      return Err(parsed.error);
    }
    var values: set<int> := {};
    for i := 0 to |entries|
      invariant Wildcard !in entries[..i]
      invariant forall k :: 0 <= k < i ==> !entries[k].Other?
      invariant forall v :: v in values <==> FieldCovers(entries[..i], desc, v)
    {
      var d := parsed.value[i];
      assert entries[i] in entries;
      if d.kind == None {
        return Err(SyntaxError(i));
      }
      if d.kind == All {
        WildcardCovers(entries, desc);
        return Ok(desc.DefaultList());
      }
      values := Populate(values, entries[i], desc, d);
      assert entries[..i + 1] == entries[..i] + [entries[i]];
    }
    assert entries[..|entries|] == entries;
    var list := ToList(values);
    r := Ok(list);
  }

  // ------------------------------------------------------------ Day fields

  /** The day-of-month field accepts its own special entries and no others. */
  ghost predicate GoodDomField(entries: seq<Entry>) {
    GoodField(entries, DOM) && forall e :: e in entries ==> DomReads(e)
  }

  predicate DomReads(e: Entry) {
    e.Other? ==> e.special.LastDom? || e.special.LastWorkdom? || e.special.Workdom?
  }

  ghost predicate GoodDowField(entries: seq<Entry>) {
    GoodField(entries, DOW) && forall e :: e in entries ==> DowReads(e)
  }

  predicate DowReads(e: Entry) {
    e.Other? ==> e.special.DowOfLastWeek? || e.special.DowOfSpecificWeek?
  }

  /** The parser's error if it has one, else the first entry that the field does not read. */
  ghost predicate IsDomError(entries: seq<Entry>, error: FieldError) {
    if !GoodField(entries, DOM) then IsParseError(entries, DOM, error)
    else
      && error.SyntaxError? && error.entry < |entries| && !DomReads(entries[error.entry])
      && forall i :: 0 <= i < error.entry ==> DomReads(entries[i])
  }

  ghost predicate IsDowError(entries: seq<Entry>, error: FieldError) {
    if !GoodField(entries, DOW) then IsParseError(entries, DOW, error)
    else
      && error.SyntaxError? && error.entry < |entries| && !DowReads(entries[error.entry])
      && forall i :: 0 <= i < error.entry ==> DowReads(entries[i])
  }

  /** The stored day-of-month values are what the entries say. */
  ghost predicate DomDescribed(entries: seq<Entry>, s: Schedule) {
    && (s.daysOfMonthRestricted <==> Wildcard !in entries)
    && (s.lastDayOfMonth <==> Other(LastDom) in entries)
    && (s.lastWorkdayOfMonth <==> Other(LastWorkdom) in entries)
    && (forall v :: v in s.daysOfMonth <==> FieldCovers(entries, DOM, v))
    && (forall v :: v in s.workdaysOfMonth <==> Other(Workdom(v)) in entries)
  }

  function WeekCode(dow: int, week: int): int {
    (week - 1) * 7 + dow % 7
  }

  ghost predicate DowDescribed(entries: seq<Entry>, s: Schedule) {
    && (s.daysOfWeekRestricted <==> Wildcard !in entries)
    && (forall v :: v in s.daysOfWeek <==> FieldCovers(entries, DOW, v))
    && (forall v :: v in s.lastWeekDaysOfWeek <==> Other(DowOfLastWeek(v)) in entries)
    && (forall c :: c in s.specificWeekDaysOfWeek <==>
                    exists w, n :: Other(DowOfSpecificWeek(w, n)) in entries && c == WeekCode(w, n))
  }

  lemma SpecialCoversNothing(e: Entry)
    ensures e.Other? ==> forall desc, v :: !Covers(e, desc, v)
  {
  }

  lemma CoversStep(prefix: seq<Entry>, e: Entry, desc: Descriptor, v: int)
    ensures FieldCovers(prefix + [e], desc, v) <==> FieldCovers(prefix, desc, v) || Covers(e, desc, v)
  {
    hide Covers;
    assert e in prefix + [e];
    if FieldCovers(prefix, desc, v) {
      var f :| f in prefix && Covers(f, desc, v);
      assert f in prefix + [e];
    }
  }

  lemma DomStart(s: Schedule)
    requires s.daysOfMonthRestricted && !s.lastDayOfMonth && !s.lastWorkdayOfMonth
    requires s.daysOfMonth == {} && s.workdaysOfMonth == {}
    ensures DomDescribed([], s)
  {
  }

  lemma DowStart(s: Schedule)
    requires s.daysOfWeekRestricted
    requires s.daysOfWeek == {} && s.lastWeekDaysOfWeek == {} && s.specificWeekDaysOfWeek == {}
    ensures DowDescribed([], s)
  {
  }

  /** One more day-of-month entry changes the stored values by what it says. */
  lemma DomStep(prefix: seq<Entry>, e: Entry, s: Schedule, next: Schedule)
    requires DomDescribed(prefix, s)
    requires next.daysOfMonthRestricted <==> s.daysOfMonthRestricted && e != Wildcard
    requires next.lastDayOfMonth <==> s.lastDayOfMonth || e == Other(LastDom)
    requires next.lastWorkdayOfMonth <==> s.lastWorkdayOfMonth || e == Other(LastWorkdom)
    requires forall v :: v in next.daysOfMonth <==> v in s.daysOfMonth || Covers(e, DOM, v)
    requires forall v :: v in next.workdaysOfMonth <==> v in s.workdaysOfMonth || e == Other(Workdom(v))
    ensures DomDescribed(prefix + [e], next)
  {
    hide Covers, FieldCovers;
    forall v ensures v in next.daysOfMonth <==> FieldCovers(prefix + [e], DOM, v) {
      CoversStep(prefix, e, DOM, v);
    }
  }

  lemma DowStep(prefix: seq<Entry>, e: Entry, s: Schedule, next: Schedule)
    requires DowDescribed(prefix, s)
    requires next.daysOfWeekRestricted <==> s.daysOfWeekRestricted && e != Wildcard
    requires forall v :: v in next.daysOfWeek <==> v in s.daysOfWeek || Covers(e, DOW, v)
    requires forall v :: v in next.lastWeekDaysOfWeek <==> v in s.lastWeekDaysOfWeek || e == Other(DowOfLastWeek(v))
    requires forall c :: c in next.specificWeekDaysOfWeek <==>
                         c in s.specificWeekDaysOfWeek
                         || (e.Other? && e.special.DowOfSpecificWeek? && c == WeekCode(e.special.dow, e.special.week))
    ensures DowDescribed(prefix + [e], next)
  {
    hide Covers, FieldCovers, WeekCode;
    forall v ensures v in next.daysOfWeek <==> FieldCovers(prefix + [e], DOW, v) {
      CoversStep(prefix, e, DOW, v);
    }
    forall c
      ensures c in next.specificWeekDaysOfWeek <==>
              exists w, n :: Other(DowOfSpecificWeek(w, n)) in prefix + [e] && c == WeekCode(w, n)
    {
      if w, n :| Other(DowOfSpecificWeek(w, n)) in prefix && c == WeekCode(w, n) {
        assert Other(DowOfSpecificWeek(w, n)) in prefix + [e];
      }
      if e.Other? && e.special.DowOfSpecificWeek? && c == WeekCode(e.special.dow, e.special.week) {
        assert Other(DowOfSpecificWeek(e.special.dow, e.special.week)) in prefix + [e];
      }
    }
  }

  // ------------------------------------------------------------ Whole lines

  const DESCRIPTORS: seq<Descriptor> := [SECOND, MINUTE, HOUR, DOM, MONTH, DOW, YEAR]

  /** Missing fields filled in: second 0 unless there are seven fields, any year with five. */
  function Padded(fields: seq<seq<Entry>>): (line: seq<seq<Entry>>)
    requires |fields| >= 5
    ensures |line| == 7
  {
    if |fields| >= 7 then fields[..7]
    else if |fields| == 6 then [[Value(0)]] + fields
    else [[Value(0)]] + fields + [[Wildcard]]
  }

  ghost predicate LineLexed(line: seq<seq<Entry>>)
    requires |line| == 7
  {
    forall i :: 0 <= i < 7 ==> AllLexed(line[i], DESCRIPTORS[i])
  }

  ghost predicate GoodLine(line: seq<seq<Entry>>)
    requires |line| == 7
  {
    && GoodListField(line[0], SECOND) && GoodListField(line[1], MINUTE) && GoodListField(line[2], HOUR)
    && GoodDomField(line[3]) && GoodListField(line[4], MONTH) && GoodDowField(line[5])
    && GoodListField(line[6], YEAR)
  }

  /** The error of the first bad one among the mandatory fields. */
  ghost predicate IsMandatoryError(minute: seq<Entry>, hour: seq<Entry>, dom: seq<Entry>, month: seq<Entry>,
                                   dow: seq<Entry>, error: FieldError)
  {
    if !GoodListField(minute, MINUTE) then IsListError(minute, MINUTE, error)
    else if !GoodListField(hour, HOUR) then IsListError(hour, HOUR, error)
    else if !GoodDomField(dom) then IsDomError(dom, error)
    else if !GoodListField(month, MONTH) then IsListError(month, MONTH, error)
    else IsDowError(dow, error)
  }

  /** The error of the first bad field of the line. */
  ghost predicate IsLineError(line: seq<seq<Entry>>, error: FieldError)
    requires |line| == 7
  {
    if !GoodListField(line[0], SECOND) then IsListError(line[0], SECOND, error)
    else if GoodListField(line[1], MINUTE) && GoodListField(line[2], HOUR) && GoodDomField(line[3])
            && GoodListField(line[4], MONTH) && GoodDowField(line[5]) then IsListError(line[6], YEAR, error)
    else IsMandatoryError(line[1], line[2], line[3], line[4], line[5], error)
  }

  /** The schedule holds what the line says. */
  ghost predicate Described(line: seq<seq<Entry>>, s: Schedule)
    requires |line| == 7
  {
    && ListDescribed(line[0], SECOND, s.seconds) && ListDescribed(line[1], MINUTE, s.minutes)
    && ListDescribed(line[2], HOUR, s.hours) && DomDescribed(line[3], s)
    && ListDescribed(line[4], MONTH, s.months) && DowDescribed(line[5], s)
    && ListDescribed(line[6], YEAR, s.years)
  }

  lemma PaddedFields(fields: seq<seq<Entry>>)
    requires |fields| >= 5
    ensures var line := Padded(fields);
            && (|fields| >= 7 ==> forall i :: 0 <= i < 7 ==> line[i] == fields[i])
            && (|fields| < 7 ==> line[0] == [Value(0)] && forall i :: 0 <= i < 5 ==> line[i + 1] == fields[i])
            && (|fields| < 7 ==> line[6] == if |fields| == 6 then fields[5] else [Wildcard])
  {
  }

  lemma LexedFields(line: seq<seq<Entry>>)
    requires |line| == 7 && LineLexed(line)
    ensures AllLexed(line[0], SECOND) && AllLexed(line[1], MINUTE) && AllLexed(line[2], HOUR) && AllLexed(line[3], DOM)
    ensures AllLexed(line[4], MONTH) && AllLexed(line[5], DOW) && AllLexed(line[6], YEAR)
  {
    assert forall i :: 0 <= i < 7 ==> AllLexed(line[i], DESCRIPTORS[i]);
    assert DESCRIPTORS[3] == DOM && DESCRIPTORS[5] == DOW && DESCRIPTORS[6] == YEAR;
  }

  /** The day-of-month part of a schedule stands while other fields are stored. */
  lemma DomStands(entries: seq<Entry>, s: Schedule, next: Schedule)
    requires DomDescribed(entries, s)
    requires next.daysOfMonthRestricted == s.daysOfMonthRestricted && next.lastDayOfMonth == s.lastDayOfMonth
    requires next.lastWorkdayOfMonth == s.lastWorkdayOfMonth
    requires next.daysOfMonth == s.daysOfMonth && next.workdaysOfMonth == s.workdaysOfMonth
    ensures DomDescribed(entries, next)
  {
  }

  lemma DowStands(entries: seq<Entry>, s: Schedule, next: Schedule)
    requires DowDescribed(entries, s) && next.daysOfWeekRestricted == s.daysOfWeekRestricted
    requires next.daysOfWeek == s.daysOfWeek && next.lastWeekDaysOfWeek == s.lastWeekDaysOfWeek
    requires next.specificWeekDaysOfWeek == s.specificWeekDaysOfWeek
    ensures DowDescribed(entries, next)
  {
  }

  lemma PaddingDescribed()
    ensures GoodListField([Value(0)], SECOND) && ListDescribed([Value(0)], SECOND, [0])
    ensures GoodListField([Wildcard], YEAR) && ListDescribed([Wildcard], YEAR, YEAR.DefaultList())
  {
    assert Covers(Value(0), SECOND, 0);
    assert Value(0) in [Value(0)];
    WildcardCovers([Wildcard], YEAR);
  }

  /** Some entry of the field selects a value. */
  ghost predicate SelectsSomething(entries: seq<Entry>) {
    exists e :: e in entries && !Reversed(e) && !e.Other?
  }

  lemma ListDescribedFacts(entries: seq<Entry>, desc: Descriptor, list: seq<int>)
    requires AllLexed(entries, desc) && GoodField(entries, desc) && desc.min <= desc.max
    requires ListDescribed(entries, desc, list)
    ensures ListWithin(list, desc.min, desc.max)
    ensures list != [] <==> SelectsSomething(entries)
  {
    forall i | 0 <= i < |list| ensures desc.min <= list[i] <= desc.max {
      assert list[i] in list;
      var e :| e in entries && Covers(e, desc, list[i]);
      CoversInRange(e, desc, list[i]);
    }
    SelectsNothing(entries, desc);
    if list != [] { assert list[0] in list; }
  }

  lemma DayFieldsInRange(line: seq<seq<Entry>>, s: Schedule)
    requires |line| == 7 && LineLexed(line) && GoodLine(line) && Described(line, s)
    ensures SetWithin(s.daysOfMonth, 1, 31) && SetWithin(s.workdaysOfMonth, 1, 31)
    ensures SetWithin(s.daysOfWeek, 0, 6) && SetWithin(s.specificWeekDaysOfWeek, 0, 34)
    ensures SetWithin(s.lastWeekDaysOfWeek, 0, 6)
  {
    assert AllLexed(line[3], DOM) && AllLexed(line[5], DOW);
    forall v | v in s.daysOfMonth ensures 1 <= v <= 31 {
      var e :| e in line[3] && Covers(e, DOM, v);
      CoversInRange(e, DOM, v);
    }
    forall v | v in s.daysOfWeek ensures 0 <= v <= 6 {
      var e :| e in line[5] && Covers(e, DOW, v);
      CoversInRange(e, DOW, v);
    }
    forall c | c in s.specificWeekDaysOfWeek ensures 0 <= c <= 34 {
      var w, n :| Other(DowOfSpecificWeek(w, n)) in line[5] && c == WeekCode(w, n);
      assert Lexed(Other(DowOfSpecificWeek(w, n)), DOW);
    }
    forall v | v in s.workdaysOfMonth ensures 1 <= v <= 31 {
      assert Lexed(Other(Workdom(v)), DOM);
    }
    forall v | v in s.lastWeekDaysOfWeek ensures 0 <= v <= 6 {
      assert Lexed(Other(DowOfLastWeek(v)), DOW);
    }
  }

  /** An accepted line is in range, and has all its heads exactly if each of its second, minute, hour
      and month fields selects something. */
  lemma CompleteIff(line: seq<seq<Entry>>, s: Schedule)
    requires |line| == 7 && LineLexed(line) && GoodLine(line) && Described(line, s)
    ensures InRange(s)
    ensures Complete(s) <==> (forall i :: i in {0, 1, 2, 4} ==> SelectsSomething(line[i]))
    ensures s.years == [] <==> !SelectsSomething(line[6])
  {
    assert forall i :: 0 <= i < 7 ==> AllLexed(line[i], DESCRIPTORS[i]);
    ListDescribedFacts(line[0], DESCRIPTORS[0], s.seconds);
    ListDescribedFacts(line[1], DESCRIPTORS[1], s.minutes);
    ListDescribedFacts(line[2], DESCRIPTORS[2], s.hours);
    ListDescribedFacts(line[4], DESCRIPTORS[4], s.months);
    ListDescribedFacts(line[6], DESCRIPTORS[6], s.years);
    DayFieldsInRange(line, s);
  }

  /** No argument makes the evaluation of an accepted line panic exactly if its second, minute, hour and
      month fields each have an entry that is not a reversed range, or its year field has none. */
  lemma LineNeverPanicsIff(line: seq<seq<Entry>>, s: Schedule)
    requires |line| == 7 && LineLexed(line) && GoodLine(line) && Described(line, s)
    ensures (forall from: Time :: from != ZERO_TIME ==> !Panics(s, Nanoseconds, from)) <==>
            (forall i :: i in {0, 1, 2, 4} ==> SelectsSomething(line[i])) || !SelectsSomething(line[6])
  {
    hide LineLexed, GoodLine, Described, Panics, SelectsSomething;
    CompleteIff(line, s);
    NeverPanicsIff(s);
  }

  /** `0 20-5 * * *` is accepted, yet its hour list is empty: from any time before the last year its
      evaluation panics. */
  lemma ReversedHourPanics()
    ensures var line := Padded([[Value(0)], [Range(20, 5)], [Wildcard], [Wildcard], [Wildcard]]);
            && LineLexed(line) && GoodLine(line)
            && forall s, from: Time :: Described(line, s) && from.year < MAX_YEAR ==> Panics(s, Nanoseconds, from)
  {
    var line := Padded([[Value(0)], [Range(20, 5)], [Wildcard], [Wildcard], [Wildcard]]);
    assert line == [[Value(0)], [Value(0)], [Range(20, 5)], [Wildcard], [Wildcard], [Wildcard], [Wildcard]];
    forall s, from: Time | Described(line, s) && from.year < MAX_YEAR ensures Panics(s, Nanoseconds, from) {
      ListDescribedFacts(line[2], HOUR, s.hours);
      assert Covers(Wildcard, YEAR, MAX_YEAR) && Wildcard in line[6];
      assert Fits(s, Years, RawTime.Time(MAX_YEAR, 1, 1, 0, 0, 0, 0));
    }
  }

  /** `0 0 20-5 * * * 2020-2010` lacks hours too, but without a year it evaluates to the zero time. */
  lemma ReversedYearIsSafe()
    ensures var line := [[Value(0)], [Value(0)], [Range(20, 5)], [Wildcard], [Wildcard], [Wildcard],
                         [Range(2020, 2010)]];
            && LineLexed(line) && GoodLine(line)
            && forall s, t: Time :: Described(line, s) ==> Evaluates(s, Nanoseconds, t, Returned(ZERO_TIME))
  {
    var line := [[Value(0)], [Value(0)], [Range(20, 5)], [Wildcard], [Wildcard], [Wildcard], [Range(2020, 2010)]];
    forall s | Described(line, s) ensures s.years == [] {
      ListDescribedFacts(line[6], YEAR, s.years);
    }
  }

  // ------------------------------------------------------------ Firing, told by the entries

  ghost predicate DomEntryHit(e: Entry, y: int, m: int, d: nat)
    requires 1 <= m <= 12
  {
    match e
    case Other(LastDom) => d == DaysInMonth(y, m)
    case Other(LastWorkdom) => LastWorkday(y, m, d)
    case Other(Workdom(v)) => v <= DaysInMonth(y, m) && NearestWorkday(y, m, v, d)
    case _ => Covers(e, DOM, d)
  }

  ghost predicate DowEntryHit(e: Entry, y: int, m: int, d: nat)
    requires 1 <= m <= 12
  {
    match e
    case Other(DowOfLastWeek(w)) => Weekday(y, m, d) == w && LastOfItsWeekday(y, m, d)
    case Other(DowOfSpecificWeek(w, n)) => Weekday(y, m, d) == w && WeekdayCount(y, m, w, d) == n
    case _ => Covers(e, DOW, Weekday(y, m, d))
  }

  /** A day field with a wildcard is unrestricted, whatever else it lists. */
  ghost predicate DayEntriesHit(dom: seq<Entry>, dow: seq<Entry>, y: int, m: int, d: nat)
    requires 1 <= m <= 12
  {
    if Wildcard in dom && Wildcard in dow then true
    else
      || (Wildcard !in dom && exists e :: e in dom && DomEntryHit(e, y, m, d))
      || (Wildcard !in dow && exists e :: e in dow && DowEntryHit(e, y, m, d))
  }

  /** The line fires at `t`, read off its entries. */
  ghost predicate LineFires(line: seq<seq<Entry>>, t: Time)
    requires |line| == 7
  {
    && FieldCovers(line[0], SECOND, t.second) && FieldCovers(line[1], MINUTE, t.minute)
    && FieldCovers(line[2], HOUR, t.hour) && FieldCovers(line[4], MONTH, t.month)
    && FieldCovers(line[6], YEAR, t.year)
    && DayEntriesHit(line[3], line[5], t.year, t.month, t.day) && t.nanosecond == 0
  }

  lemma DomHitByEntries(entries: seq<Entry>, s: Schedule, y: int, m: int, d: nat)
    requires 1 <= m <= 12 && GoodDomField(entries) && DomDescribed(entries, s)
    ensures DayOfMonthHit(s, y, m, d) <==> exists e :: e in entries && DomEntryHit(e, y, m, d)
  {
    hide Weekday, NearestWorkday, LastWorkday, DaysInMonth, GoodField;
    if e :| e in entries && DomEntryHit(e, y, m, d) {
      if e.Other? && e.special.Workdom? { assert e.special.day in s.workdaysOfMonth; }
    }
    if DayOfMonthHit(s, y, m, d) {
      if s.lastDayOfMonth && d == DaysInMonth(y, m) {
        assert DomEntryHit(Other(LastDom), y, m, d);
      } else if s.lastWorkdayOfMonth && LastWorkday(y, m, d) {
        assert DomEntryHit(Other(LastWorkdom), y, m, d);
      } else if d in s.daysOfMonth {
        var e :| e in entries && Covers(e, DOM, d);
        assert DomEntryHit(e, y, m, d);
      } else {
        var v :| v in s.workdaysOfMonth && v <= DaysInMonth(y, m) && NearestWorkday(y, m, v, d);
        assert DomEntryHit(Other(Workdom(v)), y, m, d);
      }
    }
  }

  lemma WeekCodeDecodes(y: int, m: int, d: nat, w: int, n: int)
    requires 1 <= m <= 12 && 0 <= w <= 6
    ensures NthWeekday(y, m, d, WeekCode(w, n)) <==> Weekday(y, m, d) == w && WeekdayCount(y, m, w, d) == n
  {
    hide Weekday;
    assert WeekCode(w, n) % 7 == w && WeekCode(w, n) / 7 == n - 1;
  }

  lemma DowHitByEntries(entries: seq<Entry>, s: Schedule, y: int, m: int, d: nat)
    requires 1 <= m <= 12 && AllLexed(entries, DOW) && GoodDowField(entries) && DowDescribed(entries, s)
    ensures DayOfWeekHit(s, y, m, d) <==> exists e :: e in entries && DowEntryHit(e, y, m, d)
  {
    hide Weekday, LastOfItsWeekday, NthWeekday, WeekCode, GoodField;
    if e :| e in entries && DowEntryHit(e, y, m, d) {
      if e.Other? && e.special.DowOfSpecificWeek? {
        WeekCodeDecodes(y, m, d, e.special.dow, e.special.week);
        assert WeekCode(e.special.dow, e.special.week) in s.specificWeekDaysOfWeek;
      }
    }
    if DayOfWeekHit(s, y, m, d) {
      if Weekday(y, m, d) in s.daysOfWeek {
        var e :| e in entries && Covers(e, DOW, Weekday(y, m, d));
        assert DowEntryHit(e, y, m, d);
      } else if Weekday(y, m, d) in s.lastWeekDaysOfWeek && LastOfItsWeekday(y, m, d) {
        assert DowEntryHit(Other(DowOfLastWeek(Weekday(y, m, d))), y, m, d);
      } else {
        var code :| code in s.specificWeekDaysOfWeek && NthWeekday(y, m, d, code);
        var w, n :| Other(DowOfSpecificWeek(w, n)) in entries && code == WeekCode(w, n);
        WeekCodeDecodes(y, m, d, w, n);
        assert DowEntryHit(Other(DowOfSpecificWeek(w, n)), y, m, d);
      }
    }
  }

  /** The parsed schedule fires exactly when the line says so. */
  lemma FiresByEntries(line: seq<seq<Entry>>, s: Schedule, t: Time)
    requires |line| == 7 && LineLexed(line) && GoodLine(line) && Described(line, s)
    ensures Matches(s, t) <==> LineFires(line, t)
  {
    hide DayOfMonthHit, DayOfWeekHit, FieldCovers, GoodField;
    assert AllLexed(line[5], DESCRIPTORS[5]);
    DomHitByEntries(line[3], s, t.year, t.month, t.day);
    DowHitByEntries(line[5], s, t.year, t.month, t.day);
  }

  /** The first match of the parsed schedule is the first time after `t` at which the line fires. */
  lemma FirstByEntries(line: seq<seq<Entry>>, s: Schedule, t: Time, r: Time)
    requires |line| == 7 && LineLexed(line) && GoodLine(line) && Described(line, s)
    requires IsFirst(s, Nanoseconds, t, r)
    ensures r == ZERO_TIME ==> forall u: Time :: LineFires(line, u) ==> !Before(t, u)
    ensures r != ZERO_TIME ==>
              && LineFires(line, r) && Before(t, r)
              && forall u: Time :: LineFires(line, u) && Before(t, u) ==> !Before(u, r)
  {
    hide LineFires, Matches, After, LineLexed, GoodLine, Described;
    forall u: Time ensures Matches(s, u) <==> LineFires(line, u) {
      FiresByEntries(line, s, u);
    }
  }
}
