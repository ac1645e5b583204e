/** The gshell kick limiter: a ring of the latest call times, and the call log it stands for. */
module KickLimiter {
  import opened Outcomes

  const NANOSECONDS_PER_SECOND := 1_000_000_000

  datatype Option<+T> = None | Some(value: T)

  // ------------------------------------------------------------ The reference: a full log of calls

  /** The limits in force and every call since the count last changed; times are in nanoseconds. */
  datatype Log = Log(count: nat, period: int, calls: seq<int>)

  function CountLater(calls: seq<int>, cut: int): nat {
    if calls == [] then 0
    else CountLater(calls[..|calls| - 1], cut) + (if calls[|calls| - 1] > cut then 1 else 0)
  }

  /** More than `count` calls, this one included, lie in the last `period` seconds. */
  predicate OverLimit(log: Log, now: int) {
    log.count > 0 && CountLater(log.calls + [now], now - log.period * NANOSECONDS_PER_SECOND) > log.count
  }

  function AfterCall(log: Log, now: int): Log {
    if log.count == 0 then log else log.(calls := log.calls + [now])
  }

  /** Only a changed count forgets the calls; a negative count means no limit, like zero. */
  function AfterUpdate(log: Log, count: int, period: int): Log {
    if log.count == count then log.(period := period)
    else Log(if count <= 0 then 0 else count, period, [])
  }

  /** Kick `k` makes its check outside the lock and, if it passes, enters later; in between anything may happen. */
  datatype Event = Check(k: nat) | Enter(k: nat, now: int) | Update(count: int, period: int)

  function After(log: Log, e: Event): Log {
    match e
    case Check(_) => log
    case Enter(_, now) => AfterCall(log, now)
    case Update(count, period) => AfterUpdate(log, count, period)
  }

  /** A check is answered by whether there is a limit, an entry by whether the log is then over it. */
  predicate Answer(log: Log, e: Event) {
    match e
    case Check(_) => log.count > 0
    case Enter(_, now) => OverLimit(log, now)
    case Update(_, _) => false
  }

  ghost predicate Chronological(calls: seq<int>) {
    forall i, j :: 0 <= i <= j < |calls| ==> calls[i] <= calls[j]
  }

  /** In a chronological log more than `n` calls are later than `cut` exactly if the one `n` back is. */
  lemma {:induction false} CountByOneCall(calls: seq<int>, cut: int, n: nat)
    requires Chronological(calls)
    ensures CountLater(calls, cut) > n <==> n < |calls| && calls[|calls| - 1 - n] > cut
  {
    if calls != [] {
      var last := |calls| - 1;
      if calls[last] > cut {
        if n > 0 { CountByOneCall(calls[..last], cut, n - 1); }
      } else {
        CountNone(calls, cut);
      }
    }
  }

  lemma ChronologicalStep(calls: seq<int>, now: int)
    requires Chronological(calls) && (calls != [] ==> calls[|calls| - 1] <= now)
    ensures Chronological(calls + [now])
  {
  }

  lemma {:induction false} CountNone(calls: seq<int>, cut: int)
    requires forall i :: 0 <= i < |calls| ==> calls[i] <= cut
    ensures CountLater(calls, cut) == 0
  {
    if calls != [] { CountNone(calls[..|calls| - 1], cut); }
  }

  // ------------------------------------------------------------ The ring

  function Min(a: nat, b: nat): nat {
    if a < b then a else b
  }

  /** Position in a ring of size `n`, `back` places before `start`. */
  function Slot(start: int, back: int, n: int): int {
    if back <= start then start - back else start - back + n
  }

  lemma Successor(start: int, n: int)
    requires 0 <= start < n
    ensures (start + 1) % n == if start + 1 == n then 0 else start + 1
  {
  }

  /** The ring holds the latest min(calls, ring size) calls, newest at `start` and oldest at `end`;
      without calls both indices are unset. */
  ghost predicate Holds(times: seq<Option<int>>, start: int, end: int, calls: seq<int>) {
    var n := |times|;
    if calls == [] then start == -1 && end == -1
    else
      var held := Min(|calls|, n);
      && 0 <= start < n && 0 <= end < n
      && end == Slot(start, held - 1, n)
      && forall back :: 0 <= back < held ==> times[Slot(start, back, n)] == Some(calls[|calls| - 1 - back])
  }

  /** One more call goes into the next place; once the ring is full that is the oldest call's. */
  lemma Records(times: seq<Option<int>>, start: int, end: int, calls: seq<int>, now: int)
    requires calls != [] && Holds(times, start, end, calls)
    ensures var n := |times|;
            var next := (start + 1) % n;
            && 0 <= next < n
            && (next == end <==> |calls| >= n)
            && (next == end ==> times[end] == Some(calls[|calls| - n]))
            && Holds(times[next := Some(now)], next, if next == end then (end + 1) % n else end, calls + [now])
  {
    var n := |times|;
    Successor(start, n);
    Successor(end, n);
    var next := (start + 1) % n;
    var held := Min(|calls|, n);
    var after := calls + [now];
    if |calls| >= n { assert times[Slot(start, n - 1, n)] == Some(calls[|calls| - n]); }
    forall back | 0 <= back < Min(|after|, n)
      ensures times[next := Some(now)][Slot(next, back, n)] == Some(after[|after| - 1 - back])
    {
      if back > 0 {
        assert Slot(next, back, n) == Slot(start, back - 1, n) != next;
        assert times[Slot(start, back - 1, n)] == Some(calls[|calls| - back]);
      }
    }
  }

  lemma RecordsFirst(times: seq<Option<int>>, now: int)
    requires times != []
    ensures Holds(times[0 := Some(now)], 0, 0, [now])
  {
  }

  lemma HoldsIndices(times: seq<Option<int>>, start: int, end: int, calls: seq<int>)
    requires Holds(times, start, end, calls)
    ensures calls == [] <==> start == -1
    ensures calls != [] ==> 0 <= start < |times| && 0 <= end < |times|
  {
  }

  /** The limiter fields of the channel, with the two global limits it shares a lock with. */
  class GshellChannel {
    var gshellMaxFrequencyCount: int
    var gshellMaxFrequencyPeriod: int
    var kickvmTimes: array<Option<int>>
    var kickvmTimeStart: int
    var kickvmTimeEnd: int

    /** Every call since the count last changed. */
    ghost var calls: seq<int>

    ghost predicate Valid()
      reads this, kickvmTimes
    {
      && 0 <= gshellMaxFrequencyCount == kickvmTimes.Length
      && Chronological(calls)
      && Holds(kickvmTimes[..], kickvmTimeStart, kickvmTimeEnd, calls)
    }

    ghost function Abstract(): Log
      requires Valid()
      reads this, kickvmTimes
    {
      Log(gshellMaxFrequencyCount, gshellMaxFrequencyPeriod, calls)
    }

    /** A new channel under the limits in force; without a limit it has an empty ring. */
    constructor (count: nat, period: int)
      ensures Valid() && fresh(kickvmTimes)
      ensures Abstract() == Log(count, period, [])
    {
      gshellMaxFrequencyCount := count;
      gshellMaxFrequencyPeriod := period;
      kickvmTimes := new Option<int>[count](_ => None);
      kickvmTimeStart := -1;
      kickvmTimeEnd := -1;
      calls := [];
    }

    /** The check that a kick makes before it takes the lock. */
    method PassesZeroCheck() returns (passed: bool)
      ensures passed <==> gshellMaxFrequencyCount != 0
    {
      passed := gshellMaxFrequencyCount != 0;
    }

    /** The part of a kick under the lock: records a call at `now` and tells whether the log is then over the limit.
        With a count of zero in force it panics on the empty ring. */
    method Enter(now: int) returns (o: Outcome<bool>)
      requires Valid()
      requires calls != [] ==> calls[|calls| - 1] <= now
      modifies this`kickvmTimeStart, this`kickvmTimeEnd, this`calls, kickvmTimes
      ensures Valid()
      ensures o.Panicked? <==> gshellMaxFrequencyCount == 0
      ensures Abstract() == AfterCall(old(Abstract()), now)
      ensures o.Returned? ==> (o.value <==> OverLimit(old(Abstract()), now))
    {
      hide Holds, CountLater, Chronological;
      ghost var before, ring, start, end := calls, kickvmTimes[..], kickvmTimeStart, kickvmTimeEnd;
      HoldsIndices(ring, start, end, before);
      if kickvmTimeStart == -1 && kickvmTimes.Length == 0 {
        return Panicked;
      }
      var period := gshellMaxFrequencyPeriod;
      calls := calls + [now];
      ChronologicalStep(before, now);
      CountByOneCall(calls, now - period * NANOSECONDS_PER_SECOND, gshellMaxFrequencyCount);
      if kickvmTimeStart == -1 {
        kickvmTimes[0] := Some(now);
        kickvmTimeStart := 0;
        kickvmTimeEnd := 0;
        RecordsFirst(ring, now);
        assert kickvmTimes[..] == ring[0 := Some(now)] && calls == [now];
        return Returned(false);
      }
      Records(ring, start, end, before, now);
      kickvmTimeStart := (kickvmTimeStart + 1) % gshellMaxFrequencyCount;
      if kickvmTimeStart == kickvmTimeEnd {
        var lastTimepoint := kickvmTimes[kickvmTimeEnd];
        kickvmTimes[kickvmTimeStart] := Some(now);
        kickvmTimeEnd := (kickvmTimeEnd + 1) % gshellMaxFrequencyCount;
        if lastTimepoint.value + period * NANOSECONDS_PER_SECOND > now {
          assert kickvmTimes[..] == ring[kickvmTimeStart := Some(now)];
          return Returned(true);
        }
      }
      kickvmTimes[kickvmTimeStart] := Some(now);
      assert kickvmTimes[..] == ring[kickvmTimeStart := Some(now)];
      o := Returned(false);
    }

    /** A kick during which nothing is reconfigured: it does not panic. */
    method HasReachFrequencyLimit(now: int) returns (reached: bool, count: int, period: int)
      requires Valid()
      requires calls != [] ==> calls[|calls| - 1] <= now
      modifies this`kickvmTimeStart, this`kickvmTimeEnd, this`calls, kickvmTimes
      ensures Valid()
      ensures Abstract() == AfterCall(old(Abstract()), now)
      ensures reached <==> OverLimit(old(Abstract()), now)
      ensures old(gshellMaxFrequencyCount) == 0 ==> count == 0 && period == 0
      ensures old(gshellMaxFrequencyCount) != 0 ==>
                count == gshellMaxFrequencyCount && period == gshellMaxFrequencyPeriod
    {
      var passed := PassesZeroCheck();
      if !passed {
        return false, 0, 0;
      }
      var o := Enter(now);
      reached, count, period := o.value, gshellMaxFrequencyCount, gshellMaxFrequencyPeriod;
    }

    /** Sets the limits; a changed count starts over with an empty ring. */
    method UpdateMaxFrequency(count: int, period: int)
      requires Valid()
      modifies this
      ensures Valid()
      ensures Abstract() == AfterUpdate(old(Abstract()), count, period)
      ensures kickvmTimes == old(kickvmTimes) || fresh(kickvmTimes)
    {
      if gshellMaxFrequencyCount != count {
        if count <= 0 {
          gshellMaxFrequencyCount := 0;
          kickvmTimes := new Option<int>[0];
        } else {
          gshellMaxFrequencyCount := count;
          kickvmTimes := new Option<int>[count](_ => None);
        }
        kickvmTimeStart := -1;
        kickvmTimeEnd := -1;
        calls := [];
      }
      gshellMaxFrequencyPeriod := period;
    }

    /** One event. */
    method Handle(e: Event) returns (o: Outcome<bool>)
      requires Valid()
      requires e.Enter? && calls != [] ==> calls[|calls| - 1] <= e.now
      modifies this, kickvmTimes
      ensures Valid() && (kickvmTimes == old(kickvmTimes) || fresh(kickvmTimes))
      ensures Abstract() == After(old(Abstract()), e)
      ensures o.Panicked? <==> e.Enter? && old(gshellMaxFrequencyCount) == 0
      ensures o.Returned? ==> o.value == Answer(old(Abstract()), e)
    {
      match e {
        case Check(_) =>
          var passed := PassesZeroCheck();
          o := Returned(passed);
        case Enter(_, now) =>
          o := Enter(now);
        case Update(count, period) =>
          UpdateMaxFrequency(count, period);
          o := Returned(false);
      }
    }
  }

  // ------------------------------------------------------------ Whole runs

  /** The log after a run. */
  ghost function LogAfter(log: Log, events: seq<Event>): Log {
    if events == [] then log
    else After(LogAfter(log, events[..|events| - 1]), events[|events| - 1])
  }

  /** The kicks that have passed their check and not entered yet. */
  ghost function Waiting(log: Log, events: seq<Event>): set<nat> {
    if events == [] then {}
    else
      var before := events[..|events| - 1];
      match events[|events| - 1]
      case Check(k) => if LogAfter(log, before).count > 0 then Waiting(log, before) + {k} else Waiting(log, before)
      case Enter(k, _) => Waiting(log, before) - {k}
      case Update(_, _) => Waiting(log, before)
  }

  /** Each kick enters once, after passing its check. */
  ghost predicate Interleaving(log: Log, events: seq<Event>) {
    forall i :: 0 <= i < |events| ==>
      (events[i].Check? ==> events[i].k !in Waiting(log, events[..i]))
      && (events[i].Enter? ==> events[i].k in Waiting(log, events[..i]))
  }

  ghost predicate PanicsAt(log: Log, events: seq<Event>, j: nat)
    requires j < |events|
  {
    events[j].Enter? && LogAfter(log, events[..j]).count == 0
  }

  /** Every event answered from the full log before it. */
  ghost predicate AnsweredByLog(log: Log, events: seq<Event>, answers: seq<bool>) {
    && |answers| == |events|
    && forall i :: 0 <= i < |events| ==> answers[i] == Answer(LogAfter(log, events[..i]), events[i])
  }

  /** The clock, read under the lock, does not run backwards. */
  ghost predicate ClockForward(events: seq<Event>) {
    forall i, j :: 0 <= i <= j < |events| && events[i].Enter? && events[j].Enter? ==> events[i].now <= events[j].now
  }

  /** Every logged call is one of the run's kicks. */
  lemma {:induction false} LoggedCallsAreKicks(log: Log, events: seq<Event>)
    requires log.calls == []
    ensures forall c :: c in LogAfter(log, events).calls ==>
                          exists i :: 0 <= i < |events| && events[i].Enter? && events[i].now == c
  {
    if events != [] {
      var n := |events| - 1;
      var init := events[..n];
      LoggedCallsAreKicks(log, init);
      forall c | c in LogAfter(log, events).calls
        ensures exists i :: 0 <= i < |events| && events[i].Enter? && events[i].now == c
      {
        if c in LogAfter(log, init).calls {
          var i :| 0 <= i < |init| && init[i].Enter? && init[i].now == c;
          assert events[i] == init[i];
        } else {
          assert events[n].Enter? && events[n].now == c;
        }
      }
    }
  }

  lemma LastCallNotLater(log: Log, events: seq<Event>, i: nat)
    requires log.calls == [] && ClockForward(events) && i < |events| && events[i].Enter?
    ensures var calls := LogAfter(log, events[..i]).calls;
            calls != [] ==> calls[|calls| - 1] <= events[i].now
  {
    var calls := LogAfter(log, events[..i]).calls;
    LoggedCallsAreKicks(log, events[..i]);
    if calls != [] {
      assert calls[|calls| - 1] in calls;
      var k :| 0 <= k < i && events[..i][k].Enter? && events[..i][k].now == calls[|calls| - 1];
      assert events[k].now <= events[i].now;
    }
  }

  lemma LogStart(log: Log, events: seq<Event>)
    ensures LogAfter(log, events[..0]) == log
  {
  }

  lemma LogStep(log: Log, events: seq<Event>, i: nat)
    requires i < |events|
    ensures LogAfter(log, events[..i + 1]) == After(LogAfter(log, events[..i]), events[i])
  {
    assert events[..i + 1][..i] == events[..i];
  }

  /** A channel driven through any interleaving of checks, entries and reconfigurations panics exactly at an entry
      under a zero count, and until then answers as the full log does. */
  method Drive(count: nat, period: int, events: seq<Event>) returns (o: Outcome<seq<bool>>)
    requires ClockForward(events)
    ensures o.Panicked? <==> exists j :: 0 <= j < |events| && PanicsAt(Log(count, period, []), events, j)
    ensures o.Returned? ==> AnsweredByLog(Log(count, period, []), events, o.value)
  {
    hide After, Answer, Chronological, Holds, LogAfter;
    ghost var start := Log(count, period, []);
    var channel := new GshellChannel(count, period);
    var answers: seq<bool> := [];
    LogStart(start, events);
    for i := 0 to |events|
      invariant fresh(channel) && fresh(channel.kickvmTimes) && channel.Valid()
      invariant channel.Abstract() == LogAfter(start, events[..i])
      invariant |answers| == i
      invariant forall k :: 0 <= k < i ==> answers[k] == Answer(LogAfter(start, events[..k]), events[k])
      invariant forall j :: 0 <= j < i ==> !PanicsAt(start, events, j)
    {
      LogStep(start, events, i);
      if events[i].Enter? {
        LastCallNotLater(start, events, i);
      }
      var answered := channel.Handle(events[i]);
      if answered.Panicked? {
        assert PanicsAt(start, events, i);
        return Panicked;
      }
      answers := answers + [answered.value];
    }
    o := Returned(answers);
  }

  // ------------------------------------------------------------ Which interleavings panic

  /** From the last reconfiguration on its count is in force. */
  lemma {:induction false} CountInForce(log: Log, events: seq<Event>, m: nat)
    requires m < |events| && events[m].Update? && forall x :: m < x < |events| ==> !events[x].Update?
    ensures LogAfter(log, events).count == if events[m].count <= 0 then 0 else events[m].count
  {
    var n := |events| - 1;
    if m < n { CountInForce(log, events[..n], m); }
  }

  /** Without a reconfiguration the count stays. */
  lemma {:induction false} CountStays(log: Log, events: seq<Event>, i: nat)
    requires i <= |events| && forall x :: i <= x < |events| ==> !events[x].Update?
    ensures LogAfter(log, events).count == LogAfter(log, events[..i]).count
  {
    if i == |events| {
      assert events[..i] == events;
    } else {
      var n := |events| - 1;
      CountStays(log, events[..n], i);
      assert events[..n][..i] == events[..i];
    }
  }

  /** A waiting kick has passed its check under a limit, and neither checked nor entered since. */
  lemma {:induction false} CheckedBefore(log: Log, events: seq<Event>, k: nat) returns (i: nat)
    requires Interleaving(log, events) && k in Waiting(log, events)
    ensures i < |events| && events[i] == Check(k) && LogAfter(log, events[..i]).count > 0
    ensures forall x :: i < x < |events| ==> !events[x].Update? ==> events[x].k != k
  {
    var n := |events| - 1;
    var before := events[..n];
    if events[n] == Check(k) && LogAfter(log, before).count > 0 {
      i := n;
    } else {
      assert forall x :: 0 <= x < n ==> before[..x] == events[..x];
      i := CheckedBefore(log, before, k);
      assert before[..i] == events[..i];
    }
  }

  /** The last reconfiguration from `i` on, if there is one. */
  lemma {:induction false} LastUpdate(events: seq<Event>, i: nat) returns (m: nat)
    requires i <= |events| && exists x :: i <= x < |events| && events[x].Update?
    ensures i <= m < |events| && events[m].Update? && forall x :: m < x < |events| ==> !events[x].Update?
  {
    var n := |events| - 1;
    if events[n].Update? {
      m := n;
    } else {
      var x :| i <= x < |events| && events[x].Update?;
      assert events[..n][x] == events[x];
      m := LastUpdate(events[..n], i);
    }
  }

  /** Between the check of the kick that enters at `j` and its entry the limit is lifted, and not set again. */
  ghost predicate LiftedMeanwhile(events: seq<Event>, j: nat)
    requires j < |events| && events[j].Enter?
  {
    exists i, m :: 0 <= i < m < j && events[i] == Check(events[j].k) && LiftedFrom(events, m, j)
  }

  ghost predicate LiftedFrom(events: seq<Event>, m: nat, j: nat)
    requires m < j <= |events|
  {
    events[m].Update? && events[m].count <= 0 && forall x :: m < x < j ==> !events[x].Update?
  }

  /** A kick panics exactly if the limit is lifted between its check and its entry and not set again before it. */
  lemma PanicsIff(log: Log, events: seq<Event>, j: nat)
    requires Interleaving(log, events) && j < |events| && events[j].Enter?
    ensures PanicsAt(log, events, j) <==> LiftedMeanwhile(events, j)
  {
    var before := events[..j];
    assert forall x :: 0 <= x < j ==> before[..x] == events[..x];
    if PanicsAt(log, events, j) {
      var i := CheckedBefore(log, before, events[j].k);
      if forall x :: i <= x < j ==> !before[x].Update? {
        CountStays(log, before, i);
        assert false;
      } else {
        var m := LastUpdate(before, i);
        CountInForce(log, before, m);
        assert LiftedFrom(events, m, j);
        assert i < m < j && events[i] == Check(events[j].k);
      }
    } else if LiftedMeanwhile(events, j) {
      var i, m :| 0 <= i < m < j && events[i] == Check(events[j].k) && LiftedFrom(events, m, j);
      CountInForce(log, before, m);
      assert false;
    }
  }

  /** A kick that passes its check, a lifted limit, and the kick's entry. */
  lemma LiftingPanics(count: nat, period: int, now: int)
    requires count > 0
    ensures var log, events := Log(count, period, []), [Check(0), Update(0, period), Enter(0, now)];
            Interleaving(log, events) && ClockForward(events) && PanicsAt(log, events, 2)
  {
    var log, events := Log(count, period, []), [Check(0), Update(0, period), Enter(0, now)];
    assert events[..0] == [];
    assert events[..1] == [Check(0)] && events[..1][..0] == [];
    assert events[..2] == [Check(0), Update(0, period)] && events[..2][..1] == [Check(0)];
  }

  // ------------------------------------------------------------ The log is full

  /** The times at which kicks enter, in order. */
  function Entered(events: seq<Event>): seq<int> {
    if events == [] then []
    else
      Entered(events[..|events| - 1])
      + (if events[|events| - 1].Enter? then [events[|events| - 1].now] else [])
  }

  /** No event sets another count than `count`. */
  ghost predicate KeepsCount(events: seq<Event>, count: int) {
    forall i :: 0 <= i < |events| && events[i].Update? ==> events[i].count == count
  }

  /** While the count stays, every kick that enters is logged, whether it is refused or not, and no call is
      forgotten, whatever the period is set to. */
  lemma {:induction false} LogIsFull(log: Log, events: seq<Event>)
    requires log.count > 0 && KeepsCount(events, log.count)
    ensures LogAfter(log, events).calls == log.calls + Entered(events)
    ensures LogAfter(log, events).count == log.count
  {
    if events != [] {
      LogIsFull(log, events[..|events| - 1]);
    }
  }

  /** A count other than the one in force empties the log; not above zero, it lifts the limit. */
  lemma ChangedCountForgets(log: Log, count: int, period: int)
    requires count != log.count
    ensures var next := LogAfter(log, [Update(count, period)]);
            && next.calls == [] && next.period == period
            && next.count == if count <= 0 then 0 else count
  {
    assert [Update(count, period)][..0] == [];
  }

  lemma {:induction false} LogSplits(log: Log, a: seq<Event>, b: seq<Event>)
    ensures LogAfter(log, a + b) == LogAfter(LogAfter(log, a), b)
  {
    if b == [] {
      assert a + b == a;
    } else {
      var n := |b| - 1;
      assert (a + b)[..|a| + n] == a + b[..n];
      LogSplits(log, a, b[..n]);
    }
  }

  /** So at any time the log is exactly the kicks that have entered since the count was last changed to a limit. */
  lemma LogSinceChange(log: Log, before: seq<Event>, count: int, period: int, since: seq<Event>)
    requires count > 0 && LogAfter(log, before).count != count && KeepsCount(since, count)
    ensures LogAfter(log, before + [Update(count, period)] + since).calls == Entered(since)
  {
    var update := [Update(count, period)];
    LogSplits(log, before + update, since);
    LogSplits(log, before, update);
    ChangedCountForgets(LogAfter(log, before), count, period);
    LogIsFull(LogAfter(log, before + update), since);
  }

  /** The period in force is that of the last reconfiguration. */
  lemma {:induction false} LastPeriod(log: Log, events: seq<Event>, m: nat)
    requires m < |events| && events[m].Update? && forall x :: m < x < |events| ==> !events[x].Update?
    ensures LogAfter(log, events).period == events[m].period
  {
    var n := |events| - 1;
    if m < n { LastPeriod(log, events[..n], m); }
  }

  lemma {:induction false} PeriodStays(log: Log, events: seq<Event>)
    requires forall x :: 0 <= x < |events| ==> !events[x].Update?
    ensures LogAfter(log, events).period == log.period
  {
    if events != [] {
      PeriodStays(log, events[..|events| - 1]);
    }
  }

  /** In plain numbers: a kick is refused exactly if there is a limit and the call as many calls back as the limit is
      less than the period ago. */
  lemma RefusedIff(log: Log, now: int)
    requires Chronological(log.calls) && (log.calls != [] ==> log.calls[|log.calls| - 1] <= now)
    ensures OverLimit(log, now) <==>
            && 0 < log.count <= |log.calls|
            && now - log.calls[|log.calls| - log.count] < log.period * 1_000_000_000
  {
    ChronologicalStep(log.calls, now);
    CountByOneCall(log.calls + [now], now - log.period * 1_000_000_000, log.count);
  }

  /** Two calls in ten seconds are allowed: the third at 2 s is refused, and so is the fourth at 10.5 s, because the
      refused one counts. */
  lemma RefusedCallsCount()
    ensures var s := 1_000_000_000;
            var log := LogAfter(Log(2, 10, []), [Enter(0, 0), Enter(1, 1 * s)]);
            && OverLimit(log, 2 * s)
            && OverLimit(LogAfter(log, [Enter(2, 2 * s)]), 10 * s + s / 2)
            && !OverLimit(LogAfter(log, [Enter(2, 2 * s)]), 11 * s)
  {
    var s := 1_000_000_000;
    OneEnters(Log(2, 10, []), 0, 0);
    var first := LogAfter(Log(2, 10, []), [Enter(0, 0)]);
    OneEnters(first, 1, s);
    LogSplits(Log(2, 10, []), [Enter(0, 0)], [Enter(1, s)]);
    assert [Enter(0, 0)] + [Enter(1, s)] == [Enter(0, 0), Enter(1, 1 * s)];
    var log := LogAfter(Log(2, 10, []), [Enter(0, 0), Enter(1, 1 * s)]);
    OneEnters(log, 2, 2 * s);
    hide LogAfter, OverLimit;
    RefusedIff(log, 2 * s);
    RefusedIff(LogAfter(log, [Enter(2, 2 * s)]), 10 * s + s / 2);
    RefusedIff(LogAfter(log, [Enter(2, 2 * s)]), 11 * s);
  }

  lemma OneEnters(log: Log, k: nat, now: int)
    requires log.count > 0
    ensures LogAfter(log, [Enter(k, now)]) == log.(calls := log.calls + [now])
  {
    var events := [Enter(k, now)];
    LogIsFull(log, events);
    PeriodStays(log, events);
    assert Entered(events[..0]) == [];
    assert Entered(events) == [now];
  }
}
