/** How runs go on: the sleep assumption is exact at every wake-up, and the updater is never locked out. */
module UpdateProgress {
  import opened TaskRegistry
  import opened UpdateProtocol
  import opened UpdateSafety

  // ------------------------------------------------------------ The sleep assumption is exact

  /** Within one attempt of the updater only the two steps of its double check are the updater's. */
  predicate Allowed(attempt: bool, s: State, a: Action) {
    attempt && a == UpdaterStep ==> s.updater.RecheckCounter? || s.updater.RecheckRegistry?
  }

  /** Like `Leads`, and within one attempt if asked for. */
  ghost predicate LeadsWithin(c: Config, attempt: bool, s: State, actions: seq<Action>, t: State)
    decreases |actions|
  {
    if actions == [] then s == t
    else
      && Enabled(c, s, actions[0]) && Allowed(attempt, s, actions[0])
      && LeadsWithin(c, attempt, Apply(c, s, actions[0]), actions[1..], t)
  }

  lemma {:induction false} WithinLeads(c: Config, attempt: bool, s: State, actions: seq<Action>, t: State)
    requires LeadsWithin(c, attempt, s, actions, t)
    ensures Leads(c, s, actions, t)
    ensures attempt ==> t.gapsAtWake == s.gapsAtWake
    decreases |actions|
  {
    if actions != [] {
      WithinLeads(c, attempt, Apply(c, s, actions[0]), actions[1..], t);
    }
  }

  lemma {:induction false} WithinStep(c: Config, attempt: bool, s: State, actions: seq<Action>, t: State, a: Action)
    requires LeadsWithin(c, attempt, s, actions, t) && Enabled(c, t, a) && Allowed(attempt, t, a)
    ensures LeadsWithin(c, attempt, s, actions + [a], Apply(c, t, a))
    decreases |actions|
  {
    hide Enabled, Apply, Allowed;
    if actions == [] {
      assert [a][1..] == [];
      assert actions + [a] == [a];
      assert LeadsWithin(c, attempt, Apply(c, t, a), [], Apply(c, t, a));
    } else {
      WithinStep(c, attempt, Apply(c, s, actions[0]), actions[1..], t, a);
      assert (actions + [a])[1..] == actions[1..] + [a];
    }
  }

  lemma {:induction false} LeadsOn(c: Config, s: State, actions: seq<Action>, t: State)
    requires Reachable(c, s) && Leads(c, s, actions, t)
    ensures Reachable(c, t)
    decreases |actions|
  {
    hide Enabled, Apply, Reachable;
    if actions != [] {
      ReachStep(c, s, actions[0]);
      LeadsOn(c, Apply(c, s, actions[0]), actions[1..], t);
    }
  }

  /** A journey has come from `start` to `s`, and everything that always holds holds there. */
  ghost predicate At(c: Config, attempt: bool, start: State, s: State) {
    && c.onceIds !! c.timerIds && Inv(c, s)
    && exists actions :: LeadsWithin(c, attempt, start, actions, s)
  }

  lemma Move(c: Config, attempt: bool, start: State, s: State, a: Action) returns (t: State)
    requires At(c, attempt, start, s) && Enabled(c, s, a) && Allowed(attempt, s, a)
    ensures At(c, attempt, start, t) && t == Apply(c, s, a)
  {
    hide Enabled, Apply, Allowed, LeadsWithin, Inv;
    var actions :| LeadsWithin(c, attempt, start, actions, s);
    WithinStep(c, attempt, start, actions, s, a);
    InvKept(c, s, a);
    t := Apply(c, s, a);
  }

  predicate PoolIdle(s: State) {
    s.queue == [] && forall w :: 0 <= w < |s.workers| ==> s.workers[w].Idle?
  }

  /** One worker ends its task. */
  lemma WorkerEnds(c: Config, attempt: bool, start: State, s: State, w: nat) returns (t: State)
    requires At(c, attempt, start, s) && w < |s.workers|
    ensures At(c, attempt, start, t)
    ensures t == s.(workers := s.workers[w := Idle], registry := t.registry)
  {
    hide At;
    t := s;
    if t.workers[w].Running? {
      t := Move(c, attempt, start, t, WorkerStep(w, Finish));
    }
    if t.workers[w].Removing? {
      t := Move(c, attempt, start, t, WorkerStep(w, Remove));
    }
    assert t.workers == s.workers[w := Idle];
  }

  lemma WorkersEnd(c: Config, attempt: bool, start: State, s: State) returns (t: State)
    requires At(c, attempt, start, s)
    ensures At(c, attempt, start, t) && forall w :: 0 <= w < |t.workers| ==> t.workers[w].Idle?
    ensures t == s.(workers := t.workers, registry := t.registry)
  {
    hide At;
    t := s;
    for w := 0 to |s.workers|
      invariant At(c, attempt, start, t) && |t.workers| == |s.workers|
      invariant t == s.(workers := t.workers, registry := t.registry)
      invariant forall v :: 0 <= v < w ==> t.workers[v].Idle?
    {
      t := WorkerEnds(c, attempt, start, t, w);
    }
  }

  /** The pool works off its queue. */
  lemma {:induction false} PoolEnds(c: Config, attempt: bool, start: State, s: State) returns (t: State)
    requires At(c, attempt, start, s)
    ensures At(c, attempt, start, t) && PoolIdle(t)
    ensures t == s.(queue := [], workers := t.workers, registry := t.registry)
    decreases |s.queue|
  {
    t := WorkersEnd(c, attempt, start, s);
    assert |t.workers| == MAX_RUNNING_TASKS;
    hide At;
    if t.queue != [] {
      t := Move(c, attempt, start, t, WorkerStep(0, Take));
      t := PoolEnds(c, attempt, start, t);
    }
  }

  /** A fetcher that is past its look-ups ends its current task, with room in the queue. */
  lemma FetcherHandsOver(c: Config, attempt: bool, start: State, s: State, f: nat) returns (t: State)
    requires At(c, attempt, start, s) && f in s.fetchers && s.queue == []
    requires InSection(s.fetchers[f]) && !s.fetchers[f].LookedUp?
    ensures At(c, attempt, start, t) && f in t.fetchers && t.fetchers[f].Counted?
    ensures t == s.(fetchers := s.fetchers[f := Counted(s.fetchers[f].todo)], registry := t.registry,
                    schedules := t.schedules, queue := t.queue)
  {
    hide At;
    t := s;
    match s.fetchers[f] {
      case Adding(_, _) =>
        t := Move(c, attempt, start, t, FetcherStep(f, Add));
        if t.fetchers[f].Enqueueing? {
          t := Move(c, attempt, start, t, FetcherStep(f, Enqueue));
        }
      case Enqueueing(_, _) => t := Move(c, attempt, start, t, FetcherStep(f, Enqueue));
      case Scheduling(_, _) => t := Move(c, attempt, start, t, FetcherStep(f, Schedule));
      case Counted(_) =>
    }
  }

  /** A fetcher in the section ends its current task. */
  lemma FetcherTurns(c: Config, attempt: bool, start: State, s: State, f: nat) returns (t: State)
    requires At(c, attempt, start, s) && f in s.fetchers && InSection(s.fetchers[f]) && s.queue == []
    ensures At(c, attempt, start, t)
    ensures t == s.(fetchers := s.fetchers[f := Counted(s.fetchers[f].todo)], registry := t.registry,
                    schedules := t.schedules, queue := t.queue)
  {
    hide At;
    t := s;
    if s.fetchers[f].LookedUp? {
      t := Move(c, attempt, start, s, FetcherStep(f, CheckSchedules));
      assert t == s.(fetchers := s.fetchers[f := t.fetchers[f]]);
    }
    t := FetcherHandsOver(c, attempt, start, t, f);
  }

  /** Two states that differ in what the fetcher `f`, the pool and the tables hold, and in nothing else. */
  ghost predicate SameElse(s: State, t: State, f: nat) {
    && t.fetchers - {f} == s.fetchers - {f}
    && t == s.(fetchers := t.fetchers, counter := t.counter, registry := t.registry, schedules := t.schedules,
               queue := t.queue, workers := t.workers)
  }

  /** A fetcher deals with the first entry of its list. */
  lemma FetcherDeals(c: Config, attempt: bool, start: State, s: State, f: nat) returns (t: State)
    requires At(c, attempt, start, s) && f in s.fetchers && s.fetchers[f].Counted? && s.fetchers[f].todo != []
    ensures At(c, attempt, start, t) && SameElse(s, t, f)
    ensures f in t.fetchers && t.fetchers[f] == Counted(s.fetchers[f].todo[1..])
  {
    hide At;
    if s.fetchers[f].todo[0].Elsewhere? {
      t := Move(c, attempt, start, s, FetcherStep(f, Ignore));
    } else {
      t := PoolEnds(c, attempt, start, s);
      t := Move(c, attempt, start, t, FetcherStep(f, Check));
      hide Apply, Enabled, PoolIdle;
      t := FetcherTurns(c, attempt, start, t, f);
    }
  }

  /** It deals with the rest of its list and counts itself out. */
  lemma {:induction false} FetcherLeaves(c: Config, attempt: bool, start: State, s: State, f: nat) returns (t: State)
    requires At(c, attempt, start, s) && f in s.fetchers && s.fetchers[f].Counted?
    ensures At(c, attempt, start, t) && SameElse(s, t, f) && f !in t.fetchers
    decreases if f in s.fetchers then InHand(s.fetchers[f]) else []
  {
    hide At;
    if s.fetchers[f].todo == [] {
      t := Move(c, attempt, start, s, FetcherStep(f, CountOut));
    } else {
      t := FetcherDeals(c, attempt, start, s, f);
      t := FetcherLeaves(c, attempt, start, t, f);
    }
  }

  /** A fetcher in the section gets through. */
  lemma FetcherEnds(c: Config, attempt: bool, start: State, s: State, f: nat) returns (t: State)
    requires At(c, attempt, start, s) && f in Section(s.fetchers) && s.queue == []
    ensures At(c, attempt, start, t) && SameElse(s, t, f) && f !in t.fetchers
  {
    hide At;
    t := FetcherTurns(c, attempt, start, s, f);
    assert t.fetchers - {f} == s.fetchers - {f};
    t := FetcherLeaves(c, attempt, start, t, f);
  }

  lemma GapsStay(s: State, n: State, f: nat)
    requires f in Section(s.fetchers) && f !in n.fetchers && n.fetchers - {f} == s.fetchers - {f}
    ensures Gaps(n) == Gaps(s) && Section(n.fetchers) == Section(s.fetchers) - {f}
    ensures n.fetchers.Keys == s.fetchers.Keys - {f}
  {
    assert n.fetchers == n.fetchers - {f};
  }

  /** Everything that is counted or live because of a fetcher comes to its end. */
  lemma {:induction false} AllEnd(c: Config, attempt: bool, start: State, s: State) returns (t: State)
    requires At(c, attempt, start, s)
    ensures At(c, attempt, start, t) && PoolIdle(t) && Section(t.fetchers) == {}
    ensures Gaps(t) == Gaps(s) && t.updater == s.updater && t.fetchers.Keys == s.fetchers.Keys - Section(s.fetchers)
    decreases |Section(s.fetchers)|
  {
    hide At, Section;
    t := PoolEnds(c, attempt, start, s);
    assert Gaps(t) == Gaps(s);
    hide Gaps;
    if f :| f in Section(s.fetchers) {
      t := FetcherEnds(c, attempt, start, t, f);
      GapsStay(s, t, f);
      t := AllEnd(c, attempt, start, t);
    }
  }

  /** Then the double check finds nothing to wait for. */
  lemma NothingToWaitFor(c: Config, s: State)
    requires c.onceIds !! c.timerIds && Inv(c, s) && PoolIdle(s) && Section(s.fetchers) == {}
    ensures s.counter == 0 && !AnyNonPeriodic(s.registry)
  {
    assert forall f :: f in s.fetchers && InSection(s.fetchers[f]) ==> f in Section(s.fetchers);
    assert LiveInv(c, s);
    assert forall p, t :: Has(s, p, t) ==> p.AtTimer?;
    assert NoLiveNonPeriodic(s);
    NonPeriodicIsRegistered(c, s);
  }

  /** Every state on the way of an attempt is safe. */
  ghost predicate AttemptIsSafe(c: Config, s: State) {
    forall actions, t :: LeadsWithin(c, true, s, actions, t) ==> Safe(t)
  }

  lemma GaplessAttemptIsSafe(c: Config, s: State)
    requires c.onceIds !! c.timerIds && Reachable(c, s) && s.gapsAtWake == {}
    ensures AttemptIsSafe(c, s)
  {
    hide Reachable, LeadsWithin, Leads, Safe;
    forall actions, t | LeadsWithin(c, true, s, actions, t) ensures Safe(t) {
      WithinLeads(c, true, s, actions, t);
      LeadsOn(c, s, actions, t);
      ScriptRunsAlone(c, t);
    }
  }

  /** With nothing to wait for the double check starts the script. */
  lemma ChecksPass(c: Config, attempt: bool, start: State, s: State) returns (t: State)
    requires At(c, attempt, start, s) && s.updater.RecheckCounter? && s.counter == 0 && !AnyNonPeriodic(s.registry)
    ensures At(c, attempt, start, t) && t == s.(updater := Script)
  {
    hide At, AnyNonPeriodic;
    t := Move(c, attempt, start, s, UpdaterStep);
    t := Move(c, attempt, start, t, UpdaterStep);
  }

  /** A fetcher in the gap can wait there until everything else has ended and the script has been started. */
  lemma GapOutlastsCheck(c: Config, s: State, f: nat)
    requires c.onceIds !! c.timerIds && Inv(c, s) && s.updater.RecheckCounter? && f in Gaps(s)
    ensures !AttemptIsSafe(c, s)
  {
    assert LeadsWithin(c, true, s, [], s);
    var t := AllEnd(c, true, s, s);
    NothingToWaitFor(c, t);
    hide At, AnyNonPeriodic, AttemptIsSafe;
    t := ChecksPass(c, true, s, t);
    assert f in Gaps(t);
    t := Move(c, true, s, t, FetcherStep(f, CountIn));
    assert f in Section(t.fetchers);
    UnsafeAttempt(c, s, t);
  }

  lemma UnsafeAttempt(c: Config, s: State, t: State)
    requires At(c, true, s, t) && !Safe(t)
    ensures !AttemptIsSafe(c, s)
  {
    hide LeadsWithin, Safe, Inv;
  }

  /** The sleep assumption is exact at every wake-up: whatever happens between the end of the sleep and the end
      of the script is safe if and only if no fetcher is in the gap at the wake-up. */
  lemma WakeUpIsSafeIff(c: Config, s: State)
    requires c.onceIds !! c.timerIds && Reachable(c, s) && s.updater.Sleeping?
    ensures AttemptIsSafe(c, UpdaterMoves(s)) <==> Gaps(s) == {}
  {
    var n := UpdaterMoves(s);
    assert Gaps(n) == Gaps(s) == n.gapsAtWake;
    ReachStep(c, s, UpdaterStep);
    if Gaps(s) == {} {
      GaplessAttemptIsSafe(c, n);
    } else {
      ReachableInv(c, n);
      var f :| f in Gaps(n);
      GapOutlastsCheck(c, n, f);
    }
  }

  // ------------------------------------------------------------ The updater can always get through

  /** A fetcher outside the section counts itself in. */
  lemma FetcherEnters(c: Config, start: State, s: State, f: nat) returns (t: State)
    requires At(c, false, start, s) && f in s.fetchers && !InSection(s.fetchers[f])
    ensures At(c, false, start, t) && t.fetchers == s.fetchers[f := Counted([])]
  {
    hide At;
    t := s;
    if s.fetchers[f].Locked? {
      t := Move(c, false, start, s, FetcherStep(f, Unlock));
    }
    t := Move(c, false, start, t, FetcherStep(f, CountIn));
  }

  lemma {:induction false} AllEnter(c: Config, start: State, s: State) returns (t: State)
    requires At(c, false, start, s)
    ensures At(c, false, start, t) && Section(t.fetchers) == t.fetchers.Keys
    decreases s.fetchers.Keys - Section(s.fetchers)
  {
    hide At;
    t := s;
    if f :| f in s.fetchers && f !in Section(s.fetchers) {
      t := FetcherEnters(c, start, s, f);
      SectionPut(s.fetchers, f, Counted([]));
      assert t.fetchers.Keys - Section(t.fetchers) == s.fetchers.Keys - Section(s.fetchers) - {f};
      t := AllEnter(c, start, t);
    } else {
      assert Section(s.fetchers) == s.fetchers.Keys;
    }
  }

  /** How many steps the updater is away from the script when it waits for nothing. */
  function Ahead(u: Updater): nat {
    match u
    case Script => 0
    case RecheckRegistry => 1
    case RecheckCounter => 2
    case Sleeping => 3
    case TryingLock => 4
    case SettingFlag => 5
    case CheckRegistry => 6
    case CheckCounter => 7
    case Off => 8
    case Clearing(_) => 9
    case Unlocking(_) => 10
  }

  lemma {:induction false} UpdaterGetsOn(c: Config, start: State, s: State) returns (t: State)
    requires At(c, false, start, s) && s.fetchers == map[] && s.counter == 0 && !AnyNonPeriodic(s.registry)
    ensures At(c, false, start, t) && t.updater.Script? && t.fetchers == map[] && !AnyNonPeriodic(t.registry)
    decreases Ahead(s.updater)
  {
    assert s.updater.TryingLock? ==> s.lock == Free;
    hide At, AnyNonPeriodic;
    t := s;
    if !s.updater.Script? {
      t := Move(c, false, start, s, UpdaterStep);
      t := UpdaterGetsOn(c, start, t);
    }
  }

  /** From every reachable state some run leads to a safe start of the script: no interleaving of fetchers, timers
      and workers locks the updater out for good. */
  lemma ScriptWithinReach(c: Config, s: State)
    requires c.onceIds !! c.timerIds && Reachable(c, s)
    ensures exists actions, t :: Leads(c, s, actions, t) && t.updater.Script? && Safe(t)
  {
    ReachableInv(c, s);
    assert LeadsWithin(c, false, s, [], s);
    var t := AllEnter(c, s, s);
    t := AllEnd(c, false, s, t);
    NothingToWaitFor(c, t);
    assert t.fetchers.Keys == {};
    t := UpdaterGetsOn(c, s, t);
    assert Safe(t) by { ScriptStartIsSafe(c, t); }
    hide Inv, LeadsWithin, Leads, Safe;
    var actions :| LeadsWithin(c, false, s, actions, t);
    WithinLeads(c, false, s, actions, t);
  }

  lemma ScriptStartIsSafe(c: Config, s: State)
    requires c.onceIds !! c.timerIds && Inv(c, s) && s.fetchers == map[] && !AnyNonPeriodic(s.registry)
    ensures Safe(s)
  {
    assert LiveInv(c, s);
    NonPeriodicIsRegistered(c, s);
  }
}
