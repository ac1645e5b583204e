/** What every run of the update protocol keeps, and when the update script runs alone. */
module UpdateSafety {
  import opened TaskRegistry
  import opened UpdateProtocol

  // ------------------------------------------------------------ The invariant

  predicate InSection(x: Fetcher) {
    !x.Locked? && !x.Gap?
  }

  ghost function Section(fetchers: map<nat, Fetcher>): set<nat> {
    set f | f in fetchers && InSection(fetchers[f])
  }

  predicate HoldsLock(u: Updater) {
    u.Sleeping? || u.RecheckCounter? || u.RecheckRegistry? || u.Script? || u.Unlocking?
  }

  /** The lock is held by whoever is at a step that holds it. */
  ghost predicate LockInv(s: State) {
    && (forall f :: f in s.fetchers && s.fetchers[f].Locked? <==> s.lock == ByFetcher(f))
    && (s.lock == ByUpdater <==> HoldsLock(s.updater))
  }

  /** The counter counts the fetchers in the counted section. */
  ghost predicate CounterInv(s: State) {
    s.counter == |Section(s.fetchers)|
  }

  /** The flag is up from before the try-lock until the loop turn or the function ends. */
  ghost predicate FlagInv(s: State) {
    s.criticalActionRunning <==> HoldsLock(s.updater) || s.updater.TryingLock? || s.updater.Clearing?
  }

  ghost predicate PoolInv(s: State) {
    |s.queue| <= MAX_PENDING_TASKS && |s.workers| == MAX_RUNNING_TASKS
  }

  /** The tasks a fetcher still has in hand. */
  function InHand(x: Fetcher): seq<Info> {
    match x
    case Counted(todo) => todo
    case LookedUp(t, once, todo) => [if once then Once(t) else Periodic(t)] + todo
    case Adding(t, todo) => [Once(t)] + todo
    case Enqueueing(t, todo) => [Once(t)] + todo
    case Scheduling(t, todo) => [Periodic(t)] + todo
    case _ => []
  }

  /** Fetchers handle what the server sends; schedules and timers hold periodic tasks. */
  ghost predicate ClassInv(c: Config, s: State) {
    && (forall f :: f in s.fetchers ==> AllKnown(c, InHand(s.fetchers[f])))
    && (forall id :: id in s.schedules ==> s.schedules[id].id == id && Known(c, Periodic(s.schedules[id])))
    && (forall g :: g in s.timers ==> Known(c, Periodic(s.timers[g].task)))
  }

  /** If the flag test is exclusive: one goroutine a timer, under a raised flag from its second step on, and while it
      is about to add its task no other step registers the id. */
  ghost predicate FiringInv(c: Config, s: State) {
    c.exclusive ==>
      && (forall g, h :: g in s.timers && h in s.timers && s.timers[g].task.id == s.timers[h].task.id ==> g == h)
      && (forall g :: g in s.timers && !s.timers[g].Tested? ==> s.timers[g].task.id in s.raised)
      && (forall g :: g in s.timers && s.timers[g].TimerAdding? ==> s.timers[g].task.id !in s.registry)
  }

  /** Where a task can be between being added and being removed. */
  datatype Place = AtFetcher(f: nat) | AtTimer(g: nat) | AtQueue(i: nat) | AtWorker(w: nat)

  ghost predicate Has(s: State, p: Place, t: Task) {
    match p
    case AtFetcher(f) => f in s.fetchers && s.fetchers[f].Enqueueing? && s.fetchers[f].task == t
    case AtTimer(g) => g in s.timers && s.timers[g] == TimerEnqueueing(t)
    case AtQueue(i) => i < |s.queue| && s.queue[i] == t
    case AtWorker(w) => w < |s.workers| && !s.workers[w].Idle? && s.workers[w].task == t
  }

  /** The ids whose tasks are always registered while they live: all, or without exclusive flag tests the one-off
      ones. */
  predicate Tracked(c: Config, id: string) {
    c.exclusive || id in c.onceIds
  }

  /** Every live task of a tracked id is registered under it. */
  ghost predicate RegisteredInv(c: Config, s: State) {
    forall p, t :: Has(s, p, t) && Tracked(c, t.id) ==> t.id in s.registry && s.registry[t.id] == t
  }

  /** No two live tasks share a tracked id. */
  ghost predicate UniqueInv(c: Config, s: State) {
    forall p, q, t, u :: Has(s, p, t) && Has(s, q, u) && t.id == u.id && Tracked(c, t.id) ==> p == q
  }

  /** Every task registered under a tracked id is live. */
  ghost predicate NoStaleInv(c: Config, s: State) {
    forall id :: id in s.registry && Tracked(c, id) ==> exists p :: Has(s, p, s.registry[id])
  }

  /** A one-off task, or a periodic one with a schedule. */
  predicate KnownTask(c: Config, t: Task) {
    Known(c, Once(t)) || Known(c, Periodic(t))
  }

  /** Live and registered tasks are known, the registered ones under their own ids. */
  ghost predicate KindInv(c: Config, s: State) {
    && (forall p, t :: Has(s, p, t) ==> KnownTask(c, t))
    && (forall id :: id in s.registry ==> s.registry[id].id == id && KnownTask(c, s.registry[id]))
  }

  ghost predicate NoLiveNonPeriodic(s: State) {
    forall p, t :: Has(s, p, t) ==> !NonPeriodic(t)
  }

  /** If no fetcher was in the gap at the wake-up, the double check closes the door. */
  ghost predicate PhaseInv(s: State) {
    s.gapsAtWake == {} ==>
      && (s.updater.RecheckCounter? ==> forall f :: f in s.fetchers ==> InSection(s.fetchers[f]))
      && (s.updater.RecheckRegistry? || s.updater.Script? ==> s.fetchers == map[])
      && (s.updater.Script? ==> NoLiveNonPeriodic(s))
  }

  ghost predicate Inv(c: Config, s: State) {
    && LockInv(s) && CounterInv(s) && FlagInv(s) && PoolInv(s) && ClassInv(c, s) && FiringInv(c, s)
    && RegisteredInv(c, s) && UniqueInv(c, s) && NoStaleInv(c, s) && KindInv(c, s) && PhaseInv(s)
  }

  /** While the script runs, no fetcher is counted in and no task without schedule is live. */
  ghost predicate Safe(s: State) {
    s.updater.Script? ==> Section(s.fetchers) == {} && NoLiveNonPeriodic(s)
  }

  // ------------------------------------------------------------ Lock, counter, flag and pool

  lemma SectionPut(fetchers: map<nat, Fetcher>, f: nat, x: Fetcher)
    ensures Section(fetchers[f := x]) == if InSection(x) then Section(fetchers) + {f} else Section(fetchers) - {f}
  {
  }

  lemma SectionDrop(fetchers: map<nat, Fetcher>, f: nat)
    ensures Section(fetchers - {f}) == Section(fetchers) - {f}
  {
  }

  /** What a fetcher's step does to the counter and to the fetchers. */
  lemma FetcherEffects(c: Config, s: State, f: nat, m: FetchMove)
    requires FetcherCan(c, s, f, m)
    ensures var n := FetcherMoves(c, s, f, m);
            && n.counter == s.counter + (if m == CountIn then 1 else if m == CountOut then -1 else 0)
            && n.fetchers == if m == Lock then s.fetchers[f := Locked]
                             else if m == CountOut then s.fetchers - {f}
                             else s.fetchers[f := FetcherNext(s.registry, s.schedules, s.fetchers[f], m)]
  {
    hide FetcherNext;
  }

  /** Only counting in leads into the section, and only counting out leads out of it. */
  lemma SectionEntered(c: Config, s: State, f: nat, m: FetchMove)
    requires FetcherCan(c, s, f, m) && m != Lock && m != CountOut
    ensures InSection(FetcherNext(s.registry, s.schedules, s.fetchers[f], m)) <==>
            InSection(s.fetchers[f]) || m == CountIn
    ensures m == CountIn ==> !InSection(s.fetchers[f])
  {
  }

  /** The counter moves with the fetchers that enter and leave the counted section. */
  lemma FetcherKeepsCounter(c: Config, s: State, f: nat, m: FetchMove)
    requires CounterInv(s) && FetcherCan(c, s, f, m)
    ensures CounterInv(FetcherMoves(c, s, f, m))
  {
    FetcherEffects(c, s, f, m);
    if m == Lock {
      SectionPut(s.fetchers, f, Locked);
      assert Section(s.fetchers) - {f} == Section(s.fetchers);
    } else if m == CountOut {
      SectionDrop(s.fetchers, f);
      assert f in Section(s.fetchers);
    } else {
      SectionEntered(c, s, f, m);
      hide FetcherMoves, FetcherNext, FetcherCan;
      SectionPut(s.fetchers, f, FetcherNext(s.registry, s.schedules, s.fetchers[f], m));
      assert f in Section(s.fetchers) <==> InSection(s.fetchers[f]);
      assert InSection(s.fetchers[f]) ==> Section(s.fetchers) + {f} == Section(s.fetchers);
    }
  }

  lemma FetcherKeepsCounts(c: Config, s: State, f: nat, m: FetchMove)
    requires LockInv(s) && CounterInv(s) && FlagInv(s) && PoolInv(s) && FetcherCan(c, s, f, m)
    ensures var n := FetcherMoves(c, s, f, m); LockInv(n) && CounterInv(n) && FlagInv(n) && PoolInv(n)
  {
    hide CounterInv;
    FetcherKeepsCounter(c, s, f, m);
  }

  lemma TimerKeepsCounts(c: Config, s: State, g: nat, m: TimerMove)
    requires LockInv(s) && CounterInv(s) && FlagInv(s) && PoolInv(s) && TimerCan(c, s, g, m)
    ensures var n := TimerMoves(c, s, g, m); LockInv(n) && CounterInv(n) && FlagInv(n) && PoolInv(n)
  {
    hide Section;
  }

  lemma WorkerKeepsCounts(s: State, w: nat, m: WorkerMove)
    requires LockInv(s) && CounterInv(s) && FlagInv(s) && PoolInv(s) && WorkerCan(s, w, m)
    ensures var n := WorkerMoves(s, w, m); LockInv(n) && CounterInv(n) && FlagInv(n) && PoolInv(n)
  {
    hide Section;
  }

  lemma UpdaterLeavesTasks(s: State)
    ensures var n := UpdaterMoves(s);
            && n.registry == s.registry && n.schedules == s.schedules && n.queue == s.queue
            && n.fetchers == s.fetchers && n.timers == s.timers && n.raised == s.raised
            && n.workers == s.workers && n.counter == s.counter
  {
    hide UpdaterNext, Gaps;
  }

  lemma UpdaterKeepsCounts(s: State)
    requires LockInv(s) && CounterInv(s) && FlagInv(s) && PoolInv(s)
    ensures var n := UpdaterMoves(s); LockInv(n) && CounterInv(n) && FlagInv(n) && PoolInv(n)
  {
    hide Section, AnyNonPeriodic, Gaps;
  }

  // ------------------------------------------------------------ Ids

  /** A fetcher gets new tasks in hand only by receiving them. */
  lemma HandMoves(registry: Registry, schedules: Registry, x: Fetcher, m: FetchMove)
    ensures forall info :: info in InHand(FetcherNext(registry, schedules, x, m)) ==>
                             info in InHand(x) || (m.Receive? && info in m.infos)
  {
  }

  lemma FetcherKeepsIds(c: Config, s: State, f: nat, m: FetchMove)
    requires c.onceIds !! c.timerIds && ClassInv(c, s) && FetcherCan(c, s, f, m)
    ensures ClassInv(c, FetcherMoves(c, s, f, m))
  {
    var n := FetcherMoves(c, s, f, m);
    if m != Lock && m != CountOut {
      var x, y := s.fetchers[f], n.fetchers[f];
      HandMoves(s.registry, s.schedules, x, m);
      assert x.Adding? ==> Once(x.task) in InHand(x);
      assert x.Scheduling? ==> Periodic(x.task) in InHand(x);
    }
  }

  lemma TimerKeepsIds(c: Config, s: State, g: nat, m: TimerMove)
    requires ClassInv(c, s) && TimerCan(c, s, g, m)
    ensures ClassInv(c, TimerMoves(c, s, g, m))
  {
    hide InHand;
  }

  lemma WorkerKeepsIds(c: Config, s: State, w: nat, m: WorkerMove)
    requires ClassInv(c, s) && WorkerCan(s, w, m)
    ensures ClassInv(c, WorkerMoves(s, w, m))
  {
    hide InHand;
  }

  lemma UpdaterKeepsIds(c: Config, s: State)
    requires ClassInv(c, s)
    ensures ClassInv(c, UpdaterMoves(s))
  {
    hide InHand, UpdaterMoves;
    UpdaterLeavesTasks(s);
  }

  // ------------------------------------------------------------ Firings

  lemma FetcherKeepsFirings(c: Config, s: State, f: nat, m: FetchMove)
    requires c.onceIds !! c.timerIds && ClassInv(c, s) && FiringInv(c, s) && FetcherCan(c, s, f, m)
    ensures FiringInv(c, FetcherMoves(c, s, f, m))
  {
    hide FetcherNext;
    if m == Add {
      assert Once(s.fetchers[f].task) in InHand(s.fetchers[f]);
    }
  }

  lemma TimerKeepsFirings(c: Config, s: State, g: nat, m: TimerMove)
    requires ClassInv(c, s) && FiringInv(c, s) && TimerCan(c, s, g, m)
    ensures FiringInv(c, TimerMoves(c, s, g, m))
  {
    hide InHand, Known;
  }

  lemma WorkerKeepsFirings(c: Config, s: State, w: nat, m: WorkerMove)
    requires FiringInv(c, s) && WorkerCan(s, w, m)
    ensures FiringInv(c, WorkerMoves(s, w, m))
  {
  }

  lemma UpdaterKeepsFirings(c: Config, s: State)
    requires FiringInv(c, s)
    ensures FiringInv(c, UpdaterMoves(s))
  {
    hide UpdaterMoves;
    UpdaterLeavesTasks(s);
  }

  // ------------------------------------------------------------ Live tasks

  ghost predicate LiveInv(c: Config, s: State) {
    RegisteredInv(c, s) && UniqueInv(c, s) && NoStaleInv(c, s) && KindInv(c, s)
  }

  /** A step that moves live tasks about, each new place coming from its own old place. */
  lemma LiveMoved(c: Config, s: State, n: State, back: Place -> Place, on: Place -> Place)
    requires LiveInv(c, s) && n.registry == s.registry
    requires forall p, t :: Has(n, p, t) ==> Has(s, back(p), t)
    requires forall p, q, t, u :: Has(n, p, t) && Has(n, q, u) && back(p) == back(q) ==> p == q
    requires forall p, t :: Has(s, p, t) ==> Has(n, on(p), t)
    ensures LiveInv(c, n)
    ensures NoLiveNonPeriodic(s) ==> NoLiveNonPeriodic(n)
  {
    hide Has, Tracked, KnownTask;
    forall id | id in n.registry && Tracked(c, id) ensures exists p :: Has(n, p, n.registry[id]) {
      var p :| Has(s, p, s.registry[id]);
      assert Has(n, on(p), n.registry[id]);
    }
    forall p, q, t, u | Has(n, p, t) && Has(n, q, u) && t.id == u.id && Tracked(c, t.id) ensures p == q {
      assert Has(s, back(p), t) && Has(s, back(q), u);
    }
  }

  /** A step that registers one task under a free tracked id and makes it live at one new place. */
  lemma LiveBorn(c: Config, s: State, n: State, at: Place, task: Task)
    requires LiveInv(c, s) && Tracked(c, task.id) && KnownTask(c, task)
    requires task.id !in s.registry && n.registry == s.registry[task.id := task]
    requires Has(n, at, task)
    requires forall p, t :: Has(n, p, t) ==> Has(s, p, t) || (p == at && t == task)
    requires forall p, t :: Has(s, p, t) ==> Has(n, p, t)
    ensures LiveInv(c, n)
    ensures NoLiveNonPeriodic(s) && !NonPeriodic(task) ==> NoLiveNonPeriodic(n)
  {
    hide Has, Tracked, KnownTask;
    forall p, t | Has(s, p, t) ensures t.id != task.id {
      assert t.id == task.id ==> Tracked(c, t.id);
    }
    forall id | id in n.registry && Tracked(c, id) ensures exists p :: Has(n, p, n.registry[id]) {
      if id != task.id {
        var p :| Has(s, p, s.registry[id]);
        assert Has(n, p, n.registry[id]);
      }
    }
  }

  /** A step that takes one live task of a tracked id away and its registration with it. */
  lemma LiveDied(c: Config, s: State, n: State, at: Place, task: Task)
    requires LiveInv(c, s) && Tracked(c, task.id) && n.registry == Removed(s.registry, task.id)
    requires Has(s, at, task) && forall t :: Has(s, at, t) ==> t == task
    requires forall p, t :: Has(n, p, t) <==> Has(s, p, t) && p != at
    ensures LiveInv(c, n)
    ensures NoLiveNonPeriodic(s) ==> NoLiveNonPeriodic(n)
  {
    hide Has, Tracked, KnownTask;
    forall id | id in n.registry && Tracked(c, id) ensures exists p :: Has(n, p, n.registry[id]) {
      var p :| Has(s, p, s.registry[id]);
      assert p != at;
      assert Has(n, p, n.registry[id]);
    }
  }

  /** Two states alike in the tracked ids. */
  ghost predicate SameTracked(c: Config, s: State, n: State) {
    && (forall p, t: Task :: Tracked(c, t.id) ==> (Has(n, p, t) <==> Has(s, p, t)))
    && (forall id :: Tracked(c, id) ==> (id in n.registry <==> id in s.registry))
    && (forall id :: Tracked(c, id) && id in s.registry ==> n.registry[id] == s.registry[id])
  }

  /** A step that touches untracked ids only. */
  lemma LiveUntracked(c: Config, s: State, n: State)
    requires LiveInv(c, s) && KindInv(c, n) && SameTracked(c, s, n)
    requires forall p, t :: Has(n, p, t) ==> Has(s, p, t) || !NonPeriodic(t)
    ensures LiveInv(c, n)
    ensures NoLiveNonPeriodic(s) ==> NoLiveNonPeriodic(n)
  {
    hide Has, Tracked, KnownTask, KindInv;
    forall id | id in n.registry && Tracked(c, id) ensures exists p :: Has(n, p, n.registry[id]) {
      var p :| Has(s, p, s.registry[id]);
      assert KindInv(c, s);
      RegisteredUnderOwnId(c, s, id);
      assert Has(n, p, n.registry[id]);
    }
  }

  lemma RegisteredUnderOwnId(c: Config, s: State, id: string)
    requires KindInv(c, s) && id in s.registry
    ensures s.registry[id].id == id
  {
  }

  lemma FetcherKeepsLive(c: Config, s: State, f: nat, m: FetchMove)
    requires LiveInv(c, s) && ClassInv(c, s) && FetcherCan(c, s, f, m)
    ensures LiveInv(c, FetcherMoves(c, s, f, m))
  {
    hide LiveInv, ClassInv;
    var n := FetcherMoves(c, s, f, m);
    if m == Enqueue {
      var end := |s.queue|;
      LiveMoved(c, s, n,
                p => if p == AtQueue(end) then AtFetcher(f) else p,
                p => if p == AtFetcher(f) then AtQueue(end) else p);
    } else if m == Add && s.fetchers[f].task.id !in s.registry {
      AddsKnown(c, s, f);
      LiveBorn(c, s, n, AtFetcher(f), s.fetchers[f].task);
    } else {
      LiveMoved(c, s, n, p => p, p => p);
    }
  }

  lemma AddsKnown(c: Config, s: State, f: nat)
    requires ClassInv(c, s) && f in s.fetchers && s.fetchers[f].Adding?
    ensures Tracked(c, s.fetchers[f].task.id) && KnownTask(c, s.fetchers[f].task)
  {
    assert Once(s.fetchers[f].task) in InHand(s.fetchers[f]);
  }

  /** With exclusive flag tests a timer's add is a birth; otherwise it is of no concern to the tracked ids. */
  lemma TimerAddKeepsLive(c: Config, s: State, g: nat)
    requires c.onceIds !! c.timerIds && LiveInv(c, s) && ClassInv(c, s) && FiringInv(c, s)
    requires TimerCan(c, s, g, TimerAdd)
    ensures LiveInv(c, TimerMoves(c, s, g, TimerAdd))
    ensures NoLiveNonPeriodic(s) ==> NoLiveNonPeriodic(TimerMoves(c, s, g, TimerAdd))
  {
    var n, task := TimerMoves(c, s, g, TimerAdd), s.timers[g].task;
    assert Known(c, Periodic(task));
    assert c.exclusive ==> task.id !in s.registry;
    hide ClassInv, FiringInv;
    assert forall p, t :: Has(n, p, t) ==> Has(s, p, t) || (p == AtTimer(g) && t == task);
    assert forall p, t :: Has(s, p, t) ==> Has(n, p, t);
    assert Has(n, AtTimer(g), task);
    if c.exclusive {
      LiveBorn(c, s, n, AtTimer(g), task);
    } else {
      hide Has;
      LiveUntracked(c, s, n);
    }
  }

  lemma TimerKeepsLive(c: Config, s: State, g: nat, m: TimerMove)
    requires c.onceIds !! c.timerIds && LiveInv(c, s) && ClassInv(c, s) && FiringInv(c, s) && TimerCan(c, s, g, m)
    ensures LiveInv(c, TimerMoves(c, s, g, m))
    ensures NoLiveNonPeriodic(s) ==> NoLiveNonPeriodic(TimerMoves(c, s, g, m))
  {
    hide LiveInv, ClassInv, FiringInv;
    var n := TimerMoves(c, s, g, m);
    match m
    case TimerAdd => TimerAddKeepsLive(c, s, g);
    case TimerEnqueue =>
      var end := |s.queue|;
      LiveMoved(c, s, n,
                p => if p == AtQueue(end) then AtTimer(g) else p,
                p => if p == AtTimer(g) then AtQueue(end) else p);
    case _ => LiveMoved(c, s, n, p => p, p => p);
  }

  /** Removing a tracked task is its death; the registration of another one may belong to a task that lives on. */
  lemma RemoveKeepsLive(c: Config, s: State, w: nat)
    requires LiveInv(c, s) && WorkerCan(s, w, Remove)
    ensures LiveInv(c, WorkerMoves(s, w, Remove))
    ensures NoLiveNonPeriodic(s) ==> NoLiveNonPeriodic(WorkerMoves(s, w, Remove))
  {
    var n, task := WorkerMoves(s, w, Remove), s.workers[w].task;
    assert Has(s, AtWorker(w), task) && forall t :: Has(s, AtWorker(w), t) ==> t == task;
    assert forall p, t :: Has(n, p, t) <==> Has(s, p, t) && p != AtWorker(w);
    hide Has;
    if Tracked(c, task.id) {
      LiveDied(c, s, n, AtWorker(w), task);
    } else {
      LiveUntracked(c, s, n);
    }
  }

  lemma WorkerKeepsLive(c: Config, s: State, w: nat, m: WorkerMove)
    requires LiveInv(c, s) && WorkerCan(s, w, m)
    ensures LiveInv(c, WorkerMoves(s, w, m))
    ensures NoLiveNonPeriodic(s) ==> NoLiveNonPeriodic(WorkerMoves(s, w, m))
  {
    hide LiveInv;
    var n := WorkerMoves(s, w, m);
    match m
    case Take =>
      LiveMoved(c, s, n,
                p => if p == AtWorker(w) then AtQueue(0) else if p.AtQueue? then AtQueue(p.i + 1) else p,
                p => if p == AtQueue(0) then AtWorker(w)
                     else if p.AtQueue? then AtQueue(if p.i > 0 then p.i - 1 else 0)
                     else p);
    case Finish => LiveMoved(c, s, n, p => p, p => p);
    case Remove => RemoveKeepsLive(c, s, w);
  }

  lemma UpdaterKeepsLive(c: Config, s: State)
    requires LiveInv(c, s)
    ensures LiveInv(c, UpdaterMoves(s))
  {
    hide LiveInv, UpdaterMoves;
    UpdaterLeavesTasks(s);
    LiveMoved(c, s, UpdaterMoves(s), p => p, p => p);
  }

  /** A registry without non-periodic tasks means none is live, and the other way round. */
  lemma NonPeriodicIsRegistered(c: Config, s: State)
    requires c.onceIds !! c.timerIds && LiveInv(c, s)
    ensures AnyNonPeriodic(s.registry) <==> !NoLiveNonPeriodic(s)
  {
    hide Has;
    forall p, t | Has(s, p, t) && NonPeriodic(t) ensures AnyNonPeriodic(s.registry) {
      assert Tracked(c, t.id);
      assert t.id in s.registry && s.registry[t.id] == t;
    }
    forall id | id in s.registry && NonPeriodic(s.registry[id]) ensures !NoLiveNonPeriodic(s) {
      assert Tracked(c, id);
      var p :| Has(s, p, s.registry[id]);
    }
  }

  // ------------------------------------------------------------ The double check

  lemma FetcherKeepsPhase(c: Config, s: State, f: nat, m: FetchMove)
    requires LockInv(s) && PhaseInv(s) && FetcherCan(c, s, f, m)
    ensures PhaseInv(FetcherMoves(c, s, f, m))
  {
    hide NoLiveNonPeriodic;
  }

  /** At the wake-up nobody can be between taking and releasing the lock. */
  lemma WakeUpPhase(s: State)
    requires LockInv(s) && s.updater.Sleeping?
    ensures PhaseInv(UpdaterMoves(s))
  {
    hide NoLiveNonPeriodic;
    forall f | f in s.fetchers && Gaps(s) == {} ensures InSection(s.fetchers[f]) {
      assert !s.fetchers[f].Locked?;
      assert s.fetchers[f].Gap? ==> f in Gaps(s);
    }
  }

  /** A zero counter then means there is no fetcher at all. */
  lemma CounterCheckPhase(s: State)
    requires CounterInv(s) && PhaseInv(s) && s.updater.RecheckCounter?
    ensures PhaseInv(UpdaterMoves(s))
  {
    hide NoLiveNonPeriodic;
    if s.counter <= 0 && s.gapsAtWake == {} {
      assert Section(s.fetchers) == {};
      assert forall f :: f in s.fetchers ==> f in Section(s.fetchers);
      assert s.fetchers.Keys == {};
    }
  }

  /** A registry without non-periodic tasks means none is live. */
  lemma RegistryCheckPhase(c: Config, s: State)
    requires c.onceIds !! c.timerIds && LiveInv(c, s) && PhaseInv(s) && s.updater.RecheckRegistry?
    ensures PhaseInv(UpdaterMoves(s))
  {
    NonPeriodicIsRegistered(c, s);
    SameLive(s);
    hide LiveInv, NoLiveNonPeriodic;
  }

  lemma SameLive(s: State)
    ensures NoLiveNonPeriodic(UpdaterMoves(s)) <==> NoLiveNonPeriodic(s)
  {
    hide UpdaterMoves;
    UpdaterLeavesTasks(s);
    assert forall p, t :: Has(UpdaterMoves(s), p, t) <==> Has(s, p, t);
  }

  lemma UpdaterKeepsPhase(c: Config, s: State)
    requires c.onceIds !! c.timerIds && LockInv(s) && CounterInv(s) && LiveInv(c, s) && PhaseInv(s)
    ensures PhaseInv(UpdaterMoves(s))
  {
    hide NoLiveNonPeriodic, AnyNonPeriodic, LiveInv;
    match s.updater
    case Sleeping => WakeUpPhase(s);
    case RecheckCounter => CounterCheckPhase(s);
    case RecheckRegistry => RegistryCheckPhase(c, s);
    case _ =>
  }

  // ------------------------------------------------------------ All steps, all runs

  lemma InvKept(c: Config, s: State, a: Action)
    requires c.onceIds !! c.timerIds && Inv(c, s) && Enabled(c, s, a)
    ensures Inv(c, Apply(c, s, a))
  {
    hide LockInv, CounterInv, FlagInv, PoolInv, ClassInv, FiringInv, RegisteredInv, UniqueInv, NoStaleInv, KindInv;
    assert LiveInv(c, s);
    var n := Apply(c, s, a);
    match a {
      case FetcherStep(f, m) =>
        FetcherKeepsCounts(c, s, f, m);
        FetcherKeepsIds(c, s, f, m);
        FetcherKeepsFirings(c, s, f, m);
        FetcherKeepsLive(c, s, f, m);
        FetcherKeepsPhase(c, s, f, m);
      case TimerStep(g, m) =>
        TimerKeepsCounts(c, s, g, m);
        TimerKeepsIds(c, s, g, m);
        TimerKeepsFirings(c, s, g, m);
        TimerKeepsLive(c, s, g, m);
      case WorkerStep(w, m) =>
        WorkerKeepsCounts(s, w, m);
        WorkerKeepsIds(c, s, w, m);
        WorkerKeepsFirings(c, s, w, m);
        WorkerKeepsLive(c, s, w, m);
      case UpdaterStep =>
        UpdaterKeepsCounts(s);
        UpdaterKeepsIds(c, s);
        UpdaterKeepsFirings(c, s);
        UpdaterKeepsLive(c, s);
        UpdaterKeepsPhase(c, s);
    }
  }

  lemma {:induction false} RunsKeepInv(c: Config, s: State, actions: seq<Action>, t: State)
    requires c.onceIds !! c.timerIds && Inv(c, s) && Leads(c, s, actions, t)
    ensures Inv(c, t)
    decreases |actions|
  {
    hide Inv, Enabled, Apply;
    if actions != [] {
      InvKept(c, s, actions[0]);
      RunsKeepInv(c, Apply(c, s, actions[0]), actions[1..], t);
    }
  }

  lemma InitInv(c: Config)
    ensures Inv(c, INIT)
  {
    assert Section(INIT.fetchers) == {};
    assert forall p, t :: !Has(INIT, p, t);
    hide Has, Section;
  }

  /** In every reachable state, if one-off and timer-driven ids are kept apart: live one-off tasks are registered
      under their own ids, one per id, and no other one-off task is registered; with exclusive flag tests the same
      holds of all tasks. The counter is exact, the lock has one holder, and the pool limits hold. */
  lemma ReachableInv(c: Config, s: State)
    requires c.onceIds !! c.timerIds && Reachable(c, s)
    ensures Inv(c, s)
  {
    hide Inv, Leads;
    InitInv(c);
    var actions :| Leads(c, INIT, actions, s);
    RunsKeepInv(c, INIT, actions, s);
  }

  /** The update script runs alone, provided no fetcher was still between releasing the lock and counting
      itself in when the updater's sleep ended. */
  lemma ScriptRunsAlone(c: Config, s: State)
    requires c.onceIds !! c.timerIds && Reachable(c, s)
    requires s.gapsAtWake == {}
    ensures Safe(s)
    ensures s.updater.Script? ==> s.fetchers == map[] && s.criticalActionRunning && s.lock == ByUpdater
  {
    ReachableInv(c, s);
  }

  /** With exclusive flag tests a timer's add, whose error the source ignores, never fails. */
  lemma TimerAddSucceeds(c: Config, s: State, g: nat)
    requires c.onceIds !! c.timerIds && c.exclusive && Reachable(c, s) && TimerCan(c, s, g, TimerAdd)
    ensures var task := s.timers[g].task;
            task.id !in s.registry && TimerMoves(c, s, g, TimerAdd).registry == s.registry[task.id := task]
  {
    ReachableInv(c, s);
  }

  // ------------------------------------------------------------ The decision is exact

  ghost predicate WithoutUpdater(actions: seq<Action>) {
    UpdaterStep !in actions
  }

  /** The script runs, no fetcher is about, and no task without schedule is live. */
  ghost predicate Quiet(c: Config, s: State) {
    && s.updater.Script? && s.fetchers == map[] && s.lock == ByUpdater
    && LiveInv(c, s) && ClassInv(c, s) && FiringInv(c, s) && NoLiveNonPeriodic(s)
  }

  lemma QuietKept(c: Config, s: State, a: Action)
    requires c.onceIds !! c.timerIds && Quiet(c, s) && Enabled(c, s, a) && a != UpdaterStep
    ensures Quiet(c, Apply(c, s, a))
  {
    hide LiveInv, ClassInv, FiringInv, NoLiveNonPeriodic;
    match a {
      case TimerStep(g, m) =>
        TimerKeepsIds(c, s, g, m);
        TimerKeepsFirings(c, s, g, m);
        TimerKeepsLive(c, s, g, m);
      case WorkerStep(w, m) =>
        WorkerKeepsIds(c, s, w, m);
        WorkerKeepsFirings(c, s, w, m);
        WorkerKeepsLive(c, s, w, m);
      case _ =>
    }
  }

  lemma {:induction false} QuietRuns(c: Config, s: State, actions: seq<Action>, t: State)
    requires c.onceIds !! c.timerIds && Quiet(c, s) && WithoutUpdater(actions) && Leads(c, s, actions, t)
    ensures Quiet(c, t)
    decreases |actions|
  {
    hide Quiet, Enabled, Apply;
    if actions != [] {
      assert actions[0] in actions;
      QuietKept(c, s, actions[0]);
      assert forall a :: a in actions[1..] ==> a in actions;
      QuietRuns(c, Apply(c, s, actions[0]), actions[1..], t);
    }
  }

  ghost predicate SafeUntilEnd(c: Config, s: State) {
    forall actions, t :: WithoutUpdater(actions) && Leads(c, s, actions, t) ==> Safe(t)
  }

  lemma QuietIsSafe(c: Config, s: State)
    requires c.onceIds !! c.timerIds && Quiet(c, s)
    ensures SafeUntilEnd(c, s)
  {
    hide Leads;
    forall actions, t | WithoutUpdater(actions) && Leads(c, s, actions, t) ensures Safe(t) {
      QuietRuns(c, s, actions, t);
    }
  }

  lemma GapIsUnsafe(c: Config, s: State, f: nat)
    requires s.updater.Script? && f in Gaps(s)
    ensures !SafeUntilEnd(c, s)
  {
    var a := FetcherStep(f, CountIn);
    var t := Apply(c, s, a);
    assert [a][1..] == [];
    assert Leads(c, t, [], t);
    assert Leads(c, s, [a], t) && WithoutUpdater([a]);
    assert f in Section(t.fetchers);
  }

  lemma SafeAndGaplessIsQuiet(c: Config, s: State)
    requires Inv(c, s) && s.updater.Script? && Safe(s) && Gaps(s) == {}
    ensures Quiet(c, s)
  {
    hide ClassInv, FiringInv, RegisteredInv, UniqueInv, NoStaleInv, KindInv, NoLiveNonPeriodic;
    assert forall f :: f in s.fetchers ==> f in Section(s.fetchers) || f in Gaps(s) || s.fetchers[f].Locked?;
    assert s.fetchers.Keys == {};
    assert LiveInv(c, s);
  }

  /** A started script stays safe until it ends, whatever the others do, if it is safe now and no fetcher is
      in the gap, and only then. */
  lemma SafeForWholeScript(c: Config, s: State)
    requires c.onceIds !! c.timerIds && Reachable(c, s) && s.updater.Script?
    ensures SafeUntilEnd(c, s) <==> Safe(s) && Gaps(s) == {}
  {
    ReachableInv(c, s);
    if Safe(s) && Gaps(s) == {} {
      SafeAndGaplessIsQuiet(c, s);
      QuietIsSafe(c, s);
    } else if Safe(s) {
      var f :| f in Gaps(s);
      GapIsUnsafe(c, s, f);
    } else {
      assert Leads(c, s, [], s) && WithoutUpdater([]);
    }
  }

  /** The decision of the double check: when its last look-up finds no non-periodic task, starting the script
      is safe until the script ends if and only if there is no fetcher at all at that moment. */
  lemma DecisionIsSafeIff(c: Config, s: State)
    requires c.onceIds !! c.timerIds && Reachable(c, s)
    requires s.updater.RecheckRegistry? && !AnyNonPeriodic(s.registry)
    ensures UpdaterMoves(s).updater.Script?
    ensures SafeUntilEnd(c, UpdaterMoves(s)) <==> s.fetchers == map[]
  {
    var n := UpdaterMoves(s);
    ReachableInv(c, s);
    ReachStep(c, s, UpdaterStep);
    SafeForWholeScript(c, n);
    assert NoLiveNonPeriodic(n) by {
      assert LiveInv(c, s);
      NonPeriodicIsRegistered(c, s);
      SameLive(s);
    }
    hide NoLiveNonPeriodic, AnyNonPeriodic, SafeUntilEnd;
    forall f | f in s.fetchers ensures f in Section(s.fetchers) || f in Gaps(n) {
      assert !s.fetchers[f].Locked?;
    }
    if Section(s.fetchers) == {} && Gaps(n) == {} { assert s.fetchers.Keys == {}; }
  }
}
