/** Runs that break safety where an assumption does not hold. */
module UpdateRuns {
  import opened TaskRegistry
  import opened UpdateProtocol
  import opened UpdateSafety

  /** Without the sleep being long enough: a fetcher that stays in the gap all the while is counted in
      when the script is already running. */
  lemma SlowFetcherIsUnsafe(c: Config)
    ensures exists s :: Reachable(c, s) && !Safe(s)
  {
    assert Leads(c, INIT, [], INIT);
    var s := Go(c, INIT, FetcherStep(0, Lock));
    s := Go(c, s, FetcherStep(0, Unlock));
    s := GoToScript(c, s);
    s := Go(c, s, FetcherStep(0, CountIn));
    assert 0 in Section(s.fetchers);
  }

  lemma Go(c: Config, s: State, a: Action) returns (t: State)
    requires Reachable(c, s) && Enabled(c, s, a)
    ensures Reachable(c, t) && t == Apply(c, s, a)
  {
    hide Enabled, Apply;
    ReachStep(c, s, a);
    t := Apply(c, s, a);
  }

  /** From a state with a free lock, a zero counter and no registered task the updater can go straight
      to the script. */
  lemma GoToScript(c: Config, s: State) returns (t: State)
    requires Reachable(c, s) && s.updater == Off && s.lock == Free && s.counter == 0 && s.registry == map[]
    ensures Reachable(c, t)
    ensures t == s.(updater := Script, lock := ByUpdater, criticalActionRunning := true, gapsAtWake := Gaps(s))
  {
    t := GoToSleep(c, s);
    assert Gaps(t) == Gaps(s);
    assert !AnyNonPeriodic(t.registry);
    hide Gaps, AnyNonPeriodic, Reachable;
    t := Go(c, t, UpdaterStep);
    t := Go(c, t, UpdaterStep);
    t := Go(c, t, UpdaterStep);
  }

  lemma GoToSleep(c: Config, s: State) returns (t: State)
    requires Reachable(c, s) && s.updater == Off && s.lock == Free && s.counter == 0 && s.registry == map[]
    ensures Reachable(c, t) && t == s.(updater := Sleeping, lock := ByUpdater, criticalActionRunning := true)
  {
    assert !AnyNonPeriodic(s.registry);
    hide AnyNonPeriodic, Reachable;
    t := Go(c, s, UpdaterStep);
    t := Go(c, t, UpdaterStep);
    t := Go(c, t, UpdaterStep);
    t := Go(c, t, UpdaterStep);
    t := Go(c, t, UpdaterStep);
  }

  lemma CountsIn(c: Config, s: State, f: nat) returns (t: State)
    requires Reachable(c, s) && f !in s.fetchers && s.lock == Free
    ensures Reachable(c, t) && t == s.(counter := s.counter + 1, fetchers := s.fetchers[f := Counted([])])
  {
    hide Reachable;
    t := Go(c, s, FetcherStep(f, Lock));
    t := Go(c, t, FetcherStep(f, Unlock));
    assert t == s.(fetchers := s.fetchers[f := Gap]);
    t := Go(c, t, FetcherStep(f, CountIn));
  }

  lemma ReceivesOne(c: Config, s: State, f: nat, info: Info) returns (t: State)
    requires Reachable(c, s) && f !in s.fetchers && s.lock == Free && Known(c, info)
    ensures Reachable(c, t) && t == s.(counter := s.counter + 1, fetchers := s.fetchers[f := Counted([info])])
  {
    t := CountsIn(c, s, f);
    hide Reachable;
    assert AllKnown(c, [info]);
    t := Go(c, t, FetcherStep(f, Receive([info])));
  }

  /** A fetcher receives one task and finds its id neither registered nor scheduled. */
  lemma FindsFree(c: Config, s: State, f: nat, info: Info) returns (t: State)
    requires Reachable(c, s) && f !in s.fetchers && s.lock == Free && Known(c, info)
    requires !info.Elsewhere? && info.task.id !in s.registry && info.task.id !in s.schedules
    ensures Reachable(c, t)
    ensures var x := if info.Once? then Adding(info.task, []) else Scheduling(info.task, []);
            t == s.(counter := s.counter + 1, fetchers := s.fetchers[f := x])
  {
    t := ReceivesOne(c, s, f, info);
    hide Reachable, Known;
    t := Go(c, t, FetcherStep(f, Check));
    assert [info][1..] == [];
    t := Go(c, t, FetcherStep(f, CheckSchedules));
  }

  /** Between a fetcher's look-up and its add, another fetcher schedules a periodic task with the same id. */
  lemma ScheduledMeanwhile(c: Config, once: Task, timed: Task) returns (s: State)
    requires once.id == timed.id && Known(c, Once(once)) && Known(c, Periodic(timed))
    ensures Reachable(c, s)
    ensures s == INIT.(counter := 1, fetchers := map[0 := Adding(once, [])], schedules := map[once.id := timed])
  {
    assert Leads(c, INIT, [], INIT);
    s := FindsFree(c, INIT, 0, Once(once));
    hide Reachable;
    s := FindsFree(c, s, 1, Periodic(timed));
    s := Go(c, s, FetcherStep(1, Schedule));
    s := Go(c, s, FetcherStep(1, CountOut));
    assert s.fetchers == map[0 := Adding(once, [])];
  }

  /** A goroutine of an idle timer gets to where it looks the id up. */
  lemma TimerStarts(c: Config, s: State, g: nat, timed: Task) returns (t: State)
    requires Reachable(c, s) && g !in s.timers && timed.id in s.schedules && s.schedules[timed.id] == timed
    requires timed.id !in s.raised && NobodyTests(s, timed.id)
    ensures Reachable(c, t)
    ensures t == s.(timers := s.timers[g := Started(timed)], raised := s.raised + {timed.id})
  {
    hide Reachable;
    t := Go(c, s, TimerStep(g, Test(timed.id)));
    t := Go(c, t, TimerStep(g, Raise));
    assert t.timers == s.timers[g := Started(timed)];
  }

  /** The timer looks the id up before the add. */
  lemma LooksUpMeanwhile(c: Config, once: Task, timed: Task) returns (s: State)
    requires once.id == timed.id && Known(c, Once(once)) && Known(c, Periodic(timed))
    ensures Reachable(c, s)
    ensures s == INIT.(counter := 1, fetchers := map[0 := Adding(once, [])], schedules := map[once.id := timed],
                       timers := map[0 := TimerAdding(timed)], raised := {once.id})
  {
    s := ScheduledMeanwhile(c, once, timed);
    s := TimerStarts(c, s, 0, timed);
    hide Reachable;
    s := Go(c, s, TimerStep(0, LookUp));
    assert s.timers == map[0 := TimerAdding(timed)];
  }

  lemma OnceQueued(c: Config, once: Task, timed: Task) returns (s: State)
    requires once.id == timed.id && Known(c, Once(once)) && Known(c, Periodic(timed))
    ensures Reachable(c, s)
    ensures var id := once.id;
            s == INIT.(registry := map[id := once], schedules := map[id := timed], queue := [once],
                       timers := map[0 := TimerAdding(timed)], raised := {id})
  {
    s := LooksUpMeanwhile(c, once, timed);
    hide Reachable;
    s := Go(c, s, FetcherStep(0, Add));
    s := Go(c, s, FetcherStep(0, Enqueue));
    s := Go(c, s, FetcherStep(0, CountOut));
    assert s.fetchers == map[];
  }

  /** The timer's own failing add goes unnoticed and both tasks are queued. */
  lemma BothQueued(c: Config, once: Task, timed: Task) returns (s: State)
    requires once.id == timed.id && Known(c, Once(once)) && Known(c, Periodic(timed))
    ensures Reachable(c, s)
    ensures var id := once.id;
            s == INIT.(registry := map[id := once], schedules := map[id := timed], queue := [once, timed])
  {
    s := OnceQueued(c, once, timed);
    hide Reachable;
    s := Go(c, s, TimerStep(0, TimerAdd));
    s := Go(c, s, TimerStep(0, TimerEnqueue));
    s := Go(c, s, TimerStep(0, Lower));
    assert s.timers == map[] && s.raised == {};
  }

  /** Without keeping ids apart: a one-off task that shares its id with a periodic one loses its registration to
      that one and is still running when the script starts, with no fetcher about. */
  lemma SharedIdIsUnsafe(c: Config, id: string)
    requires id in c.onceIds && id in c.timerIds
    ensures exists s :: Reachable(c, s) && !Safe(s) && s.gapsAtWake == {}
  {
    var once, timed := Task(id, ""), Task(id, "0 0 * * * *");
    var s := BothQueued(c, once, timed);
    s := FirstKeepsRunning(c, s, once, timed);
    assert Gaps(s) == {};
    s := GoToScript(c, s);
    assert Has(s, AtWorker(0), once);
  }

  /** Two workers take the tasks; the timer's finishes first and takes the registration along. */
  lemma FirstKeepsRunning(c: Config, s: State, once: Task, timed: Task) returns (t: State)
    requires Reachable(c, s) && once.id == timed.id
    requires s == INIT.(registry := map[once.id := once], schedules := s.schedules, queue := [once, timed])
    ensures Reachable(c, t)
    ensures t == INIT.(schedules := s.schedules, workers := INIT.workers[0 := Running(once)])
  {
    hide Reachable;
    t := Go(c, s, WorkerStep(0, Take));
    t := Go(c, t, WorkerStep(1, Take));
    t := Go(c, t, WorkerStep(1, Finish));
    t := Go(c, t, WorkerStep(1, Remove));
    assert t.workers == INIT.workers[0 := Running(once)];
  }

  // ------------------------------------------------------------ Two firings of one timer

  /** A timer is scheduled and nothing else is going on. */
  lemma OneSchedule(c: Config, timed: Task) returns (s: State)
    requires Known(c, Periodic(timed))
    ensures Reachable(c, s) && s == INIT.(schedules := map[timed.id := timed])
  {
    assert Leads(c, INIT, [], INIT);
    s := FindsFree(c, INIT, 0, Periodic(timed));
    hide Reachable;
    s := Go(c, s, FetcherStep(0, Schedule));
    s := Go(c, s, FetcherStep(0, CountOut));
    assert s.fetchers == map[];
  }

  /** Both goroutines test the flag before either raises it. */
  lemma BothStart(c: Config, timed: Task) returns (s: State)
    requires !c.exclusive && Known(c, Periodic(timed))
    ensures Reachable(c, s)
    ensures s == INIT.(schedules := map[timed.id := timed], timers := map[0 := Started(timed), 1 := Started(timed)],
                       raised := {timed.id})
  {
    s := OneSchedule(c, timed);
    hide Reachable;
    s := Go(c, s, TimerStep(0, Test(timed.id)));
    s := Go(c, s, TimerStep(1, Test(timed.id)));
    s := Go(c, s, TimerStep(0, Raise));
    s := Go(c, s, TimerStep(1, Raise));
    assert s.timers == map[0 := Started(timed), 1 := Started(timed)];
  }

  /** Without exclusive flag tests two goroutines of one timer can both find its task missing; the add of the second
      one then fails, and the same task is enqueued twice. */
  lemma SecondFiringFails(c: Config, id: string)
    requires !c.exclusive && id in c.timerIds
    ensures exists s, g :: Reachable(c, s) && TimerCan(c, s, g, TimerAdd) && s.timers[g].task.id in s.registry
    ensures exists s :: Reachable(c, s) && |s.queue| == 2 && s.queue[0] == s.queue[1]
  {
    var timed := Task(id, "0 0 * * * *");
    var s := BothStart(c, timed);
    hide Reachable;
    s := Go(c, s, TimerStep(0, LookUp));
    s := Go(c, s, TimerStep(1, LookUp));
    s := Go(c, s, TimerStep(0, TimerAdd));
    assert TimerCan(c, s, 1, TimerAdd) && s.timers[1].task.id in s.registry;
    EnqueuedTwice(c, s, timed);
  }

  lemma EnqueuedTwice(c: Config, s: State, timed: Task)
    requires Reachable(c, s) && s.queue == []
    requires s.timers == map[0 := TimerEnqueueing(timed), 1 := TimerAdding(timed)]
    ensures exists t :: Reachable(c, t) && |t.queue| == 2 && t.queue[0] == t.queue[1]
  {
    hide Reachable;
    var t := Go(c, s, TimerStep(1, TimerAdd));
    t := Go(c, t, TimerStep(0, TimerEnqueue));
    t := Go(c, t, TimerStep(1, TimerEnqueue));
    assert t.queue == [timed, timed];
  }
}
