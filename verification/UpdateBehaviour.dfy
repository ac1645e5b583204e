/** What the participants of the update protocol do: each one's course when nobody interferes, and what holds of their
    courses in every run. */
module UpdateBehaviour {
  import opened TaskRegistry
  import opened UpdateProtocol
  import opened UpdateSafety

  /** One more step of a course. */
  lemma On(c: Config, s: State, done: seq<Action>, m: State, a: Action) returns (all: seq<Action>, n: State)
    requires Leads(c, s, done, m) && Enabled(c, m, a)
    ensures all == done + [a] && n == Apply(c, m, a) && Leads(c, s, all, n)
  {
    hide Enabled, Apply, Leads;
    LeadsStep(c, s, done, m, a);
    all, n := done + [a], Apply(c, m, a);
  }

  /** Two courses one after the other. */
  lemma {:induction false} Join(c: Config, s: State, first: seq<Action>, m: State, second: seq<Action>, t: State)
    requires Leads(c, s, first, m) && Leads(c, m, second, t)
    ensures Leads(c, s, first + second, t)
    decreases |first|
  {
    hide Enabled, Apply;
    if first == [] {
      assert first + second == second;
    } else {
      Join(c, Apply(c, s, first[0]), first[1..], m, second, t);
      assert (first + second)[1..] == first[1..] + second;
    }
  }

  // ------------------------------------------------------------ Fetching

  lemma LocksAndUnlocks(c: Config, s: State, f: nat)
    requires f !in s.fetchers && s.lock == Free
    ensures Leads(c, s, [FetcherStep(f, Lock)], s.(lock := ByFetcher(f), fetchers := s.fetchers[f := Locked]))
    ensures Leads(c, s, [FetcherStep(f, Lock)] + [FetcherStep(f, Unlock)], s.(fetchers := s.fetchers[f := Gap]))
  {
    var all, n := On(c, s, [], s, FetcherStep(f, Lock));
    assert all == [FetcherStep(f, Lock)];
    hide Leads;
    all, n := On(c, s, all, n, FetcherStep(f, Unlock));
    assert n == s.(fetchers := s.fetchers[f := Gap]);
  }

  /** A fetcher takes the lock, releases it and counts itself in. */
  lemma EntersSection(c: Config, s: State, f: nat)
    requires f !in s.fetchers && s.lock == Free
    ensures Leads(c, s, [FetcherStep(f, Lock)] + [FetcherStep(f, Unlock)] + [FetcherStep(f, CountIn)],
                  s.(counter := s.counter + 1, fetchers := s.fetchers[f := Counted([])]))
  {
    hide Leads;
    LocksAndUnlocks(c, s, f);
    var _, n := On(c, s, [FetcherStep(f, Lock)] + [FetcherStep(f, Unlock)], s.(fetchers := s.fetchers[f := Gap]),
                   FetcherStep(f, CountIn));
    assert n.fetchers == s.fetchers[f := Counted([])];
  }

  /** It hands what it receives to dispatching, all of it and in order, and counts itself out when nothing is left. */
  lemma ReceivesAndLeaves(c: Config, s: State, f: nat, infos: seq<Info>)
    requires f in s.fetchers && s.fetchers[f] == Counted([]) && AllKnown(c, infos)
    ensures Leads(c, s, [FetcherStep(f, Receive(infos))], s.(fetchers := s.fetchers[f := Counted(infos)]))
    ensures Leads(c, s, [FetcherStep(f, CountOut)], s.(counter := s.counter - 1, fetchers := s.fetchers - {f}))
  {
    var _, n := On(c, s, [], s, FetcherStep(f, Receive(infos)));
    var _, m := On(c, s, [], s, FetcherStep(f, CountOut));
  }

  /** A one-off task whose id is registered is ignored. */
  lemma RegisteredIsIgnored(c: Config, s: State, f: nat, info: Info, todo: seq<Info>)
    requires f in s.fetchers && s.fetchers[f] == Counted([info] + todo)
    requires !info.Elsewhere? && info.task.id in s.registry
    ensures Leads(c, s, [FetcherStep(f, Check)], s.(fetchers := s.fetchers[f := Counted(todo)]))
  {
    assert ([info] + todo)[1..] == todo;
    var _, n := On(c, s, [], s, FetcherStep(f, Check));
  }

  /** So is one whose id has a schedule. */
  lemma ScheduledIsIgnored(c: Config, s: State, f: nat, info: Info, todo: seq<Info>)
    requires f in s.fetchers && s.fetchers[f] == Counted([info] + todo)
    requires !info.Elsewhere? && info.task.id !in s.registry && info.task.id in s.schedules
    ensures Leads(c, s, [FetcherStep(f, Check), FetcherStep(f, CheckSchedules)],
                  s.(fetchers := s.fetchers[f := Counted(todo)]))
  {
    assert ([info] + todo)[1..] == todo;
    var all, n := On(c, s, [], s, FetcherStep(f, Check));
    hide Leads;
    all, n := On(c, s, all, n, FetcherStep(f, CheckSchedules));
    assert n.fetchers == s.fetchers[f := Counted(todo)];
  }

  /** Where a fetcher stands that has found an id neither registered nor scheduled. */
  function FoundFree(info: Info, todo: seq<Info>): Fetcher
    requires !info.Elsewhere?
  {
    if info.Once? then Adding(info.task, todo) else Scheduling(info.task, todo)
  }

  lemma LookUps(c: Config, s: State, f: nat, info: Info, todo: seq<Info>)
    requires f in s.fetchers && s.fetchers[f] == Counted([info] + todo)
    requires !info.Elsewhere? && info.task.id !in s.registry && info.task.id !in s.schedules
    ensures Leads(c, s, [FetcherStep(f, Check), FetcherStep(f, CheckSchedules)],
                  s.(fetchers := s.fetchers[f := FoundFree(info, todo)]))
  {
    assert ([info] + todo)[1..] == todo;
    var all, n := On(c, s, [], s, FetcherStep(f, Check));
    hide Leads;
    all, n := On(c, s, all, n, FetcherStep(f, CheckSchedules));
    assert n.fetchers == s.fetchers[f := FoundFree(info, todo)];
  }

  lemma AddsAndQueues(c: Config, s: State, f: nat, t: Task, todo: seq<Info>)
    requires f in s.fetchers && s.fetchers[f] == Adding(t, todo) && t.id !in s.registry && |s.queue| < 50
    ensures Leads(c, s, [FetcherStep(f, Add), FetcherStep(f, Enqueue)],
                  s.(fetchers := s.fetchers[f := Counted(todo)], registry := s.registry[t.id := t],
                     queue := s.queue + [t]))
  {
    var all, n := On(c, s, [], s, FetcherStep(f, Add));
    hide Leads;
    all, n := On(c, s, all, n, FetcherStep(f, Enqueue));
    assert n.fetchers == s.fetchers[f := Counted(todo)];
  }

  /** A new one-off task is registered and put at the end of the queue. */
  lemma OnceIsQueued(c: Config, s: State, f: nat, t: Task, todo: seq<Info>)
    requires f in s.fetchers && s.fetchers[f] == Counted([Once(t)] + todo)
    requires t.id !in s.registry && t.id !in s.schedules && |s.queue| < 50
    ensures Leads(c, s, [FetcherStep(f, Check), FetcherStep(f, CheckSchedules)]
                        + [FetcherStep(f, Add), FetcherStep(f, Enqueue)],
                  s.(fetchers := s.fetchers[f := Counted(todo)], registry := s.registry[t.id := t],
                     queue := s.queue + [t]))
  {
    hide Leads, FetcherCan, FetcherMoves;
    LookUps(c, s, f, Once(t), todo);
    var m := s.(fetchers := s.fetchers[f := Adding(t, todo)]);
    AddsAndQueues(c, m, f, t, todo);
    assert m.fetchers[f := Counted(todo)] == s.fetchers[f := Counted(todo)];
    Join(c, s, [FetcherStep(f, Check), FetcherStep(f, CheckSchedules)], m,
         [FetcherStep(f, Add), FetcherStep(f, Enqueue)],
         s.(fetchers := s.fetchers[f := Counted(todo)], registry := s.registry[t.id := t], queue := s.queue + [t]));
  }

  /** A new periodic task is scheduled, and neither registered nor queued. */
  lemma PeriodicIsScheduled(c: Config, s: State, f: nat, t: Task, todo: seq<Info>)
    requires f in s.fetchers && s.fetchers[f] == Counted([Periodic(t)] + todo)
    requires t.id !in s.registry && t.id !in s.schedules
    ensures Leads(c, s, [FetcherStep(f, Check), FetcherStep(f, CheckSchedules)] + [FetcherStep(f, Schedule)],
                  s.(fetchers := s.fetchers[f := Counted(todo)], schedules := s.schedules[t.id := t]))
  {
    LookUps(c, s, f, Periodic(t), todo);
    var m := s.(fetchers := s.fetchers[f := Scheduling(t, todo)]);
    var _, n := On(c, s, [FetcherStep(f, Check), FetcherStep(f, CheckSchedules)], m, FetcherStep(f, Schedule));
    assert n.fetchers == s.fetchers[f := Counted(todo)];
  }

  /** A task that another fetcher has registered between the look-up and the add is ignored, too. */
  lemma TakenMeanwhileIsIgnored(c: Config, s: State, f: nat, t: Task, todo: seq<Info>)
    requires f in s.fetchers && s.fetchers[f] == Adding(t, todo) && t.id in s.registry
    ensures Leads(c, s, [FetcherStep(f, Add)], s.(fetchers := s.fetchers[f := Counted(todo)]))
  {
    var _, n := On(c, s, [], s, FetcherStep(f, Add));
  }

  /** What is neither a one-off nor a periodic task is dealt with elsewhere. */
  lemma ElsewhereIsPassedOver(c: Config, s: State, f: nat, todo: seq<Info>)
    requires f in s.fetchers && s.fetchers[f] == Counted([Elsewhere] + todo)
    ensures Leads(c, s, [FetcherStep(f, Ignore)], s.(fetchers := s.fetchers[f := Counted(todo)]))
  {
    assert ([Elsewhere] + todo)[1..] == todo;
    var _, n := On(c, s, [], s, FetcherStep(f, Ignore));
  }

  /** A fetcher with something in hand has at most one way on, so nothing it has received is dropped. */
  lemma OneWayOn(c: Config, s: State, f: nat, m1: FetchMove, m2: FetchMove)
    requires f in s.fetchers && s.fetchers[f] != Counted([])
    requires FetcherCan(c, s, f, m1) && FetcherCan(c, s, f, m2)
    ensures m1 == m2
  {
  }

  // ------------------------------------------------------------ The timer

  /** The timer of `id` is idle, and `g` is free for a goroutine of it. */
  predicate CanFire(s: State, g: nat, id: string) {
    && g !in s.timers && id in s.schedules && s.schedules[id].id == id
    && id !in s.raised && NobodyTests(s, id)
  }

  /** The goroutine `g` of the timer is at `x`, under the raised flag. */
  function Firing(s: State, g: nat, id: string, x: Timer): State {
    s.(timers := s.timers[g := x], raised := s.raised + {id})
  }

  lemma FiringStarts(c: Config, s: State, g: nat, id: string)
    requires CanFire(s, g, id)
    ensures Leads(c, s, [TimerStep(g, Test(id)), TimerStep(g, Raise)], Firing(s, g, id, Started(s.schedules[id])))
  {
    var all, n := On(c, s, [], s, TimerStep(g, Test(id)));
    hide Leads;
    all, n := On(c, s, all, n, TimerStep(g, Raise));
    assert n.timers == s.timers[g := Started(s.schedules[id])];
  }

  /** A firing that finds the task registered changes nothing. */
  lemma FiringIsSkipped(c: Config, s: State, g: nat, id: string)
    requires CanFire(s, g, id) && id in s.registry
    ensures Leads(c, s, [TimerStep(g, Test(id)), TimerStep(g, Raise)] + [TimerStep(g, LookUp)] + [TimerStep(g, Lower)],
                  s)
  {
    FiringStarts(c, s, g, id);
    hide Leads;
    var task := s.schedules[id];
    var all, n := On(c, s, [TimerStep(g, Test(id)), TimerStep(g, Raise)], Firing(s, g, id, Started(task)),
                     TimerStep(g, LookUp));
    assert n == Firing(s, g, id, Ending(task));
    all, n := On(c, s, all, n, TimerStep(g, Lower));
    assert n.timers == s.timers && n.raised == s.raised;
    assert n == s;
  }

  lemma FiringAdds(c: Config, s: State, g: nat, id: string)
    requires CanFire(s, g, id) && id !in s.registry
    ensures Leads(c, s, [TimerStep(g, Test(id)), TimerStep(g, Raise)] + [TimerStep(g, LookUp)]
                        + [TimerStep(g, TimerAdd)],
                  Firing(s, g, id, TimerEnqueueing(s.schedules[id])).(registry := s.registry[id := s.schedules[id]]))
  {
    FiringStarts(c, s, g, id);
    hide Leads;
    var task := s.schedules[id];
    var all, n := On(c, s, [TimerStep(g, Test(id)), TimerStep(g, Raise)], Firing(s, g, id, Started(task)),
                     TimerStep(g, LookUp));
    assert n == Firing(s, g, id, TimerAdding(task));
    all, n := On(c, s, all, n, TimerStep(g, TimerAdd));
    assert n == Firing(s, g, id, TimerEnqueueing(task)).(registry := s.registry[id := task]);
  }

  /** Any other firing registers the scheduled task and puts it at the end of the queue. */
  lemma FiringIsQueued(c: Config, s: State, g: nat, id: string)
    requires CanFire(s, g, id) && id !in s.registry && |s.queue| < 50
    ensures Leads(c, s, [TimerStep(g, Test(id)), TimerStep(g, Raise)] + [TimerStep(g, LookUp)]
                        + [TimerStep(g, TimerAdd)] + [TimerStep(g, TimerEnqueue)] + [TimerStep(g, Lower)],
                  s.(registry := s.registry[id := s.schedules[id]], queue := s.queue + [s.schedules[id]]))
  {
    FiringAdds(c, s, g, id);
    hide Leads;
    var task := s.schedules[id];
    var m := Firing(s, g, id, TimerEnqueueing(task)).(registry := s.registry[id := task]);
    var all, n := On(c, s, [TimerStep(g, Test(id)), TimerStep(g, Raise)] + [TimerStep(g, LookUp)]
                           + [TimerStep(g, TimerAdd)], m, TimerStep(g, TimerEnqueue));
    assert n == Firing(s, g, id, Ending(task)).(registry := s.registry[id := task], queue := s.queue + [task]);
    all, n := On(c, s, all, n, TimerStep(g, Lower));
    assert n.timers == s.timers && n.raised == s.raised;
  }

  /** A firing while the flag is up goes no further, and the flag is up while a firing goes on. */
  lemma RaisedFlagStops(c: Config, s: State, g: nat, h: nat)
    requires c.onceIds !! c.timerIds && c.exclusive && Reachable(c, s)
    requires h in s.timers && g !in s.timers && !s.timers[h].Tested?
    ensures !TimerCan(c, s, g, Test(s.timers[h].task.id))
  {
    ReachableInv(c, s);
  }

  // ------------------------------------------------------------ The pool

  /** A worker takes the first task of the queue, runs it, and removes its registration. */
  lemma WorkerCourse(c: Config, s: State, w: nat)
    requires w < |s.workers| && s.workers[w].Idle? && s.queue != []
    ensures Leads(c, s, [WorkerStep(w, Take)],
                  s.(queue := s.queue[1..], workers := s.workers[w := Running(s.queue[0])]))
    ensures Leads(c, s, [WorkerStep(w, Take), WorkerStep(w, Finish), WorkerStep(w, Remove)],
                  s.(queue := s.queue[1..], registry := s.registry - {s.queue[0].id}))
  {
    var all, n := On(c, s, [], s, WorkerStep(w, Take));
    hide Leads;
    all, n := On(c, s, all, n, WorkerStep(w, Finish));
    all, n := On(c, s, all, n, WorkerStep(w, Remove));
    assert n.workers == s.workers;
  }

  /** The tasks that a step puts into the queue. */
  function Queued(c: Config, s: State, a: Action): seq<Task>
    requires Enabled(c, s, a)
  {
    match a
    case FetcherStep(f, Enqueue) => [s.fetchers[f].task]
    case TimerStep(g, TimerEnqueue) => [s.timers[g].task]
    case _ => []
  }

  /** The tasks that a step makes a worker run. */
  function Begun(c: Config, s: State, a: Action): seq<Task>
    requires Enabled(c, s, a)
  {
    match a
    case WorkerStep(w, Take) => [WorkerMoves(s, w, Take).workers[w].task]
    case _ => []
  }

  function QueuedBy(c: Config, s: State, actions: seq<Action>): seq<Task>
    decreases |actions|
  {
    if actions == [] || !Enabled(c, s, actions[0]) then []
    else Queued(c, s, actions[0]) + QueuedBy(c, Apply(c, s, actions[0]), actions[1..])
  }

  function BegunBy(c: Config, s: State, actions: seq<Action>): seq<Task>
    decreases |actions|
  {
    if actions == [] || !Enabled(c, s, actions[0]) then []
    else Begun(c, s, actions[0]) + BegunBy(c, Apply(c, s, actions[0]), actions[1..])
  }

  lemma QueueStep(c: Config, s: State, a: Action)
    requires Enabled(c, s, a)
    ensures s.queue + Queued(c, s, a) == Begun(c, s, a) + Apply(c, s, a).queue
  {
    match a
    case FetcherStep(f, m) => FetcherQueues(c, s, f, m);
    case TimerStep(g, m) => TimerQueues(c, s, g, m);
    case WorkerStep(w, m) =>
    case UpdaterStep => hide UpdaterMoves; UpdaterLeavesTasks(s);
  }

  lemma FetcherQueues(c: Config, s: State, f: nat, m: FetchMove)
    requires FetcherCan(c, s, f, m)
    ensures FetcherMoves(c, s, f, m).queue == s.queue + Queued(c, s, FetcherStep(f, m))
  {
    hide FetcherNext;
  }

  lemma TimerQueues(c: Config, s: State, g: nat, m: TimerMove)
    requires TimerCan(c, s, g, m)
    ensures TimerMoves(c, s, g, m).queue == s.queue + Queued(c, s, TimerStep(g, m))
  {
  }

  /** Over every run tasks begin in the order in which they were queued, each once, and none is lost. */
  lemma {:induction false} QueueIsFifo(c: Config, s: State, actions: seq<Action>, t: State)
    requires Leads(c, s, actions, t)
    ensures s.queue + QueuedBy(c, s, actions) == BegunBy(c, s, actions) + t.queue
    decreases |actions|
  {
    hide Enabled, Apply, Queued, Begun;
    if actions != [] {
      var n, rest := Apply(c, s, actions[0]), actions[1..];
      QueueStep(c, s, actions[0]);
      QueueIsFifo(c, n, rest, t);
      Regroup(s.queue, Queued(c, s, actions[0]), QueuedBy(c, n, rest), Begun(c, s, actions[0]), n.queue,
              BegunBy(c, n, rest), t.queue);
    }
  }

  lemma Regroup(q: seq<Task>, a: seq<Task>, ax: seq<Task>, b: seq<Task>, n: seq<Task>, bs: seq<Task>, t: seq<Task>)
    requires q + a == b + n && n + ax == bs + t
    ensures q + (a + ax) == (b + bs) + t
  {
    assert q + (a + ax) == (q + a) + ax == b + (n + ax) == (b + bs) + t;
  }

  /** The queue holds fifty tasks and ten workers run them; whoever enqueues waits exactly while it is full. */
  lemma PoolLimits(c: Config, s: State, f: nat, g: nat)
    requires c.onceIds !! c.timerIds && Reachable(c, s)
    ensures |s.queue| <= 50 && |s.workers| == 10
    ensures f in s.fetchers && s.fetchers[f].Enqueueing? ==> (FetcherCan(c, s, f, Enqueue) <==> |s.queue| < 50)
    ensures g in s.timers && s.timers[g].TimerEnqueueing? ==> (TimerCan(c, s, g, TimerEnqueue) <==> |s.queue| < 50)
  {
    ReachableInv(c, s);
  }

  // ------------------------------------------------------------ The updater undisturbed

  /** While fetchers are counted or a non-periodic task is registered the wait loop turns and changes nothing. */
  lemma WaitsWhileBusy(c: Config, s: State)
    requires s.updater == CheckCounter
    ensures s.counter > 0 ==> Leads(c, s, [UpdaterStep], s)
    ensures s.counter <= 0 && AnyNonPeriodic(s.registry) ==> Leads(c, s, [UpdaterStep, UpdaterStep], s)
  {
    hide AnyNonPeriodic, Gaps;
    var all, n := On(c, s, [], s, UpdaterStep);
    if s.counter <= 0 && AnyNonPeriodic(s.registry) {
      hide Leads;
      all, n := On(c, s, all, n, UpdaterStep);
    }
  }

  /** A lock held by someone else sends the loop back to its top, with the flag lowered. */
  lemma BusyLockRetries(c: Config, s: State)
    requires s.updater == CheckCounter && s.counter <= 0 && !AnyNonPeriodic(s.registry) && s.lock != Free
    requires !s.criticalActionRunning
    ensures Leads(c, s, [UpdaterStep, UpdaterStep, UpdaterStep, UpdaterStep, UpdaterStep], s)
  {
    hide AnyNonPeriodic, Gaps;
    var all, n := On(c, s, [], s, UpdaterStep);
    hide Leads;
    all, n := On(c, s, all, n, UpdaterStep);
    all, n := On(c, s, all, n, UpdaterStep);
    all, n := On(c, s, all, n, UpdaterStep);
    all, n := On(c, s, all, n, UpdaterStep);
  }

  /** A free lock is taken, under the raised flag, and the updater goes to sleep. */
  lemma FreeLockIsTaken(c: Config, s: State)
    requires s.updater == CheckCounter && s.counter <= 0 && !AnyNonPeriodic(s.registry) && s.lock == Free
    ensures Leads(c, s, [UpdaterStep, UpdaterStep, UpdaterStep, UpdaterStep],
                  s.(updater := Sleeping, lock := ByUpdater, criticalActionRunning := true))
  {
    hide AnyNonPeriodic, Gaps;
    var all, n := On(c, s, [], s, UpdaterStep);
    hide Leads;
    all, n := On(c, s, all, n, UpdaterStep);
    all, n := On(c, s, all, n, UpdaterStep);
    all, n := On(c, s, all, n, UpdaterStep);
  }

  /** A double check that finds something releases the lock, lowers the flag and goes back to the top. */
  lemma FailedRecheckRetries(c: Config, s: State)
    requires s.updater == RecheckCounter
    ensures s.counter > 0 ==>
              Leads(c, s, [UpdaterStep, UpdaterStep, UpdaterStep],
                    s.(updater := CheckCounter, lock := Free, criticalActionRunning := false))
    ensures s.counter <= 0 && AnyNonPeriodic(s.registry) ==>
              Leads(c, s, [UpdaterStep, UpdaterStep, UpdaterStep, UpdaterStep],
                    s.(updater := CheckCounter, lock := Free, criticalActionRunning := false))
  {
    hide AnyNonPeriodic, Gaps;
    if s.counter > 0 || AnyNonPeriodic(s.registry) {
      var all, n := On(c, s, [], s, UpdaterStep);
      hide Leads;
      all, n := On(c, s, all, n, UpdaterStep);
      all, n := On(c, s, all, n, UpdaterStep);
      if s.counter <= 0 {
        all, n := On(c, s, all, n, UpdaterStep);
      }
    }
  }

  /** A passed double check starts the script; after it the lock is released, the flag lowered, and the function is
      over. */
  lemma PassedRecheckEnds(c: Config, s: State)
    requires s.updater == RecheckCounter && s.counter <= 0 && !AnyNonPeriodic(s.registry)
    ensures Leads(c, s, [UpdaterStep, UpdaterStep], s.(updater := Script))
    ensures Leads(c, s, [UpdaterStep, UpdaterStep, UpdaterStep, UpdaterStep, UpdaterStep],
                  s.(updater := Off, lock := Free, criticalActionRunning := false))
  {
    hide AnyNonPeriodic, Gaps;
    var all, n := On(c, s, [], s, UpdaterStep);
    hide Leads;
    all, n := On(c, s, all, n, UpdaterStep);
    all, n := On(c, s, all, n, UpdaterStep);
    all, n := On(c, s, all, n, UpdaterStep);
    all, n := On(c, s, all, n, UpdaterStep);
  }

  // ------------------------------------------------------------ The updater in every run

  /** The updater is at `u` somewhere on the way, start and end included. */
  ghost predicate Passes(c: Config, s: State, actions: seq<Action>, u: Updater)
    decreases |actions|
  {
    s.updater == u
    || (actions != [] && Enabled(c, s, actions[0]) && Passes(c, Apply(c, s, actions[0]), actions[1..], u))
  }

  lemma OnlyUpdaterMoves(c: Config, s: State, a: Action)
    requires Enabled(c, s, a)
    ensures Apply(c, s, a).updater == if a == UpdaterStep then UpdaterNext(s) else s.updater
  {
    hide UpdaterNext, Gaps;
    match a
    case FetcherStep(f, m) => FetcherLeavesUpdater(c, s, f, m);
    case TimerStep(g, m) => TimerLeavesUpdater(c, s, g, m);
    case WorkerStep(w, m) =>
    case UpdaterStep =>
  }

  lemma FetcherLeavesUpdater(c: Config, s: State, f: nat, m: FetchMove)
    requires FetcherCan(c, s, f, m)
    ensures FetcherMoves(c, s, f, m).updater == s.updater
  {
    hide FetcherNext;
  }

  lemma TimerLeavesUpdater(c: Config, s: State, g: nat, m: TimerMove)
    requires TimerCan(c, s, g, m)
    ensures TimerMoves(c, s, g, m).updater == s.updater
  {
  }

  predicate IsOver(u: Updater) {
    u == Off || u == Unlocking(true) || u == Clearing(true)
  }

  /** The function ends only after the script has run. */
  lemma {:induction false} EndsAfterScript(c: Config, s: State, actions: seq<Action>, t: State)
    requires Leads(c, s, actions, t) && !IsOver(s.updater) && t.updater == Off
    ensures Passes(c, s, actions, Script)
    decreases |actions|
  {
    hide Enabled, Apply, AnyNonPeriodic;
    if actions != [] && s.updater != Script {
      OnlyUpdaterMoves(c, s, actions[0]);
      EndsAfterScript(c, Apply(c, s, actions[0]), actions[1..], t);
    }
  }

  /** After the script the function ends; no other script is started before that. */
  lemma {:induction false} NoSecondScript(c: Config, s: State, actions: seq<Action>, t: State)
    requires Leads(c, s, actions, t) && (s.updater == Unlocking(true) || s.updater == Clearing(true))
    requires !Passes(c, s, actions, Off)
    ensures t.updater == Unlocking(true) || t.updater == Clearing(true)
    decreases |actions|
  {
    hide Enabled, Apply, AnyNonPeriodic;
    if actions != [] {
      OnlyUpdaterMoves(c, s, actions[0]);
      NoSecondScript(c, Apply(c, s, actions[0]), actions[1..], t);
    }
  }

  /** The updater steps on from `place` in a state whose registry has no non-periodic task. */
  ghost predicate NoneAt(c: Config, s: State, actions: seq<Action>, place: Updater)
    decreases |actions|
  {
    && actions != [] && Enabled(c, s, actions[0])
    && (|| (actions[0] == UpdaterStep && s.updater == place && !AnyNonPeriodic(s.registry))
        || NoneAt(c, Apply(c, s, actions[0]), actions[1..], place))
  }

  /** It steps on from `first` with a zero counter and later from `second` with no non-periodic task registered. */
  ghost predicate ZeroThenNone(c: Config, s: State, actions: seq<Action>, first: Updater, second: Updater)
    decreases |actions|
  {
    && actions != [] && Enabled(c, s, actions[0])
    && (|| (actions[0] == UpdaterStep && s.updater == first && s.counter <= 0
            && NoneAt(c, Apply(c, s, actions[0]), actions[1..], second))
        || ZeroThenNone(c, Apply(c, s, actions[0]), actions[1..], first, second))
  }

  predicate Waiting(u: Updater) {
    u == Off || u == CheckCounter || u.Unlocking? || u.Clearing?
  }

  /** From outside the critical action the flag is raised only after both checks have passed, in this order. */
  lemma {:induction false} FlagAfterChecks(c: Config, s: State, actions: seq<Action>, t: State)
    requires Leads(c, s, actions, t) && (Waiting(s.updater) || s.updater == CheckRegistry)
    requires !Waiting(t.updater) && t.updater != CheckRegistry
    ensures ZeroThenNone(c, s, actions, CheckCounter, CheckRegistry)
            || (s.updater == CheckRegistry && NoneAt(c, s, actions, CheckRegistry))
    decreases |actions|
  {
    hide Enabled, Apply, AnyNonPeriodic;
    if actions != [] {
      var n := Apply(c, s, actions[0]);
      OnlyUpdaterMoves(c, s, actions[0]);
      if Waiting(n.updater) || n.updater == CheckRegistry {
        FlagAfterChecks(c, n, actions[1..], t);
      }
    }
  }

  /** The script starts only after the double check has passed, in this order. */
  lemma {:induction false} ScriptAfterRechecks(c: Config, s: State, actions: seq<Action>, t: State)
    requires Leads(c, s, actions, t) && s.updater != Script && t.updater == Script
    ensures ZeroThenNone(c, s, actions, RecheckCounter, RecheckRegistry)
            || (s.updater == RecheckRegistry && NoneAt(c, s, actions, RecheckRegistry))
    decreases |actions|
  {
    hide Enabled, Apply, AnyNonPeriodic;
    if actions != [] {
      var n := Apply(c, s, actions[0]);
      OnlyUpdaterMoves(c, s, actions[0]);
      if n.updater != Script {
        ScriptAfterRechecks(c, n, actions[1..], t);
      }
    }
  }

  /** Whatever lets go of the lock starts over with the first check. */
  lemma {:induction false} RetriesFromTop(c: Config, s: State, actions: seq<Action>, t: State)
    requires Leads(c, s, actions, t) && (s.updater == Off || s.updater.Unlocking? || s.updater.Clearing?)
    requires !Waiting(t.updater)
    ensures Passes(c, s, actions, CheckCounter)
    decreases |actions|
  {
    hide Enabled, Apply, AnyNonPeriodic;
    if actions != [] {
      OnlyUpdaterMoves(c, s, actions[0]);
      if Apply(c, s, actions[0]).updater != CheckCounter {
        RetriesFromTop(c, Apply(c, s, actions[0]), actions[1..], t);
      } else {
        assert Passes(c, Apply(c, s, actions[0]), actions[1..], CheckCounter);
      }
    }
  }
}
