/** The coordination between task fetching, the task pool and the self-update as a step machine. Any number
    of fetchers, one timer goroutine per periodic task, the pool's workers and one updater interleave. */
module UpdateProtocol {
  import opened TaskRegistry

  const MAX_PENDING_TASKS := 50
  const MAX_RUNNING_TASKS := 10

  /** The ids the server uses for one-off tasks and for timer-driven ones, and whether the goroutines of one timer
      come one at a time to test its flag, so that test and set are not interleaved. */
  datatype Config = Config(onceIds: set<string>, timerIds: set<string>, exclusive: bool)

  datatype Holder = Free | ByFetcher(f: nat) | ByUpdater

  /** An entry of a fetched list: a task to be run once, one to be scheduled, or something to stop, test or send. */
  datatype Info = Once(task: Task) | Periodic(task: Task) | Elsewhere

  datatype Fetcher =
    | Locked                                    // has the fetching lock
    | Gap                                       // released the lock, not yet counted
    | Counted(todo: seq<Info>)                  // inside the counted section, tasks left to dispatch
    | LookedUp(task: Task, once: bool, todo: seq<Info>)  // found the id not registered
    | Adding(task: Task, todo: seq<Info>)       // found the id not scheduled either, about to add
    | Enqueueing(task: Task, todo: seq<Info>)   // added, about to enqueue
    | Scheduling(task: Task, todo: seq<Info>)   // about to schedule a periodic task

  /** A goroutine of a timer, for the task the timer drives. */
  datatype Timer =
    | Tested(task: Task)            // found the flag of its timer down, about to raise it
    | Started(task: Task)           // raised it
    | TimerAdding(task: Task)       // found the id free, about to add
    | TimerEnqueueing(task: Task)   // has tried to add, about to enqueue
    | Ending(task: Task)            // about to lower the flag

  datatype Worker = Idle | Running(task: Task) | Removing(task: Task)

  datatype Updater =
    | Off
    | CheckCounter | CheckRegistry | SettingFlag | TryingLock
    | Sleeping                     // holds the lock, in the sleep before the double check
    | RecheckCounter | RecheckRegistry
    | Script                       // the update script runs
    | Unlocking(done: bool) | Clearing(done: bool)

  datatype State = State(
    lock: Holder,
    counter: int,
    registry: Registry,
    schedules: Registry,            // the periodic tasks with a timer
    queue: seq<Task>,
    fetchers: map<nat, Fetcher>,
    timers: map<nat, Timer>,
    raised: set<string>,            // the ids whose timer is flagged as running
    workers: seq<Worker>,
    updater: Updater,
    criticalActionRunning: bool,
    gapsAtWake: set<nat>)           // the fetchers that were in the gap when the updater last woke up

  const INIT: State :=
    State(Free, 0, map[], map[], [], map[], map[], {}, [Idle, Idle, Idle, Idle, Idle, Idle, Idle, Idle, Idle, Idle],
          Off, false, {})

  /** The steps of one `Fetch` call: lock, unlock, count in, receive a list and dispatch it, count out. */
  datatype FetchMove =
    | Lock | Unlock | CountIn
    | Receive(infos: seq<Info>) | Ignore
    | Check | CheckSchedules | Add | Enqueue | Schedule
    | CountOut

  /** The steps of one timer goroutine: test the flag, raise it, look the id up, add the task, enqueue it, lower the
      flag. */
  datatype TimerMove = Test(id: string) | Raise | LookUp | TimerAdd | TimerEnqueue | Lower

  datatype WorkerMove = Take | Finish | Remove

  datatype Action =
    | FetcherStep(f: nat, fm: FetchMove)
    | TimerStep(g: nat, tm: TimerMove)
    | WorkerStep(w: nat, wm: WorkerMove)
    | UpdaterStep

  /** One-off and periodic tasks come with ids of their kind, and periodic ones with a schedule. */
  predicate Known(c: Config, info: Info) {
    match info
    case Once(t) => t.id in c.onceIds
    case Periodic(t) => t.id in c.timerIds && t.cronat != ""
    case Elsewhere => true
  }

  predicate AllKnown(c: Config, infos: seq<Info>) {
    forall info :: info in infos ==> Known(c, info)
  }

  predicate FetcherCan(c: Config, s: State, f: nat, m: FetchMove) {
    if m == Lock then f !in s.fetchers && s.lock == Free
    else
      f in s.fetchers &&
      match m
      case Unlock => s.fetchers[f].Locked?
      case CountIn => s.fetchers[f].Gap?
      case Receive(infos) => s.fetchers[f] == Counted([]) && AllKnown(c, infos)
      case Ignore => s.fetchers[f].Counted? && s.fetchers[f].todo != [] && s.fetchers[f].todo[0].Elsewhere?
      case Check => s.fetchers[f].Counted? && s.fetchers[f].todo != [] && !s.fetchers[f].todo[0].Elsewhere?
      case CheckSchedules => s.fetchers[f].LookedUp?
      case Add => s.fetchers[f].Adding?
      case Schedule => s.fetchers[f].Scheduling?
      case Enqueue => s.fetchers[f].Enqueueing? && |s.queue| < MAX_PENDING_TASKS
      case CountOut => s.fetchers[f] == Counted([])
      case Lock => false
  }

  /** Where the fetcher stands after its move, other than locking and counting out. */
  function FetcherNext(registry: Registry, schedules: Registry, x: Fetcher, m: FetchMove): Fetcher {
    match m
    case Unlock => Gap
    case CountIn => Counted([])
    case Receive(infos) => Counted(infos)
    case Ignore => if x.Counted? && x.todo != [] then Counted(x.todo[1..]) else x
    case Check =>
      if x.Counted? && x.todo != [] && !x.todo[0].Elsewhere? then
        if x.todo[0].task.id in registry then Counted(x.todo[1..])
        else LookedUp(x.todo[0].task, x.todo[0].Once?, x.todo[1..])
      else x
    case CheckSchedules =>
      if x.LookedUp? then
        if x.task.id in schedules then Counted(x.todo)
        else if x.once then Adding(x.task, x.todo)
        else Scheduling(x.task, x.todo)
      else x
    case Add =>
      if x.Adding? then (if x.task.id in registry then Counted(x.todo) else Enqueueing(x.task, x.todo)) else x
    case Enqueue => if x.Enqueueing? then Counted(x.todo) else x
    case Schedule => if x.Scheduling? then Counted(x.todo) else x
    case _ => x
  }

  function FetcherMoves(c: Config, s: State, f: nat, m: FetchMove): State
    requires FetcherCan(c, s, f, m)
  {
    if m == Lock then s.(lock := ByFetcher(f), fetchers := s.fetchers[f := Locked])
    else if m == CountOut then s.(counter := s.counter - 1, fetchers := s.fetchers - {f})
    else
      var x := s.fetchers[f];
      var next := s.(fetchers := s.fetchers[f := FetcherNext(s.registry, s.schedules, x, m)]);
      match m
      case Unlock => next.(lock := Free)
      case CountIn => next.(counter := s.counter + 1)
      case Add => next.(registry := Added(s.registry, x.task))
      case Enqueue => next.(queue := s.queue + [x.task])
      case Schedule => next.(schedules := Added(s.schedules, x.task))
      case _ => next
  }

  predicate NobodyTests(s: State, id: string) {
    forall h :: h in s.timers && s.timers[h].Tested? ==> s.timers[h].task.id != id
  }

  predicate TimerCan(c: Config, s: State, g: nat, m: TimerMove) {
    if m.Test? then
      g !in s.timers && m.id in s.schedules && m.id !in s.raised && (c.exclusive ==> NobodyTests(s, m.id))
    else
      g in s.timers &&
      match m
      case Raise => s.timers[g].Tested?
      case LookUp => s.timers[g].Started?
      case TimerAdd => s.timers[g].TimerAdding?
      case TimerEnqueue => s.timers[g].TimerEnqueueing? && |s.queue| < MAX_PENDING_TASKS
      case Lower => s.timers[g].Ending?
      case Test(_) => false
  }

  function TimerMoves(c: Config, s: State, g: nat, m: TimerMove): State
    requires TimerCan(c, s, g, m)
  {
    if m.Test? then s.(timers := s.timers[g := Tested(s.schedules[m.id])])
    else
      var t := s.timers[g].task;
      match m
      case Raise => s.(timers := s.timers[g := Started(t)], raised := s.raised + {t.id})
      case LookUp => s.(timers := s.timers[g := if t.id in s.registry then Ending(t) else TimerAdding(t)])
      case TimerAdd => s.(timers := s.timers[g := TimerEnqueueing(t)], registry := Added(s.registry, t))
      case TimerEnqueue => s.(timers := s.timers[g := Ending(t)], queue := s.queue + [t])
      case Lower => s.(timers := s.timers - {g}, raised := s.raised - {t.id})
      case Test(_) => s
  }

  predicate WorkerCan(s: State, w: nat, m: WorkerMove) {
    w < |s.workers| &&
    match m
    case Take => s.workers[w].Idle? && s.queue != []
    case Finish => s.workers[w].Running?
    case Remove => s.workers[w].Removing?
  }

  function WorkerMoves(s: State, w: nat, m: WorkerMove): State
    requires WorkerCan(s, w, m)
  {
    match m
    case Take => s.(queue := s.queue[1..], workers := s.workers[w := Running(s.queue[0])])
    case Finish => s.(workers := s.workers[w := Removing(s.workers[w].task)])
    case Remove => s.(registry := Removed(s.registry, s.workers[w].task.id), workers := s.workers[w := Idle])
  }

  function Gaps(s: State): set<nat> {
    set f | f in s.fetchers && s.fetchers[f].Gap?
  }

  /** The updater's next place; the failed checks and the failed try-lock go back to the top of the wait loop. */
  function UpdaterNext(s: State): Updater {
    match s.updater
    case Off => CheckCounter
    case CheckCounter => if s.counter > 0 then CheckCounter else CheckRegistry
    case CheckRegistry => if AnyNonPeriodic(s.registry) then CheckCounter else SettingFlag
    case SettingFlag => TryingLock
    case TryingLock => if s.lock == Free then Sleeping else Clearing(false)
    case Sleeping => RecheckCounter
    case RecheckCounter => if s.counter > 0 then Unlocking(false) else RecheckRegistry
    case RecheckRegistry => if AnyNonPeriodic(s.registry) then Unlocking(false) else Script
    case Script => Unlocking(true)
    case Unlocking(done) => Clearing(done)
    case Clearing(done) => if done then Off else CheckCounter
  }

  function UpdaterMoves(s: State): State {
    s.(updater := UpdaterNext(s),
       lock := if s.updater.TryingLock? && s.lock == Free then ByUpdater
               else if s.updater.Unlocking? then Free
               else s.lock,
       criticalActionRunning := s.updater.SettingFlag? || (s.criticalActionRunning && !s.updater.Clearing?),
       gapsAtWake := if s.updater.Sleeping? then Gaps(s) else s.gapsAtWake)
  }

  predicate Enabled(c: Config, s: State, a: Action) {
    match a
    case FetcherStep(f, m) => FetcherCan(c, s, f, m)
    case TimerStep(g, m) => TimerCan(c, s, g, m)
    case WorkerStep(w, m) => WorkerCan(s, w, m)
    case UpdaterStep => true
  }

  function Apply(c: Config, s: State, a: Action): State
    requires Enabled(c, s, a)
  {
    match a
    case FetcherStep(f, m) => FetcherMoves(c, s, f, m)
    case TimerStep(g, m) => TimerMoves(c, s, g, m)
    case WorkerStep(w, m) => WorkerMoves(s, w, m)
    case UpdaterStep => UpdaterMoves(s)
  }

  // ------------------------------------------------------------ Runs

  /** `s` leads to `t` by the actions, each enabled when taken. */
  ghost predicate Leads(c: Config, s: State, actions: seq<Action>, t: State)
    decreases |actions|
  {
    if actions == [] then s == t
    else Enabled(c, s, actions[0]) && Leads(c, Apply(c, s, actions[0]), actions[1..], t)
  }

  ghost predicate Reachable(c: Config, s: State) {
    exists actions :: Leads(c, INIT, actions, s)
  }

  lemma {:induction false} LeadsStep(c: Config, s: State, actions: seq<Action>, t: State, a: Action)
    requires Leads(c, s, actions, t) && Enabled(c, t, a)
    ensures Leads(c, s, actions + [a], Apply(c, t, a))
    decreases |actions|
  {
    hide Enabled, Apply;
    if actions == [] {
      assert [a][1..] == [];
      assert actions + [a] == [a];
      assert Leads(c, Apply(c, t, a), [], Apply(c, t, a));
    } else {
      LeadsStep(c, Apply(c, s, actions[0]), actions[1..], t, a);
      assert (actions + [a])[1..] == actions[1..] + [a];
    }
  }

  lemma ReachStep(c: Config, s: State, a: Action)
    requires Reachable(c, s) && Enabled(c, s, a)
    ensures Reachable(c, Apply(c, s, a))
  {
    hide Enabled, Apply, Leads;
    var actions :| Leads(c, INIT, actions, s);
    LeadsStep(c, INIT, actions, s, a);
  }

  // ------------------------------------------------------------ The registry object under the machine

  /** Every access of a step to the registry is a call of the registry object: the object goes through the
      machine's registries, and its answer is the one the step acts on. */
  method Perform(c: Config, s: State, a: Action, factory: TaskFactory) returns (answer: bool)
    requires Enabled(c, s, a) && factory.tasks == s.registry
    modifies factory
    ensures factory.tasks == Apply(c, s, a).registry
    ensures a.FetcherStep? && a.fm == Check ==> (answer <==> Apply(c, s, a).fetchers[a.f].Counted?)
    ensures a.FetcherStep? && a.fm == Add ==> (answer <==> Apply(c, s, a).fetchers[a.f].Enqueueing?)
    ensures a.TimerStep? && a.tm == LookUp ==> (answer <==> Apply(c, s, a).timers[a.g].Ending?)
    ensures a == UpdaterStep && s.updater.CheckRegistry? ==> (answer <==> Apply(c, s, a).updater == CheckCounter)
    ensures a == UpdaterStep && s.updater.RecheckRegistry? ==> (answer <==> Apply(c, s, a).updater != Script)
  {
    answer := false;
    match a {
      case FetcherStep(f, Check) =>
        answer := factory.ContainsTaskByName(s.fetchers[f].todo[0].task.id);
      case FetcherStep(f, Add) =>
        answer := factory.AddTask(s.fetchers[f].task);
      case TimerStep(g, LookUp) =>
        answer := factory.ContainsTaskByName(s.timers[g].task.id);
      case TimerStep(g, TimerAdd) =>
        answer := factory.AddTask(s.timers[g].task);
      case WorkerStep(w, Remove) =>
        factory.RemoveTaskByName(s.workers[w].task.id);
      case UpdaterStep =>
        if s.updater.CheckRegistry? || s.updater.RecheckRegistry? {
          answer := factory.IsAnyNonPeriodicTaskRunning();
        }
      case _ =>
    }
  }

  /** Over a whole run, however interleaved, the registry object holds what the machine's registry holds. */
  method Replay(c: Config, actions: seq<Action>, ghost t: State) returns (factory: TaskFactory)
    requires Leads(c, INIT, actions, t)
    ensures fresh(factory) && factory.tasks == t.registry
  {
    hide Enabled, Apply;
    factory := new TaskFactory();
    var s := INIT;
    assert actions[0..] == actions;
    for i := 0 to |actions|
      invariant fresh(factory) && factory.tasks == s.registry
      invariant Leads(c, s, actions[i..], t)
    {
      assert actions[i..][0] == actions[i] && actions[i..][1..] == actions[i + 1..];
      var _ := Perform(c, s, actions[i], factory);
      s := Apply(c, s, actions[i]);
    }
  }
}
