/** The registry of added, queued and running tasks. */
module TaskRegistry {
  import opened SetIteration

  /** A task as far as the registry looks at it; an empty `cronat` marks a non-periodic one. */
  datatype Task = Task(id: string, cronat: string)

  type Registry = map<string, Task>

  /** Adding fails on a taken id. */
  function Added(tasks: Registry, t: Task): Registry {
    if t.id in tasks then tasks else tasks[t.id := t]
  }

  function Removed(tasks: Registry, id: string): Registry {
    tasks - {id}
  }

  predicate NonPeriodic(t: Task) {
    t.cronat == ""
  }

  predicate AnyNonPeriodic(tasks: Registry) {
    exists id :: id in tasks && NonPeriodic(tasks[id])
  }

  class TaskFactory {
    var tasks: Registry

    constructor ()
      ensures tasks == map[]
    {
      tasks := map[];
    }

    method AddTask(t: Task) returns (ok: bool)
      modifies this
      ensures ok <==> t.id !in old(tasks)
      ensures tasks == Added(old(tasks), t)
    {
      if t.id in tasks {
        return false;
      }
      tasks := tasks[t.id := t];
      ok := true;
    }

    method RemoveTaskByName(id: string)
      modifies this
      ensures tasks == Removed(old(tasks), id)
    {
      tasks := tasks - {id};
    }

    method ContainsTaskByName(id: string) returns (found: bool)
      ensures found <==> id in tasks
    {
      found := id in tasks;
    }

    /** Scans the registered tasks in map order for one without a schedule. */
    method IsAnyNonPeriodicTaskRunning() returns (any: bool)
      ensures any <==> AnyNonPeriodic(tasks)
    {
      var rest := tasks.Keys;
      while rest != {}
        invariant rest <= tasks.Keys
        invariant forall id :: id in tasks && id !in rest ==> !NonPeriodic(tasks[id])
        decreases |rest|
      {
        var id := Pick(rest);
        rest := rest - {id};
        if NonPeriodic(tasks[id]) {
          return true;
        }
      }
      any := false;
    }
  }
}
