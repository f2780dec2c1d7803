/** The two-way map between requests and tasks, and the meeting of a task's two events. */
module RequestTaskMap {

  type Request = nat
  type Task = nat

  datatype Events = Events(completed: bool, metricsGathered: bool)

  /** The three dictionaries. */
  datatype Maps = Maps(
    tasksToRequests: map<Task, Request>,
    requestsToTasks: map<Request, Task>,
    taskEvents: map<Task, Events>)

  /** The two maps are inverse to each other, events are kept for exactly the mapped
      tasks, and no task has had both. */
  predicate Consistent(m: Maps) {
    && (forall t | t in m.tasksToRequests ::
      m.tasksToRequests[t] in m.requestsToTasks && m.requestsToTasks[m.tasksToRequests[t]] == t)
    && (forall r | r in m.requestsToTasks ::
      m.requestsToTasks[r] in m.tasksToRequests && m.tasksToRequests[m.requestsToTasks[r]] == r)
    && m.taskEvents.Keys == m.tasksToRequests.Keys
    && (forall t | t in m.taskEvents :: !(m.taskEvents[t].completed && m.taskEvents[t].metricsGathered))
  }

  function Associated(m: Maps, r: Request, t: Task): Maps {
    Maps(m.tasksToRequests[t := r], m.requestsToTasks[r := t], m.taskEvents[t := Events(false, false)])
  }

  /** Without task `t` and its request. */
  function Dissociated(m: Maps, t: Task): Maps
    requires t in m.tasksToRequests
  {
    Maps(m.tasksToRequests - {t}, m.requestsToTasks - {m.tasksToRequests[t]}, m.taskEvents - {t})
  }

  /** Associating keeps the maps inverse exactly when it does not pull either side out of
      another pair: a request must be unmapped, or mapped to that very task, and likewise
      in the other direction. */
  lemma AssociatingIsConsistent(m: Maps, r: Request, t: Task)
    requires Consistent(m)
    ensures Consistent(Associated(m, r, t)) <==>
      (r in m.requestsToTasks ==> m.requestsToTasks[r] == t) && (t in m.tasksToRequests ==> m.tasksToRequests[t] == r)
  {
    var n := Associated(m, r, t);
    if r in m.requestsToTasks && m.requestsToTasks[r] != t {
      var old' := m.requestsToTasks[r];
      assert old' in n.tasksToRequests && n.tasksToRequests[old'] == r && n.requestsToTasks[r] == t;
    }
    if t in m.tasksToRequests && m.tasksToRequests[t] != r {
      var old' := m.tasksToRequests[t];
      assert old' in n.requestsToTasks && n.requestsToTasks[old'] == t && n.tasksToRequests[t] == r;
    }
  }

  lemma DissociatingIsConsistent(m: Maps, t: Task)
    requires Consistent(m) && t in m.tasksToRequests
    ensures Consistent(Dissociated(m, t))
  {
  }

  lemma OneEventIsConsistent(m: Maps, t: Task, e: Events)
    requires Consistent(m) && t in m.taskEvents && !(e.completed && e.metricsGathered)
    ensures Consistent(m.(taskEvents := m.taskEvents[t := e]))
  {
  }

  lemma EventsAreMapped(m: Maps)
    requires Consistent(m)
    ensures m.taskEvents.Keys == m.tasksToRequests.Keys
  {
  }

  /** The outcome of an event: a fatal error, or the new maps and whether both events of
      this URL task have now met, so that it was let go. */
  datatype Met = Fatal | Met(maps: Maps, both: bool)

  function AfterMetrics(m: Maps, t: Task): Met {
    if t !in m.taskEvents || m.taskEvents[t].metricsGathered || (m.taskEvents[t].completed && t !in m.tasksToRequests) then Fatal
    else if m.taskEvents[t].completed then Met(Dissociated(m, t), true)
    else Met(m.(taskEvents := m.taskEvents[t := Events(false, true)]), false)
  }

  function AfterCompletion(m: Maps, t: Task): Met {
    if t !in m.taskEvents || m.taskEvents[t].completed || (m.taskEvents[t].metricsGathered && t !in m.tasksToRequests) then Fatal
    else if m.taskEvents[t].metricsGathered then Met(Dissociated(m, t), true)
    else Met(m.(taskEvents := m.taskEvents[t := Events(true, false)]), false)
  }

  // ---------- The object ----------

  /** Its operations answer false where the program would stop with a fatal error. */
  class TaskMap {
    var tasksToRequests: map<Task, Request>
    var requestsToTasks: map<Request, Task>
    var taskEvents: map<Task, Events>

    ghost function St(): Maps
      reads this
    {
      Maps(tasksToRequests, requestsToTasks, taskEvents)
    }

    constructor ()
      ensures St() == Maps(map[], map[], map[])
    {
      tasksToRequests, requestsToTasks, taskEvents := map[], map[], map[];
    }

    method SetTask(r: Request, t: Task)
      modifies this
      ensures St() == Associated(old(St()), r, t)
    {
      requestsToTasks := requestsToTasks[r := t];
      tasksToRequests := tasksToRequests[t := r];
      taskEvents := taskEvents[t := Events(false, false)];
    }

    method ClearRequest(r: Request) returns (ok: bool)
      modifies this
      ensures ok <==> r in old(requestsToTasks)
      ensures !ok ==> St() == old(St())
      ensures ok ==>
        var t := old(requestsToTasks)[r];
        St() == Maps(old(tasksToRequests) - {t}, old(requestsToTasks) - {r}, old(taskEvents) - {t})
      ensures old(Consistent(St())) && ok ==> St() == Dissociated(old(St()), old(requestsToTasks)[r])
    {
      if r !in requestsToTasks {
        return false;
      }
      var t := requestsToTasks[r];
      requestsToTasks := requestsToTasks - {r};
      tasksToRequests := tasksToRequests - {t};
      taskEvents := taskEvents - {t};
      return true;
    }

    method ClearTask(t: Task) returns (ok: bool)
      modifies this
      ensures ok <==> t in old(tasksToRequests)
      ensures St() == if ok then Dissociated(old(St()), t) else old(St())
    {
      if t !in tasksToRequests {
        return false;
      }
      var r := tasksToRequests[t];
      tasksToRequests := tasksToRequests - {t};
      requestsToTasks := requestsToTasks - {r};
      taskEvents := taskEvents - {t};
      return true;
    }

    method DisassociateAfterGatheringMetrics(t: Task) returns (ok: bool, both: bool)
      modifies this
      ensures ok <==> AfterMetrics(old(St()), t).Met?
      ensures ok ==> AfterMetrics(old(St()), t) == Met(St(), both)
    {
      if t !in taskEvents {
        return false, false;
      }
      var events := taskEvents[t];
      if events.metricsGathered {
        return false, false;
      } else if !events.completed {
        taskEvents := taskEvents[t := Events(false, true)];
        return true, false;
      }
      ok := ClearTask(t);
      both := true;
    }

    method DisassociateAfterCompleting(t: Task) returns (ok: bool, both: bool)
      modifies this
      ensures ok <==> AfterCompletion(old(St()), t).Met?
      ensures ok ==> AfterCompletion(old(St()), t) == Met(St(), both)
    {
      if t !in taskEvents {
        return false, false;
      }
      var events := taskEvents[t];
      if events.completed {
        return false, false;
      } else if !events.metricsGathered {
        taskEvents := taskEvents[t := Events(true, false)];
        return true, false;
      }
      ok := ClearTask(t);
      both := true;
    }
  }
}
