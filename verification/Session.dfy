/** The session's side of the rendezvous: a URL task's completion runs once it has both
    completed and had its metrics gathered, whichever comes first. */
module Session {
  import opened RequestTaskMap

  /** The session's maps and waiting completions (a completion is known by its task), and
      the completions it has run. */
  datatype Core = Core(maps: Maps, waiting: set<Task>, ran: seq<Task>)

  datatype Reply = Crash | Fine(core: Core)

  function MetricsGathered(c: Core, t: Task): Reply {
    match AfterMetrics(c.maps, t)
    case Fatal => Crash
    case Met(maps, both) =>
      Fine(if both then Core(maps, c.waiting - {t}, if t in c.waiting then c.ran + [t] else c.ran)
           else c.(maps := maps))
  }

  function TaskCompleted(c: Core, t: Task): Reply {
    match AfterCompletion(c.maps, t)
    case Fatal => Crash
    case Met(maps, both) =>
      Fine(if both then c.(maps := maps, ran := c.ran + [t])
           else c.(maps := maps, waiting := c.waiting + {t}))
  }

  class SessionCore {
    const requestTaskMap: TaskMap
    var waitingCompletions: set<Task>
    var ran: seq<Task>

    ghost function St(): Core
      reads this, requestTaskMap
    {
      Core(requestTaskMap.St(), waitingCompletions, ran)
    }

    constructor ()
      ensures St() == Core(Maps(map[], map[], map[]), {}, []) && fresh(requestTaskMap)
    {
      requestTaskMap := new TaskMap();
      waitingCompletions, ran := {}, [];
    }

    method DidCreateTask(r: Request, t: Task)
      modifies requestTaskMap
      ensures St() == old(St()).(maps := Associated(old(St()).maps, r, t))
    {
      requestTaskMap.SetTask(r, t);
    }

    method DidGatherMetricsForTask(t: Task) returns (ok: bool)
      modifies this, requestTaskMap
      ensures ok <==> MetricsGathered(old(St()), t).Fine?
      ensures ok ==> MetricsGathered(old(St()), t) == Fine(St())
    {
      var didDisassociate;
      ok, didDisassociate := requestTaskMap.DisassociateAfterGatheringMetrics(t);
      if ok && didDisassociate {
        if t in waitingCompletions {
          ran := ran + [t];
        }
        waitingCompletions := waitingCompletions - {t};
      }
    }

    method DidCompleteTask(t: Task) returns (ok: bool)
      modifies this, requestTaskMap
      ensures ok <==> TaskCompleted(old(St()), t).Fine?
      ensures ok ==> TaskCompleted(old(St()), t) == Fine(St())
    {
      var didDisassociate;
      ok, didDisassociate := requestTaskMap.DisassociateAfterCompleting(t);
      if ok {
        if didDisassociate {
          ran := ran + [t];
        } else {
          waitingCompletions := waitingCompletions + {t};
        }
      }
    }
  }

  // ---------- Runs ----------

  /** What the URL session does: creates a task for a request, completes a task, reports a
      task's metrics. */
  datatype Event = Create(r: Request, t: Task) | Complete(t: Task) | Metrics(t: Task)

  /** The events of a history so far, as sets. */
  function Created(h: seq<Event>): set<Task> { set e | e in h && e.Create? :: e.t }
  function Completed(h: seq<Event>): set<Task> { set e | e in h && e.Complete? :: e.t }
  function Gathered(h: seq<Event>): set<Task> { set e | e in h && e.Metrics? :: e.t }

  /** The assumptions on the URL session: new tasks are new and go to requests without a
      live task; a created task completes at most once and reports at most once. */
  predicate Allowed(c: Core, h: seq<Event>, e: Event) {
    match e
    case Create(r, t) => t !in Created(h) && r !in c.maps.requestsToTasks
    case Complete(t) => t in Created(h) && t !in Completed(h)
    case Metrics(t) => t in Created(h) && t !in Gathered(h)
  }

  function Handle(c: Core, e: Event): Reply {
    match e
    case Create(r, t) => Fine(c.(maps := Associated(c.maps, r, t)))
    case Complete(t) => TaskCompleted(c, t)
    case Metrics(t) => MetricsGathered(c, t)
  }

  const EMPTY := Core(Maps(map[], map[], map[]), {}, [])

  /** The session after the history `h`. */
  function After(h: seq<Event>): Reply {
    if h == [] then Fine(EMPTY)
    else
      match After(h[..|h| - 1])
      case Crash => Crash
      case Fine(c) => Handle(c, h[|h| - 1])
  }

  predicate Legal(h: seq<Event>) {
    h == [] ||
    (var before := h[..|h| - 1];
     Legal(before) && (After(before).Fine? ==> Allowed(After(before).core, before, h[|h| - 1])))
  }

  /** What the maps hold after a legal history: every URL task that lacks an event. */
  ghost predicate Inv(c: Core, h: seq<Event>) {
    && Consistent(c.maps)
    && Completed(h) <= Created(h) && Gathered(h) <= Created(h)
    && c.maps.tasksToRequests.Keys == Created(h) - (Completed(h) * Gathered(h))
    && (forall t | t in c.maps.taskEvents ::
      c.maps.taskEvents[t] == Events(t in Completed(h), t in Gathered(h)))
    && c.waiting == Completed(h) - Gathered(h)
    && (forall t :: multiset(c.ran)[t] == if t in Completed(h) && t in Gathered(h) then 1 else 0)
  }

  lemma Extended(h: seq<Event>, e: Event)
    ensures Created(h + [e]) == if e.Create? then Created(h) + {e.t} else Created(h)
    ensures Completed(h + [e]) == if e.Complete? then Completed(h) + {e.t} else Completed(h)
    ensures Gathered(h + [e]) == if e.Metrics? then Gathered(h) + {e.t} else Gathered(h)
  {
    forall x ensures x in h + [e] <==> x in h || x == e {}
  }

  lemma CreateKeeps(c: Core, h: seq<Event>, r: Request, t: Task)
    requires Inv(c, h) && Allowed(c, h, Create(r, t))
    ensures Inv(c.(maps := Associated(c.maps, r, t)), h + [Create(r, t)])
  {
    hide Consistent, Created, Completed, Gathered;
    Extended(h, Create(r, t));
    AssociatingIsConsistent(c.maps, r, t);
  }

  lemma SecondIsComplete(c: Core, h: seq<Event>, t: Task)
    requires Inv(c, h) && Allowed(c, h, Complete(t)) && t in Gathered(h)
    ensures TaskCompleted(c, t).Fine? && Inv(TaskCompleted(c, t).core, h + [Complete(t)])
  {
    hide Created, Completed, Gathered, Consistent;
    Extended(h, Complete(t));
    EventsAreMapped(c.maps);
    assert t in c.maps.tasksToRequests.Keys;
    DissociatingIsConsistent(c.maps, t);
  }

  lemma FirstIsComplete(c: Core, h: seq<Event>, t: Task)
    requires Inv(c, h) && Allowed(c, h, Complete(t)) && t !in Gathered(h)
    ensures TaskCompleted(c, t).Fine? && Inv(TaskCompleted(c, t).core, h + [Complete(t)])
  {
    hide Created, Completed, Gathered, Consistent;
    Extended(h, Complete(t));
    EventsAreMapped(c.maps);
    assert t in c.maps.tasksToRequests.Keys;
    OneEventIsConsistent(c.maps, t, Events(true, false));
  }

  lemma MetricsKeeps(c: Core, h: seq<Event>, t: Task)
    requires Inv(c, h) && Allowed(c, h, Metrics(t))
    ensures MetricsGathered(c, t).Fine? && Inv(MetricsGathered(c, t).core, h + [Metrics(t)])
  {
    hide Created, Completed, Gathered, Consistent;
    Extended(h, Metrics(t));
    EventsAreMapped(c.maps);
    assert t in c.maps.tasksToRequests.Keys;
    if t in Completed(h) {
      DissociatingIsConsistent(c.maps, t);
    } else {
      OneEventIsConsistent(c.maps, t, Events(false, true));
    }
  }

  /** After every legal history: no fatal error, the maps are inverse and hold exactly
      what lacks an event, a completion waits exactly when its task completed without
      metrics, and it has run, once, exactly when both events have come. */
  lemma {:induction false} EveryHistoryKeeps(h: seq<Event>)
    requires Legal(h)
    ensures After(h).Fine? && Inv(After(h).core, h)
  {
    hide Inv, Handle, Allowed;
    if h == [] {
      assert Inv(EMPTY, []) by { EmptyInv(); }
    } else {
      var before, e := h[..|h| - 1], h[|h| - 1];
      assert h == before + [e];
      EveryHistoryKeeps(before);
      var c := After(before).core;
      assert Allowed(c, before, e);
      HandleKeeps(c, before, e);
    }
  }

  lemma EmptyInv()
    ensures Inv(EMPTY, [])
  {
  }

  lemma HandleKeeps(c: Core, h: seq<Event>, e: Event)
    requires Inv(c, h) && Allowed(c, h, e)
    ensures Handle(c, e).Fine? && Inv(Handle(c, e).core, h + [e])
  {
    hide Inv, Allowed;
    match e
    case Create(r, t) => CreateKeeps(c, h, r, t);
    case Complete(t) =>
      if t in Gathered(h) {
        SecondIsComplete(c, h, t);
      } else {
        FirstIsComplete(c, h, t);
      }
    case Metrics(t) => MetricsKeeps(c, h, t);
  }

  /** The second event of a task is the one that runs its completion. */
  lemma RunsAtTheSecondEvent(h: seq<Event>, e: Event)
    requires Legal(h + [e])
    ensures After(h).Fine? && After(h + [e]).Fine?
    ensures After(h + [e]).core.ran ==
      if (e.Complete? && e.t in Gathered(h)) || (e.Metrics? && e.t in Completed(h))
      then After(h).core.ran + [e.t] else After(h).core.ran
  {
    hide Created, Completed, Gathered, Consistent;
    assert (h + [e])[..|h + [e]| - 1] == h;
    EveryHistoryKeeps(h);
    EveryHistoryKeeps(h + [e]);
    var c := After(h).core;
    assert Allowed(c, h, e);
    if !e.Create? {
      assert e.t in c.maps.tasksToRequests.Keys;
    }
  }

  /** And an event stops the program if and only if it is for a URL task that was never
      created, or comes to it a second time. */
  lemma CrashesExactly(h: seq<Event>, e: Event)
    requires Legal(h)
    ensures After(h + [e]).Crash? <==>
      || (e.Complete? && (e.t !in Created(h) || e.t in Completed(h)))
      || (e.Metrics? && (e.t !in Created(h) || e.t in Gathered(h)))
  {
    hide Created, Completed, Gathered, Legal;
    assert (h + [e])[..|h + [e]| - 1] == h;
    EveryHistoryKeeps(h);
    var c := After(h).core;
    EventsAreMapped(c.maps);
    assert After(h + [e]) == Handle(c, e);
    assert forall t :: t in c.maps.taskEvents <==> t in c.maps.tasksToRequests.Keys;
  }
}
