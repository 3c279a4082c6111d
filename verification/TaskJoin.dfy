/** The two-way task map of RequestTaskMap.swift and the join of its two events per task in
    Session.swift (platforms that gather metrics). */
module TaskJoin {
  import opened Bytes

  type Task = nat
  type Request = nat

  datatype Events = Events(completed: bool, metricsGathered: bool)

  /** `waiting` are the session's waitingCompletions; a task's completion is known by its task. */
  datatype Maps = Maps(tasksToRequests: map<Task, Request>, requestsToTasks: map<Request, Task>,
                       taskEvents: map<Task, Events>, waiting: map<Task, Task>)

  // ---- The setters and events as functions; None is a fatalError --------------------------------------

  function AssociateOf(m: Maps, r: Request, t: Task): Maps {
    m.(requestsToTasks := m.requestsToTasks[r := t], tasksToRequests := m.tasksToRequests[t := r],
       taskEvents := m.taskEvents[t := Events(false, false)])
  }

  function DisassociateTaskOf(m: Maps, t: Task): Option<Maps> {
    if t !in m.tasksToRequests then None
    else Some(m.(tasksToRequests := m.tasksToRequests - {t}, requestsToTasks := m.requestsToTasks - {m.tasksToRequests[t]},
                 taskEvents := m.taskEvents - {t}))
  }

  function DisassociateRequestOf(m: Maps, r: Request): Option<Maps> {
    if r !in m.requestsToTasks then None
    else Some(m.(tasksToRequests := m.tasksToRequests - {m.requestsToTasks[r]}, requestsToTasks := m.requestsToTasks - {r},
                 taskEvents := m.taskEvents - {m.requestsToTasks[r]}))
  }

  /** The maps and whether the pair was taken out. */
  function MetricsOf(m: Maps, t: Task): Option<(Maps, bool)> {
    if t !in m.taskEvents || m.taskEvents[t].metricsGathered then None
    else if !m.taskEvents[t].completed then Some((m.(taskEvents := m.taskEvents[t := Events(false, true)]), false))
    else
      var m' := DisassociateTaskOf(m, t);
      if m'.Some? then Some((m'.value, true)) else None
  }

  function CompletionOf(m: Maps, t: Task): Option<(Maps, bool)> {
    if t !in m.taskEvents || m.taskEvents[t].completed then None
    else if !m.taskEvents[t].metricsGathered then Some((m.(taskEvents := m.taskEvents[t := Events(true, false)]), false))
    else
      var m' := DisassociateTaskOf(m, t);
      if m'.Some? then Some((m'.value, true)) else None
  }

  /** `didGatherMetricsForTask`: the maps and the completion it calls. */
  function GatherOf(m: Maps, t: Task): Option<(Maps, Option<Task>)> {
    match MetricsOf(m, t)
    case None => None
    case Some((m', false)) => Some((m', None))
    case Some((m', true)) =>
      Some((m'.(waiting := m'.waiting - {t}), if t in m'.waiting then Some(m'.waiting[t]) else None))
  }

  /** `didCompleteTask`. */
  function CompleteOf(m: Maps, t: Task): Option<(Maps, Option<Task>)> {
    match CompletionOf(m, t)
    case None => None
    case Some((m', true)) => Some((m', Some(t)))
    case Some((m', false)) => Some((m'.(waiting := m'.waiting[t := t]), None))
  }

  // ---- The two-way map ------------------------------------------------------------------------------------------

  /** The two maps are mutual inverses. */
  ghost predicate Inverse(m: Maps) {
    && (forall t | t in m.tasksToRequests :: Back(m, t))
    && (forall r | r in m.requestsToTasks :: Forth(m, r))
  }

  ghost predicate Back(m: Maps, t: Task)
    requires t in m.tasksToRequests
  {
    m.tasksToRequests[t] in m.requestsToTasks && m.requestsToTasks[m.tasksToRequests[t]] == t
  }

  ghost predicate Forth(m: Maps, r: Request)
    requires r in m.requestsToTasks
  {
    m.requestsToTasks[r] in m.tasksToRequests && m.tasksToRequests[m.requestsToTasks[r]] == r
  }

  /** The map is consistent: mutual inverses, events for exactly the mapped tasks, and no entry for which both
      events have arrived. */
  ghost predicate Consistent(m: Maps) {
    && Inverse(m)
    && m.taskEvents.Keys == m.tasksToRequests.Keys
    && forall t | t in m.taskEvents :: !(m.taskEvents[t].completed && m.taskEvents[t].metricsGathered)
  }

  /** Exactly the entries that completed without metrics have a completion waiting, their own. */
  ghost predicate Awaiting(m: Maps) {
    && (forall t :: t in m.waiting <==> t in m.taskEvents && m.taskEvents[t].completed)
    && (forall t | t in m.waiting :: m.waiting[t] == t)
  }

  // ---- The class ------------------------------------------------------------------------------------------

  class Session {
    var tasksToRequests: map<Task, Request>
    var requestsToTasks: map<Request, Task>
    var taskEvents: map<Task, Events>
    var waitingCompletions: map<Task, Task>

    function State(): Maps
      reads this
    {
      Maps(tasksToRequests, requestsToTasks, taskEvents, waitingCompletions)
    }

    ghost predicate Valid()
      reads this
    {
      Consistent(State()) && Awaiting(State())
    }

    constructor ()
      ensures Valid() && State() == Maps(map[], map[], map[], map[])
    {
      tasksToRequests, requestsToTasks, taskEvents, waitingCompletions := map[], map[], map[], map[];
      new;
      EmptyInverse(State());
    }

    /** The setter by request. A new pair keeps the map consistent exactly when neither side is mapped
        elsewhere; taking one out always does, and is fatal exactly when the request has none. */
    method SetTask(r: Request, newValue: Option<Task>) returns (ok: bool)
      requires Consistent(State())
      modifies this
      ensures waitingCompletions == old(waitingCompletions)
      ensures newValue.Some? ==> ok && State() == AssociateOf(old(State()), r, newValue.value)
      ensures newValue.Some? ==> (Consistent(State()) <==> FreeFor(old(State()), r, newValue.value))
      ensures newValue.None? ==> (ok <==> r in old(requestsToTasks)) && Consistent(State())
      ensures newValue.None? && ok ==> Some(State()) == DisassociateRequestOf(old(State()), r)
      ensures newValue.None? && ok ==> r !in requestsToTasks && old(requestsToTasks)[r] !in tasksToRequests
      ensures !ok ==> State() == old(State())
    {
      ok := true;
      if newValue.None? {
        if r !in requestsToTasks { return false; }
        var task := requestsToTasks[r];
        assert Forth(State(), r);
        RemovalConsistent(State(), task);
        requestsToTasks := requestsToTasks - {r};
        tasksToRequests := tasksToRequests - {task};
        taskEvents := taskEvents - {task};
        return;
      }
      AssociateConsistent(State(), r, newValue.value);
      requestsToTasks := requestsToTasks[r := newValue.value];
      tasksToRequests := tasksToRequests[newValue.value := r];
      taskEvents := taskEvents[newValue.value := Events(false, false)];
    }

    /** The setter by URL session task, under the same conditions. */
    method SetRequest(t: Task, newValue: Option<Request>) returns (ok: bool)
      requires Consistent(State())
      modifies this
      ensures waitingCompletions == old(waitingCompletions)
      ensures newValue.Some? ==> ok && State() == AssociateOf(old(State()), newValue.value, t)
      ensures newValue.Some? ==> (Consistent(State()) <==> FreeFor(old(State()), newValue.value, t))
      ensures newValue.None? ==> (ok <==> t in old(tasksToRequests)) && Consistent(State())
      ensures newValue.None? && ok ==> Some(State()) == DisassociateTaskOf(old(State()), t)
      ensures newValue.None? && ok ==> t !in tasksToRequests && old(tasksToRequests)[t] !in requestsToTasks
      ensures !ok ==> State() == old(State())
    {
      ok := true;
      if newValue.None? {
        if t !in tasksToRequests { return false; }
        var request := tasksToRequests[t];
        RemovalConsistent(State(), t);
        tasksToRequests := tasksToRequests - {t};
        requestsToTasks := requestsToTasks - {request};
        taskEvents := taskEvents - {t};
        return;
      }
      AssociateConsistent(State(), newValue.value, t);
      tasksToRequests := tasksToRequests[t := newValue.value];
      requestsToTasks := requestsToTasks[newValue.value := t];
      taskEvents := taskEvents[t := Events(false, false)];
    }

    /** Metrics arrive for an entry. Fatal exactly when there is no entry or it has its metrics; the pair is
        taken out exactly when it was complete, and the map stays consistent. */
    method DisassociateIfNecessaryAfterGatheringMetrics(t: Task) returns (ok: bool, didDisassociate: bool)
      requires Consistent(State())
      modifies this
      ensures Consistent(State()) && waitingCompletions == old(waitingCompletions)
      ensures ok <==> t in old(tasksToRequests) && !old(taskEvents)[t].metricsGathered
      ensures ok ==> (didDisassociate <==> old(taskEvents)[t].completed) && (t in tasksToRequests <==> !didDisassociate)
      ensures ok <==> MetricsOf(old(State()), t).Some?
      ensures ok ==> (State(), didDisassociate) == MetricsOf(old(State()), t).value
    {
      if t !in taskEvents || taskEvents[t].metricsGathered { return false, false; }
      if !taskEvents[t].completed {
        MarkingConsistent(State(), t, Events(false, true));
        taskEvents := taskEvents[t := Events(false, true)];
        return true, false;
      }
      ok := SetRequest(t, None);
      didDisassociate := true;
    }

    /** Completion arrives for an entry, likewise. */
    method DisassociateIfNecessaryAfterCompleting(t: Task) returns (ok: bool, didDisassociate: bool)
      requires Consistent(State())
      modifies this
      ensures Consistent(State()) && waitingCompletions == old(waitingCompletions)
      ensures ok <==> t in old(tasksToRequests) && !old(taskEvents)[t].completed
      ensures ok ==> (didDisassociate <==> old(taskEvents)[t].metricsGathered) && (t in tasksToRequests <==> !didDisassociate)
      ensures ok <==> CompletionOf(old(State()), t).Some?
      ensures ok ==> (State(), didDisassociate) == CompletionOf(old(State()), t).value
    {
      if t !in taskEvents || taskEvents[t].completed { return false, false; }
      if !taskEvents[t].metricsGathered {
        MarkingConsistent(State(), t, Events(true, false));
        taskEvents := taskEvents[t := Events(true, false)];
        return true, false;
      }
      ok := SetRequest(t, None);
      didDisassociate := true;
    }

    /** The completion of the entry is called exactly when it had already completed, and is then no longer
        waiting; the waiting completions stay those of the completed entries. */
    method DidGatherMetrics(t: Task) returns (ok: bool, fired: Option<Task>)
      requires Valid()
      modifies this
      ensures ok ==> Valid()
      ensures ok <==> t in old(tasksToRequests) && !old(taskEvents)[t].metricsGathered
      ensures ok ==> fired == if t in old(waitingCompletions) then Some(t) else None
      ensures ok ==> t !in waitingCompletions
      ensures ok <==> GatherOf(old(State()), t).Some?
      ensures ok ==> (State(), fired) == GatherOf(old(State()), t).value
    {
      hide Inverse, Consistent, Awaiting;
      GatherKeepsValid(State(), t);
      fired := None;
      var didDisassociate;
      ok, didDisassociate := DisassociateIfNecessaryAfterGatheringMetrics(t);
      if ok && didDisassociate {
        if t in waitingCompletions { fired := Some(waitingCompletions[t]); }
        waitingCompletions := waitingCompletions - {t};
      }
    }

    /** The completion is called at once exactly when metrics came first, else it is waiting afterwards. */
    method DidComplete(t: Task) returns (ok: bool, fired: Option<Task>)
      requires Valid()
      modifies this
      ensures ok ==> Valid()
      ensures ok <==> t in old(tasksToRequests) && !old(taskEvents)[t].completed
      ensures ok ==> fired == if old(taskEvents)[t].metricsGathered then Some(t) else None
      ensures ok ==> (fired.None? <==> t in waitingCompletions)
      ensures ok <==> CompleteOf(old(State()), t).Some?
      ensures ok ==> (State(), fired) == CompleteOf(old(State()), t).value
    {
      hide Inverse, Consistent, Awaiting;
      CompleteKeepsValid(State(), t);
      fired := None;
      var didDisassociate;
      ok, didDisassociate := DisassociateIfNecessaryAfterCompleting(t);
      if ok {
        if didDisassociate { fired := Some(t); } else { waitingCompletions := waitingCompletions[t := t]; }
      }
    }
  }

  /** Neither side is mapped to anything but the other. */
  predicate FreeFor(m: Maps, r: Request, t: Task) {
    (r in m.requestsToTasks ==> m.requestsToTasks[r] == t) && (t in m.tasksToRequests ==> m.tasksToRequests[t] == r)
  }

  lemma EmptyInverse(m: Maps)
    requires m == Maps(map[], map[], map[], map[])
    ensures Consistent(m) && Awaiting(m)
  {}

  lemma AssociateConsistent(m: Maps, r: Request, t: Task)
    requires Consistent(m)
    ensures Consistent(AssociateOf(m, r, t)) <==> FreeFor(m, r, t)
  {
    AssociateKeepsInverse(m, r, t);
    hide Inverse;
  }

  lemma RemovalConsistent(m: Maps, t: Task)
    requires Consistent(m) && t in m.tasksToRequests
    ensures Consistent(DisassociateTaskOf(m, t).value)
    ensures DisassociateTaskOf(m, t) == DisassociateRequestOf(m, m.tasksToRequests[t])
  {
    DisassociateKeepsInverse(m, t);
    hide Inverse;
  }

  lemma MarkingConsistent(m: Maps, t: Task, e: Events)
    requires Consistent(m) && t in m.taskEvents && !(e.completed && e.metricsGathered)
    ensures Consistent(m.(taskEvents := m.taskEvents[t := e]))
  {
    InverseOnly(m, m.(taskEvents := m.taskEvents[t := e]));
    hide Inverse;
  }

  /** Metrics for a consistent session: what is called, and that it stays consistent. */
  lemma GatherKeepsValid(m: Maps, t: Task)
    requires Consistent(m) && Awaiting(m)
    ensures GatherOf(m, t).Some? <==> t in m.tasksToRequests && !m.taskEvents[t].metricsGathered
    ensures GatherOf(m, t).Some? ==>
              (var (m', c) := GatherOf(m, t).value;
               && Consistent(m') && Awaiting(m') && t !in m'.waiting
               && c == if t in m.waiting then Some(t) else None)
  {
    hide Inverse;
    if t in m.tasksToRequests && !m.taskEvents[t].metricsGathered {
      var m' := GatherOf(m, t).value.0;
      if m.taskEvents[t].completed {
        RemovalConsistent(m, t);
        InverseOnly(DisassociateTaskOf(m, t).value, m');
      } else {
        MarkingConsistent(m, t, Events(false, true));
      }
    }
  }

  lemma CompleteKeepsValid(m: Maps, t: Task)
    requires Consistent(m) && Awaiting(m)
    ensures CompleteOf(m, t).Some? <==> t in m.tasksToRequests && !m.taskEvents[t].completed
    ensures CompleteOf(m, t).Some? ==>
              (var (m', c) := CompleteOf(m, t).value;
               && Consistent(m') && Awaiting(m') && (c.None? <==> t in m'.waiting)
               && c == if m.taskEvents[t].metricsGathered then Some(t) else None)
  {
    hide Inverse;
    if t in m.tasksToRequests && !m.taskEvents[t].completed {
      var m' := CompleteOf(m, t).value.0;
      if m.taskEvents[t].metricsGathered {
        RemovalConsistent(m, t);
      } else {
        MarkingConsistent(m, t, Events(true, false));
        InverseOnly(m, m');
      }
    }
  }

  // ---- Associating and removing ---------------------------------------------------------------------------------

  /** The setter keeps the maps inverse exactly when the request has no other URL session task and that one
      no other request. */
  lemma AssociateKeepsInverse(m: Maps, r: Request, t: Task)
    requires Inverse(m)
    ensures Inverse(AssociateOf(m, r, t)) <==> FreeFor(m, r, t)
  {
    var now := AssociateOf(m, r, t);
    if r in m.requestsToTasks && m.requestsToTasks[r] != t {
      assert Forth(m, r);
      assert !Back(now, m.requestsToTasks[r]);
    } else if t in m.tasksToRequests && m.tasksToRequests[t] != r {
      assert Back(m, t);
      assert !Forth(now, m.tasksToRequests[t]);
    } else {
      forall u | u in now.tasksToRequests ensures Back(now, u) { if u != t { assert Back(m, u); } }
      forall q | q in now.requestsToTasks ensures Forth(now, q) { if q != r { assert Forth(m, q); } }
    }
  }

  lemma DisassociateKeepsInverse(m: Maps, t: Task)
    requires Inverse(m) && t in m.tasksToRequests
    ensures Inverse(DisassociateTaskOf(m, t).value)
    ensures DisassociateTaskOf(m, t) == DisassociateRequestOf(m, m.tasksToRequests[t])
  {
    assert Back(m, t);
    var now := DisassociateTaskOf(m, t).value;
    forall u | u in now.tasksToRequests ensures Back(now, u) { assert Back(m, u); }
    forall q | q in now.requestsToTasks ensures Forth(now, q) { assert Forth(m, q); }
  }

  // ---- Runs -------------------------------------------------------------------------------------------------------

  /** Besides the session: which tasks were associated, completed and had their metrics gathered, and
      the completions called, in order. */
  datatype System = System(m: Maps, associated: set<Task>, completed: set<Task>, gathered: set<Task>, fired: seq<Task>)

  datatype Event = Associate(r: Request, t: Task) | GatherMetrics(t: Task) | Complete(t: Task)

  /** A pair is associated when both sides are unmapped, with a task that is new; each of the two events
      arrives once for a task, after it was associated. */
  predicate Allowed(s: System, e: Event) {
    match e
    case Associate(r, t) => t !in s.associated && r !in s.m.requestsToTasks && t !in s.m.tasksToRequests
    case GatherMetrics(t) => t in s.associated && t !in s.gathered
    case Complete(t) => t in s.associated && t !in s.completed
  }

  function Fire(fired: seq<Task>, c: Option<Task>): seq<Task> {
    if c.Some? then fired + [c.value] else fired
  }

  /** None is a fatalError. */
  function Step(s: System, e: Event): Option<System> {
    match e
    case Associate(r, t) => Some(s.(m := AssociateOf(s.m, r, t), associated := s.associated + {t}))
    case GatherMetrics(t) =>
      (match GatherOf(s.m, t)
       case None => None
       case Some((m', c)) => Some(s.(m := m', gathered := s.gathered + {t}, fired := Fire(s.fired, c))))
    case Complete(t) =>
      (match CompleteOf(s.m, t)
       case None => None
       case Some((m', c)) => Some(s.(m := m', completed := s.completed + {t}, fired := Fire(s.fired, c))))
  }

  function Initial(): System {
    System(Maps(map[], map[], map[], map[]), {}, {}, {}, [])
  }

  /** Runs whose events are allowed; None once a fatalError was reached. */
  function Run(events: seq<Event>): Option<System> {
    if events == [] then Some(Initial())
    else
      var s := Run(events[..|events| - 1]);
      if s.Some? then Step(s.value, events[|events| - 1]) else None
  }

  ghost predicate AllAllowed(events: seq<Event>) {
    forall k | 0 <= k < |events| ::
      var s := Run(events[..k]);
      s.Some? ==> Allowed(s.value, events[k])
  }

  function Times(ids: seq<Task>, id: Task): nat {
    if ids == [] then 0 else Times(ids[..|ids| - 1], id) + (if ids[|ids| - 1] == id then 1 else 0)
  }

  lemma TimesPush(ids: seq<Task>, x: Task, id: Task)
    ensures Times(ids + [x], id) == Times(ids, id) + (if x == id then 1 else 0)
  {
    assert (ids + [x])[..|ids|] == ids;
  }

  /** Both events of this URL session task have arrived. */
  predicate Done(s: System, t: Task) {
    t in s.completed && t in s.gathered
  }

  ghost predicate Live(s: System, t: Task) {
    t in s.associated && !Done(s, t)
  }

  ghost predicate Inv(s: System) {
    && Inverse(s.m)
    && (forall t :: t in s.m.tasksToRequests <==> Live(s, t))
    && s.m.taskEvents.Keys == s.m.tasksToRequests.Keys
    && (forall t | t in s.m.taskEvents :: s.m.taskEvents[t] == Events(t in s.completed, t in s.gathered))
    && Waits(s)
    && s.completed <= s.associated && s.gathered <= s.associated
    && (forall t :: Times(s.fired, t) == if Done(s, t) then 1 else 0)
  }

  /** Exactly those URL session tasks that completed without metrics have a completion waiting, their own. */
  ghost predicate Waits(s: System) {
    && (forall t :: t in s.m.waiting <==> t in s.completed && t !in s.gathered)
    && (forall t | t in s.m.waiting :: s.m.waiting[t] == t)
  }

  /** In every reachable state the class's own invariant holds. */
  lemma InvIsValid(s: System)
    requires Inv(s)
    ensures Consistent(s.m) && Awaiting(s.m)
  {
    hide Inverse, Times;
    forall t | t in s.m.taskEvents ensures !(s.m.taskEvents[t].completed && s.m.taskEvents[t].metricsGathered) {
      assert Live(s, t);
    }
    forall t ensures t in s.m.waiting <==> t in s.m.taskEvents && s.m.taskEvents[t].completed {
      assert t in s.m.tasksToRequests <==> Live(s, t);
    }
  }

  lemma AssociateStep(s: System, r: Request, t: Task)
    requires Inv(s) && Allowed(s, Associate(r, t))
    ensures Inv(Step(s, Associate(r, t)).value)
  {
    hide Inverse, Times;
    AssociateKeepsInverse(s.m, r, t);
    var s' := Step(s, Associate(r, t)).value;
    assert forall u :: Done(s', u) <==> Done(s, u);
    assert forall u :: Live(s', u) <==> Live(s, u) || u == t;
  }

  /** What the first event of an entry does to the session. */
  lemma FirstEventMaps(s: System, e: Event)
    requires Inv(s) && Allowed(s, e) && !e.Associate?
    requires if e.Complete? then e.t !in s.gathered else e.t !in s.completed
    ensures Step(s, e) == Some(s.(
              m := s.m.(taskEvents := s.m.taskEvents[e.t := Events(e.Complete?, !e.Complete?)],
                        waiting := if e.Complete? then s.m.waiting[e.t := e.t] else s.m.waiting),
              completed := if e.Complete? then s.completed + {e.t} else s.completed,
              gathered := if e.Complete? then s.gathered else s.gathered + {e.t}))
  {
    assert e.t in s.m.tasksToRequests <==> Live(s, e.t);
    hide Inverse, Times;
  }

  /** Which tasks are mapped, and with which events, after a first event. */
  lemma FirstEventKeys(s: System, t: Task, s': System)
    requires Inv(s) && Live(s, t) && s'.m.tasksToRequests == s.m.tasksToRequests
    requires s'.associated == s.associated && s.completed <= s'.completed <= s.completed + {t}
    requires s.gathered <= s'.gathered <= s.gathered + {t} && !Done(s', t)
    requires s'.m.taskEvents == s.m.taskEvents[t := Events(t in s'.completed, t in s'.gathered)]
    ensures forall u :: Done(s', u) <==> Done(s, u)
    ensures forall u :: u in s'.m.tasksToRequests <==> Live(s', u)
    ensures s'.m.taskEvents.Keys == s'.m.tasksToRequests.Keys
    ensures forall u | u in s'.m.taskEvents :: s'.m.taskEvents[u] == Events(u in s'.completed, u in s'.gathered)
  {
    hide Inverse, Times, Waits;
    forall u ensures (Done(s', u) <==> Done(s, u)) && (Live(s', u) <==> Live(s, u)) {}
    assert t in s.m.tasksToRequests <==> Live(s, t);
  }

  lemma MappedIsLive(s: System, t: Task)
    requires Inv(s) && t in s.associated && !Done(s, t)
    ensures Live(s, t) && t in s.m.tasksToRequests
  {
    hide Inverse, Times;
  }

  /** The first of the two events only marks its entry. */
  lemma FirstEvent(s: System, e: Event)
    requires Inv(s) && Allowed(s, e) && !e.Associate?
    requires if e.Complete? then e.t !in s.gathered else e.t !in s.completed
    ensures Step(s, e).Some? && Inv(Step(s, e).value) && Step(s, e).value.fired == s.fired
  {
    hide Inverse, Times, Step, Live;
    FirstEventMaps(s, e);
    var s' := Step(s, e).value;
    MappedIsLive(s, e.t);
    FirstEventKeys(s, e.t, s');
    InverseOnly(s.m, s'.m);
  }

  lemma InverseOnly(m: Maps, now: Maps)
    requires Inverse(m) && now.tasksToRequests == m.tasksToRequests && now.requestsToTasks == m.requestsToTasks
    ensures Inverse(now)
  {
    forall u | u in now.tasksToRequests ensures Back(now, u) { assert Back(m, u); }
    forall q | q in now.requestsToTasks ensures Forth(now, q) { assert Forth(m, q); }
  }

  /** What the second event of a task does to the session. */
  lemma SecondEventMaps(s: System, e: Event)
    requires Inv(s) && Allowed(s, e) && !e.Associate?
    requires if e.Complete? then e.t in s.gathered else e.t in s.completed
    ensures DisassociateTaskOf(s.m, e.t).Some?
    ensures var m1 := DisassociateTaskOf(s.m, e.t).value;
            Step(s, e) == Some(System(m1.(waiting := s.m.waiting - {e.t}), s.associated,
              if e.Complete? then s.completed + {e.t} else s.completed,
              if e.Complete? then s.gathered else s.gathered + {e.t}, s.fired + [e.t]))
  {
    assert Live(s, e.t);
    hide Inverse, Times;
    if e.Complete? { assert s.m.waiting - {e.t} == s.m.waiting; }
  }

  lemma SecondEventKeys(s: System, t: Task, s': System)
    requires Inv(s) && Live(s, t) && s'.m.tasksToRequests == s.m.tasksToRequests - {t} && s'.m.taskEvents == s.m.taskEvents - {t}
    requires s'.associated == s.associated && s.completed <= s'.completed <= s.completed + {t}
    requires s.gathered <= s'.gathered <= s.gathered + {t} && Done(s', t)
    ensures forall u :: u in s'.m.tasksToRequests <==> Live(s', u)
    ensures s'.m.taskEvents.Keys == s'.m.tasksToRequests.Keys
    ensures forall u | u in s'.m.taskEvents :: s'.m.taskEvents[u] == Events(u in s'.completed, u in s'.gathered)
  {
    hide Inverse, Times;
    forall u ensures u in s'.m.tasksToRequests <==> Live(s', u) {
      assert u in s.m.tasksToRequests <==> Live(s, u);
    }
  }

  /** The second of the two events, whichever it is, takes the pair out and calls the completion. */
  lemma SecondEvent(s: System, e: Event)
    requires Inv(s) && Allowed(s, e) && !e.Associate?
    requires if e.Complete? then e.t in s.gathered else e.t in s.completed
    ensures Step(s, e).Some? && Inv(Step(s, e).value) && Step(s, e).value.fired == s.fired + [e.t]
  {
    hide Inverse, Times;
    var t := e.t;
    SecondEventMaps(s, e);
    assert t in s.m.tasksToRequests <==> Live(s, t);
    DisassociateKeepsInverse(s.m, t);
    var m1, s' := DisassociateTaskOf(s.m, t).value, Step(s, e).value;
    InverseOnly(m1, s'.m);
    SecondEventKeys(s, t, s');
    forall u ensures Times(s'.fired, u) == if Done(s', u) then 1 else 0 {
      TimesPush(s.fired, t, u);
      assert Times(s.fired, u) == if Done(s, u) then 1 else 0;
    }
    assert Waits(s') by { hide Inverse, Times, Step; }
    hide Times, Step, Inverse, Live, Waits, DisassociateTaskOf;
  }

  /** No allowed event reaches a fatalError. A completion is called exactly when the second event of its
      task arrives, in either order, and it is that task's. */
  lemma StepFires(s: System, e: Event)
    requires Inv(s) && Allowed(s, e)
    ensures Step(s, e).Some? && Inv(Step(s, e).value)
    ensures Step(s, e).value.fired ==
            if (e.Complete? && e.t in s.gathered) || (e.GatherMetrics? && e.t in s.completed) then s.fired + [e.t] else s.fired
  {
    if e.Associate? {
      AssociateStep(s, e.r, e.t);
    } else if (e.Complete? && e.t in s.gathered) || (e.GatherMetrics? && e.t in s.completed) {
      SecondEvent(s, e);
    } else {
      FirstEvent(s, e);
    }
    hide Inv;
  }

  lemma InitialInv()
    ensures Inv(Initial())
  {
    var s := Initial();
    assert Inverse(s.m);
    assert forall t :: Times(s.fired, t) == 0;
  }

  /** In every run: no fatalError is reached, the maps stay mutual inverses with `taskEvents` on the same
      tasks, the waiting completions are exactly those of the completed tasks without metrics, and each
      task's completion has been called once if both its events arrived, and not at all before. */
  lemma {:induction false} EveryRun(events: seq<Event>)
    requires AllAllowed(events)
    ensures Run(events).Some? && Inv(Run(events).value)
  {
    if events == [] {
      InitialInv();
    } else {
      var before := events[..|events| - 1];
      assert AllAllowed(before) by {
        forall k | 0 <= k < |before| ensures var s := Run(before[..k]); s.Some? ==> Allowed(s.value, before[k]) {
          assert before[..k] == events[..k];
        }
      }
      EveryRun(before);
      StepFires(Run(before).value, events[|events| - 1]);
      hide Inv, Step, Allowed;
    }
  }
}
