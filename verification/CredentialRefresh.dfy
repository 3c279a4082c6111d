/** The credential refresh of AuthenticationInterceptor.swift: its lock sections as methods of a class,
    the queue blocks and callers around them as a transition system, and what holds in every run. */
module CredentialRefresh {
  import opened Bytes

  // ---- The state behind the lock ------------------------------------------------------------------

  type Credential = nat

  /** A caller's completion closure, adapting a request or deciding about a retry. */
  datatype Operation = Adaptation(id: nat) | RetryOf(id: nat)

  datatype Failure = MissingCredential | ExcessiveRefresh | RefreshFailed(code: nat)

  datatype RefreshWindow = RefreshWindow(interval: real, maximumAttempts: int)

  datatype MutableState = MutableState(
    credential: Option<Credential>,
    isRefreshing: bool,
    refreshTimestamps: seq<real>,
    refreshWindow: Option<RefreshWindow>,
    adaptOperations: seq<Operation>,
    requestsToRetry: seq<Operation>)

  datatype AdaptResult = Adapt(credential: Credential) | DoNotAdapt(error: Failure) | AdaptDeferred

  /** Blocks handed to the interceptor's serial queue. */
  datatype Block =
    | StartRefresh(credential: Credential)
    | Succeeded(adapts: seq<Operation>, retries: seq<Operation>)
    | Failed(error: Failure, adapts: seq<Operation>, retries: seq<Operation>)

  /** The clock readings of one lock section: when the window is examined and when the start is recorded. */
  datatype Clock = Clock(test: real, record: real)

  // ---- Lock sections as functions -------------------------------------------------------------------

  /** How many of the recorded starts are no older than `from`. */
  function AttemptsSince(timestamps: seq<real>, from: real): nat {
    if timestamps == [] then 0
    else AttemptsSince(timestamps[..|timestamps| - 1], from) + (if from <= timestamps[|timestamps| - 1] then 1 else 0)
  }

  predicate Excessive(m: MutableState, now: real) {
    m.refreshWindow.Some? &&
    AttemptsSince(m.refreshTimestamps, now - m.refreshWindow.value.interval) >= m.refreshWindow.value.maximumAttempts
  }

  function FailureOf(m: MutableState, error: Failure): (MutableState, Block) {
    (m.(adaptOperations := [], requestsToRetry := [], isRefreshing := false),
     Failed(error, m.adaptOperations, m.requestsToRetry))
  }

  function SuccessOf(m: MutableState, c: Credential): (MutableState, Block) {
    (m.(credential := Some(c), adaptOperations := [], requestsToRetry := [], isRefreshing := false),
     Succeeded(m.adaptOperations, m.requestsToRetry))
  }

  function RefreshOf(m: MutableState, c: Credential, clock: Clock): (MutableState, Block) {
    if Excessive(m, clock.test) then FailureOf(m, ExcessiveRefresh)
    else (m.(refreshTimestamps := m.refreshTimestamps + [clock.record], isRefreshing := true), StartRefresh(c))
  }

  /** The lock section of `adapt`; `requiresRefresh` is what the credential in force answers. */
  function AdaptOf(m: MutableState, op: Operation, requiresRefresh: bool, clock: Clock): (MutableState, AdaptResult, Option<Block>) {
    if m.isRefreshing then (m.(adaptOperations := m.adaptOperations + [op]), AdaptDeferred, None)
    else if m.credential.None? then (m, DoNotAdapt(MissingCredential), None)
    else if requiresRefresh then
      var (m', b) := RefreshOf(m.(adaptOperations := m.adaptOperations + [op]), m.credential.value, clock);
      (m', AdaptDeferred, Some(b))
    else (m, Adapt(m.credential.value), None)
  }

  /** The lock section of `retry`; `c` was read before the section began. */
  function RetryOfSection(m: MutableState, op: Operation, c: Credential, clock: Clock): (MutableState, Option<Block>) {
    var m1 := m.(requestsToRetry := m.requestsToRetry + [op]);
    if m.isRefreshing then (m1, None)
    else
      var (m', b) := RefreshOf(m1, c, clock);
      (m', Some(b))
  }

  // ---- What the lock protects ---------------------------------------------------------------------------

  function InOps(ops: seq<Operation>, op: Operation): nat {
    if ops == [] then 0 else InOps(ops[..|ops| - 1], op) + (if ops[|ops| - 1] == op then 1 else 0)
  }

  lemma InOpsPush(ops: seq<Operation>, x: Operation, op: Operation)
    ensures InOps(ops + [x], op) == InOps(ops, op) + (if x == op then 1 else 0)
  {
    assert (ops + [x])[..|ops|] == ops;
  }

  /** How often a completion waits behind the lock. */
  function Waiting(m: MutableState, op: Operation): nat {
    InOps(m.adaptOperations, op) + InOps(m.requestsToRetry, op)
  }

  function InBlock(b: Block, op: Operation): nat {
    if b.StartRefresh? then 0 else InOps(b.adapts, op) + InOps(b.retries, op)
  }

  function InDispatched(b: Option<Block>, op: Operation): nat {
    if b.Some? then InBlock(b.value, op) else 0
  }

  ghost predicate AllAdapt(ops: seq<Operation>) { forall k | 0 <= k < |ops| :: ops[k].Adaptation? }

  ghost predicate AllRetry(ops: seq<Operation>) { forall k | 0 <= k < |ops| :: ops[k].RetryOf? }

  ghost predicate StateOk(m: MutableState) { AllAdapt(m.adaptOperations) && AllRetry(m.requestsToRetry) }

  /** Started refreshes recorded in the closed interval from `from` to `to`. */
  function StartedWithin(timestamps: seq<real>, from: real, to: real): nat {
    if timestamps == [] then 0
    else
      var t := timestamps[|timestamps| - 1];
      StartedWithin(timestamps[..|timestamps| - 1], from, to) + (if from <= t <= to then 1 else 0)
  }

  ghost predicate RateBounded(timestamps: seq<real>, w: RefreshWindow) {
    forall from, to | to <= from + w.interval :: StartedWithin(timestamps, from, to) <= w.maximumAttempts
  }

  /** No time window of the configured length holds more started refreshes than allowed. */
  ghost predicate RateHolds(m: MutableState) {
    m.refreshWindow.Some? && m.refreshWindow.value.maximumAttempts >= 0 ==>
      RateBounded(m.refreshTimestamps, m.refreshWindow.value)
  }

  /** Operations of either kind wait in their own queue, and only while a refresh is in flight. */
  ghost predicate QueuesHold(m: MutableState) {
    StateOk(m) && (!m.isRefreshing ==> m.adaptOperations == [] && m.requestsToRetry == [])
  }

  /** Every waiting completion is still waiting or in the dispatched block, as often as before; `x` has been
      added `n` times. */
  ghost predicate NoneLost(m: MutableState, now: MutableState, b: Option<Block>, x: Operation, n: nat) {
    forall op :: Waiting(now, op) + InDispatched(b, op) == Waiting(m, op) + (if op == x then n else 0)
  }

  ghost predicate BatchOf(b: Block, m: MutableState) {
    !b.StartRefresh? && forall op :: InBlock(b, op) == Waiting(m, op)
  }

  // ---- The class --------------------------------------------------------------------------------------

  class AuthenticationInterceptor {
    var credential: Option<Credential>
    var isRefreshing: bool
    var refreshTimestamps: seq<real>
    const refreshWindow: Option<RefreshWindow>
    var adaptOperations: seq<Operation>
    var requestsToRetry: seq<Operation>

    function State(): MutableState
      reads this
    {
      MutableState(credential, isRefreshing, refreshTimestamps, refreshWindow, adaptOperations, requestsToRetry)
    }

    ghost predicate Valid()
      reads this
    {
      QueuesHold(State()) && RateHolds(State())
    }

    constructor (credential: Option<Credential>, refreshWindow: Option<RefreshWindow>)
      ensures Valid() && State() == MutableState(credential, false, [], refreshWindow, [], [])
    {
      this.credential := credential;
      this.refreshWindow := refreshWindow;
      isRefreshing, refreshTimestamps, adaptOperations, requestsToRetry := false, [], [], [];
    }

    method IsRefreshExcessive(now: real) returns (excessive: bool)
      ensures excessive == Excessive(State(), now)
    {
      if refreshWindow.None? { return false; }
      var windowMin := now - refreshWindow.value.interval;
      var attempts := 0;
      for i := 0 to |refreshTimestamps|
        invariant attempts == AttemptsSince(refreshTimestamps[..i], windowMin)
      {
        assert refreshTimestamps[..i + 1][..i] == refreshTimestamps[..i];
        if windowMin <= refreshTimestamps[i] { attempts := attempts + 1; }
      }
      assert refreshTimestamps[..|refreshTimestamps|] == refreshTimestamps;
      excessive := attempts >= refreshWindow.value.maximumAttempts;
    }

    /** The new credential is in force, and the batch dispatched holds exactly the completions that waited, each
        as often as it waited; none waits any more. */
    method HandleRefreshSuccess(c: Credential) returns (dispatched: Block)
      requires Valid()
      modifies this
      ensures Valid() && !isRefreshing && credential == Some(c)
      ensures dispatched == Succeeded(old(adaptOperations), old(requestsToRetry)) && BatchOf(dispatched, old(State()))
      ensures (State(), dispatched) == SuccessOf(old(State()), c)
    {
      credential := Some(c);
      dispatched := Succeeded(adaptOperations, requestsToRetry);
      adaptOperations := [];
      requestsToRetry := [];
      isRefreshing := false;
    }

    /** The batch dispatched holds exactly the completions that waited, to be failed with the error. It may run
        while none is refreshing: that is how an excessive refresh is refused. */
    method HandleRefreshFailure(error: Failure) returns (dispatched: Block)
      requires StateOk(State()) && RateHolds(State())
      modifies this
      ensures Valid() && !isRefreshing && credential == old(credential)
      ensures dispatched == Failed(error, old(adaptOperations), old(requestsToRetry)) && BatchOf(dispatched, old(State()))
      ensures (State(), dispatched) == FailureOf(old(State()), error)
    {
      dispatched := Failed(error, adaptOperations, requestsToRetry);
      adaptOperations := [];
      requestsToRetry := [];
      isRefreshing := false;
    }

    /** Called with the operation already queued and no refresh in flight. Either one refresh is in flight
        afterwards and everything still waits for it, or everything that waited is in a failing batch; and
        the rate of starts stays within its bound whatever time passed between test and record. */
    method Refresh(c: Credential, clock: Clock) returns (dispatched: Block)
      requires StateOk(State()) && RateHolds(State()) && !isRefreshing && clock.test <= clock.record
      modifies this
      ensures Valid()
      ensures isRefreshing <==> dispatched == StartRefresh(c)
      ensures !isRefreshing ==> BatchOf(dispatched, old(State())) && dispatched.Failed? && dispatched.error == ExcessiveRefresh
      ensures isRefreshing ==> adaptOperations == old(adaptOperations) && requestsToRetry == old(requestsToRetry)
      ensures (State(), dispatched) == RefreshOf(old(State()), c, clock)
    {
      hide RateBounded, Excessive, BatchOf;
      RefreshKeepsRate(State(), c, clock);
      var excessive := IsRefreshExcessive(clock.test);
      if excessive {
        dispatched := HandleRefreshFailure(ExcessiveRefresh);
        return;
      }
      refreshTimestamps := refreshTimestamps + [clock.record];
      isRefreshing := true;
      dispatched := StartRefresh(c);
    }

    /** The lock section of `adapt`. Unless it decides at once, the operation now waits or is in the failing
        batch, beside everything that waited before; a refresh starts exactly when none was in flight. */
    method AdaptSection(op: Operation, requiresRefresh: bool, clock: Clock) returns (r: AdaptResult, dispatched: Option<Block>)
      requires Valid() && op.Adaptation? && clock.test <= clock.record
      modifies this
      ensures Valid()
      ensures NoneLost(old(State()), State(), dispatched, op, if r.AdaptDeferred? then 1 else 0)
      ensures isRefreshing && !old(isRefreshing) <==> dispatched.Some? && dispatched.value.StartRefresh?
      ensures r.Adapt? ==> credential == Some(r.credential) && !isRefreshing && !requiresRefresh
      ensures isRefreshing && r.AdaptDeferred? ==> adaptOperations == old(adaptOperations) + [op]
      ensures (State(), r, dispatched) == AdaptOf(old(State()), op, requiresRefresh, clock)
    {
      AdaptLosesNone(State(), op, requiresRefresh, clock);
      hide RateBounded, Excessive, NoneLost, RefreshOf, BatchOf;
      dispatched := None;
      if isRefreshing {
        adaptOperations := adaptOperations + [op];
        return AdaptDeferred, None;
      }
      if credential.None? { return DoNotAdapt(MissingCredential), None; }
      if requiresRefresh {
        adaptOperations := adaptOperations + [op];
        var b := Refresh(credential.value, clock);
        return AdaptDeferred, Some(b);
      }
      r := Adapt(credential.value);
    }

    /** The lock section of `retry`, likewise; it always defers. */
    method RetrySection(op: Operation, c: Credential, clock: Clock) returns (dispatched: Option<Block>)
      requires Valid() && op.RetryOf? && clock.test <= clock.record
      modifies this
      ensures Valid()
      ensures NoneLost(old(State()), State(), dispatched, op, 1)
      ensures isRefreshing ==> requestsToRetry == old(requestsToRetry) + [op]
      ensures isRefreshing && !old(isRefreshing) <==> dispatched.Some? && dispatched.value.StartRefresh?
      ensures (State(), dispatched) == RetryOfSection(old(State()), op, c, clock)
    {
      RetryLosesNone(State(), op, c, clock);
      hide RateBounded, Excessive, NoneLost, RefreshOf, BatchOf;
      requestsToRetry := requestsToRetry + [op];
      if isRefreshing { return None; }
      var b := Refresh(c, clock);
      dispatched := Some(b);
    }
  }

  // ---- Callers, queue and authenticator around it ---------------------------------------------------------

  datatype Answer = Authenticated(c: Credential) | NotAdapted(error: Failure) | Retry | DoNotRetry | DoNotRetryWithError(e: Failure)

  /** Where a call that holds a completion stands. `Answering` is about to call it. */
  datatype Call =
    | Adapting(op: Operation)
    | Retrying(op: Operation)
    | Checking(op: Operation, credential: Credential)
    | Answering(op: Operation, answer: Answer)

  datatype Called = Called(op: Operation, answer: Answer)

  /** `outstanding` are the refreshes the authenticator has been asked for and not yet answered. */
  datatype System = System(m: MutableState, calls: seq<Call>, queue: seq<Block>, outstanding: nat,
                           called: seq<Called>, issued: set<Operation>, now: real)

  /** One atomic step. A running queue block is the head of the queue, taken apart one closure at a
      time; an adapt it repeats joins the other calls, so it may interleave with them freely. */
  datatype Event =
    | CallAdapt(id: nat)
    | CallRetry(id: nat)
    | AdaptLock(i: nat, requiresRefresh: bool, clock: Clock)
    | RetryRefused(i: nat)
    | RetryReadsCredential(i: nat)
    | RetryOutdated(i: nat)
    | RetryLock(i: nat, clock: Clock)
    | CallsCompletion(i: nat)
    | QueueRuns
    | RefreshAnswers(result: Option<Credential>, code: nat)
    | SetCredential(c: Option<Credential>)

  function Without(calls: seq<Call>, i: nat): seq<Call>
    requires i < |calls|
  {
    calls[..i] + calls[i + 1..]
  }

  function Enqueue(queue: seq<Block>, b: Option<Block>): seq<Block> {
    if b.Some? then queue + [b.value] else queue
  }

  /** The clock never runs backwards, neither between sections nor inside one. */
  predicate Ticks(now: real, clock: Clock) {
    now <= clock.test <= clock.record
  }

  function RunHead(s: System): System
    requires s.queue != []
  {
    var rest := s.queue[1..];
    match s.queue[0]
    case StartRefresh(c) => s.(queue := rest, outstanding := s.outstanding + 1)
    case Succeeded(adapts, retries) =>
      if adapts != [] then s.(queue := [Succeeded(adapts[1..], retries)] + rest, calls := s.calls + [Adapting(adapts[0])])
      else if retries != [] then s.(queue := [Succeeded([], retries[1..])] + rest, calls := s.calls + [Answering(retries[0], Retry)])
      else s.(queue := rest)
    case Failed(e, adapts, retries) =>
      if adapts != [] then s.(queue := [Failed(e, adapts[1..], retries)] + rest, calls := s.calls + [Answering(adapts[0], NotAdapted(e))])
      else if retries != [] then
        s.(queue := [Failed(e, [], retries[1..])] + rest, calls := s.calls + [Answering(retries[0], DoNotRetryWithError(e))])
      else s.(queue := rest)
  }

  /** The call `i` after the lock section of `adapt`. */
  function AfterAdapt(s: System, i: nat, requiresRefresh: bool, clock: Clock): System
    requires i < |s.calls|
  {
    var op := s.calls[i].op;
    var (m', r, b) := AdaptOf(s.m, op, requiresRefresh, clock);
    var s' := s.(m := m', queue := Enqueue(s.queue, b), now := clock.record);
    match r
    case Adapt(c) => s'.(calls := Without(s.calls, i) + [Answering(op, Authenticated(c))])
    case DoNotAdapt(e) => s'.(calls := Without(s.calls, i) + [Answering(op, NotAdapted(e))])
    case AdaptDeferred => s'.(calls := Without(s.calls, i))
  }

  function AfterRetry(s: System, i: nat, clock: Clock): System
    requires i < |s.calls| && s.calls[i].Checking?
  {
    var (m', b) := RetryOfSection(s.m, s.calls[i].op, s.calls[i].credential, clock);
    s.(m := m', queue := Enqueue(s.queue, b), calls := Without(s.calls, i), now := clock.record)
  }

  function Move(s: System, i: nat, call: Call): System
    requires i < |s.calls|
  {
    s.(calls := Without(s.calls, i) + [call])
  }

  /** None when the event cannot happen in this state. */
  function Step(s: System, e: Event): Option<System> {
    match e
    case CallAdapt(id) =>
      if Adaptation(id) in s.issued then None
      else Some(s.(issued := s.issued + {Adaptation(id)}, calls := s.calls + [Adapting(Adaptation(id))]))
    case CallRetry(id) =>
      if RetryOf(id) in s.issued then None
      else Some(s.(issued := s.issued + {RetryOf(id)}, calls := s.calls + [Retrying(RetryOf(id))]))
    case AdaptLock(i, requiresRefresh, clock) =>
      if i < |s.calls| && s.calls[i].Adapting? && Ticks(s.now, clock) then Some(AfterAdapt(s, i, requiresRefresh, clock)) else None
    case RetryRefused(i) =>
      if i < |s.calls| && s.calls[i].Retrying? then Some(Move(s, i, Answering(s.calls[i].op, DoNotRetry))) else None
    case RetryReadsCredential(i) =>
      if i < |s.calls| && s.calls[i].Retrying? then
        Some(Move(s, i, if s.m.credential.Some? then Checking(s.calls[i].op, s.m.credential.value)
                        else Answering(s.calls[i].op, DoNotRetryWithError(MissingCredential))))
      else None
    case RetryOutdated(i) =>
      if i < |s.calls| && s.calls[i].Checking? then Some(Move(s, i, Answering(s.calls[i].op, Retry))) else None
    case RetryLock(i, clock) =>
      if i < |s.calls| && s.calls[i].Checking? && Ticks(s.now, clock) then Some(AfterRetry(s, i, clock)) else None
    case CallsCompletion(i) =>
      if i < |s.calls| && s.calls[i].Answering? then
        Some(s.(calls := Without(s.calls, i), called := s.called + [Called(s.calls[i].op, s.calls[i].answer)]))
      else None
    case QueueRuns =>
      if s.queue != [] then Some(RunHead(s)) else None
    case RefreshAnswers(result, code) =>
      if s.outstanding > 0 then
        var (m', b) := if result.Some? then SuccessOf(s.m, result.value) else FailureOf(s.m, RefreshFailed(code));
        Some(s.(m := m', queue := s.queue + [b], outstanding := s.outstanding - 1))
      else None
    case SetCredential(c) =>
      Some(s.(m := s.m.(credential := c)))
  }

  function Initial(c: Option<Credential>, w: Option<RefreshWindow>, now: real): System {
    System(MutableState(c, false, [], w, [], []), [], [], 0, [], {}, now)
  }

  function Run(s: System, events: seq<Event>): Option<System>
    decreases |events|
  {
    if events == [] then Some(s)
    else
      var s' := Run(s, events[..|events| - 1]);
      if s'.Some? then Step(s'.value, events[|events| - 1]) else None
  }

  // ---- Conservation ---------------------------------------------------------------------------------------

  function InCalls(calls: seq<Call>, op: Operation): nat {
    if calls == [] then 0 else InCalls(calls[..|calls| - 1], op) + (if calls[|calls| - 1].op == op then 1 else 0)
  }

  function InQueue(queue: seq<Block>, op: Operation): nat {
    if queue == [] then 0 else InQueue(queue[..|queue| - 1], op) + InBlock(queue[|queue| - 1], op)
  }

  function InCalled(called: seq<Called>, op: Operation): nat {
    if called == [] then 0 else InCalled(called[..|called| - 1], op) + (if called[|called| - 1].op == op then 1 else 0)
  }

  /** How often a completion occurs: with a caller (deciding or about to call it), queued behind the
      lock, in a dispatched batch, or already called. */
  function Places(s: System, op: Operation): nat {
    InCalls(s.calls, op) + Waiting(s.m, op) + InQueue(s.queue, op) + InCalled(s.called, op)
  }

  function Starts(queue: seq<Block>): nat {
    if queue == [] then 0 else Starts(queue[..|queue| - 1]) + (if queue[|queue| - 1].StartRefresh? then 1 else 0)
  }

  ghost predicate Conserved(s: System) {
    forall op :: Places(s, op) == if op in s.issued then 1 else 0
  }

  /** Operations wait only for a refresh in flight, and a refresh is in flight exactly while one
      request to the authenticator is about to be made or unanswered. */
  ghost predicate OneRefresh(s: System) {
    && Starts(s.queue) + s.outstanding == (if s.m.isRefreshing then 1 else 0)
    && (!s.m.isRefreshing ==> s.m.adaptOperations == [] && s.m.requestsToRetry == [])
  }

  lemma {:induction false} InOpsPop(ops: seq<Operation>, op: Operation)
    requires ops != []
    ensures InOps(ops, op) == (if ops[0] == op then 1 else 0) + InOps(ops[1..], op)
  {
    var n := |ops| - 1;
    if n > 0 {
      InOpsPop(ops[..n], op);
      assert ops[..n][1..] == ops[1..][..n - 1];
    }
  }

  lemma InCallsPush(calls: seq<Call>, x: Call, op: Operation)
    ensures InCalls(calls + [x], op) == InCalls(calls, op) + (if x.op == op then 1 else 0)
  {
    assert (calls + [x])[..|calls|] == calls;
  }

  lemma WithoutPrefix(calls: seq<Call>, i: nat)
    requires i < |calls| - 1
    ensures Without(calls, i) == Without(calls[..|calls| - 1], i) + [calls[|calls| - 1]]
  {
    var n := |calls| - 1;
    assert calls[..n][..i] == calls[..i];
    assert calls[..n][i + 1..] + [calls[n]] == calls[i + 1..];
  }

  lemma {:induction false} InCallsWithout(calls: seq<Call>, i: nat, op: Operation)
    requires i < |calls|
    ensures InCalls(calls, op) == InCalls(Without(calls, i), op) + (if calls[i].op == op then 1 else 0)
  {
    var n := |calls| - 1;
    if i == n {
      assert Without(calls, i) == calls[..n];
    } else {
      InCallsWithout(calls[..n], i, op);
      WithoutPrefix(calls, i);
      hide Without;
      InCallsPush(Without(calls[..n], i), calls[n], op);
    }
  }

  lemma InQueuePush(queue: seq<Block>, b: Block, op: Operation)
    ensures InQueue(queue + [b], op) == InQueue(queue, op) + InBlock(b, op)
    ensures Starts(queue + [b]) == Starts(queue) + (if b.StartRefresh? then 1 else 0)
  {
    assert (queue + [b])[..|queue|] == queue;
  }

  lemma {:induction false} InQueuePop(queue: seq<Block>, op: Operation)
    requires queue != []
    ensures InQueue(queue, op) == InBlock(queue[0], op) + InQueue(queue[1..], op)
    ensures Starts(queue) == (if queue[0].StartRefresh? then 1 else 0) + Starts(queue[1..])
  {
    hide InBlock;
    var n := |queue| - 1;
    if n > 0 {
      InQueuePop(queue[..n], op);
      assert queue[..n][1..] == queue[1..][..n - 1];
    }
  }

  /** Replacing the head of the queue. */
  lemma InQueueReplace(queue: seq<Block>, b: Block, op: Operation)
    requires queue != []
    ensures InQueue([b] + queue[1..], op) + InBlock(queue[0], op) == InQueue(queue, op) + InBlock(b, op)
    ensures Starts([b] + queue[1..]) + (if queue[0].StartRefresh? then 1 else 0)
         == Starts(queue) + (if b.StartRefresh? then 1 else 0)
  {
    InQueuePop(queue, op);
    InQueuePop([b] + queue[1..], op);
    assert ([b] + queue[1..])[1..] == queue[1..];
    hide InQueue, InBlock, Starts;
  }

  function StartsIn(b: Option<Block>): nat {
    if b.Some? && b.value.StartRefresh? then 1 else 0
  }

  lemma EnqueueCounts(queue: seq<Block>, b: Option<Block>, op: Operation)
    ensures InQueue(Enqueue(queue, b), op) == InQueue(queue, op) + InDispatched(b, op)
    ensures Starts(Enqueue(queue, b)) == Starts(queue) + StartsIn(b)
  {
    if b.Some? { InQueuePush(queue, b.value, op); }
  }

  /** The lock section of `adapt` keeps every waiting completion, waiting or dispatched, and places the
      new one or leaves it with the caller. */
  lemma AdaptPlaces(m: MutableState, x: Operation, requiresRefresh: bool, clock: Clock, op: Operation)
    ensures var (m', r, b) := AdaptOf(m, x, requiresRefresh, clock);
            Waiting(m', op) + InDispatched(b, op) == Waiting(m, op) + (if r.AdaptDeferred? && x == op then 1 else 0)
  {
    InOpsPush(m.adaptOperations, x, op);
    assert InOps([], op) == 0;
    hide Excessive, InOps;
  }

  lemma RetryPlaces(m: MutableState, x: Operation, c: Credential, clock: Clock, op: Operation)
    ensures var (m', b) := RetryOfSection(m, x, c, clock);
            Waiting(m', op) + InDispatched(b, op) == Waiting(m, op) + (if x == op then 1 else 0)
  {
    InOpsPush(m.requestsToRetry, x, op);
    assert InOps([], op) == 0;
    hide Excessive, InOps;
  }

  lemma AdaptLosesNone(m: MutableState, x: Operation, requiresRefresh: bool, clock: Clock)
    ensures var (m', r, b) := AdaptOf(m, x, requiresRefresh, clock);
            NoneLost(m, m', b, x, if r.AdaptDeferred? then 1 else 0)
  {
    forall op { AdaptPlaces(m, x, requiresRefresh, clock, op); }
    hide Waiting, InDispatched, AdaptOf;
  }

  lemma RetryLosesNone(m: MutableState, x: Operation, c: Credential, clock: Clock)
    ensures var (m', b) := RetryOfSection(m, x, c, clock);
            NoneLost(m, m', b, x, 1)
  {
    forall op { RetryPlaces(m, x, c, clock, op); }
    hide Waiting, InDispatched, RetryOfSection;
  }

  /** A block hands over one closure: the rest of the block stays at the head of the queue. */
  lemma HandOver(s: System, b: Block, call: Call, op: Operation)
    requires s.queue != []
    requires InBlock(s.queue[0], op) == InBlock(b, op) + (if call.op == op then 1 else 0)
    ensures Places(s.(queue := [b] + s.queue[1..], calls := s.calls + [call]), op) == Places(s, op)
  {
    InQueueReplace(s.queue, b, op);
    InCallsPush(s.calls, call, op);
    hide InQueue, InCalls, InOps, InCalled, InBlock, Waiting;
  }

  lemma FinishBlock(s: System, op: Operation)
    requires s.queue != [] && InBlock(s.queue[0], op) == 0
    ensures Places(s.(queue := s.queue[1..]), op) == Places(s, op)
    ensures Places(s.(queue := s.queue[1..], outstanding := s.outstanding + 1), op) == Places(s, op)
  {
    InQueuePop(s.queue, op);
    hide InQueue, InCalls, InOps, InCalled, InBlock, Waiting;
  }

  lemma NoOps(op: Operation)
    ensures InOps([], op) == 0
  {}

  /** A block takes its closures one at a time and drops none. */
  lemma RunHeadPlaces(s: System, op: Operation)
    requires s.queue != []
    ensures Places(RunHead(s), op) == Places(s, op)
    ensures RunHead(s).issued == s.issued
  {
    hide Places, InOps;
    NoOps(op);
    var b := s.queue[0];
    if !b.StartRefresh? && b.adapts != [] { InOpsPop(b.adapts, op); }
    if !b.StartRefresh? && b.retries != [] { InOpsPop(b.retries, op); }
    match b
    case StartRefresh(_) => FinishBlock(s, op);
    case Succeeded(adapts, retries) =>
      if adapts != [] { HandOver(s, Succeeded(adapts[1..], retries), Adapting(adapts[0]), op); }
      else if retries != [] { HandOver(s, Succeeded([], retries[1..]), Answering(retries[0], Retry), op); }
      else { FinishBlock(s, op); }
    case Failed(e, adapts, retries) =>
      if adapts != [] { HandOver(s, Failed(e, adapts[1..], retries), Answering(adapts[0], NotAdapted(e)), op); }
      else if retries != [] { HandOver(s, Failed(e, [], retries[1..]), Answering(retries[0], DoNotRetryWithError(e)), op); }
      else { FinishBlock(s, op); }
  }

  lemma MovePlaces(s: System, i: nat, call: Call, op: Operation)
    requires i < |s.calls| && call.op == s.calls[i].op
    ensures Places(Move(s, i, call), op) == Places(s, op)
  {
    InCallsWithout(s.calls, i, op);
    InCallsPush(Without(s.calls, i), call, op);
    hide InQueue, InCalls, InOps, InCalled;
  }

  lemma AfterAdaptPlaces(s: System, i: nat, requiresRefresh: bool, clock: Clock, op: Operation)
    requires i < |s.calls|
    ensures Places(AfterAdapt(s, i, requiresRefresh, clock), op) == Places(s, op)
    ensures AfterAdapt(s, i, requiresRefresh, clock).issued == s.issued
  {
    hide InQueue, InCalls, InOps, InCalled, Waiting, AdaptOf, InDispatched, Enqueue, Without;
    var x := s.calls[i].op;
    var (m', r, b) := AdaptOf(s.m, x, requiresRefresh, clock);
    AdaptPlaces(s.m, x, requiresRefresh, clock, op);
    EnqueueCounts(s.queue, b, op);
    InCallsWithout(s.calls, i, op);
    if r.Adapt? { InCallsPush(Without(s.calls, i), Answering(x, Authenticated(r.credential)), op); }
    if r.DoNotAdapt? { InCallsPush(Without(s.calls, i), Answering(x, NotAdapted(r.error)), op); }
  }

  lemma AfterRetryPlaces(s: System, i: nat, clock: Clock, op: Operation)
    requires i < |s.calls| && s.calls[i].Checking?
    ensures Places(AfterRetry(s, i, clock), op) == Places(s, op)
    ensures AfterRetry(s, i, clock).issued == s.issued
  {
    var (m', b) := RetryOfSection(s.m, s.calls[i].op, s.calls[i].credential, clock);
    RetryPlaces(s.m, s.calls[i].op, s.calls[i].credential, clock, op);
    EnqueueCounts(s.queue, b, op);
    InCallsWithout(s.calls, i, op);
    hide InQueue, InCalls, InOps, InCalled, Waiting, RetryOfSection, InDispatched, Enqueue, Without;
  }

  lemma CompletionPlaces(s: System, i: nat, op: Operation)
    requires i < |s.calls| && s.calls[i].Answering?
    ensures Places(Step(s, CallsCompletion(i)).value, op) == Places(s, op)
  {
    var c := Called(s.calls[i].op, s.calls[i].answer);
    InCallsWithout(s.calls, i, op);
    assert (s.called + [c])[..|s.called|] == s.called;
    assert InCalled(s.called + [c], op) == InCalled(s.called, op) + (if c.op == op then 1 else 0);
    hide InQueue, InCalls, InOps, InCalled, Without;
  }

  lemma AnswerPlaces(s: System, result: Option<Credential>, code: nat, op: Operation)
    requires s.outstanding > 0
    ensures Places(Step(s, RefreshAnswers(result, code)).value, op) == Places(s, op)
  {
    var (m', b) := if result.Some? then SuccessOf(s.m, result.value) else FailureOf(s.m, RefreshFailed(code));
    InQueuePush(s.queue, b, op);
    assert InOps([], op) == 0;
    hide InQueue, InCalls, InOps, InCalled;
  }

  /** No step but a new call changes how often a completion occurs. */
  lemma StepPlaces(s: System, e: Event, op: Operation)
    requires Step(s, e).Some?
    ensures Places(Step(s, e).value, op)
         == Places(s, op) + (if op in Step(s, e).value.issued && op !in s.issued then 1 else 0)
  {
    hide AfterAdapt, AfterRetry, RunHead, InQueue, InOps, InCalled, InCalls, Without, Ticks;
    match e
    case CallAdapt(id) => InCallsPush(s.calls, Adapting(Adaptation(id)), op);
    case CallRetry(id) => InCallsPush(s.calls, Retrying(RetryOf(id)), op);
    case AdaptLock(i, requiresRefresh, clock) => AfterAdaptPlaces(s, i, requiresRefresh, clock, op);
    case RetryRefused(i) => MovePlaces(s, i, Answering(s.calls[i].op, DoNotRetry), op);
    case RetryReadsCredential(i) =>
      MovePlaces(s, i, if s.m.credential.Some? then Checking(s.calls[i].op, s.m.credential.value)
                       else Answering(s.calls[i].op, DoNotRetryWithError(MissingCredential)), op);
    case RetryOutdated(i) => MovePlaces(s, i, Answering(s.calls[i].op, Retry), op);
    case RetryLock(i, clock) => AfterRetryPlaces(s, i, clock, op);
    case CallsCompletion(i) => CompletionPlaces(s, i, op);
    case QueueRuns => RunHeadPlaces(s, op);
    case RefreshAnswers(result, code) => AnswerPlaces(s, result, code, op);
    case SetCredential(_) =>
  }

  lemma IssuedGrow(s: System, e: Event)
    requires Step(s, e).Some?
    ensures s.issued <= Step(s, e).value.issued
  {
    hide RefreshOf, Without;
  }

  lemma StepConserves(s: System, e: Event)
    requires Step(s, e).Some? && Conserved(s)
    ensures Conserved(Step(s, e).value)
  {
    IssuedGrow(s, e);
    var s' := Step(s, e).value;
    hide Step, Places;
    forall op ensures Places(s', op) == if op in s'.issued then 1 else 0 {
      StepPlaces(s, e, op);
      assert Places(s, op) == if op in s.issued then 1 else 0;
    }
  }

  // ---- One refresh at a time ----------------------------------------------------------------------------------

  lemma RefreshStarts(m: MutableState, c: Credential, clock: Clock)
    requires !m.isRefreshing
    ensures var (m', b) := RefreshOf(m, c, clock);
            && m'.isRefreshing == b.StartRefresh?
            && (!m'.isRefreshing ==> m'.adaptOperations == [] && m'.requestsToRetry == [])
  {
    hide Excessive;
  }

  lemma QueueOneRefresh(s: System)
    requires s.queue != [] && OneRefresh(s)
    ensures OneRefresh(RunHead(s))
  {
    var any := Adaptation(0);
    InQueuePop(s.queue, any);
    var b := s.queue[0];
    if !b.StartRefresh? && (b.adapts != [] || b.retries != []) { InQueueReplace(s.queue, RunHead(s).queue[0], any); }
    hide Starts;
  }

  lemma AdaptOneRefresh(s: System, i: nat, requiresRefresh: bool, clock: Clock)
    requires i < |s.calls| && OneRefresh(s)
    ensures OneRefresh(AfterAdapt(s, i, requiresRefresh, clock))
  {
    hide RefreshOf, Starts, Without, Enqueue;
    var op := s.calls[i].op;
    var m1 := s.m.(adaptOperations := s.m.adaptOperations + [op]);
    if !s.m.isRefreshing && s.m.credential.Some? { RefreshStarts(m1, s.m.credential.value, clock); }
    EnqueueCounts(s.queue, AdaptOf(s.m, op, requiresRefresh, clock).2, op);
  }

  lemma RetryOneRefresh(s: System, i: nat, clock: Clock)
    requires i < |s.calls| && s.calls[i].Checking? && OneRefresh(s)
    ensures OneRefresh(AfterRetry(s, i, clock))
  {
    hide RefreshOf, Starts, Without, Enqueue;
    var op := s.calls[i].op;
    var m1 := s.m.(requestsToRetry := s.m.requestsToRetry + [op]);
    if !s.m.isRefreshing { RefreshStarts(m1, s.calls[i].credential, clock); }
    EnqueueCounts(s.queue, RetryOfSection(s.m, op, s.calls[i].credential, clock).1, op);
  }

  lemma StepOneRefresh(s: System, e: Event)
    requires Step(s, e).Some? && OneRefresh(s)
    ensures OneRefresh(Step(s, e).value)
  {
    hide AfterAdapt, AfterRetry, Without, Ticks, RunHead, Starts, InQueue, InBlock;
    match e
    case AdaptLock(i, requiresRefresh, clock) => AdaptOneRefresh(s, i, requiresRefresh, clock);
    case RetryLock(i, clock) => RetryOneRefresh(s, i, clock);
    case QueueRuns => QueueOneRefresh(s);
    case RefreshAnswers(result, code) =>
      var (m', b) := if result.Some? then SuccessOf(s.m, result.value) else FailureOf(s.m, RefreshFailed(code));
      InQueuePush(s.queue, b, Adaptation(0));
    case _ =>
  }

  // ---- Answers ---------------------------------------------------------------------------------------------------

  predicate RightKind(op: Operation, a: Answer) {
    op.Adaptation? <==> a.Authenticated? || a.NotAdapted?
  }

  predicate CallOk(c: Call) {
    match c
    case Adapting(op) => op.Adaptation?
    case Retrying(op) => op.RetryOf?
    case Checking(op, _) => op.RetryOf?
    case Answering(op, a) => RightKind(op, a)
  }

  ghost predicate BlockOk(b: Block) {
    !b.StartRefresh? ==> AllAdapt(b.adapts) && AllRetry(b.retries)
  }

  ghost predicate CallsOk(calls: seq<Call>) { forall k | 0 <= k < |calls| :: CallOk(calls[k]) }

  ghost predicate QueueOk(queue: seq<Block>) { forall k | 0 <= k < |queue| :: BlockOk(queue[k]) }

  ghost predicate CalledOk(called: seq<Called>) { forall k | 0 <= k < |called| :: RightKind(called[k].op, called[k].answer) }

  /** Every completion sits where its kind belongs, and is called with an answer of its kind. */
  ghost predicate Sorted(s: System) {
    StateOk(s.m) && CallsOk(s.calls) && QueueOk(s.queue) && CalledOk(s.called)
  }

  lemma CallsPush(calls: seq<Call>, c: Call)
    requires CallsOk(calls) && CallOk(c)
    ensures CallsOk(calls + [c])
  {
    hide CallOk;
  }

  lemma CallsWithout(calls: seq<Call>, i: nat)
    requires CallsOk(calls) && i < |calls|
    ensures CallOk(calls[i]) && CallsOk(Without(calls, i))
  {
    hide CallOk;
  }

  lemma QueuePush(queue: seq<Block>, b: Option<Block>)
    requires QueueOk(queue) && (b.Some? ==> BlockOk(b.value))
    ensures QueueOk(Enqueue(queue, b))
  {
    hide BlockOk;
  }

  lemma QueueReplace(queue: seq<Block>, b: Block)
    requires QueueOk(queue) && queue != [] && BlockOk(b)
    ensures BlockOk(queue[0]) && QueueOk(queue[1..]) && QueueOk([b] + queue[1..])
  {
    hide BlockOk;
  }

  lemma RefreshOk(m: MutableState, c: Credential, clock: Clock)
    requires StateOk(m)
    ensures StateOk(RefreshOf(m, c, clock).0) && BlockOk(RefreshOf(m, c, clock).1)
  {
    hide Excessive;
  }

  lemma AdaptSorted(s: System, i: nat, requiresRefresh: bool, clock: Clock)
    requires i < |s.calls| && s.calls[i].Adapting? && Sorted(s)
    ensures Sorted(AfterAdapt(s, i, requiresRefresh, clock))
  {
    CallsWithout(s.calls, i);
    var op := s.calls[i].op;
    var (m', r, b) := AdaptOf(s.m, op, requiresRefresh, clock);
    var m1 := s.m.(adaptOperations := s.m.adaptOperations + [op]);
    assert StateOk(m1);
    if s.m.credential.Some? { RefreshOk(m1, s.m.credential.value, clock); }
    hide StateOk, BlockOk, RefreshOf;
    QueuePush(s.queue, b);
    if r.Adapt? { CallsPush(Without(s.calls, i), Answering(op, Authenticated(r.credential))); }
    if r.DoNotAdapt? { CallsPush(Without(s.calls, i), Answering(op, NotAdapted(r.error))); }
    hide CallsOk, QueueOk, CalledOk, Enqueue, Without;
  }

  lemma RetrySorted(s: System, i: nat, clock: Clock)
    requires i < |s.calls| && s.calls[i].Checking? && Sorted(s)
    ensures Sorted(AfterRetry(s, i, clock))
  {
    CallsWithout(s.calls, i);
    var op := s.calls[i].op;
    var m1 := s.m.(requestsToRetry := s.m.requestsToRetry + [op]);
    assert StateOk(m1);
    RefreshOk(m1, s.calls[i].credential, clock);
    hide StateOk, BlockOk, RefreshOf;
    QueuePush(s.queue, RetryOfSection(s.m, op, s.calls[i].credential, clock).1);
    hide CallsOk, QueueOk, CalledOk, Enqueue, Without;
  }

  lemma HandOverSorted(s: System, b: Block, call: Call)
    requires s.queue != [] && Sorted(s) && BlockOk(b) && CallOk(call)
    ensures Sorted(s.(queue := [b] + s.queue[1..], calls := s.calls + [call]))
  {
    QueueReplace(s.queue, b);
    CallsPush(s.calls, call);
    hide QueueOk, CallsOk, CalledOk, StateOk;
  }

  lemma QueueSorted(s: System)
    requires s.queue != [] && Sorted(s)
    ensures Sorted(RunHead(s))
  {
    QueueReplace(s.queue, s.queue[0]);
    match s.queue[0]
    case StartRefresh(_) =>
    case Succeeded(adapts, retries) =>
      if adapts != [] { HandOverSorted(s, Succeeded(adapts[1..], retries), Adapting(adapts[0])); }
      else if retries != [] { HandOverSorted(s, Succeeded([], retries[1..]), Answering(retries[0], Retry)); }
    case Failed(e, adapts, retries) =>
      if adapts != [] { HandOverSorted(s, Failed(e, adapts[1..], retries), Answering(adapts[0], NotAdapted(e))); }
      else if retries != [] { HandOverSorted(s, Failed(e, [], retries[1..]), Answering(retries[0], DoNotRetryWithError(e))); }
  }

  lemma MoveSorted(s: System, i: nat, call: Call)
    requires i < |s.calls| && Sorted(s) && CallOk(call)
    ensures Sorted(Move(s, i, call))
  {
    CallsWithout(s.calls, i);
    CallsPush(Without(s.calls, i), call);
    hide QueueOk, CallsOk, CalledOk, StateOk;
  }

  lemma CompletionSorted(s: System, i: nat)
    requires i < |s.calls| && s.calls[i].Answering? && Sorted(s)
    ensures Sorted(Step(s, CallsCompletion(i)).value)
  {
    CallsWithout(s.calls, i);
    hide QueueOk, CallsOk, StateOk, Without;
  }

  lemma StepSorted(s: System, e: Event)
    requires Step(s, e).Some? && Sorted(s)
    ensures Sorted(Step(s, e).value)
  {
    hide AfterAdapt, AfterRetry, Move, RunHead, Ticks, Without, CalledOk, CallsOk, QueueOk;
    match e
    case CallAdapt(id) => CallsPush(s.calls, Adapting(Adaptation(id)));
    case CallRetry(id) => CallsPush(s.calls, Retrying(RetryOf(id)));
    case AdaptLock(i, requiresRefresh, clock) => AdaptSorted(s, i, requiresRefresh, clock);
    case RetryRefused(i) =>
      CallsWithout(s.calls, i);
      MoveSorted(s, i, Answering(s.calls[i].op, DoNotRetry));
    case RetryReadsCredential(i) =>
      CallsWithout(s.calls, i);
      MoveSorted(s, i, if s.m.credential.Some? then Checking(s.calls[i].op, s.m.credential.value)
                       else Answering(s.calls[i].op, DoNotRetryWithError(MissingCredential)));
    case RetryOutdated(i) =>
      CallsWithout(s.calls, i);
      MoveSorted(s, i, Answering(s.calls[i].op, Retry));
    case RetryLock(i, clock) => RetrySorted(s, i, clock);
    case CallsCompletion(i) => CompletionSorted(s, i);
    case QueueRuns => QueueSorted(s);
    case RefreshAnswers(result, code) =>
      QueuePush(s.queue, Some(Succeeded(s.m.adaptOperations, s.m.requestsToRetry)));
      QueuePush(s.queue, Some(Failed(RefreshFailed(code), s.m.adaptOperations, s.m.requestsToRetry)));
    case SetCredential(_) =>
  }

  // ---- The refresh rate --------------------------------------------------------------------------------------------

  lemma {:induction false} WithinSince(timestamps: seq<real>, from: real, to: real, since: real)
    requires since <= from
    ensures StartedWithin(timestamps, from, to) <= AttemptsSince(timestamps, since)
  {
    if timestamps != [] { WithinSince(timestamps[..|timestamps| - 1], from, to, since); }
  }

  /** Recording one more start after the test passed. The test was made no later than the start is
      recorded, so every start in a window that reaches the new one was counted by the test. */
  lemma RecordKeepsRate(timestamps: seq<real>, w: RefreshWindow, clock: Clock)
    requires RateBounded(timestamps, w) && clock.test <= clock.record
    requires AttemptsSince(timestamps, clock.test - w.interval) < w.maximumAttempts
    ensures RateBounded(timestamps + [clock.record], w)
  {
    var now := timestamps + [clock.record];
    assert now[..|timestamps|] == timestamps;
    forall from, to | to <= from + w.interval ensures StartedWithin(now, from, to) <= w.maximumAttempts {
      assert StartedWithin(timestamps, from, to) <= w.maximumAttempts;
      if from <= clock.record <= to {
        WithinSince(timestamps, from, to, clock.test - w.interval);
      }
    }
  }

  ghost predicate Rate(s: System) {
    RateHolds(s.m)
  }

  lemma RefreshKeepsRate(m: MutableState, c: Credential, clock: Clock)
    requires clock.test <= clock.record && RateHolds(m)
    ensures RefreshOf(m, c, clock).0.refreshWindow == m.refreshWindow && RateHolds(RefreshOf(m, c, clock).0)
  {
    if m.refreshWindow.Some? && m.refreshWindow.value.maximumAttempts >= 0 && !Excessive(m, clock.test) {
      RecordKeepsRate(m.refreshTimestamps, m.refreshWindow.value, clock);
    }
    hide RateBounded;
  }

  lemma StepRate(s: System, e: Event)
    requires Step(s, e).Some? && Rate(s)
    ensures Rate(Step(s, e).value)
  {
    hide RateBounded, RefreshOf, Without;
    match e
    case AdaptLock(i, requiresRefresh, clock) =>
      if s.m.credential.Some? {
        RefreshKeepsRate(s.m.(adaptOperations := s.m.adaptOperations + [s.calls[i].op]), s.m.credential.value, clock);
      }
    case RetryLock(i, clock) =>
      RefreshKeepsRate(s.m.(requestsToRetry := s.m.requestsToRetry + [s.calls[i].op]), s.calls[i].credential, clock);
    case _ =>
  }

  // ---- Every run ---------------------------------------------------------------------------------------------------

  /** In every run each completion handed to `adapt` or `retry` is in exactly one place, never lost and
      never doubled; operations wait only while one refresh, and no other, is in flight; and
      completions are called with answers of their kind. */
  lemma {:induction false} EveryRunConserves(c: Option<Credential>, w: Option<RefreshWindow>, now: real, events: seq<Event>)
    requires Run(Initial(c, w, now), events).Some?
    ensures var s := Run(Initial(c, w, now), events).value;
            Conserved(s) && OneRefresh(s) && Sorted(s)
    decreases |events|
  {
    hide Step, Conserved, OneRefresh, Sorted;
    if events == [] {
      InitialHolds(c, w, now);
    } else {
      EveryRunConserves(c, w, now, events[..|events| - 1]);
      var s := Run(Initial(c, w, now), events[..|events| - 1]).value;
      StepConserves(s, events[|events| - 1]);
      StepOneRefresh(s, events[|events| - 1]);
      StepSorted(s, events[|events| - 1]);
    }
  }

  lemma InitialHolds(c: Option<Credential>, w: Option<RefreshWindow>, now: real)
    ensures Conserved(Initial(c, w, now)) && OneRefresh(Initial(c, w, now)) && Sorted(Initial(c, w, now))
  {}

  predicate Quiet(s: System) {
    s.calls == [] && s.queue == [] && s.outstanding == 0
  }

  /** Whenever nothing is left to run, every completion has been called exactly once. */
  lemma QuietMeansAnswered(c: Option<Credential>, w: Option<RefreshWindow>, now: real, events: seq<Event>, op: Operation)
    ensures var s := Run(Initial(c, w, now), events);
            s.Some? && Quiet(s.value) ==> InCalled(s.value.called, op) == if op in s.value.issued then 1 else 0
  {
    var r := Run(Initial(c, w, now), events);
    if r.Some? && Quiet(r.value) {
      EveryRunConserves(c, w, now, events);
      var s := r.value;
      assert Places(s, op) == if op in s.issued then 1 else 0;
      assert InCalls([], op) == 0 && InQueue([], op) == 0 && InOps([], op) == 0 && Starts([]) == 0;
      hide Run, Conserved, InCalls, InQueue, InOps, Starts, InCalled;
    }
  }

  /** In every run the state behind the lock satisfies what its sections require: the class's own invariant
      about the queues. */
  lemma EveryRunKeepsQueues(c: Option<Credential>, w: Option<RefreshWindow>, now: real, events: seq<Event>)
    requires Run(Initial(c, w, now), events).Some?
    ensures QueuesHold(Run(Initial(c, w, now), events).value.m)
  {
    EveryRunConserves(c, w, now, events);
    hide Run, Conserved;
  }

  /** In every run any time window of the configured length holds at most `maximumAttempts` started
      refreshes. */
  lemma {:induction false} EveryRunBoundsRate(c: Option<Credential>, w: RefreshWindow, now: real, events: seq<Event>, from: real)
    requires Run(Initial(c, Some(w), now), events).Some? && w.maximumAttempts >= 0
    ensures StartedWithin(Run(Initial(c, Some(w), now), events).value.m.refreshTimestamps, from, from + w.interval)
         <= w.maximumAttempts
  {
    EveryRunRate(c, w, now, events);
    hide Run;
  }

  lemma {:induction false} EveryRunRate(c: Option<Credential>, w: RefreshWindow, now: real, events: seq<Event>)
    requires Run(Initial(c, Some(w), now), events).Some? && w.maximumAttempts >= 0
    ensures var s := Run(Initial(c, Some(w), now), events).value;
            Rate(s) && s.m.refreshWindow == Some(w)
    decreases |events|
  {
    hide Step, Rate;
    if events == [] {
      InitialRate(c, w, now);
    } else {
      EveryRunRate(c, w, now, events[..|events| - 1]);
      var s := Run(Initial(c, Some(w), now), events[..|events| - 1]).value;
      StepRate(s, events[|events| - 1]);
      WindowKept(s, events[|events| - 1]);
    }
  }

  lemma InitialRate(c: Option<Credential>, w: RefreshWindow, now: real)
    requires w.maximumAttempts >= 0
    ensures Rate(Initial(c, Some(w), now))
  {}

  lemma WindowKept(s: System, e: Event)
    requires Step(s, e).Some?
    ensures Step(s, e).value.m.refreshWindow == s.m.refreshWindow
  {
    hide Excessive, Without;
  }

  // ---- Retries that read a credential replaced since ---------------------------------------------------------------

  /** An event that puts another credential in force than `c`. */
  predicate Replaces(e: Event, c: Credential) {
    || (e.RefreshAnswers? && e.result.Some? && e.result.value != c)
    || (e.SetCredential? && e.c != Some(c))
  }

  lemma CredentialKept(s: System, e: Event, c: Credential)
    requires Step(s, e).Some? && s.m.credential == Some(c) && !Replaces(e, c)
    ensures Step(s, e).value.m.credential == Some(c)
  {
    hide Excessive, Without;
  }

  lemma {:induction false} CredentialReplaced(s: System, events: seq<Event>, c: Credential)
    requires s.m.credential == Some(c) && Run(s, events).Some? && Run(s, events).value.m.credential != Some(c)
    ensures exists k :: 0 <= k < |events| && Replaces(events[k], c)
  {
    hide Step, Replaces;
    var before, e := events[..|events| - 1], events[|events| - 1];
    if Run(s, before).value.m.credential != Some(c) {
      CredentialReplaced(s, before, c);
      var k :| 0 <= k < |before| && Replaces(before[k], c);
      assert Replaces(events[k], c);
    } else if !Replaces(e, c) {
      CredentialKept(Run(s, before).value, e, c);
    } else {
      assert Replaces(events[|events| - 1], c);
    }
  }

  /** A retry decides on a credential it reads before its lock section. Whatever happens in between, the section
      starts a refresh of the credential read if and only if none is in flight and the rate allows it, whichever
      credential is in force by then. So a second refresh follows one that has just succeeded exactly under
      these conditions, and only if some event in between replaced the credential. */
  lemma StaleRetryRefreshes(s: System, i: nat, c: Credential, events: seq<Event>, j: nat, clock: Clock)
    requires i < |s.calls| && s.calls[i].Retrying? && s.m.credential == Some(c)
    requires var s1 := Step(s, RetryReadsCredential(i)).value;
             && Run(s1, events).Some? && j < |Run(s1, events).value.calls|
             && Run(s1, events).value.calls[j] == Checking(s.calls[i].op, c) && Ticks(Run(s1, events).value.now, clock)
    ensures var s2 := Run(Step(s, RetryReadsCredential(i)).value, events).value;
            var s3 := Step(s2, RetryLock(j, clock)).value;
            && (s3.queue == s2.queue + [StartRefresh(c)] <==> !s2.m.isRefreshing && !Excessive(s2.m, clock.test))
            && (s2.m.credential != Some(c) ==> exists k :: 0 <= k < |events| && Replaces(events[k], c))
  {
    var s1 := Step(s, RetryReadsCredential(i)).value;
    var s2 := Run(s1, events).value;
    hide Run, Replaces, Without;
    if s2.m.credential != Some(c) { CredentialReplaced(s1, events, c); }
    RetryDispatches(s2.m, s2.calls[j].op, c, clock);
    var b := RetryOfSection(s2.m, s2.calls[j].op, c, clock).1;
    if b.Some? {
      assert (s2.queue + [b.value])[|s2.queue|] == b.value && (s2.queue + [StartRefresh(c)])[|s2.queue|] == StartRefresh(c);
    } else {
      assert |s2.queue + [StartRefresh(c)]| != |s2.queue|;
    }
    hide RetryOfSection, Excessive;
  }

  lemma RetryDispatches(m: MutableState, op: Operation, c: Credential, clock: Clock)
    ensures RetryOfSection(m, op, c, clock).1 == Some(StartRefresh(c)) <==> !m.isRefreshing && !Excessive(m, clock.test)
  {}

  lemma RunPush(s: System, events: seq<Event>, e: Event)
    ensures Run(s, events + [e]) == var s' := Run(s, events); if s'.Some? then Step(s'.value, e) else None
  {
    assert (events + [e])[..|events|] == events;
  }

  /** Two retries read the same credential, and one has started its refresh. */
  lemma OneRefreshStarted(s0: System) returns (events: seq<Event>)
    requires s0 == Initial(Some(0), None, 0.0)
    ensures Run(s0, events)
         == Some(System(MutableState(Some(0), true, [0.0], None, [], [RetryOf(1)]), [Checking(RetryOf(0), 0)],
                        [StartRefresh(0)], 0, [], {RetryOf(0), RetryOf(1)}, 0.0))
  {
    var e1 := [] + [CallRetry(0)];
    var e2 := e1 + [CallRetry(1)];
    var e3 := e2 + [RetryReadsCredential(0)];
    var e4 := e3 + [RetryReadsCredential(0)];
    events := e4 + [RetryLock(1, Clock(0.0, 0.0))];
    RunPush(s0, [], CallRetry(0));
    assert Run(s0, e1).value.calls == [Retrying(RetryOf(0))];
    hide Run;
    RunPush(s0, e1, CallRetry(1));
    assert Run(s0, e2).value.calls == [Retrying(RetryOf(0)), Retrying(RetryOf(1))];
    RunPush(s0, e2, RetryReadsCredential(0));
    assert Run(s0, e3).value.calls == [Retrying(RetryOf(1)), Checking(RetryOf(0), 0)];
    RunPush(s0, e3, RetryReadsCredential(0));
    assert Run(s0, e4).value.calls == [Checking(RetryOf(0), 0), Checking(RetryOf(1), 0)];
    RunPush(s0, e4, RetryLock(1, Clock(0.0, 0.0)));
    var s := Run(s0, events).value;
    assert s.calls == [Checking(RetryOf(0), 0)] && s.queue == [StartRefresh(0)];
    assert s.m.requestsToRetry == [RetryOf(1)] && s.m.refreshTimestamps == [0.0];
    assert s.issued == {RetryOf(0), RetryOf(1)};
  }

  /** The refresh succeeds with credential 1, and the other retry starts a second one, of credential 0. */
  lemma RefreshedTwice() returns (events: seq<Event>)
    ensures var r := Run(Initial(Some(0), None, 0.0), events);
            && r.Some? && r.value.m.credential == Some(1) && |r.value.m.refreshTimestamps| == 2
            && StartRefresh(0) in r.value.queue
  {
    var s0 := Initial(Some(0), None, 0.0);
    hide Run;
    var e5 := OneRefreshStarted(s0);
    var e6 := e5 + [QueueRuns];
    var e7 := e6 + [RefreshAnswers(Some(1), 0)];
    events := e7 + [RetryLock(0, Clock(0.0, 0.0))];
    RunPush(s0, e5, QueueRuns);
    assert Run(s0, e6).value.queue == [] && Run(s0, e6).value.outstanding == 1;
    RunPush(s0, e6, RefreshAnswers(Some(1), 0));
    assert Run(s0, e7).value.queue == [Succeeded([], [RetryOf(1)])];
    RunPush(s0, e7, RetryLock(0, Clock(0.0, 0.0)));
    var s := Run(s0, events).value;
    assert s.queue[1] == StartRefresh(0) && s.m.refreshTimestamps == [0.0, 0.0];
  }
}
