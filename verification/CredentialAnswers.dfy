/** What each completion of AuthenticationInterceptor.swift is called with, in every run: told from a history of
    how refreshes were settled, which of them each operation waited for, and how the others were decided. */
module CredentialAnswers {
  import opened Bytes
  import opened CredentialRefresh

  // ---- The history of a run -----------------------------------------------------------------------------------

  /** How a refresh ended; one that is refused as excessive fails at once. */
  datatype Settlement = Success(c: Credential) | Failure(error: Failure)

  /** Why an operation was answered without waiting, the credential being the one in force at that moment. */
  datatype Decision = InForce(c: Option<Credential>) | Refused | NoCredential | Outdated

  /** `waited` says which settlement, counted from the first, an operation last waited for. */
  datatype History = History(settled: seq<Settlement>, waited: map<Operation, nat>, decided: map<Operation, Decision>)

  /** The operation waits for the next settlement, which an excessive refresh is itself. */
  function Wait(h: History, s: System, op: Operation, clock: Clock): History {
    History(if !s.m.isRefreshing && Excessive(s.m, clock.test) then h.settled + [Settlement.Failure(ExcessiveRefresh)] else h.settled,
            h.waited[op := |h.settled|], h.decided)
  }

  /** What is remembered of an event in state `s`. */
  function Remember(h: History, s: System, e: Event): History {
    match e
    case AdaptLock(i, requiresRefresh, clock) =>
      if i >= |s.calls| then h
      else if s.m.isRefreshing || (s.m.credential.Some? && requiresRefresh) then Wait(h, s, s.calls[i].op, clock)
      else h.(decided := h.decided[s.calls[i].op := InForce(s.m.credential)])
    case RetryLock(i, clock) => if i >= |s.calls| then h else Wait(h, s, s.calls[i].op, clock)
    case RetryRefused(i) => if i >= |s.calls| then h else h.(decided := h.decided[s.calls[i].op := Refused])
    case RetryReadsCredential(i) =>
      if i >= |s.calls| || s.m.credential.Some? then h else h.(decided := h.decided[s.calls[i].op := NoCredential])
    case RetryOutdated(i) => if i >= |s.calls| then h else h.(decided := h.decided[s.calls[i].op := Outdated])
    case RefreshAnswers(result, code) =>
      h.(settled := h.settled + [if result.Some? then Success(result.value) else Settlement.Failure(RefreshFailed(code))])
    case _ => h
  }

  function HistoryOf(s0: System, events: seq<Event>): History {
    if events == [] then History([], map[], map[])
    else
      var before := events[..|events| - 1];
      var h := HistoryOf(s0, before);
      if Run(s0, before).Some? then Remember(h, Run(s0, before).value, events[|events| - 1]) else h
  }

  // ---- The right answer -------------------------------------------------------------------------------------------

  predicate HasWaited(h: History, op: Operation) {
    op in h.waited && h.waited[op] < |h.settled|
  }

  /** A retry that waited is told to retry exactly if its refresh succeeded, and else is given that refresh's error;
      one that did not wait is answered as it was decided. */
  predicate RetryFits(h: History, op: Operation, a: Answer) {
    if op in h.decided then
      && op !in h.waited
      && match h.decided[op]
         case Refused => a == DoNotRetry
         case NoCredential => a == DoNotRetryWithError(MissingCredential)
         case Outdated => a == Retry
         case InForce(_) => false
    else
      && HasWaited(h, op)
      && match h.settled[h.waited[op]]
         case Success(_) => a == Retry
         case Failure(e) => a == DoNotRetryWithError(e)
  }

  /** An adaptation is failed with the error of the refresh it waited for; or, after any refreshes it waited for
      succeeded, answered with the credential in force when it was decided. */
  predicate AdaptFits(h: History, op: Operation, a: Answer) {
    if op in h.decided then
      && (op in h.waited ==> HasWaited(h, op) && h.settled[h.waited[op]].Success?)
      && h.decided[op].InForce?
      && a == if h.decided[op].c.Some? then Authenticated(h.decided[op].c.value) else NotAdapted(MissingCredential)
    else
      HasWaited(h, op) && h.settled[h.waited[op]].Failure? && a == NotAdapted(h.settled[h.waited[op]].error)
  }

  predicate AnswerFits(h: History, op: Operation, a: Answer) {
    if op.RetryOf? then RetryFits(h, op, a) else AdaptFits(h, op, a)
  }

  // ---- The invariant ------------------------------------------------------------------------------------------------

  predicate Undecided(h: History, op: Operation) {
    op !in h.decided
  }

  /** Waiting for the next settlement. */
  predicate Pending(h: History, op: Operation) {
    Undecided(h, op) && op in h.waited && h.waited[op] == |h.settled|
  }

  /** In the batch of the settlement it waited for. */
  predicate InBatch(h: History, op: Operation, b: Block) {
    && Undecided(h, op) && HasWaited(h, op)
    && match h.settled[h.waited[op]]
       case Success(_) => b.Succeeded?
       case Failure(e) => b.Failed? && b.error == e
  }

  predicate CallFits(h: History, c: Call) {
    match c
    case Adapting(op) => op.Adaptation? && Undecided(h, op) && (op in h.waited ==> HasWaited(h, op) && h.settled[h.waited[op]].Success?)
    case Retrying(op) => op.RetryOf? && Undecided(h, op) && op !in h.waited
    case Checking(op, _) => op.RetryOf? && Undecided(h, op) && op !in h.waited
    case Answering(op, a) => AnswerFits(h, op, a)
  }

  ghost predicate OpsPending(h: History, ops: seq<Operation>) {
    forall k | 0 <= k < |ops| :: Pending(h, ops[k])
  }

  ghost predicate OpsInBatch(h: History, ops: seq<Operation>, b: Block) {
    forall k | 0 <= k < |ops| :: InBatch(h, ops[k], b)
  }

  ghost predicate BlockFits(h: History, b: Block) {
    !b.StartRefresh? ==> OpsInBatch(h, b.adapts, b) && OpsInBatch(h, b.retries, b) && AllAdapt(b.adapts) && AllRetry(b.retries)
  }

  ghost predicate CallsFit(h: History, calls: seq<Call>) {
    forall k | 0 <= k < |calls| :: CallFits(h, calls[k])
  }

  ghost predicate QueueFits(h: History, queue: seq<Block>) {
    forall k | 0 <= k < |queue| :: BlockFits(h, queue[k])
  }

  ghost predicate CalledFits(h: History, called: seq<Called>) {
    forall k | 0 <= k < |called| :: AnswerFits(h, called[k].op, called[k].answer)
  }

  ghost predicate Known(h: History, issued: set<Operation>) {
    h.waited.Keys <= issued && h.decided.Keys <= issued
  }

  ghost predicate Fated(h: History, s: System) {
    && OpsPending(h, s.m.adaptOperations) && OpsPending(h, s.m.requestsToRetry) && StateOk(s.m)
    && CallsFit(h, s.calls) && QueueFits(h, s.queue) && CalledFits(h, s.called)
    && Known(h, s.issued)
  }

  // ---- An operation is in one place -----------------------------------------------------------------------------------

  lemma {:induction false} NotInOps(ops: seq<Operation>, op: Operation)
    requires InOps(ops, op) == 0
    ensures op !in ops
  {
    if ops != [] {
      NotInOps(ops[..|ops| - 1], op);
      assert ops == ops[..|ops| - 1] + [ops[|ops| - 1]];
    }
  }

  ghost predicate NoCallOf(calls: seq<Call>, op: Operation) {
    forall k | 0 <= k < |calls| :: calls[k].op != op
  }

  ghost predicate NotIn(b: Block, op: Operation) {
    !b.StartRefresh? ==> op !in b.adapts && op !in b.retries
  }

  ghost predicate NotQueued(queue: seq<Block>, op: Operation) {
    forall k | 0 <= k < |queue| :: NotIn(queue[k], op)
  }

  ghost predicate NotCalled(called: seq<Called>, op: Operation) {
    forall k | 0 <= k < |called| :: called[k].op != op
  }

  lemma {:induction false} NotInCalls(calls: seq<Call>, op: Operation)
    requires InCalls(calls, op) == 0
    ensures NoCallOf(calls, op)
  {
    if calls != [] { NotInCalls(calls[..|calls| - 1], op); }
  }

  lemma {:induction false} NotInQueue(queue: seq<Block>, op: Operation)
    requires InQueue(queue, op) == 0
    ensures NotQueued(queue, op)
  {
    if queue != [] {
      var b := queue[|queue| - 1];
      NotInQueue(queue[..|queue| - 1], op);
      if !b.StartRefresh? {
        NotInOps(b.adapts, op);
        NotInOps(b.retries, op);
      }
    }
  }

  lemma {:induction false} NotInCalled(called: seq<Called>, op: Operation)
    requires InCalled(called, op) == 0
    ensures NotCalled(called, op)
  {
    if called != [] { NotInCalled(called[..|called| - 1], op); }
  }

  /** The operation of a call is nowhere else. */
  lemma Elsewhere(s: System, i: nat)
    requires Conserved(s) && i < |s.calls|
    ensures var op := s.calls[i].op;
            && NoCallOf(Without(s.calls, i), op) && NotQueued(s.queue, op) && NotCalled(s.called, op)
            && op !in s.m.adaptOperations && op !in s.m.requestsToRetry && op in s.issued
  {
    var op := s.calls[i].op;
    assert Places(s, op) == if op in s.issued then 1 else 0;
    InCallsWithout(s.calls, i, op);
    hide InCalls, InQueue, InOps, InCalled, Without, NoCallOf, NotQueued, NotCalled;
    NotInCalls(Without(s.calls, i), op);
    NotInQueue(s.queue, op);
    NotInCalled(s.called, op);
    NotInOps(s.m.adaptOperations, op);
    NotInOps(s.m.requestsToRetry, op);
  }

  // ---- Histories that differ in one operation ---------------------------------------------------------------------------

  /** `now` continues `h`: settlements are only added, and nothing is changed about operations outside `xs`. */
  ghost predicate Continues(h: History, now: History, xs: set<Operation>) {
    && h.settled <= now.settled
    && (forall op | op !in xs :: SameFor(h, now, op))
  }

  ghost predicate SameFor(h: History, now: History, op: Operation) {
    && (op in h.waited <==> op in now.waited) && (op in h.waited ==> h.waited[op] == now.waited[op])
    && (op in h.decided <==> op in now.decided) && (op in h.decided ==> h.decided[op] == now.decided[op])
  }

  lemma AnswerStays(h: History, now: History, xs: set<Operation>, op: Operation, a: Answer)
    requires Continues(h, now, xs) && op !in xs && AnswerFits(h, op, a)
    ensures AnswerFits(now, op, a)
  {
    assert SameFor(h, now, op);
  }

  lemma CallStays(h: History, now: History, xs: set<Operation>, c: Call)
    requires Continues(h, now, xs) && c.op !in xs && CallFits(h, c)
    ensures CallFits(now, c)
  {
    assert SameFor(h, now, c.op);
    if c.Answering? { AnswerStays(h, now, xs, c.op, c.answer); }
    hide AnswerFits;
  }

  lemma BatchStays(h: History, now: History, xs: set<Operation>, ops: seq<Operation>, b: Block)
    requires Continues(h, now, xs) && OpsInBatch(h, ops, b) && forall k | 0 <= k < |ops| :: ops[k] !in xs
    ensures OpsInBatch(now, ops, b)
  {
    forall k | 0 <= k < |ops| ensures InBatch(now, ops[k], b) {
      assert InBatch(h, ops[k], b);
      assert SameFor(h, now, ops[k]);
    }
  }

  lemma PendingStays(h: History, now: History, xs: set<Operation>, ops: seq<Operation>)
    requires Continues(h, now, xs) && now.settled == h.settled && OpsPending(h, ops) && forall k | 0 <= k < |ops| :: ops[k] !in xs
    ensures OpsPending(now, ops)
  {
    forall k | 0 <= k < |ops| ensures Pending(now, ops[k]) {
      assert Pending(h, ops[k]);
      assert SameFor(h, now, ops[k]);
    }
  }

  /** Everything but the operations in `xs` still fits. */
  lemma RestStays(h: History, now: History, xs: set<Operation>, calls: seq<Call>, queue: seq<Block>, called: seq<Called>)
    requires Continues(h, now, xs) && CallsFit(h, calls) && QueueFits(h, queue) && CalledFits(h, called)
    requires forall op | op in xs :: NoCallOf(calls, op) && NotQueued(queue, op) && NotCalled(called, op)
    ensures CallsFit(now, calls) && QueueFits(now, queue) && CalledFits(now, called)
  {
    forall k | 0 <= k < |calls| ensures CallFits(now, calls[k]) {
      assert CallFits(h, calls[k]);
      CallStays(h, now, xs, calls[k]);
    }
    forall k | 0 <= k < |called| ensures AnswerFits(now, called[k].op, called[k].answer) {
      AnswerStays(h, now, xs, called[k].op, called[k].answer);
    }
    forall k | 0 <= k < |queue| ensures BlockFits(now, queue[k]) {
      assert BlockFits(h, queue[k]);
      BlockStays(h, now, xs, queue[k], k, queue);
    }
    hide CallFits, AnswerFits, BlockFits, Continues;
  }

  lemma BlockStays(h: History, now: History, xs: set<Operation>, b: Block, k: nat, queue: seq<Block>)
    requires Continues(h, now, xs) && BlockFits(h, b) && k < |queue| && queue[k] == b
    requires forall op | op in xs :: NotQueued(queue, op)
    ensures BlockFits(now, b)
  {
    if !b.StartRefresh? {
      forall op | op in xs ensures op !in b.adapts && op !in b.retries { assert NotIn(queue[k], op); }
      BatchStays(h, now, xs, b.adapts, b);
      BatchStays(h, now, xs, b.retries, b);
    }
    hide Continues, OpsInBatch, AllAdapt, AllRetry;
  }

  lemma CallsWithoutFit(h: History, calls: seq<Call>, i: nat)
    requires CallsFit(h, calls) && i < |calls|
    ensures CallFits(h, calls[i]) && CallsFit(h, Without(calls, i))
  {
    hide CallFits;
  }

  lemma CallsPushFit(h: History, calls: seq<Call>, c: Call)
    requires CallsFit(h, calls) && CallFits(h, c)
    ensures CallsFit(h, calls + [c])
  {
    hide CallFits;
  }

  lemma QueuePushFit(h: History, queue: seq<Block>, b: Option<Block>)
    requires QueueFits(h, queue) && (b.Some? ==> BlockFits(h, b.value))
    ensures QueueFits(h, Enqueue(queue, b))
  {
    hide BlockFits;
  }

  // ---- Steps -----------------------------------------------------------------------------------------------------------

  /** A call that is answered without waiting: the decision is remembered and the answer is that of the decision. */
  lemma DecidedFits(h: History, s: System, i: nat, d: Decision, a: Answer)
    requires Fated(h, s) && Conserved(s) && i < |s.calls|
    requires s.calls[i].op.RetryOf? ==> (s.calls[i].Retrying? || s.calls[i].Checking?)
    requires s.calls[i].op.Adaptation? ==> s.calls[i].Adapting?
    requires var now := h.(decided := h.decided[s.calls[i].op := d]);
             CallFits(h, s.calls[i]) ==> AnswerFits(now, s.calls[i].op, a)
    ensures Fated(h.(decided := h.decided[s.calls[i].op := d]), Move(s, i, Answering(s.calls[i].op, a)))
  {
    var op := s.calls[i].op;
    var now := h.(decided := h.decided[op := d]);
    Elsewhere(s, i);
    CallsWithoutFit(h, s.calls, i);
    assert Continues(h, now, {op});
    hide AnswerFits, CallFits, Continues, Without, OpsPending, QueueFits, CalledFits, NoCallOf, NotQueued, NotCalled, CallsFit;
    RestStays(h, now, {op}, Without(s.calls, i), s.queue, s.called);
    PendingStays(h, now, {op}, s.m.adaptOperations);
    PendingStays(h, now, {op}, s.m.requestsToRetry);
    AnswerIsCall(now, op, a);
    CallsPushFit(now, Without(s.calls, i), Answering(op, a));
  }

  lemma AnswerIsCall(h: History, op: Operation, a: Answer)
    requires AnswerFits(h, op, a)
    ensures CallFits(h, Answering(op, a))
  {}

  /** A call whose operation starts to wait: everything else stays as it was. */
  lemma WaitingRest(h: History, s: System, i: nat, clock: Clock)
    requires Fated(h, s) && Conserved(s) && i < |s.calls|
    ensures var now := Wait(h, s, s.calls[i].op, clock);
            && CallsFit(now, Without(s.calls, i)) && QueueFits(now, s.queue) && CalledFits(now, s.called)
            && Known(now, s.issued)
            && (now.settled == h.settled ==> OpsPending(now, s.m.adaptOperations) && OpsPending(now, s.m.requestsToRetry))
  {
    var op := s.calls[i].op;
    var now := Wait(h, s, op, clock);
    Elsewhere(s, i);
    CallsWithoutFit(h, s.calls, i);
    assert Continues(h, now, {op});
    hide Continues, Without, OpsPending, QueueFits, CalledFits, NoCallOf, NotQueued, NotCalled, CallsFit, Excessive;
    RestStays(h, now, {op}, Without(s.calls, i), s.queue, s.called);
    if now.settled == h.settled {
      PendingStays(h, now, {op}, s.m.adaptOperations);
      PendingStays(h, now, {op}, s.m.requestsToRetry);
    }
  }

  lemma PendingPush(h: History, ops: seq<Operation>, op: Operation)
    requires OpsPending(h, ops) && Pending(h, op)
    ensures OpsPending(h, ops + [op])
  {
    hide Pending;
  }

  lemma StateOkPush(m: MutableState, op: Operation)
    requires StateOk(m)
    ensures op.Adaptation? ==> StateOk(m.(adaptOperations := m.adaptOperations + [op]))
    ensures op.RetryOf? ==> StateOk(m.(requestsToRetry := m.requestsToRetry + [op]))
  {}

  lemma AdaptFate(h: History, s: System, i: nat, requiresRefresh: bool, clock: Clock)
    requires Fated(h, s) && Conserved(s) && QueuesHold(s.m) && i < |s.calls| && s.calls[i].Adapting?
    requires s.m.isRefreshing || (s.m.credential.Some? && requiresRefresh)
    ensures Fated(Wait(h, s, s.calls[i].op, clock), AfterAdapt(s, i, requiresRefresh, clock))
  {
    var op := s.calls[i].op;
    var now := Wait(h, s, op, clock);
    WaitingRest(h, s, i, clock);
    CallsWithoutFit(h, s.calls, i);
    StateOkPush(s.m, op);
    var b := AdaptOf(s.m, op, requiresRefresh, clock).2;
    if now.settled == h.settled {
      assert Pending(now, op);
      PendingPush(now, s.m.adaptOperations, op);
    } else {
      assert s.m.adaptOperations + [op] == [op];
      assert b == Some(Failed(ExcessiveRefresh, [op], []));
      assert InBatch(now, op, b.value);
    }
    assert b.Some? ==> BlockFits(now, b.value);
    QueuePushFit(now, s.queue, b);
    hide CallsFit, QueueFits, CalledFits, Without, Enqueue, Excessive, CallFits;
  }

  lemma RetryFate(h: History, s: System, i: nat, clock: Clock)
    requires Fated(h, s) && Conserved(s) && QueuesHold(s.m) && i < |s.calls| && s.calls[i].Checking?
    ensures Fated(Wait(h, s, s.calls[i].op, clock), AfterRetry(s, i, clock))
  {
    var op := s.calls[i].op;
    var now := Wait(h, s, op, clock);
    WaitingRest(h, s, i, clock);
    CallsWithoutFit(h, s.calls, i);
    StateOkPush(s.m, op);
    var b := RetryOfSection(s.m, op, s.calls[i].credential, clock).1;
    if now.settled == h.settled {
      assert Pending(now, op);
      PendingPush(now, s.m.requestsToRetry, op);
    } else {
      assert s.m.requestsToRetry + [op] == [op];
      assert b == Some(Failed(ExcessiveRefresh, [], [op]));
      assert InBatch(now, op, b.value);
    }
    assert b.Some? ==> BlockFits(now, b.value);
    QueuePushFit(now, s.queue, b);
    hide CallsFit, QueueFits, CalledFits, Without, Enqueue, Excessive, CallFits;
  }

  /** Everything that waits is in the batch of the settlement. */
  lemma PendingSettles(h: History, ops: seq<Operation>, x: Settlement, b: Block)
    requires OpsPending(h, ops)
    requires match x case Success(_) => b.Succeeded? case Failure(e) => b.Failed? && b.error == e
    ensures OpsInBatch(h.(settled := h.settled + [x]), ops, b)
  {
    forall k | 0 <= k < |ops| ensures InBatch(h.(settled := h.settled + [x]), ops[k], b) { assert Pending(h, ops[k]); }
  }

  lemma AnswerFate(h: History, s: System, result: Option<Credential>, code: nat)
    requires Fated(h, s) && s.outstanding > 0
    ensures Fated(Remember(h, s, RefreshAnswers(result, code)), Step(s, RefreshAnswers(result, code)).value)
  {
    var x := if result.Some? then Success(result.value) else Settlement.Failure(RefreshFailed(code));
    var now := h.(settled := h.settled + [x]);
    var b := if result.Some? then Succeeded(s.m.adaptOperations, s.m.requestsToRetry)
             else Failed(RefreshFailed(code), s.m.adaptOperations, s.m.requestsToRetry);
    assert Continues(h, now, {});
    RestStays(h, now, {}, s.calls, s.queue, s.called);
    PendingSettles(h, s.m.adaptOperations, x, b);
    PendingSettles(h, s.m.requestsToRetry, x, b);
    assert BlockFits(now, b);
    QueuePushFit(now, s.queue, Some(b));
    hide CallsFit, QueueFits, CalledFits, OpsInBatch, Continues;
  }

  /** The head of the queue hands over one closure. */
  lemma HandOverFate(h: History, s: System, b: Block, call: Call)
    requires Fated(h, s) && s.queue != [] && BlockFits(h, b) && CallFits(h, call)
    ensures Fated(h, s.(queue := [b] + s.queue[1..], calls := s.calls + [call]))
  {
    CallsPushFit(h, s.calls, call);
    hide BlockFits, CallFits, AnswerFits, OpsPending;
  }

  lemma BatchTail(h: History, b: Block, c: Block)
    requires BlockFits(h, b) && !b.StartRefresh? && !c.StartRefresh?
    requires b.Succeeded? == c.Succeeded? && (b.Failed? ==> c.error == b.error)
    requires (c.adapts == b.adapts || (b.adapts != [] && c.adapts == b.adapts[1..]))
    requires (c.retries == b.retries || (b.retries != [] && c.retries == b.retries[1..]))
    ensures BlockFits(h, c)
  {
    forall k | 0 <= k < |c.adapts| ensures InBatch(h, c.adapts[k], c) && c.adapts[k].Adaptation? {
      var j := if c.adapts == b.adapts then k else k + 1;
      assert InBatch(h, b.adapts[j], b);
    }
    forall k | 0 <= k < |c.retries| ensures InBatch(h, c.retries[k], c) && c.retries[k].RetryOf? {
      var j := if c.retries == b.retries then k else k + 1;
      assert InBatch(h, b.retries[j], b);
    }
  }

  /** What the closures of a batch do. */
  lemma ClosuresFit(h: History, b: Block)
    requires BlockFits(h, b)
    ensures b.Succeeded? && b.adapts != [] ==> CallFits(h, Adapting(b.adapts[0]))
    ensures b.Succeeded? && b.retries != [] ==> CallFits(h, Answering(b.retries[0], Retry))
    ensures b.Failed? && b.adapts != [] ==> CallFits(h, Answering(b.adapts[0], NotAdapted(b.error)))
    ensures b.Failed? && b.retries != [] ==> CallFits(h, Answering(b.retries[0], DoNotRetryWithError(b.error)))
  {
    if !b.StartRefresh? && b.adapts != [] { assert InBatch(h, b.adapts[0], b); }
    if !b.StartRefresh? && b.retries != [] { assert InBatch(h, b.retries[0], b); }
  }

  lemma QueueFate(h: History, s: System)
    requires Fated(h, s) && s.queue != []
    ensures Fated(h, RunHead(s))
  {
    var b := s.queue[0];
    assert BlockFits(h, b);
    assert QueueFits(h, s.queue[1..]);
    ClosuresFit(h, b);
    hide BlockFits, CallFits, CallsFit, CalledFits, OpsPending;
    match b
    case StartRefresh(_) =>
    case Succeeded(adapts, retries) =>
      if adapts != [] {
        BatchTail(h, b, Succeeded(adapts[1..], retries));
        HandOverFate(h, s, Succeeded(adapts[1..], retries), Adapting(adapts[0]));
      } else if retries != [] {
        BatchTail(h, b, Succeeded([], retries[1..]));
        HandOverFate(h, s, Succeeded([], retries[1..]), Answering(retries[0], Retry));
      }
    case Failed(e, adapts, retries) =>
      if adapts != [] {
        BatchTail(h, b, Failed(e, adapts[1..], retries));
        HandOverFate(h, s, Failed(e, adapts[1..], retries), Answering(adapts[0], NotAdapted(e)));
      } else if retries != [] {
        BatchTail(h, b, Failed(e, [], retries[1..]));
        HandOverFate(h, s, Failed(e, [], retries[1..]), Answering(retries[0], DoNotRetryWithError(e)));
      }
  }

  lemma NewCallFate(h: History, s: System, op: Operation, c: Call)
    requires Fated(h, s) && op !in s.issued
    requires c == if op.Adaptation? then Adapting(op) else Retrying(op)
    ensures Fated(h, s.(issued := s.issued + {op}, calls := s.calls + [c]))
  {
    assert CallFits(h, c);
    CallsPushFit(h, s.calls, c);
    hide CallFits, CallsFit, QueueFits, CalledFits, OpsPending;
  }

  lemma ReadFate(h: History, s: System, i: nat)
    requires Fated(h, s) && i < |s.calls| && s.calls[i].Retrying? && s.m.credential.Some?
    ensures Fated(h, Move(s, i, Checking(s.calls[i].op, s.m.credential.value)))
  {
    CallsWithoutFit(h, s.calls, i);
    var c := Checking(s.calls[i].op, s.m.credential.value);
    assert CallFits(h, c);
    CallsPushFit(h, Without(s.calls, i), c);
    hide CallFits, CallsFit, QueueFits, CalledFits, OpsPending, Without;
  }

  lemma CompletionFate(h: History, s: System, i: nat)
    requires Fated(h, s) && i < |s.calls| && s.calls[i].Answering?
    ensures Fated(h, Step(s, CallsCompletion(i)).value)
  {
    CallsWithoutFit(h, s.calls, i);
    assert AnswerFits(h, s.calls[i].op, s.calls[i].answer);
    hide CallFits, CallsFit, QueueFits, AnswerFits, OpsPending, Without;
  }

  lemma StepFate(h: History, s: System, e: Event)
    requires Fated(h, s) && Conserved(s) && QueuesHold(s.m) && Step(s, e).Some?
    ensures Fated(Remember(h, s, e), Step(s, e).value)
  {
    hide Fated, Conserved, QueuesHold, Move, RunHead, Excessive, Without, AfterRetry, Wait, Ticks;
    match e
    case CallAdapt(id) => NewCallFate(h, s, Adaptation(id), Adapting(Adaptation(id)));
    case CallRetry(id) => NewCallFate(h, s, RetryOf(id), Retrying(RetryOf(id)));
    case AdaptLock(i, requiresRefresh, clock) =>
      if s.m.isRefreshing || (s.m.credential.Some? && requiresRefresh) {
        AdaptFate(h, s, i, requiresRefresh, clock);
      } else {
        AdaptDecides(h, s, i, requiresRefresh, clock);
      }
    case RetryRefused(i) => RetryDecides(h, s, i, Refused, DoNotRetry);
    case RetryReadsCredential(i) =>
      if s.m.credential.Some? { ReadFate(h, s, i); }
      else { RetryDecides(h, s, i, NoCredential, DoNotRetryWithError(MissingCredential)); }
    case RetryOutdated(i) => RetryDecides(h, s, i, Outdated, Retry);
    case RetryLock(i, clock) => RetryFate(h, s, i, clock);
    case CallsCompletion(i) => CompletionFate(h, s, i);
    case QueueRuns => QueueFate(h, s);
    case RefreshAnswers(result, code) => AnswerFate(h, s, result, code);
    case SetCredential(c) => CredentialFate(h, s, c);
  }

  lemma CredentialFate(h: History, s: System, c: Option<Credential>)
    requires Fated(h, s)
    ensures Fated(h, s.(m := s.m.(credential := c)))
  {
    hide CallsFit, QueueFits, CalledFits, OpsPending;
  }

  lemma RetryDecides(h: History, s: System, i: nat, d: Decision, a: Answer)
    requires Fated(h, s) && Conserved(s) && i < |s.calls| && (s.calls[i].Retrying? || s.calls[i].Checking?)
    requires (d == Refused && a == DoNotRetry) || (d == NoCredential && a == DoNotRetryWithError(MissingCredential))
          || (d == Outdated && a == Retry)
    ensures Fated(h.(decided := h.decided[s.calls[i].op := d]), Move(s, i, Answering(s.calls[i].op, a)))
  {
    CallsWithoutFit(h, s.calls, i);
    DecidedFits(h, s, i, d, a);
    hide Fated, Conserved, Move;
  }

  lemma AdaptDecides(h: History, s: System, i: nat, requiresRefresh: bool, clock: Clock)
    requires Fated(h, s) && Conserved(s) && i < |s.calls| && s.calls[i].Adapting?
    requires !s.m.isRefreshing && !(s.m.credential.Some? && requiresRefresh)
    ensures Fated(h.(decided := h.decided[s.calls[i].op := InForce(s.m.credential)]), AfterAdapt(s, i, requiresRefresh, clock))
  {
    CallsWithoutFit(h, s.calls, i);
    var a := if s.m.credential.Some? then Authenticated(s.m.credential.value) else NotAdapted(MissingCredential);
    DecidedFits(h, s, i, InForce(s.m.credential), a);
    ClockOnly(h.(decided := h.decided[s.calls[i].op := InForce(s.m.credential)]), Move(s, i, Answering(s.calls[i].op, a)), clock.record);
    hide Fated, Conserved, Without;
  }

  lemma ClockOnly(h: History, s: System, now: real)
    requires Fated(h, s)
    ensures Fated(h, s.(now := now))
  {
    hide CallsFit, QueueFits, CalledFits, OpsPending;
  }

  // ---- Every run --------------------------------------------------------------------------------------------------------

  lemma InitialFate(c: Option<Credential>, w: Option<RefreshWindow>, now: real)
    ensures Fated(History([], map[], map[]), Initial(c, w, now))
  {}

  lemma {:induction false} RunFate(c: Option<Credential>, w: Option<RefreshWindow>, now: real, events: seq<Event>)
    requires Run(Initial(c, w, now), events).Some?
    ensures Fated(HistoryOf(Initial(c, w, now), events), Run(Initial(c, w, now), events).value)
    decreases |events|
  {
    hide Step, Fated, Conserved, QueuesHold, Remember, Sorted, OneRefresh;
    var s0 := Initial(c, w, now);
    if events == [] {
      InitialFate(c, w, now);
    } else {
      var before, e := events[..|events| - 1], events[|events| - 1];
      RunFate(c, w, now, before);
      EveryRunConserves(c, w, now, before);
      EveryRunKeepsQueues(c, w, now, before);
      StepFate(HistoryOf(s0, before), Run(s0, before).value, e);
    }
  }

  /** In every run, whatever completion is called is called with the right answer. */
  lemma EveryRunAnswers(c: Option<Credential>, w: Option<RefreshWindow>, now: real, events: seq<Event>, k: nat)
    requires Run(Initial(c, w, now), events).Some? && k < |Run(Initial(c, w, now), events).value.called|
    ensures var x := Run(Initial(c, w, now), events).value.called[k];
            AnswerFits(HistoryOf(Initial(c, w, now), events), x.op, x.answer)
  {
    RunFate(c, w, now, events);
    hide Run, HistoryOf, AnswerFits;
  }

  /** A retry that waited for a refresh is told to retry exactly when that refresh succeeded, and else is given
      its error. */
  lemma WaitingRetryAnswered(c: Option<Credential>, w: Option<RefreshWindow>, now: real, events: seq<Event>, k: nat)
    requires Run(Initial(c, w, now), events).Some? && k < |Run(Initial(c, w, now), events).value.called|
    ensures var x, h := Run(Initial(c, w, now), events).value.called[k], HistoryOf(Initial(c, w, now), events);
            x.op.RetryOf? && x.op in h.waited ==>
              (&& h.waited[x.op] < |h.settled|
               && (x.answer == Retry <==> h.settled[h.waited[x.op]].Success?)
               && (forall e :: x.answer == DoNotRetryWithError(e) <==> h.settled[h.waited[x.op]] == Settlement.Failure(e)))
  {
    EveryRunAnswers(c, w, now, events, k);
    hide Run, HistoryOf;
  }

  // ---- When a refresh is refused ------------------------------------------------------------------------------------------

  ghost predicate NoneAfter(timestamps: seq<real>, now: real) {
    forall k | 0 <= k < |timestamps| :: timestamps[k] <= now
  }

  lemma StampsStay(s: System, e: Event)
    requires NoneAfter(s.m.refreshTimestamps, s.now) && Step(s, e).Some?
    ensures NoneAfter(Step(s, e).value.m.refreshTimestamps, Step(s, e).value.now)
  {
    hide Excessive, Without;
  }

  lemma {:induction false} RunStamps(s: System, events: seq<Event>)
    requires NoneAfter(s.m.refreshTimestamps, s.now) && Run(s, events).Some?
    ensures NoneAfter(Run(s, events).value.m.refreshTimestamps, Run(s, events).value.now)
  {
    hide Step, NoneAfter;
    if events != [] {
      RunStamps(s, events[..|events| - 1]);
      StampsStay(Run(s, events[..|events| - 1]).value, events[|events| - 1]);
    }
  }

  lemma {:induction false} SinceIsWithin(timestamps: seq<real>, from: real, now: real)
    requires NoneAfter(timestamps, now)
    ensures AttemptsSince(timestamps, from) == StartedWithin(timestamps, from, now)
  {
    if timestamps != [] { SinceIsWithin(timestamps[..|timestamps| - 1], from, now); }
  }

  lemma InitialStamps(c: Option<Credential>, w: Option<RefreshWindow>, now: real)
    ensures NoneAfter(Initial(c, w, now).m.refreshTimestamps, now)
  {}

  lemma StampsBefore(timestamps: seq<real>, now: real, later: real)
    requires NoneAfter(timestamps, now) && now <= later
    ensures NoneAfter(timestamps, later)
  {}

  /** In every run a refresh is refused if and only if the window that ends at the test already holds
      `maximumAttempts` started refreshes; without a window none is. */
  lemma RefusedIffFull(c: Option<Credential>, w: Option<RefreshWindow>, now: real, events: seq<Event>, credential: Credential, clock: Clock)
    requires Run(Initial(c, w, now), events).Some? && Ticks(Run(Initial(c, w, now), events).value.now, clock)
    ensures var m := Run(Initial(c, w, now), events).value.m;
            (RefreshOf(m, credential, clock).1 != StartRefresh(credential) <==>
              m.refreshWindow.Some? &&
              StartedWithin(m.refreshTimestamps, clock.test - m.refreshWindow.value.interval, clock.test)
                >= m.refreshWindow.value.maximumAttempts)
  {
    hide Run, StartedWithin, AttemptsSince, NoneAfter;
    InitialStamps(c, w, now);
    RunStamps(Initial(c, w, now), events);
    var m := Run(Initial(c, w, now), events).value.m;
    if m.refreshWindow.Some? {
      StampsBefore(m.refreshTimestamps, Run(Initial(c, w, now), events).value.now, clock.test);
      SinceIsWithin(m.refreshTimestamps, clock.test - m.refreshWindow.value.interval, clock.test);
    }
  }

  // ---- Starts and what is recorded of them ------------------------------------------------------------------------------

  /** The event hands a refresh to the queue. */
  predicate StartsRefresh(s: System, e: Event) {
    && (e.AdaptLock? || e.RetryLock?) && Step(s, e).Some?
    && |Step(s, e).value.queue| == |s.queue| + 1 && Step(s, e).value.queue[|s.queue|].StartRefresh?
  }

  /** When the refreshes of a run were started. */
  function StartTimes(s0: System, events: seq<Event>): seq<real> {
    if events == [] then []
    else
      var before, e := events[..|events| - 1], events[|events| - 1];
      StartTimes(s0, before)
      + if Run(s0, before).Some? && StartsRefresh(Run(s0, before).value, e) then [e.clock.record] else []
  }

  lemma StepRecords(s: System, e: Event)
    requires Step(s, e).Some?
    ensures Step(s, e).value.m.refreshTimestamps
         == s.m.refreshTimestamps + if StartsRefresh(s, e) then [e.clock.record] else []
  {
    hide Excessive, Without, Ticks;
  }

  lemma {:induction false} StartsAreRecorded(s0: System, events: seq<Event>)
    requires s0.m.refreshTimestamps == [] && Run(s0, events).Some?
    ensures Run(s0, events).value.m.refreshTimestamps == StartTimes(s0, events)
  {
    hide Step, StartsRefresh;
    if events != [] {
      StartsAreRecorded(s0, events[..|events| - 1]);
      StepRecords(Run(s0, events[..|events| - 1]).value, events[|events| - 1]);
    }
  }

  /** In every run any time window of the configured length holds at most `maximumAttempts` refreshes handed to
      the queue. */
  lemma StartsAreBounded(c: Option<Credential>, w: RefreshWindow, now: real, events: seq<Event>, from: real)
    requires Run(Initial(c, Some(w), now), events).Some? && w.maximumAttempts >= 0
    ensures StartedWithin(StartTimes(Initial(c, Some(w), now), events), from, from + w.interval) <= w.maximumAttempts
  {
    StartsAreRecorded(Initial(c, Some(w), now), events);
    EveryRunBoundsRate(c, w, now, events, from);
    hide Run, StartTimes, StartedWithin;
  }

  // ---- The order of a batch -----------------------------------------------------------------------------------------------

  /** The queue alone runs for `n` steps. */
  function RunTimes(s: System, n: nat): System
    decreases n
  {
    if n == 0 || s.queue == [] then s else RunTimes(RunHead(s), n - 1)
  }

  function Repeated(ops: seq<Operation>): seq<Call> {
    seq(|ops|, k requires 0 <= k < |ops| => Adapting(ops[k]))
  }

  function Answered(ops: seq<Operation>, a: Answer): seq<Call> {
    seq(|ops|, k requires 0 <= k < |ops| => Answering(ops[k], a))
  }

  lemma RepeatedFront(ops: seq<Operation>)
    requires ops != []
    ensures Repeated(ops) == [Adapting(ops[0])] + Repeated(ops[1..])
  {}

  lemma AnsweredFront(ops: seq<Operation>, a: Answer)
    requires ops != []
    ensures Answered(ops, a) == [Answering(ops[0], a)] + Answered(ops[1..], a)
  {}

  lemma NoOperations(a: Answer)
    ensures Repeated([]) == [] && Answered([], a) == []
  {}

  /** What a batch comes to: after a success the waiting adaptations are repeated and then the waiting retries told
      to retry, after a failure all are given its error; each in the order in which they began to wait. */
  function BatchCalls(b: Block): seq<Call> {
    match b
    case StartRefresh(_) => []
    case Succeeded(adapts, retries) => Repeated(adapts) + Answered(retries, Retry)
    case Failed(e, adapts, retries) => Answered(adapts, NotAdapted(e)) + Answered(retries, DoNotRetryWithError(e))
  }

  /** The batch without its first closure. */
  function Next(b: Block): Block
    requires !b.StartRefresh?
  {
    if b.adapts != [] then b.(adapts := b.adapts[1..])
    else if b.retries != [] then b.(retries := b.retries[1..])
    else b
  }

  lemma BatchCallsFront(b: Block)
    requires !b.StartRefresh? && (b.adapts != [] || b.retries != [])
    ensures BatchCalls(b) != [] && BatchCalls(b) == [BatchCalls(b)[0]] + BatchCalls(Next(b))
    ensures BatchCalls(b)[0] ==
            if b.adapts != [] then (if b.Succeeded? then Adapting(b.adapts[0]) else Answering(b.adapts[0], NotAdapted(b.error)))
            else Answering(b.retries[0], if b.Succeeded? then Retry else DoNotRetryWithError(b.error))
  {
    hide Repeated, Answered;
    NoOperations(Retry);
    if b.Succeeded? {
      if b.adapts != [] { RepeatedFront(b.adapts); } else { AnsweredFront(b.retries, Retry); }
    } else {
      NoOperations(NotAdapted(b.error));
      if b.adapts != [] { AnsweredFront(b.adapts, NotAdapted(b.error)); }
      else { AnsweredFront(b.retries, DoNotRetryWithError(b.error)); }
    }
  }

  lemma HeadRuns(s: System, b: Block, rest: seq<Block>)
    requires s.queue == [b] + rest && !b.StartRefresh? && (b.adapts != [] || b.retries != [])
    ensures BatchCalls(b) != []
    ensures RunHead(s) == s.(queue := [Next(b)] + rest, calls := s.calls + [BatchCalls(b)[0]])
  {
    BatchCallsFront(b);
    assert s.queue[0] == b && s.queue[1..] == rest;
    hide BatchCalls;
  }

  /** The queue alone runs a batch in that order. */
  lemma {:induction false} BatchRunsInOrder(s: System, b: Block, rest: seq<Block>)
    requires s.queue == [b] + rest && !b.StartRefresh?
    ensures RunTimes(s, |b.adapts| + |b.retries|).calls == s.calls + BatchCalls(b)
    decreases |b.adapts| + |b.retries|
  {
    hide BatchCalls, RunHead;
    if b.adapts != [] || b.retries != [] {
      HeadRuns(s, b, rest);
      BatchCallsFront(b);
      BatchRunsInOrder(RunHead(s), Next(b), rest);
      assert s.calls + [BatchCalls(b)[0]] + BatchCalls(Next(b)) == s.calls + BatchCalls(b);
    } else {
      NothingLeft(b);
    }
  }

  lemma NothingLeft(b: Block)
    requires !b.StartRefresh? && b.adapts == [] && b.retries == []
    ensures BatchCalls(b) == []
  {}
}
