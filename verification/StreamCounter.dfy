/** The outstanding-stream counter of DataStreamRequest: parser runs, completions that wait for them,
    and when they are released. */
module StreamCounter {
  import opened Bytes

  /** One parser's share of one piece of received data. */
  datatype Piece = Piece(stream: nat, data: nat)

  datatype StreamState = StreamState(streams: seq<nat>, numberOfExecutingStreams: int, enqueuedCompletionEvents: seq<nat>)

  function PiecesOf(streams: seq<nat>, data: nat): (p: seq<Piece>)
    ensures |p| == |streams|
  {
    seq(|streams|, i requires 0 <= i < |streams| => Piece(streams[i], data))
  }

  // ---- Lock sections as functions --------------------------------------------------------------------------

  function ReceiveOf(m: StreamState): StreamState {
    m.(numberOfExecutingStreams := m.numberOfExecutingStreams + |m.streams|)
  }

  /** The completion's section: the state and what is dispatched at once. */
  function CompletionOf(m: StreamState, id: nat): (StreamState, seq<nat>) {
    if m.numberOfExecutingStreams == 0 then (m, [id])
    else (m.(enqueuedCompletionEvents := m.enqueuedCompletionEvents + [id]), [])
  }

  /** `updateAndCompleteIfPossible`: the state and the completions handed to the queue. */
  function UpdateOf(m: StreamState): (StreamState, seq<nat>) {
    var n := m.numberOfExecutingStreams - 1;
    if n != 0 || m.enqueuedCompletionEvents == [] then (m.(numberOfExecutingStreams := n), [])
    else (m.(numberOfExecutingStreams := n, enqueuedCompletionEvents := []), m.enqueuedCompletionEvents)
  }

  class DataStreamRequest {
    var streams: seq<nat>
    var numberOfExecutingStreams: int
    var enqueuedCompletionEvents: seq<nat>

    function State(): StreamState
      reads this
    {
      StreamState(streams, numberOfExecutingStreams, enqueuedCompletionEvents)
    }

    /** Completions wait only while some parser run is outstanding. */
    ghost predicate Valid()
      reads this
    {
      && numberOfExecutingStreams >= 0
      && (enqueuedCompletionEvents != [] ==> numberOfExecutingStreams > 0)
    }

    constructor ()
      ensures Valid() && State() == StreamState([], 0, [])
    {
      streams, numberOfExecutingStreams, enqueuedCompletionEvents := [], 0, [];
    }

    /** The first half of `responseStream`. */
    method AppendStream(stream: nat)
      requires Valid()
      modifies this
      ensures Valid()
      ensures State() == old(State()).(streams := old(streams) + [stream])
    {
      streams := streams + [stream];
    }

    /** `didReceive`. The block it hands to the underlying queue holds this piece of data once for every stream
        registered at this moment, and the counter grows by exactly the runs the block will start. */
    method DidReceive(data: nat) returns (block: seq<Piece>)
      requires Valid()
      modifies this
      ensures Valid()
      ensures State() == ReceiveOf(old(State())) && block == PiecesOf(old(streams), data)
      ensures |block| == |streams| && forall k | 0 <= k < |streams| :: block[k] == Piece(streams[k], data)
      ensures numberOfExecutingStreams - |block| == old(numberOfExecutingStreams)
    {
      numberOfExecutingStreams := numberOfExecutingStreams + |streams|;
      block := PiecesOf(streams, data);
    }

    /** The closure `appendStreamCompletion` hands to the serializer pipeline. The completion is now waiting or
        dispatched, not both, and dispatched only when no run is outstanding. */
    method CompletionSection(id: nat) returns (dispatched: seq<nat>)
      requires Valid()
      modifies this
      ensures Valid()
      ensures (State(), dispatched) == CompletionOf(old(State()), id)
      ensures multiset(enqueuedCompletionEvents) + multiset(dispatched) == multiset(old(enqueuedCompletionEvents)) + multiset{id}
      ensures dispatched != [] <==> numberOfExecutingStreams == 0
    {
      dispatched := [];
      if numberOfExecutingStreams != 0 {
        enqueuedCompletionEvents := enqueuedCompletionEvents + [id];
        return;
      }
      dispatched := [id];
    }

    /** Ends one run. Completions are let go, all of them and in order, exactly when it was the last; none is
        lost or doubled, and none is left behind without a run to release it. */
    method UpdateAndCompleteIfPossible() returns (block: seq<nat>)
      requires Valid() && numberOfExecutingStreams > 0
      modifies this
      ensures Valid()
      ensures (State(), block) == UpdateOf(old(State()))
      ensures block + enqueuedCompletionEvents == old(enqueuedCompletionEvents)
      ensures numberOfExecutingStreams == 0 <==> enqueuedCompletionEvents == [] && old(numberOfExecutingStreams) == 1
      ensures block != [] ==> numberOfExecutingStreams == 0
    {
      block := [];
      numberOfExecutingStreams := numberOfExecutingStreams - 1;
      if numberOfExecutingStreams != 0 || enqueuedCompletionEvents == [] { return; }
      block := enqueuedCompletionEvents;
      enqueuedCompletionEvents := [];
    }
  }

  // ---- Queues around it -------------------------------------------------------------------------------------

  /** Blocks of received data not yet started; pieces being parsed; pieces whose handler was called but
      whose section is still to come. Of the completions, `arrived` are those that asked, `released` those
      let go by a section, `handedOver` the blocks that carry released ones across the underlying queue,
      and `dispatched` those whose handler has been enqueued; `expected` and `delivered` are the histories
      of pieces, and `marks` says for each block handed over how many were expected at that moment.
      Data may be received at any time: between the session's delegate and `didReceive` nothing looks at
      the request's state (SessionDelegate.swift:233-239). When a request that is being retried is cancelled
      while its new URL session task is created, `cancel` sees the completed old one and finishes the
      request (Request.swift:677-679), and the new one is resumed all the same (Session.swift:1100-1106). */
  datatype System = System(m: StreamState, blocks: seq<seq<Piece>>, parsing: seq<Piece>, returning: seq<Piece>,
                           arrived: seq<nat>, released: seq<nat>, handedOver: seq<seq<nat>>, marks: seq<nat>, dispatched: seq<nat>,
                           received: nat, expected: seq<Piece>, delivered: seq<Piece>)

  datatype Event =
    | AddStream
    | Receive
    | StartBlock(i: nat)
    | CallHandler(i: nat)
    | Update(i: nat)
    | Completion(id: nat)
    | Dispatch(i: nat)

  function Without<T>(s: seq<T>, i: nat): seq<T>
    requires i < |s|
  {
    s[..i] + s[i + 1..]
  }

  /** None when the event cannot happen. Each completion arrives once. */
  function Step(s: System, e: Event): Option<System> {
    match e
    case AddStream => Some(s.(m := s.m.(streams := s.m.streams + [|s.m.streams|])))
    case Receive =>
      var pieces := PiecesOf(s.m.streams, s.received);
      Some(s.(m := ReceiveOf(s.m), blocks := s.blocks + [pieces], received := s.received + 1, expected := s.expected + pieces))
    case StartBlock(i) =>
      if i < |s.blocks| then Some(s.(blocks := Without(s.blocks, i), parsing := s.parsing + s.blocks[i])) else None
    case CallHandler(i) =>
      if i < |s.parsing| then
        Some(s.(parsing := Without(s.parsing, i), returning := s.returning + [s.parsing[i]], delivered := s.delivered + [s.parsing[i]]))
      else None
    case Update(i) =>
      if i < |s.returning| then
        var (m', block) := UpdateOf(s.m);
        Some(s.(m := m', returning := Without(s.returning, i), released := s.released + block,
                handedOver := if block == [] then s.handedOver else s.handedOver + [block],
                marks := if block == [] then s.marks else s.marks + [|s.expected|]))
      else None
    case Completion(id) =>
      if id in s.arrived then None
      else
        var (m', now) := CompletionOf(s.m, id);
        Some(s.(m := m', arrived := s.arrived + [id], released := s.released + now, dispatched := s.dispatched + now))
    case Dispatch(i) =>
      if i < |s.handedOver| && |s.marks| == |s.handedOver| then
        Some(s.(handedOver := Without(s.handedOver, i), marks := Without(s.marks, i), dispatched := s.dispatched + s.handedOver[i]))
      else None
  }

  function Initial(): System {
    System(StreamState([], 0, []), [], [], [], [], [], [], [], [], 0, [], [])
  }

  function Run(events: seq<Event>): Option<System> {
    if events == [] then Some(Initial())
    else
      var s := Run(events[..|events| - 1]);
      if s.Some? then Step(s.value, events[|events| - 1]) else None
  }

  // ---- The invariant -----------------------------------------------------------------------------------------------

  function Flat<T>(blocks: seq<seq<T>>): seq<T> {
    if blocks == [] then [] else Flat(blocks[..|blocks| - 1]) + blocks[|blocks| - 1]
  }

  /** Parser runs started by received data whose section has not come yet. */
  function Outstanding(s: System): nat {
    |Flat(s.blocks)| + |s.parsing| + |s.returning|
  }

  ghost predicate Counts(s: System) {
    && s.m.numberOfExecutingStreams == Outstanding(s)
    && (s.m.enqueuedCompletionEvents != [] ==> s.m.numberOfExecutingStreams > 0)
  }

  /** Every piece expected is waiting, being parsed or delivered, as often as expected. */
  ghost predicate PiecesKept(s: System) {
    multiset(Flat(s.blocks)) + multiset(s.parsing) + multiset(s.delivered) == multiset(s.expected)
  }

  /** What was released is on its way or dispatched. */
  ghost predicate ReleasesKept(s: System) {
    multiset(Flat<nat>(s.handedOver)) + multiset(s.dispatched) == multiset(s.released)
  }

  /** The completions that arrived are, in this order, those released and those enqueued; none arrived twice. */
  ghost predicate CompletionsKept(s: System) {
    && s.released + s.m.enqueuedCompletionEvents == s.arrived
    && forall id :: multiset(s.arrived)[id] <= 1
  }

  /** When a block was handed over, exactly what had been expected by then had been delivered. */
  ghost predicate MarkHolds(s: System, mark: nat) {
    && mark <= |s.expected| && mark <= |s.delivered|
    && multiset(s.delivered[..mark]) == multiset(s.expected[..mark])
  }

  ghost predicate MarksKept(s: System) {
    |s.marks| == |s.handedOver| && forall i | 0 <= i < |s.marks| :: MarkHolds(s, s.marks[i])
  }

  /** Every stream has its own number, every piece of data its own; so no piece is expected twice. */
  ghost predicate Distinct(s: System) {
    && (forall k | 0 <= k < |s.m.streams| :: s.m.streams[k] == k)
    && (forall k | 0 <= k < |s.expected| :: s.expected[k].data < s.received)
    && (forall p :: multiset(s.expected)[p] <= 1)
  }

  ghost predicate Inv(s: System) {
    Counts(s) && PiecesKept(s) && CompletionsKept(s) && ReleasesKept(s) && MarksKept(s) && Distinct(s)
  }

  lemma FlatPush<T>(blocks: seq<seq<T>>, b: seq<T>)
    ensures Flat(blocks + [b]) == Flat(blocks) + b
  {
    assert (blocks + [b])[..|blocks|] == blocks;
  }

  lemma {:induction false} FlatWithout<T>(blocks: seq<seq<T>>, i: nat)
    requires i < |blocks|
    ensures |Flat(blocks)| == |Flat(Without(blocks, i))| + |blocks[i]|
    ensures multiset(Flat(blocks)) == multiset(Flat(Without(blocks, i))) + multiset(blocks[i])
  {
    var n := |blocks| - 1;
    if i == n {
      assert Without(blocks, i) == blocks[..n];
    } else {
      FlatWithout(blocks[..n], i);
      WithoutPrefix(blocks, i);
      FlatPush(Without(blocks[..n], i), blocks[n]);
      hide Without;
    }
  }

  lemma WithoutPrefix<T>(s: seq<T>, i: nat)
    requires i < |s| - 1
    ensures Without(s, i) == Without(s[..|s| - 1], i) + [s[|s| - 1]]
  {
    var n := |s| - 1;
    assert s[..n][..i] == s[..i];
    assert s[..n][i + 1..] + [s[n]] == s[i + 1..];
  }

  lemma MultisetWithout<T>(s: seq<T>, i: nat)
    requires i < |s|
    ensures |Without(s, i)| == |s| - 1
    ensures multiset(s) == multiset(Without(s, i)) + multiset{s[i]}
  {
    assert s == s[..i] + [s[i]] + s[i + 1..];
  }

  lemma CountsKept(s: System, e: Event)
    requires Counts(s) && Step(s, e).Some?
    ensures Counts(Step(s, e).value)
  {
    hide Flat, Without, PiecesOf;
    match e
    case AddStream =>
    case Receive => FlatPush(s.blocks, PiecesOf(s.m.streams, s.received));
    case StartBlock(i) => FlatWithout(s.blocks, i);
    case CallHandler(i) => MultisetWithout(s.parsing, i);
    case Update(i) => MultisetWithout(s.returning, i);
    case Completion(_) =>
    case Dispatch(_) =>
  }

  lemma PiecesStep(s: System, e: Event)
    requires PiecesKept(s) && Step(s, e).Some?
    ensures PiecesKept(Step(s, e).value)
  {
    hide Flat, Without, PiecesOf;
    match e
    case Receive => FlatPush(s.blocks, PiecesOf(s.m.streams, s.received));
    case StartBlock(i) => FlatWithout(s.blocks, i);
    case CallHandler(i) => MultisetWithout(s.parsing, i);
    case _ =>
  }

  /** A completion that may go at once has none waiting in front of it. */
  lemma OrderKept(s: System, e: Event)
    requires s.released + s.m.enqueuedCompletionEvents == s.arrived && Step(s, e).Some?
    requires s.m.numberOfExecutingStreams == 0 ==> s.m.enqueuedCompletionEvents == []
    ensures var s' := Step(s, e).value;
            && s'.released + s'.m.enqueuedCompletionEvents == s'.arrived
            && s'.arrived == if e.Completion? then s.arrived + [e.id] else s.arrived
  {
    hide PiecesOf, Without;
  }

  lemma CompletionsStep(s: System, e: Event)
    requires CompletionsKept(s) && Counts(s) && Step(s, e).Some?
    ensures CompletionsKept(Step(s, e).value)
  {
    OrderKept(s, e);
    FreshArrival(s, e);
    hide Step, Counts;
  }

  lemma FreshArrival(s: System, e: Event)
    requires Step(s, e).Some?
    ensures e.Completion? ==> e.id !in s.arrived
  {
    hide PiecesOf, Without;
  }

  lemma ReleasesStep(s: System, e: Event)
    requires ReleasesKept(s) && Step(s, e).Some?
    ensures ReleasesKept(Step(s, e).value)
  {
    hide Flat, PiecesOf, Without;
    match e
    case Update(i) => FlatPush(s.handedOver, s.m.enqueuedCompletionEvents);
    case Dispatch(i) => FlatWithout(s.handedOver, i);
    case _ =>
  }

  lemma MarkGrows(s: System, s': System, mark: nat)
    requires MarkHolds(s, mark) && s.expected <= s'.expected && s.delivered <= s'.delivered
    ensures MarkHolds(s', mark)
  {
    assert s'.expected[..mark] == s.expected[..mark] && s'.delivered[..mark] == s.delivered[..mark];
  }

  lemma MarkNow(s: System)
    requires multiset(s.delivered) == multiset(s.expected)
    ensures MarkHolds(s, |s.expected|)
  {
    assert |multiset(s.delivered)| == |s.delivered| && |multiset(s.expected)| == |s.expected|;
    assert s.delivered[..|s.expected|] == s.delivered && s.expected[..|s.expected|] == s.expected;
  }

  lemma HistoriesGrow(s: System, e: Event)
    requires Step(s, e).Some?
    ensures s.expected <= Step(s, e).value.expected && s.delivered <= Step(s, e).value.delivered
  {
    hide Without, PiecesOf;
  }

  /** How a step changes the marks: one more when completions are handed over, one less at a dispatch. */
  lemma MarksChange(s: System, e: Event)
    requires Step(s, e).Some? && |s.marks| == |s.handedOver|
    ensures var s' := Step(s, e).value;
            && |s'.marks| == |s'.handedOver|
            && (s'.marks == s.marks || (e.Dispatch? && e.i < |s.marks| && s'.marks == Without(s.marks, e.i))
                || (s'.released != s.released && s'.marks == s.marks + [|s'.expected|]))
  {
    hide PiecesOf;
  }

  lemma MarksStep(s: System, e: Event)
    requires MarksKept(s) && Counts(s) && PiecesKept(s) && Step(s, e).Some?
    ensures MarksKept(Step(s, e).value)
  {
    var s' := Step(s, e).value;
    HistoriesGrow(s, e);
    MarksChange(s, e);
    forall i | 0 <= i < |s.marks| ensures MarkHolds(s', s.marks[i]) { MarkGrows(s, s', s.marks[i]); }
    if s'.released != s.released {
      CountsKept(s, e);
      PiecesStep(s, e);
      ReleaseMeansZero(s, e);
      AllDelivered(s');
      MarkNow(s');
    }
    hide Step, MarkHolds;
  }

  lemma {:induction false} NoRepeats(pieces: seq<Piece>, p: Piece)
    requires forall i, j | 0 <= i < j < |pieces| :: pieces[i] != pieces[j]
    ensures multiset(pieces)[p] <= 1
  {
    var n := |pieces| - 1;
    if n >= 0 {
      NoRepeats(pieces[..n], p);
      assert pieces == pieces[..n] + [pieces[n]];
      if multiset(pieces[..n])[p] > 0 {
        assert p in pieces[..n];
        var i :| 0 <= i < n && pieces[i] == p;
      }
    }
  }

  lemma ReceiveDistinct(s: System)
    requires Distinct(s)
    ensures Distinct(Step(s, Receive).value)
  {
    var pieces := PiecesOf(s.m.streams, s.received);
    forall p ensures multiset(s.expected + pieces)[p] <= 1 {
      NoRepeats(pieces, p);
      assert multiset(s.expected)[p] <= 1;
      assert p in s.expected ==> p.data < s.received;
      assert p in pieces ==> p.data == s.received;
    }
  }

  lemma DistinctStep(s: System, e: Event)
    requires Distinct(s) && Step(s, e).Some?
    ensures Distinct(Step(s, e).value)
  {
    hide Without, PiecesOf;
    if e.Receive? { ReceiveDistinct(s); }
  }

  lemma InitialInv()
    ensures Inv(Initial())
  {}

  lemma {:induction false} RunKeeps(events: seq<Event>)
    requires Run(events).Some?
    ensures Inv(Run(events).value)
  {
    if events == [] {
      InitialInv();
    } else {
      RunKeeps(events[..|events| - 1]);
      var s := Run(events[..|events| - 1]).value;
      CountsKept(s, events[|events| - 1]);
      PiecesStep(s, events[|events| - 1]);
      CompletionsStep(s, events[|events| - 1]);
      ReleasesStep(s, events[|events| - 1]);
      MarksStep(s, events[|events| - 1]);
      DistinctStep(s, events[|events| - 1]);
      hide Step, Counts, PiecesKept, CompletionsKept, ReleasesKept, MarksKept, Distinct;
    }
  }

  // ---- What every run guarantees --------------------------------------------------------------------------------------

  /** In every run the counter is the number of outstanding parser runs, and completions wait only while
      it is positive. */
  lemma CounterIsOutstanding(events: seq<Event>)
    requires Run(events).Some?
    ensures var s := Run(events).value;
            && s.m.numberOfExecutingStreams == Outstanding(s)
            && (s.m.enqueuedCompletionEvents != [] ==> Outstanding(s) > 0)
  {
    RunKeeps(events);
    hide Run, Outstanding;
  }

  /** Nothing is outstanding exactly when every piece of data received so far has been handed to its
      handler, as often as expected, and every handler's section has run. */
  lemma AllDelivered(s: System)
    requires Counts(s) && PiecesKept(s) && s.m.numberOfExecutingStreams == 0
    ensures Outstanding(s) == 0 && multiset(s.delivered) == multiset(s.expected)
  {
    assert Flat(s.blocks) == [] && s.parsing == [];
  }

  /** A section lets completions go only when all data received so far has been delivered. */
  lemma ReleasedAfterDelivery(events: seq<Event>, e: Event)
    requires Run(events).Some? && Step(Run(events).value, e).Some?
    requires Step(Run(events).value, e).value.released != Run(events).value.released
    ensures var s := Step(Run(events).value, e).value;
            Outstanding(s) == 0 && multiset(s.delivered) == multiset(s.expected)
  {
    RunKeeps(events);
    var s := Run(events).value;
    CountsKept(s, e);
    PiecesStep(s, e);
    hide Run, Inv, Counts, PiecesKept, CompletionsKept;
    ReleaseMeansZero(s, e);
    var s' := Step(s, e).value;
    AllDelivered(s');
  }

  lemma ReleaseMeansZero(s: System, e: Event)
    requires Step(s, e).Some? && Step(s, e).value.released != s.released
    ensures Step(s, e).value.m.numberOfExecutingStreams == 0
  {
    hide Without, PiecesOf;
  }

  /** In every run completions are released in the order in which they arrived: those released and those still
      waiting are, in this order, all that arrived. */
  lemma ReleasedInOrder(events: seq<Event>)
    requires Run(events).Some?
    ensures var s := Run(events).value;
            s.released + s.m.enqueuedCompletionEvents == s.arrived
  {
    RunKeeps(events);
    hide Run, Counts, PiecesKept, ReleasesKept, MarksKept, Distinct;
  }

  /** No completion is dispatched twice, or without having arrived. Once nothing is outstanding and the
      underlying queue carries none across, each that arrived has been dispatched exactly once. */
  lemma DispatchedOnce(events: seq<Event>, id: nat)
    requires Run(events).Some?
    ensures var s := Run(events).value;
            && multiset(s.dispatched)[id] <= multiset(s.released)[id] <= 1
            && (id in s.dispatched ==> id in s.arrived)
            && (Outstanding(s) == 0 ==> (id in s.arrived <==> multiset(s.released)[id] == 1))
            && (Outstanding(s) == 0 && s.handedOver == [] ==> (id in s.arrived <==> multiset(s.dispatched)[id] == 1))
  {
    RunKeeps(events);
    CompletionCounts(Run(events).value, id);
    hide Run, Outstanding;
  }

  lemma CompletionCounts(s: System, id: nat)
    requires Inv(s)
    ensures multiset(s.dispatched)[id] <= multiset(s.released)[id] <= 1
    ensures id in s.dispatched ==> id in s.arrived
    ensures s.m.enqueuedCompletionEvents == [] ==> (id in s.arrived <==> multiset(s.released)[id] == 1)
    ensures |s.handedOver| == 0 ==> multiset(s.dispatched)[id] == multiset(s.released)[id]
    ensures Outstanding(s) == 0 ==> s.m.enqueuedCompletionEvents == []
  {
    if |s.handedOver| == 0 { assert Flat<nat>(s.handedOver) == []; }
    InMultiset(s.dispatched, id);
    InMultiset(s.arrived, id);
    assert multiset(s.arrived)[id] == multiset(s.m.enqueuedCompletionEvents)[id] + multiset(s.released)[id];
    assert multiset(s.released)[id] == multiset(Flat<nat>(s.handedOver))[id] + multiset(s.dispatched)[id];
  }

  lemma InMultiset(ids: seq<nat>, id: nat)
    ensures id in ids <==> multiset(ids)[id] > 0
  {
    assert id in ids <==> id in multiset(ids);
  }

  // ---- Delivery before dispatch ---------------------------------------------------------------------------------------

  /** No data with a stream to parse it arrives after a section has let a completion go. */
  ghost predicate NoLateData(events: seq<Event>) {
    forall k | 0 <= k < |events| && events[k].Receive? :: NotLate(events[..k])
  }

  ghost predicate NotLate(before: seq<Event>) {
    Run(before).Some? ==> Run(before).value.released == [] || Run(before).value.m.streams == []
  }

  lemma NoLateDataBefore(events: seq<Event>)
    requires NoLateData(events) && events != []
    ensures NoLateData(events[..|events| - 1])
  {
    var before := events[..|events| - 1];
    forall k | 0 <= k < |before| && before[k].Receive? ensures NotLate(before[..k]) {
      assert before[..k] == events[..k] && before[k] == events[k];
    }
  }

  lemma StepStaysZero(s: System, e: Event)
    requires Step(s, e).Some? && Counts(s)
    requires s.released != [] ==> s.m.numberOfExecutingStreams == 0
    requires e.Receive? ==> s.released == [] || s.m.streams == []
    ensures Step(s, e).value.released != [] ==> Step(s, e).value.m.numberOfExecutingStreams == 0
  {
    hide Flat, Without, PiecesOf;
  }

  lemma {:induction false} ReleasedMeansZero(events: seq<Event>)
    requires Run(events).Some? && NoLateData(events)
    ensures Run(events).value.released != [] ==> Run(events).value.m.numberOfExecutingStreams == 0
  {
    if events != [] {
      var before, e := events[..|events| - 1], events[|events| - 1];
      NoLateDataBefore(events);
      ReleasedMeansZero(before);
      RunKeeps(before);
      if e.Receive? { assert NotLate(before); }
      StepStaysZero(Run(before).value, e);
      hide Step, Counts, PiecesKept;
    }
  }

  lemma DispatchMeansReleased(s: System, e: Event)
    requires Step(s, e).Some? && ReleasesKept(s) && Step(s, e).value.dispatched != s.dispatched
    ensures Step(s, e).value.released != []
    ensures s.released == [] ==> Step(s, e).value.released != s.released
  {
    if e.Dispatch? {
      FlatWithout(s.handedOver, e.i);
      assert s.handedOver[e.i] != [];
      assert s.handedOver[e.i][0] in multiset(Flat<nat>(s.handedOver));
      assert s.handedOver[e.i][0] in multiset(s.released);
    }
    hide Flat, Without, PiecesOf;
  }

  /** In every run without late data, each completion is dispatched at a moment when all data received so
      far has been delivered. */
  lemma DispatchedAfterDelivery(events: seq<Event>, e: Event)
    requires Run(events).Some? && Step(Run(events).value, e).Some?
    requires Step(Run(events).value, e).value.dispatched != Run(events).value.dispatched
    requires NoLateData(events)
    ensures var s := Step(Run(events).value, e).value;
            Outstanding(s) == 0 && multiset(s.delivered) == multiset(s.expected)
  {
    RunKeeps(events);
    ReleasedMeansZero(events);
    var s := Run(events).value;
    DispatchMeansReleased(s, e);
    CountsKept(s, e);
    PiecesStep(s, e);
    DispatchIsNoReceive(s, e);
    StepStaysZero(s, e);
    AllDelivered(Step(s, e).value);
    hide Run, Step, Counts, PiecesKept, Inv;
  }

  lemma DispatchIsNoReceive(s: System, e: Event)
    requires Step(s, e).Some? && Step(s, e).value.dispatched != s.dispatched
    ensures !e.Receive?
  {}

  /** In every run, late data or not: when a block of released completions reaches its dispatch, all data
      received before it was handed over has been delivered; and all data received so far has been delivered
      exactly when every piece received since then has been. */
  lemma DispatchCompleteIff(events: seq<Event>, i: nat)
    requires Run(events).Some? && i < |Run(events).value.handedOver|
    ensures var s := Run(events).value;
            && |s.marks| == |s.handedOver| && s.marks[i] <= |s.expected|
            && (forall k | 0 <= k < s.marks[i] :: s.expected[k] in s.delivered)
            && (multiset(s.delivered) == multiset(s.expected)
                <==> forall k | s.marks[i] <= k < |s.expected| :: s.expected[k] in s.delivered)
  {
    RunKeeps(events);
    var s := Run(events).value;
    hide Run;
    var mark := s.marks[i];
    assert MarkHolds(s, mark);
    forall k | 0 <= k < mark ensures s.expected[k] in s.delivered {
      assert s.expected[..mark][k] in multiset(s.expected[..mark]);
      assert s.expected[k] in s.delivered[..mark];
    }
    DeliveredIff(s, mark);
  }

  lemma DeliveredIff(s: System, mark: nat)
    requires PiecesKept(s) && Distinct(s) && mark <= |s.expected|
    requires forall k | 0 <= k < mark :: s.expected[k] in s.delivered
    ensures multiset(s.delivered) == multiset(s.expected)
       <==> forall k | mark <= k < |s.expected| :: s.expected[k] in s.delivered
  {
    hide Flat;
    if forall k | mark <= k < |s.expected| :: s.expected[k] in s.delivered {
      forall p ensures multiset(s.delivered)[p] == multiset(s.expected)[p] {
        assert multiset(s.expected)[p] <= 1 && multiset(s.delivered)[p] <= multiset(s.expected)[p];
        if p in s.expected {
          var k :| 0 <= k < |s.expected| && s.expected[k] == p;
          assert p in multiset(s.delivered);
        }
      }
    } else {
      var k :| mark <= k < |s.expected| && s.expected[k] !in s.delivered;
      assert s.expected[k] in multiset(s.expected) && s.expected[k] !in multiset(s.delivered);
    }
  }

  // ---- A run with late data -----------------------------------------------------------------------------------------------

  lemma {:induction false} RunPush(events: seq<Event>, e: Event)
    ensures Run(events + [e]) == var s := Run(events); if s.Some? then Step(s.value, e) else None
  {
    assert (events + [e])[..|events|] == events;
  }

  lemma FirstPiece()
    ensures PiecesOf([0], 0) == [Piece(0, 0)] && PiecesOf([0], 1) == [Piece(0, 1)]
  {}

  /** One stream, one piece of data, its handler called. */
  lemma OnePieceDelivered() returns (events: seq<Event>)
    ensures Run(events) == Some(System(StreamState([0], 1, []), [], [], [Piece(0, 0)], [], [], [], [], [], 1, [Piece(0, 0)], [Piece(0, 0)]))
  {
    FirstPiece();
    hide PiecesOf;
    var p := Piece(0, 0);
    var e1 := [] + [AddStream];
    var e2 := e1 + [Receive];
    var e3 := e2 + [StartBlock(0)];
    events := e3 + [CallHandler(0)];
    RunPush([], AddStream);
    assert Run(e1).value.m.streams == [0];
    RunPush(e1, Receive);
    var s2 := Run(e2).value;
    assert s2.blocks == [[p]] && s2.expected == [p];
    RunPush(e2, StartBlock(0));
    var s3 := Run(e3).value;
    assert s3.blocks == [] && s3.parsing == [p];
    RunPush(e3, CallHandler(0));
    var s4 := Run(events).value;
    assert s4.parsing == [] && s4.returning == [p] && s4.delivered == [p];
  }

  /** A completion arrives and has to wait. */
  lemma OneCompletionWaits() returns (events: seq<Event>)
    ensures Run(events) == Some(System(StreamState([0], 1, [0]), [], [], [Piece(0, 0)], [0], [], [], [], [], 1, [Piece(0, 0)], [Piece(0, 0)]))
  {
    var e4 := OnePieceDelivered();
    hide Run;
    events := e4 + [Completion(0)];
    RunPush(e4, Completion(0));
    var s5 := Run(events).value;
    assert s5.m.enqueuedCompletionEvents == [0] && s5.arrived == [0];
    assert s5.released == [] && s5.dispatched == [];
  }

  /** The section of the handler's run releases it. */
  lemma OneCompletionReleased() returns (events: seq<Event>)
    ensures Run(events) == Some(System(StreamState([0], 0, []), [], [], [], [0], [0], [[0]], [1], [], 1, [Piece(0, 0)], [Piece(0, 0)]))
  {
    var e5 := OneCompletionWaits();
    hide Run;
    events := e5 + [Update(0)];
    RunPush(e5, Update(0));
    var s6 := Run(events).value;
    assert s6.handedOver == [[0]] && s6.marks == [1];
    assert s6.returning == [] && s6.released == [0] && s6.dispatched == [];
    assert s6.m == StreamState([0], 0, []);
  }

  /** Delivery is complete when completions are released, not necessarily when they are dispatched: data
      received while they cross the underlying queue is overtaken. */
  lemma LateDataOvertaken() returns (events: seq<Event>)
    ensures Run(events).Some?
    ensures var s := Run(events).value;
            s.dispatched == [0] && s.expected == [Piece(0, 0), Piece(0, 1)] && s.delivered == [Piece(0, 0)]
  {
    var e6 := OneCompletionReleased();
    FirstPiece();
    hide PiecesOf, Run;
    var e7 := e6 + [Receive];
    events := e7 + [Dispatch(0)];
    RunPush(e6, Receive);
    assert Run(e7).value.expected == [Piece(0, 0), Piece(0, 1)];
    RunPush(e7, Dispatch(0));
    assert Run(events).value.dispatched == [0];
  }
}
