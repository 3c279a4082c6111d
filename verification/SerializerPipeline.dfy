/** The response-serializer pipeline of Request.swift: appending, finishing, the separate lookup and
    clearing sections, and what its first pass guarantees whatever else is appended meanwhile. */
module SerializerPipeline {
  import opened Bytes

  // ---- The state behind the lock ----------------------------------------------------------------------

  datatype State = Initialized | Resumed | Suspended | Cancelled | Finished {
    predicate CanTransitionTo(to: State) {
      if Initialized? then true
      else if to.Initialized? || Cancelled? || Finished? then false
      else if to.Finished? || to.Cancelled? then true
      else this != to
    }
  }

  /** A serializer, and its completion, is known by its position in the order of appending. */
  datatype MutableState = MutableState(
    state: State,
    responseSerializers: seq<nat>,
    responseSerializerCompletions: seq<nat>,
    responseSerializerProcessingFinished: bool,
    isFinishing: bool)

  function AppendOf(m: MutableState, id: nat): MutableState {
    m.(responseSerializers := m.responseSerializers + [id], state := if m.state.Finished? then Resumed else m.state)
  }

  function NextOf(m: MutableState): Option<nat> {
    var index := |m.responseSerializerCompletions|;
    if index < |m.responseSerializers| then Some(m.responseSerializers[index]) else None
  }

  function ClearOf(m: MutableState): MutableState {
    MutableState(if m.state.CanTransitionTo(Finished) then Finished else m.state, [], [], true, false)
  }

  function DidCompleteOf(m: MutableState, id: nat): MutableState {
    m.(responseSerializerCompletions := m.responseSerializerCompletions + [id])
  }

  class Request {
    var state: State
    var responseSerializers: seq<nat>
    var responseSerializerCompletions: seq<nat>
    var responseSerializerProcessingFinished: bool
    var isFinishing: bool

    function Mutable(): MutableState
      reads this
    {
      MutableState(state, responseSerializers, responseSerializerCompletions, responseSerializerProcessingFinished, isFinishing)
    }

    constructor ()
      ensures Mutable() == MutableState(Initialized, [], [], false, false)
    {
      state := Initialized;
      responseSerializers, responseSerializerCompletions := [], [];
      responseSerializerProcessingFinished, isFinishing := false, false;
    }

    /** `appendResponseSerializer`; `process` asks for a processing call of its own. */
    method AppendResponseSerializer(id: nat) returns (process: bool)
      modifies this
      ensures Mutable() == AppendOf(old(Mutable()), id)
      ensures process == old(responseSerializerProcessingFinished)
    {
      responseSerializers := responseSerializers + [id];
      if state == Finished { state := Resumed; }
      process := responseSerializerProcessingFinished;
    }

    /** `finish`, up to its processing call. */
    method Finish() returns (process: bool)
      modifies this
      ensures Mutable() == old(Mutable()).(isFinishing := true)
      ensures process == !old(isFinishing)
    {
      if isFinishing { return false; }
      isFinishing := true;
      process := true;
    }

    method NextResponseSerializer() returns (next: Option<nat>)
      ensures next == NextOf(Mutable())
    {
      next := None;
      var index := |responseSerializerCompletions|;
      if index < |responseSerializers| { next := Some(responseSerializers[index]); }
    }

    /** The section of `processNextResponseSerializer` that takes all completions. */
    method Clear() returns (completions: seq<nat>)
      modifies this
      ensures Mutable() == ClearOf(old(Mutable()))
      ensures completions == old(responseSerializerCompletions)
    {
      completions := responseSerializerCompletions;
      responseSerializers := [];
      responseSerializerCompletions := [];
      if state.CanTransitionTo(Finished) { state := Finished; }
      responseSerializerProcessingFinished := true;
      isFinishing := false;
    }

    method ResponseSerializerDidComplete(id: nat)
      modifies this
      ensures Mutable() == DidCompleteOf(old(Mutable()), id)
    {
      responseSerializerCompletions := responseSerializerCompletions + [id];
    }

    /** The guarded assignment in `resume`, `suspend` and `cancel`. */
    method TransitionTo(to: State) returns (done: bool)
      modifies this
      ensures done == old(state).CanTransitionTo(to)
      ensures Mutable() == if done then old(Mutable()).(state := to) else old(Mutable())
    {
      done := state.CanTransitionTo(to);
      if done { state := to; }
    }
  }

  // ---- Processing calls as tokens --------------------------------------------------------------------------

  /** Where one processing call stands: in front of the lookup, between an empty lookup and the
      clearing, with its serializer running or its response on the way back, or holding the
      completions it took. */
  datatype Token = Lookup | Clearing | Running(id: nat) | Parsed(id: nat) | Delivering(ids: seq<nat>)

  /** Besides the request: the processing calls alive; how many serializers were appended; how many
      of them before `finish`, before the first lookup that came up empty, and before the first clearing; how
      many completions that clearing took; and the histories of serializers started and completed and of completions called. */
  datatype System = System(m: MutableState, tokens: seq<Token>, appended: nat, atFinish: Option<nat>, atEmptyLookup: nat,
                           atClear: nat, first: Option<nat>, started: seq<nat>, completed: seq<nat>, called: seq<nat>)

  datatype Event = Append | Finish | Advance(i: nat) | Transition(to: State)

  function Initial(): System {
    System(MutableState(Initialized, [], [], false, false), [], 0, None, 0, 0, None, [], [], [])
  }

  function Replaced(tokens: seq<Token>, i: nat, t: Token): seq<Token>
    requires i < |tokens|
  {
    tokens[i := t]
  }

  function Removed(tokens: seq<Token>, i: nat): seq<Token>
    requires i < |tokens|
  {
    tokens[..i] + tokens[i + 1..]
  }

  /** The next lock section or queue block of one processing call. */
  function AdvanceToken(s: System, i: nat): System
    requires i < |s.tokens|
  {
    match s.tokens[i]
    case Lookup =>
      var next := NextOf(s.m);
      if next.Some? then s.(tokens := Replaced(s.tokens, i, Running(next.value)), started := s.started + [next.value])
      else
        s.(tokens := Replaced(s.tokens, i, Clearing), atEmptyLookup := if s.first.None? then s.appended else s.atEmptyLookup)
    case Running(id) => s.(tokens := Replaced(s.tokens, i, Parsed(id)))
    case Parsed(id) =>
      s.(m := DidCompleteOf(s.m, id), tokens := Replaced(s.tokens, i, Lookup), completed := s.completed + [id])
    case Clearing =>
      var s' := s.(m := ClearOf(s.m), tokens := Replaced(s.tokens, i, Delivering(s.m.responseSerializerCompletions)));
      if s.first.None? then s'.(first := Some(|s.m.responseSerializerCompletions|), atClear := s.appended) else s'
    case Delivering(ids) => s.(tokens := Removed(s.tokens, i), called := s.called + ids)
  }

  function Step(s: System, e: Event): Option<System> {
    match e
    case Append =>
      Some(s.(m := AppendOf(s.m, s.appended), appended := s.appended + 1,
              tokens := if s.m.responseSerializerProcessingFinished then s.tokens + [Lookup] else s.tokens))
    case Finish =>
      Some(s.(m := s.m.(isFinishing := true), tokens := if s.m.isFinishing then s.tokens else s.tokens + [Lookup],
              atFinish := if s.atFinish.None? then Some(s.appended) else s.atFinish))
    case Advance(i) => if i < |s.tokens| then Some(AdvanceToken(s, i)) else None
    case Transition(to) =>
      if s.m.state.CanTransitionTo(to) && !to.Finished? then Some(s.(m := s.m.(state := to))) else None
  }

  /** Runs without a retry, so without `reset`. */
  function Run(s: System, events: seq<Event>): Option<System> {
    if events == [] then Some(s)
    else
      var s' := Run(s, events[..|events| - 1]);
      if s'.Some? then Step(s'.value, events[|events| - 1]) else None
  }

  // ---- The invariant ------------------------------------------------------------------------------------------

  function Upto(n: nat): (s: seq<nat>)
    ensures |s| == n && forall k | 0 <= k < n :: s[k] == k
  {
    seq(n, k => k)
  }

  lemma UptoNext(n: nat)
    ensures Upto(n) + [n] == Upto(n + 1)
  {}

  ghost predicate BeforeFinish(s: System) {
    && s.atFinish.None? && s.first.None? && !s.m.isFinishing && !s.m.responseSerializerProcessingFinished
    && s.tokens == [] && s.started == [] && s.completed == [] && s.called == []
    && s.m.responseSerializers == Upto(s.appended) && s.m.responseSerializerCompletions == []
  }

  ghost predicate TokenInFirstPass(s: System, t: Token) {
    var c := |s.m.responseSerializerCompletions|;
    match t
    case Lookup => c <= s.appended && s.started == Upto(c)
    case Clearing => s.atFinish.Some? && s.atFinish.value <= c == s.atEmptyLookup <= s.appended && s.started == Upto(c)
    case Running(id) => id == c < s.appended && s.started == Upto(c + 1)
    case Parsed(id) => id == c < s.appended && s.started == Upto(c + 1)
    case Delivering(_) => false
  }

  ghost predicate FirstPass(s: System) {
    && s.atFinish.Some? && s.atFinish.value <= s.appended && s.first.None?
    && s.m.isFinishing && !s.m.responseSerializerProcessingFinished && s.called == []
    && s.m.responseSerializers == Upto(s.appended)
    && s.m.responseSerializerCompletions == s.completed == Upto(|s.completed|)
    && |s.tokens| == 1 && TokenInFirstPass(s, s.tokens[0])
  }

  /** All of `ids` were appended after the first clearing. */
  ghost predicate Late(ids: seq<nat>, atClear: nat) {
    forall k | 0 <= k < |ids| :: atClear <= ids[k]
  }

  ghost predicate LateToken(t: Token, atClear: nat) {
    match t
    case Lookup => true
    case Clearing => true
    case Running(id) => atClear <= id
    case Parsed(id) => atClear <= id
    case Delivering(ids) => Late(ids, atClear)
  }

  /** `ids` starts with the first `k` in order, and goes on with later ones only. */
  ghost predicate FirstThenLate(ids: seq<nat>, k: nat, atClear: nat) {
    k <= |ids| && ids[..k] == Upto(k) && Late(ids[k..], atClear)
  }

  /** The completions of the first pass were called, once and in order; the rest of `ids` is late. */
  ghost predicate FirstInside(ids: seq<nat>, k: nat, atClear: nat) {
    exists j :: 0 <= j <= |ids| - k && ids[j..j + k] == Upto(k) && Late(ids[..j], atClear) && Late(ids[j + k..], atClear)
  }

  ghost predicate OthersLate(tokens: seq<Token>, i: int, atClear: nat) {
    forall j | 0 <= j < |tokens| && j != i :: LateToken(tokens[j], atClear)
  }

  ghost predicate LaterPasses(s: System) {
    && s.atFinish.Some? && s.first.Some? && s.atFinish.value <= s.first.value == s.atEmptyLookup <= s.atClear <= s.appended
    && s.m.responseSerializerProcessingFinished
    && Late(s.m.responseSerializers, s.atClear) && Late(s.m.responseSerializerCompletions, s.atClear)
    && FirstThenLate(s.started, s.first.value, s.atClear)
    && FirstThenLate(s.completed, s.first.value, s.atClear)
    && (Undelivered(s) || (OthersLate(s.tokens, -1, s.atClear) && FirstInside(s.called, s.first.value, s.atClear)))
  }

  /** One processing call still holds the completions of the first pass. */
  ghost predicate Undelivered(s: System)
    requires s.first.Some?
  {
    && Late(s.called, s.atClear)
    && exists i :: 0 <= i < |s.tokens| && s.tokens[i] == Delivering(Upto(s.first.value)) && OthersLate(s.tokens, i, s.atClear)
  }

  ghost predicate Inv(s: System) {
    BeforeFinish(s) || FirstPass(s) || LaterPasses(s)
  }

  // ---- Steps keep it -----------------------------------------------------------------------------------------------

  lemma BeforeFinishStep(s: System, e: Event)
    requires BeforeFinish(s) && Step(s, e).Some?
    ensures Inv(Step(s, e).value)
  {
    UptoNext(s.appended);
    assert Upto(0) == [];
    var s' := Step(s, e).value;
    if e.Finish? { assert FirstPass(s'); } else { assert BeforeFinish(s'); }
  }

  lemma FirstPassAdvance(s: System)
    requires FirstPass(s) && !s.tokens[0].Clearing?
    ensures FirstPass(AdvanceToken(s, 0))
  {
    UptoNext(|s.completed|);
  }

  lemma FirstPassClears(s: System)
    requires FirstPass(s) && s.tokens[0].Clearing?
    ensures LaterPasses(AdvanceToken(s, 0))
  {
    var s' := AdvanceToken(s, 0);
    assert s'.started[..s'.first.value] == s.started;
    assert s'.completed[..s'.first.value] == s.completed;
    assert s'.tokens[0] == Delivering(Upto(s'.first.value)) && OthersLate(s'.tokens, 0, s'.atClear);
    assert Undelivered(s');
  }

  lemma FirstPassStep(s: System, e: Event)
    requires FirstPass(s) && Step(s, e).Some?
    ensures Inv(Step(s, e).value)
  {
    hide LaterPasses, BeforeFinish;
    if e.Advance? {
      if s.tokens[0].Clearing? { FirstPassClears(s); } else { FirstPassAdvance(s); }
    } else {
      UptoNext(s.appended);
      assert FirstPass(Step(s, e).value);
    }
  }

  lemma LatePush(ids: seq<nat>, id: nat, atClear: nat)
    requires Late(ids, atClear) && atClear <= id
    ensures Late(ids + [id], atClear)
  {}

  lemma FirstThenLatePush(ids: seq<nat>, id: nat, k: nat, atClear: nat)
    requires FirstThenLate(ids, k, atClear) && atClear <= id
    ensures FirstThenLate(ids + [id], k, atClear)
  {
    assert (ids + [id])[..k] == ids[..k] && (ids + [id])[k..] == ids[k..] + [id];
    LatePush(ids[k..], id, atClear);
  }

  lemma LateAppend(ids: seq<nat>, more: seq<nat>, atClear: nat)
    requires Late(ids, atClear) && Late(more, atClear)
    ensures Late(ids + more, atClear)
  {}

  lemma MiddleStays(ids: seq<nat>, more: seq<nat>, j: nat, k: nat)
    requires j + k <= |ids|
    ensures (ids + more)[j..j + k] == ids[j..j + k] && (ids + more)[..j] == ids[..j]
    ensures (ids + more)[j + k..] == ids[j + k..] + more
  {}

  lemma FirstInsideAppend(ids: seq<nat>, more: seq<nat>, k: nat, atClear: nat)
    requires FirstInside(ids, k, atClear) && Late(more, atClear)
    ensures FirstInside(ids + more, k, atClear)
  {
    hide Late, Upto;
    var j :| 0 <= j <= |ids| - k && ids[j..j + k] == Upto(k) && Late(ids[..j], atClear) && Late(ids[j + k..], atClear);
    MiddleStays(ids, more, j, k);
    LateAppend(ids[j + k..], more, atClear);
  }

  lemma FirstDelivered(ids: seq<nat>, k: nat, atClear: nat)
    requires Late(ids, atClear)
    ensures FirstInside(ids + Upto(k), k, atClear)
  {
    var now, j := ids + Upto(k), |ids|;
    assert now[j..j + k] == Upto(k) && now[..j] == ids && now[j + k..] == [];
  }

  /** Who holds the first pass's completions, as `LaterPasses` asks. */
  ghost predicate Delivery(tokens: seq<Token>, called: seq<nat>, k: nat, atClear: nat) {
    || (OthersLate(tokens, -1, atClear) && FirstInside(called, k, atClear))
    || (Late(called, atClear)
        && exists i :: 0 <= i < |tokens| && tokens[i] == Delivering(Upto(k)) && OthersLate(tokens, i, atClear))
  }

  lemma DeliveryPush(tokens: seq<Token>, called: seq<nat>, k: nat, atClear: nat, t: Token)
    requires Delivery(tokens, called, k, atClear) && LateToken(t, atClear)
    ensures Delivery(tokens + [t], called, k, atClear)
  {
    hide LateToken, FirstInside, Late;
    if !(OthersLate(tokens, -1, atClear) && FirstInside(called, k, atClear)) {
      var i :| 0 <= i < |tokens| && tokens[i] == Delivering(Upto(k)) && OthersLate(tokens, i, atClear);
      assert (tokens + [t])[i] == Delivering(Upto(k)) && OthersLate(tokens + [t], i, atClear);
    }
  }

  /** The token is not the one holding the first pass's completions. */
  lemma DeliveryReplace(tokens: seq<Token>, called: seq<nat>, k: nat, atClear: nat, i: nat, t: Token)
    requires Delivery(tokens, called, k, atClear) && i < |tokens| && !tokens[i].Delivering? && LateToken(t, atClear)
    ensures LateToken(tokens[i], atClear)
    ensures Delivery(Replaced(tokens, i, t), called, k, atClear)
  {
    hide LateToken, FirstInside, Late;
    if OthersLate(tokens, -1, atClear) && FirstInside(called, k, atClear) {
      assert OthersLate(Replaced(tokens, i, t), -1, atClear);
    } else {
      var h :| 0 <= h < |tokens| && tokens[h] == Delivering(Upto(k)) && OthersLate(tokens, h, atClear);
      assert h != i && Replaced(tokens, i, t)[h] == Delivering(Upto(k));
      assert OthersLate(Replaced(tokens, i, t), h, atClear);
    }
  }

  lemma OthersLateRemoved(tokens: seq<Token>, i: nat, atClear: nat)
    requires i < |tokens| && OthersLate(tokens, i, atClear)
    ensures OthersLate(Removed(tokens, i), -1, atClear)
  {
    hide LateToken;
  }

  lemma DeliveryRemove(tokens: seq<Token>, called: seq<nat>, k: nat, atClear: nat, i: nat)
    requires Delivery(tokens, called, k, atClear) && i < |tokens| && tokens[i].Delivering?
    ensures Delivery(Removed(tokens, i), called + tokens[i].ids, k, atClear)
  {
    if OthersLate(tokens, -1, atClear) && FirstInside(called, k, atClear) {
      assert LateToken(tokens[i], atClear);
      FirstInsideAppend(called, tokens[i].ids, k, atClear);
      OthersLateRemoved(tokens, i, atClear);
    } else {
      DeliveryRemoveHeld(tokens, called, k, atClear, i);
    }
  }

  lemma DeliveryRemoveHeld(tokens: seq<Token>, called: seq<nat>, k: nat, atClear: nat, i: nat)
    requires i < |tokens| && tokens[i].Delivering? && Late(called, atClear)
    requires exists h :: 0 <= h < |tokens| && tokens[h] == Delivering(Upto(k)) && OthersLate(tokens, h, atClear)
    ensures Delivery(Removed(tokens, i), called + tokens[i].ids, k, atClear)
  {
    var h :| 0 <= h < |tokens| && tokens[h] == Delivering(Upto(k)) && OthersLate(tokens, h, atClear);
    if h == i {
      FirstDelivered(called, k, atClear);
      OthersLateRemoved(tokens, i, atClear);
    } else {
      assert LateToken(tokens[i], atClear);
      var h' := if h < i then h else h - 1;
      var rest := Removed(tokens, i);
      assert rest[h'] == Delivering(Upto(k));
      assert OthersLate(rest, h', atClear) by {
        hide LateToken;
        forall j | 0 <= j < |rest| && j != h' ensures LateToken(rest[j], atClear) {
          assert rest[j] == if j < i then tokens[j] else tokens[j + 1];
        }
      }
      assert Late(called + tokens[i].ids, atClear);
    }
  }

  lemma LaterAdvance(s: System, i: nat)
    requires LaterPasses(s) && i < |s.tokens|
    ensures LaterPasses(AdvanceToken(s, i))
  {
    var k := s.first.value;
    assert Delivery(s.tokens, s.called, k, s.atClear);
    match s.tokens[i]
    case Lookup =>
      var next := NextOf(s.m);
      var t := if next.Some? then Running(next.value) else Clearing;
      DeliveryReplace(s.tokens, s.called, k, s.atClear, i, t);
      if next.Some? { FirstThenLatePush(s.started, next.value, k, s.atClear); }
    case Running(id) =>
      TokenLate(s, i);
      DeliveryReplace(s.tokens, s.called, k, s.atClear, i, Parsed(id));
    case Parsed(id) =>
      TokenLate(s, i);
      DeliveryReplace(s.tokens, s.called, k, s.atClear, i, Lookup);
      FirstThenLatePush(s.completed, id, k, s.atClear);
      LatePush(s.m.responseSerializerCompletions, id, s.atClear);
    case Clearing =>
      DeliveryReplace(s.tokens, s.called, k, s.atClear, i, Delivering(s.m.responseSerializerCompletions));
    case Delivering(ids) =>
      DeliveryRemove(s.tokens, s.called, k, s.atClear, i);
    hide FirstThenLate, FirstInside, OthersLate, Replaced, Removed;
  }

  lemma TokenLate(s: System, i: nat)
    requires LaterPasses(s) && i < |s.tokens| && !s.tokens[i].Delivering?
    ensures LateToken(s.tokens[i], s.atClear)
  {
    assert Delivery(s.tokens, s.called, s.first.value, s.atClear);
    DeliveryReplace(s.tokens, s.called, s.first.value, s.atClear, i, Lookup);
  }

  lemma LaterStep(s: System, e: Event)
    requires LaterPasses(s) && Step(s, e).Some?
    ensures LaterPasses(Step(s, e).value)
  {
    hide AdvanceToken;
    if e.Advance? {
      LaterAdvance(s, e.i);
    } else {
      assert Delivery(s.tokens, s.called, s.first.value, s.atClear);
      DeliveryPush(s.tokens, s.called, s.first.value, s.atClear, Lookup);
      LatePush(s.m.responseSerializers, s.appended, s.atClear);
      hide FirstThenLate, FirstInside, OthersLate;
    }
  }

  lemma {:induction false} RunKeeps(events: seq<Event>)
    requires Run(Initial(), events).Some?
    ensures Inv(Run(Initial(), events).value)
  {
    if events == [] {
      assert Upto(0) == [];
      assert BeforeFinish(Initial());
    } else {
      hide BeforeFinish, FirstPass, LaterPasses, Step;
      RunKeeps(events[..|events| - 1]);
      var s := Run(Initial(), events[..|events| - 1]).value;
      var e := events[|events| - 1];
      if BeforeFinish(s) { BeforeFinishStep(s, e); } else if FirstPass(s) { FirstPassStep(s, e); } else { LaterStep(s, e); }
    }
  }

  // ---- What every run guarantees ---------------------------------------------------------------------------------------

  function Times(ids: seq<nat>, id: nat): nat {
    if ids == [] then 0 else Times(ids[1..], id) + (if ids[0] == id then 1 else 0)
  }

  lemma {:induction false} TimesConcat(a: seq<nat>, b: seq<nat>, id: nat)
    ensures Times(a + b, id) == Times(a, id) + Times(b, id)
  {
    if a == [] {
      assert a + b == b;
    } else {
      TimesConcat(a[1..], b, id);
      assert (a + b)[1..] == a[1..] + b;
    }
  }

  lemma {:induction false} TimesLate(ids: seq<nat>, atClear: nat, id: nat)
    requires Late(ids, atClear) && id < atClear
    ensures Times(ids, id) == 0
  {
    if ids != [] { TimesLate(ids[1..], atClear, id); }
  }

  lemma {:induction false} TimesUpto(n: nat, id: nat)
    ensures Times(Upto(n), id) == if id < n then 1 else 0
  {
    if n > 0 {
      TimesUpto(n - 1, id);
      UptoNext(n - 1);
      TimesConcat(Upto(n - 1), [n - 1], id);
      assert Times([n - 1], id) == Times([], id) + (if n - 1 == id then 1 else 0);
    } else {
      assert Upto(0) == [];
    }
  }

  lemma FirstThenLateTimes(ids: seq<nat>, k: nat, atClear: nat, id: nat)
    requires FirstThenLate(ids, k, atClear) && id < atClear
    ensures Times(ids, id) == if id < k then 1 else 0
  {
    assert ids == ids[..k] + ids[k..];
    TimesConcat(ids[..k], ids[k..], id);
    TimesLate(ids[k..], atClear, id);
    TimesUpto(k, id);
  }

  lemma ThreeParts(ids: seq<nat>, j: nat, k: nat)
    requires j + k <= |ids|
    ensures ids == ids[..j] + (ids[j..j + k] + ids[j + k..])
  {}

  lemma FirstInsideTimes(ids: seq<nat>, k: nat, atClear: nat, id: nat)
    requires FirstInside(ids, k, atClear) && id < atClear
    ensures Times(ids, id) == if id < k then 1 else 0
  {
    hide Times, Upto, Late;
    var j :| 0 <= j <= |ids| - k && ids[j..j + k] == Upto(k) && Late(ids[..j], atClear) && Late(ids[j + k..], atClear);
    ThreeParts(ids, j, k);
    TimesConcat(ids[..j], ids[j..j + k] + ids[j + k..], id);
    TimesConcat(ids[j..j + k], ids[j + k..], id);
    TimesLate(ids[..j], atClear, id);
    TimesLate(ids[j + k..], atClear, id);
    TimesUpto(k, id);
  }

  /** Until the first pass has cleared, at most one processing call is alive, and no completion is called
      before it has. */
  lemma OneTokenInFirstPass(events: seq<Event>)
    requires Run(Initial(), events).Some? && Run(Initial(), events).value.first.None?
    ensures var s := Run(Initial(), events).value;
            |s.tokens| <= 1 && s.called == [] && s.started == Upto(|s.started|) && s.completed == Upto(|s.completed|)
  {
    RunKeeps(events);
    assert Upto(0) == [];
    hide Run;
  }

  /** Once the first pass has cleared: a serializer appended before the clearing ran if and only if it was
      appended before the lookup that came up empty, and then exactly once, in order of appending, and
      completed before any completion is called. All those appended before `finish` are among them; those
      appended between that lookup and the clearing never run. */
  lemma FirstPassRunsOnce(events: seq<Event>, id: nat)
    requires Run(Initial(), events).Some? && Run(Initial(), events).value.first.Some?
    requires id < Run(Initial(), events).value.atClear
    ensures var s := Run(Initial(), events).value;
            var k := s.atEmptyLookup;
            && s.atFinish.Some? && s.atFinish.value <= k <= |s.started| && k <= |s.completed|
            && s.started[..k] == Upto(k) && s.completed[..k] == Upto(k)
            && Times(s.started, id) == Times(s.completed, id) == (if id < k then 1 else 0)
            && Times(s.called, id) <= 1 && (k <= id ==> Times(s.called, id) == 0)
  {
    RunKeeps(events);
    var s := Run(Initial(), events).value;
    hide Run;
    FirstThenLateTimes(s.started, s.first.value, s.atClear, id);
    FirstThenLateTimes(s.completed, s.first.value, s.atClear, id);
    if Undelivered(s) {
      TimesLate(s.called, s.atClear, id);
    } else {
      FirstInsideTimes(s.called, s.first.value, s.atClear, id);
    }
    hide Times, Undelivered;
  }

  /** When `finish` was called and no processing call is left, the completions of the first pass have
      been called exactly once, side by side and in order of appending. */
  lemma QuietMeansCalled(events: seq<Event>, id: nat)
    requires Run(Initial(), events).Some?
    requires var s := Run(Initial(), events).value;
             s.atFinish.Some? && s.tokens == [] && id < s.atFinish.value
    ensures var s := Run(Initial(), events).value;
            && s.first.Some? && FirstInside(s.called, s.first.value, s.atClear)
            && Times(s.called, id) == 1
  {
    RunKeeps(events);
    var s := Run(Initial(), events).value;
    hide Run;
    FirstInsideTimes(s.called, s.first.value, s.atClear, id);
    hide Times, FirstInside;
  }

  // ---- Starting a serializer again -----------------------------------------------------------------------------------------

  /** Some processing call has started this serializer and not yet handed in its completion. */
  predicate Flying(tokens: seq<Token>, id: nat) {
    Running(id) in tokens || Parsed(id) in tokens
  }

  ghost predicate Increasing(ids: seq<nat>, bound: nat) {
    && (forall p, q | 0 <= p < q < |ids| :: ids[p] < ids[q])
    && (forall p | 0 <= p < |ids| :: ids[p] < bound)
  }

  /** A serializer already started stands, from the lookup's position on, only at that position, and only
      while a processing call has it in flight. */
  ghost predicate StartedInFlight(s: System) {
    && Increasing(s.m.responseSerializers, s.appended)
    && (forall id | id in s.started :: id < s.appended)
    && (forall id | Flying(s.tokens, id) :: id in s.started)
    && (forall p | |s.m.responseSerializerCompletions| <= p < |s.m.responseSerializers| ::
          AtLookup(s, p))
  }

  ghost predicate AtLookup(s: System, p: nat)
    requires p < |s.m.responseSerializers|
  {
    s.m.responseSerializers[p] in s.started ==>
      p == |s.m.responseSerializerCompletions| && Flying(s.tokens, s.m.responseSerializers[p])
  }

  lemma ReplacedTokens(tokens: seq<Token>, i: nat, t: Token, x: Token)
    requires i < |tokens|
    ensures x in Replaced(tokens, i, t) ==> x == t || x in tokens
    ensures x == t || (x in tokens && x != tokens[i]) ==> x in Replaced(tokens, i, t)
  {
    assert Replaced(tokens, i, t)[i] == t;
    if x in tokens && x != tokens[i] {
      var j :| 0 <= j < |tokens| && tokens[j] == x;
      assert Replaced(tokens, i, t)[j] == x;
    }
  }

  lemma RemovedTokens(tokens: seq<Token>, i: nat, x: Token)
    requires i < |tokens|
    ensures x in Removed(tokens, i) ==> x in tokens
    ensures x in tokens && x != tokens[i] ==> x in Removed(tokens, i)
  {
    assert tokens == tokens[..i] + [tokens[i]] + tokens[i + 1..];
  }

  /** Who is in flight after one processing call moved on. */
  lemma AdvanceFlying(s: System, i: nat, id: nat)
    requires i < |s.tokens|
    ensures var started := s.tokens[i].Lookup? && NextOf(s.m) == Some(id);
            && (Flying(AdvanceToken(s, i).tokens, id) ==> Flying(s.tokens, id) || started)
            && (started || (Flying(s.tokens, id) && s.tokens[i] != Parsed(id)) ==> Flying(AdvanceToken(s, i).tokens, id))
  {
    hide Replaced, Removed;
    match s.tokens[i]
    case Delivering(_) =>
      RemovedTokens(s.tokens, i, Running(id));
      RemovedTokens(s.tokens, i, Parsed(id));
    case Lookup =>
      var t := if NextOf(s.m).Some? then Running(NextOf(s.m).value) else Clearing;
      ReplacedTokens(s.tokens, i, t, Running(id));
      ReplacedTokens(s.tokens, i, t, Parsed(id));
    case Running(x) =>
      ReplacedTokens(s.tokens, i, Parsed(x), Running(id));
      ReplacedTokens(s.tokens, i, Parsed(x), Parsed(id));
    case Parsed(x) =>
      ReplacedTokens(s.tokens, i, Lookup, Running(id));
      ReplacedTokens(s.tokens, i, Lookup, Parsed(id));
    case Clearing =>
      ReplacedTokens(s.tokens, i, Delivering(s.m.responseSerializerCompletions), Running(id));
      ReplacedTokens(s.tokens, i, Delivering(s.m.responseSerializerCompletions), Parsed(id));
  }

  lemma AdvanceStarted(s: System, i: nat)
    requires StartedInFlight(s) && i < |s.tokens|
    ensures StartedInFlight(AdvanceToken(s, i))
  {
    var s' := AdvanceToken(s, i);
    forall id ensures Flying(s'.tokens, id) ==> id in s'.started { AdvanceFlying(s, i, id); }
    var c := |s'.m.responseSerializerCompletions|;
    forall p | c <= p < |s'.m.responseSerializers| ensures AtLookup(s', p) {
      AdvanceFlying(s, i, s.m.responseSerializers[p]);
      assert AtLookup(s, p);
      hide Replaced, Removed, Flying;
    }
    hide Replaced, Removed, Flying, AtLookup;
  }

  lemma StepStarted(s: System, e: Event)
    requires StartedInFlight(s) && Step(s, e).Some?
    ensures StartedInFlight(Step(s, e).value)
  {
    hide AdvanceToken;
    if e.Advance? {
      AdvanceStarted(s, e.i);
    } else {
      var s' := Step(s, e).value;
      assert forall id :: Flying(s'.tokens, id) <==> Flying(s.tokens, id);
      forall p | |s'.m.responseSerializerCompletions| <= p < |s'.m.responseSerializers| ensures AtLookup(s', p) {
        if p < |s.m.responseSerializers| { assert AtLookup(s, p); }
      }
    }
  }

  lemma {:induction false} RunStarted(events: seq<Event>)
    requires Run(Initial(), events).Some?
    ensures StartedInFlight(Run(Initial(), events).value)
  {
    if events != [] {
      RunStarted(events[..|events| - 1]);
      StepStarted(Run(Initial(), events[..|events| - 1]).value, events[|events| - 1]);
      hide StartedInFlight, Step;
    }
  }

  /** In every run a lookup starts a serializer that was started before if and only if another processing
      call has that serializer in flight at this moment. */
  lemma StartsAgainIff(events: seq<Event>, i: nat, id: nat)
    requires Run(Initial(), events).Some?
    requires var s := Run(Initial(), events).value;
             i < |s.tokens| && s.tokens[i] == Lookup && NextOf(s.m) == Some(id)
    ensures var s := Run(Initial(), events).value;
            id in s.started <==> Flying(s.tokens, id)
  {
    RunStarted(events);
    var s := Run(Initial(), events).value;
    hide Run;
    assert AtLookup(s, |s.m.responseSerializerCompletions|);
  }

  // ---- Clearing drops what was not started ----------------------------------------------------------------------------------

  lemma LateStartsStep(s: System, e: Event, n: nat, id: nat)
    requires Step(s, e).Some? && Late(s.m.responseSerializers, n) && n <= s.appended && id < n
    ensures var s' := Step(s, e).value;
            Late(s'.m.responseSerializers, n) && n <= s'.appended && Times(s'.started, id) == Times(s.started, id)
  {
    hide Replaced, Removed;
    if e.Advance? && s.tokens[e.i].Lookup? && NextOf(s.m).Some? {
      var x := NextOf(s.m).value;
      TimesConcat(s.started, [x], id);
      assert Times([x], id) == Times([], id) + (if x == id then 1 else 0);
    }
    hide Times;
  }

  lemma {:induction false} LateStarts(s: System, events: seq<Event>, n: nat, id: nat)
    requires Late(s.m.responseSerializers, n) && n <= s.appended && id < n && Run(s, events).Some?
    ensures var s' := Run(s, events).value;
            Late(s'.m.responseSerializers, n) && n <= s'.appended && Times(s'.started, id) == Times(s.started, id)
  {
    if events != [] {
      LateStarts(s, events[..|events| - 1], n, id);
      LateStartsStep(Run(s, events[..|events| - 1]).value, events[|events| - 1], n, id);
      hide Step, Times, Late;
    }
  }

  /** Whatever happens after any clearing, no serializer appended before it is started again; so one not
      started by then never runs. */
  lemma ClearingEndsStarts(s: System, i: nat, events: seq<Event>, id: nat)
    requires i < |s.tokens| && s.tokens[i] == Clearing && id < s.appended
    requires Run(AdvanceToken(s, i), events).Some?
    ensures Times(Run(AdvanceToken(s, i), events).value.started, id) == Times(s.started, id)
  {
    LateStarts(AdvanceToken(s, i), events, s.appended, id);
    hide Run, Times;
  }

  // ---- Later passes one at a time --------------------------------------------------------------------------------------------

  /** After the first clearing, serializers are appended and `finish` is called only while no processing call
      is alive. */
  ghost predicate OneAtATime(events: seq<Event>) {
    forall k | 0 <= k < |events| && (events[k].Append? || events[k].Finish?) :: QuietAfterFirst(events[..k])
  }

  ghost predicate QuietAfterFirst(before: seq<Event>) {
    var s := Run(Initial(), before);
    s.Some? && s.value.first.Some? ==> s.value.tokens == []
  }

  lemma OneAtATimeBefore(events: seq<Event>)
    requires OneAtATime(events) && events != []
    ensures OneAtATime(events[..|events| - 1])
  {
    var before := events[..|events| - 1];
    forall k | 0 <= k < |before| && (before[k].Append? || before[k].Finish?) ensures QuietAfterFirst(before[..k]) {
      assert before[..k] == events[..k] && before[k] == events[k];
    }
  }

  /** The serializers of the first pass and, in order, those appended from the first clearing on. */
  function Kept(s: System, n: nat): (ids: seq<nat>)
    requires s.first.Some? && s.atClear <= n
  {
    Upto(s.first.value) + seq(n - s.atClear, j requires 0 <= j < n - s.atClear => s.atClear + j)
  }

  lemma KeptNext(s: System, n: nat)
    requires s.first.Some? && s.atClear <= n
    ensures Kept(s, n) + [n] == Kept(s, n + 1)
  {}

  /** The late serializer `last` waits for its lookup, runs, or has completed. */
  ghost predicate LateSerializer(s: System, t: Token)
    requires s.first.Some? && s.atClear < s.appended
  {
    var last := s.appended - 1;
    && s.m.responseSerializers == [last]
    && s.called == Kept(s, last)
    && match t
       case Lookup =>
         || (s.m.responseSerializerCompletions == [] && s.started == Kept(s, last) && s.completed == Kept(s, last))
         || (s.m.responseSerializerCompletions == [last] && s.started == Kept(s, last + 1) && s.completed == Kept(s, last + 1))
       case Clearing =>
         s.m.responseSerializerCompletions == [last] && s.started == Kept(s, last + 1) && s.completed == Kept(s, last + 1)
       case Running(id) =>
         id == last && s.m.responseSerializerCompletions == [] && s.started == Kept(s, last + 1) && s.completed == Kept(s, last)
       case Parsed(id) =>
         id == last && s.m.responseSerializerCompletions == [] && s.started == Kept(s, last + 1) && s.completed == Kept(s, last)
       case Delivering(_) => false
  }

  ghost predicate AllDone(s: System)
    requires s.first.Some? && s.atClear <= s.appended
  {
    && s.m.responseSerializers == [] && s.m.responseSerializerCompletions == []
    && s.started == Kept(s, s.appended) && s.completed == Kept(s, s.appended)
  }

  ghost predicate Serial(s: System) {
    && s.first.Some? && s.atClear <= s.appended && s.m.responseSerializerProcessingFinished
    && |s.tokens| <= 1
    && if s.tokens == [] then AllDone(s) && s.called == Kept(s, s.appended)
       else match s.tokens[0]
            case Delivering(ids) => AllDone(s) && s.called + ids == Kept(s, s.appended)
            case Running(_) => s.atClear < s.appended && LateSerializer(s, s.tokens[0])
            case Parsed(_) => s.atClear < s.appended && LateSerializer(s, s.tokens[0])
            case _ => (AllDone(s) && s.called == Kept(s, s.appended)) || (s.atClear < s.appended && LateSerializer(s, s.tokens[0]))
  }

  lemma FirstClearIsSerial(s: System)
    requires FirstPass(s) && s.tokens[0].Clearing?
    ensures Serial(AdvanceToken(s, 0))
  {
    var s' := AdvanceToken(s, 0);
    assert Kept(s', s'.appended) == Upto(s'.first.value);
    assert s'.called + Upto(s'.first.value) == Upto(s'.first.value);
  }

  lemma SerialAdvance(s: System)
    requires Serial(s) && |s.tokens| == 1
    ensures Serial(AdvanceToken(s, 0))
  {
    var s' := AdvanceToken(s, 0);
    if s.atClear < s.appended { KeptNext(s, s.appended - 1); }
    KeptSame(s, s');
    hide Kept;
    if s.tokens[0].Delivering? {
      assert s'.tokens == [];
    } else {
      assert s'.tokens == [s'.tokens[0]];
      assert s.called + [] == s.called;
    }
  }

  lemma KeptSame(s: System, s': System)
    requires s.first.Some? && s'.first == s.first && s'.atClear == s.atClear
    ensures forall n | s.atClear <= n :: Kept(s', n) == Kept(s, n)
  {}

  lemma SerialStep(s: System, e: Event)
    requires Serial(s) && Step(s, e).Some? && (e.Append? || e.Finish? ==> s.tokens == [])
    ensures Serial(Step(s, e).value)
  {
    hide AdvanceToken;
    if e.Advance? {
      SerialAdvance(s);
    } else {
      KeptSame(s, Step(s, e).value);
      hide Kept;
    }
  }

  lemma {:induction false} RunIsSerial(events: seq<Event>)
    requires Run(Initial(), events).Some? && Run(Initial(), events).value.first.Some? && OneAtATime(events)
    ensures Serial(Run(Initial(), events).value)
  {
    if events != [] {
      var before, e := events[..|events| - 1], events[|events| - 1];
      var s := Run(Initial(), before).value;
      OneAtATimeBefore(events);
      RunKeeps(before);
      if s.first.Some? {
        RunIsSerial(before);
        if e.Append? || e.Finish? { assert QuietAfterFirst(before); }
        SerialStep(s, e);
      } else {
        FirstSomeByClearing(s, e);
        FirstClearIsSerial(s);
      }
      hide Serial, FirstPass, Step;
    }
  }

  lemma FirstSomeByClearing(s: System, e: Event)
    requires Inv(s) && s.first.None? && Step(s, e).Some? && Step(s, e).value.first.Some?
    ensures FirstPass(s) && s.tokens[0].Clearing? && Step(s, e).value == AdvanceToken(s, 0)
  {
    hide Replaced, Removed;
  }

  lemma InvBounds(s: System)
    requires Inv(s) && s.first.Some?
    ensures s.first == Some(s.atEmptyLookup) && s.atEmptyLookup <= s.atClear <= s.appended
  {}

  lemma SerialStarted(s: System)
    requires Serial(s)
    ensures |s.tokens| <= 1
    ensures s.started == Kept(s, s.appended) || (s.atClear < s.appended && s.started == Kept(s, s.appended - 1))
    ensures s.tokens == [] ==> s.started == s.completed == s.called == Kept(s, s.appended)
  {
    hide Kept;
  }

  /** When late appends and finishes keep to the quiet moments, every pass behaves like the first: at most one
      processing call is alive, no serializer is started twice, and in a quiet moment every serializer but
      those dropped by the first clearing has run and its completion been called exactly once, all in order
      of appending. */
  lemma SerialPassesRunOnce(events: seq<Event>, id: nat)
    requires Run(Initial(), events).Some? && Run(Initial(), events).value.first.Some? && OneAtATime(events)
    ensures var s := Run(Initial(), events).value;
            && |s.tokens| <= 1 && s.atEmptyLookup <= s.atClear <= s.appended
            && Times(s.started, id) <= 1
            && (s.tokens == [] ==> s.started == s.completed == s.called)
            && (s.tokens == [] && id < s.appended ==>
                  Times(s.started, id) == if s.atEmptyLookup <= id < s.atClear then 0 else 1)
  {
    hide Run, Inv, Serial, Times, Kept;
    RunKeeps(events);
    RunIsSerial(events);
    var s := Run(Initial(), events).value;
    InvBounds(s);
    SerialStarted(s);
    KeptTimes(s, s.appended, id);
    if s.atClear < s.appended { KeptTimes(s, s.appended - 1, id); }
  }

  lemma {:induction false} KeptTimes(s: System, n: nat, id: nat)
    requires s.first.Some? && s.first.value <= s.atClear <= n
    ensures Times(Kept(s, n), id) == if id < s.first.value || s.atClear <= id < n then 1 else 0
    decreases n
  {
    if n == s.atClear {
      assert Kept(s, n) == Upto(s.first.value);
      TimesUpto(s.first.value, id);
    } else {
      KeptTimes(s, n - 1, id);
      KeptNext(s, n - 1);
      TimesConcat(Kept(s, n - 1), [n - 1], id);
      assert Times([n - 1], id) == Times([], id) + (if n - 1 == id then 1 else 0);
    }
  }

  // ---- What it does not guarantee --------------------------------------------------------------------------------------

  lemma {:induction false} RunPush(s: System, events: seq<Event>, e: Event)
    ensures Run(s, events + [e]) == var s' := Run(s, events); if s'.Some? then Step(s'.value, e) else None
  {
    assert (events + [e])[..|events|] == events;
  }

  /** Finishing without serializers, up to the lookup that comes up empty. */
  lemma EmptyLookup() returns (events: seq<Event>)
    ensures Run(Initial(), events)
         == Some(System(MutableState(Initialized, [], [], false, true), [Clearing], 0, Some(0), 0, 0, None, [], [], []))
  {
    var e1 := [] + [Finish];
    events := e1 + [Advance(0)];
    RunPush(Initial(), [], Finish);
    assert Run(Initial(), e1).value.tokens == [Lookup];
    hide Run;
    RunPush(Initial(), e1, Advance(0));
    assert Run(Initial(), events).value.tokens == [Clearing];
  }

  /** A serializer appended between the lookup that comes up empty and the clearing is dropped: nothing
      is left to run it. */
  lemma LostBetweenLookupAndClear() returns (events: seq<Event>)
    ensures Run(Initial(), events).Some?
    ensures var s := Run(Initial(), events).value;
            && s.appended == 1 && s.tokens == [] && s.started == [] && s.called == []
            && s.m.responseSerializers == [] && s.first == Some(0) && s.atClear == 1
  {
    hide Run;
    var e2 := EmptyLookup();
    var e3 := e2 + [Append];
    var e4 := e3 + [Advance(0)];
    events := e4 + [Advance(0)];
    RunPush(Initial(), e2, Append);
    RunPush(Initial(), e3, Advance(0));
    assert Run(Initial(), e4).value.tokens == [Delivering([])];
    RunPush(Initial(), e4, Advance(0));
  }

  /** A first pass without serializers, over and quiet. */
  lemma QuietPass() returns (events: seq<Event>)
    ensures Run(Initial(), events)
         == Some(System(MutableState(Finished, [], [], true, false), [], 0, Some(0), 0, 0, Some(0), [], [], []))
  {
    hide Run;
    var e2 := EmptyLookup();
    var e3 := e2 + [Advance(0)];
    events := e3 + [Advance(0)];
    RunPush(Initial(), e2, Advance(0));
    assert Run(Initial(), e3).value.tokens == [Delivering([])];
    RunPush(Initial(), e3, Advance(0));
    var s := Run(Initial(), events).value;
    assert s.tokens == [] && s.called == [];
  }

  /** Two late appends in a row, each with a processing call of its own. */
  lemma TwoLateAppends(quiet: seq<Event>)
    requires Run(Initial(), quiet)
          == Some(System(MutableState(Finished, [], [], true, false), [], 0, Some(0), 0, 0, Some(0), [], [], []))
    ensures Run(Initial(), quiet + [Append] + [Append])
         == Some(System(MutableState(Resumed, [0, 1], [], true, false), [Lookup, Lookup], 2, Some(0), 0, 0, Some(0), [], [], []))
  {
    hide Run;
    RunPush(Initial(), quiet, Append);
    var s := Run(Initial(), quiet + [Append]).value;
    assert s.tokens == [Lookup] && s.m.responseSerializers == [0];
    RunPush(Initial(), quiet + [Append], Append);
    var s' := Run(Initial(), quiet + [Append] + [Append]).value;
    assert s'.tokens == [Lookup, Lookup] && s'.m.responseSerializers == [0, 1];
  }

  /** After the first pass two appends in a row start the first of them twice, although it was appended
      while no processing call was alive: both of the processing calls they enqueue look up the same
      position. */
  lemma LateAppendsRunTwice() returns (quiet: seq<Event>, events: seq<Event>)
    ensures Run(Initial(), quiet).Some? && Run(Initial(), quiet).value.tokens == [] && Run(Initial(), quiet).value.first.Some?
    ensures events == quiet + [Append] + [Append] + [Advance(0)] + [Advance(1)] && Run(Initial(), events).Some?
    ensures var s := Run(Initial(), events).value;
            s.appended == 2 && s.started == [0, 0]
  {
    hide Run;
    quiet := QuietPass();
    TwoLateAppends(quiet);
    var e6 := quiet + [Append] + [Append];
    var e7 := e6 + [Advance(0)];
    events := e7 + [Advance(1)];
    RunPush(Initial(), e6, Advance(0));
    assert Run(Initial(), e7).value.started == [0];
    RunPush(Initial(), e7, Advance(1));
    assert Run(Initial(), events).value.started == [0, 0];
  }

  // ---- The request's state ------------------------------------------------------------------------------------------------

  /** The allowed transitions, listed. */
  lemma AllowedTransitions(a: State, b: State)
    ensures a.CanTransitionTo(b) <==>
            (a, b) in {(Initialized, Initialized), (Initialized, Resumed), (Initialized, Suspended), (Initialized, Cancelled),
                       (Initialized, Finished), (Resumed, Suspended), (Resumed, Cancelled), (Resumed, Finished),
                       (Suspended, Resumed), (Suspended, Cancelled), (Suspended, Finished)}
  {}

  ghost predicate Processing(tokens: seq<Token>) {
    exists k :: 0 <= k < |tokens| && !tokens[k].Delivering?
  }

  /** A request that is finishing, or not settled after its first pass, has a processing call on its way to a
      clearing. */
  ghost predicate Attended(s: System) {
    && (s.m.isFinishing ==> Processing(s.tokens))
    && (s.first.Some? ==> s.m.state.Finished? || s.m.state.Cancelled? || Processing(s.tokens))
  }

  lemma AdvanceAttended(s: System, i: nat)
    requires Attended(s) && i < |s.tokens|
    ensures Attended(AdvanceToken(s, i))
  {
    var s' := AdvanceToken(s, i);
    if s.tokens[i].Delivering? {
      if Processing(s.tokens) {
        var k :| 0 <= k < |s.tokens| && !s.tokens[k].Delivering?;
        assert s'.tokens[if k < i then k else k - 1] == s.tokens[k];
      }
    } else if !s.tokens[i].Clearing? {
      assert !s'.tokens[i].Delivering?;
    }
  }

  lemma StepAttended(s: System, e: Event)
    requires Attended(s) && Step(s, e).Some? && Inv(s)
    ensures Attended(Step(s, e).value)
  {
    hide AdvanceToken;
    if e.Advance? {
      AdvanceAttended(s, e.i);
    } else {
      var s' := Step(s, e).value;
      if Processing(s.tokens) {
        var k :| 0 <= k < |s.tokens| && !s.tokens[k].Delivering?;
        assert s'.tokens[k] == s.tokens[k];
      } else if |s'.tokens| > |s.tokens| {
        assert s'.tokens[|s.tokens|] == Lookup;
      }
      LatePassFlag(s);
      hide Inv;
    }
  }

  lemma LatePassFlag(s: System)
    requires Inv(s)
    ensures s.first.Some? ==> s.m.responseSerializerProcessingFinished
  {}

  lemma {:induction false} RunAttended(events: seq<Event>)
    requires Run(Initial(), events).Some?
    ensures Attended(Run(Initial(), events).value)
  {
    hide Step, Inv;
    if events != [] {
      RunAttended(events[..|events| - 1]);
      RunKeeps(events[..|events| - 1]);
      StepAttended(Run(Initial(), events[..|events| - 1]).value, events[|events| - 1]);
      hide Attended;
    }
  }

  /** In every run, after the first pass and when no processing call is left, the request is finished or was
      cancelled, and no longer finishing; so `finish` can start another pass, and a serializer appended now
      revives the request unless it was cancelled, and is processed. */
  lemma QuietIsSettled(events: seq<Event>)
    requires Run(Initial(), events).Some?
    ensures var s := Run(Initial(), events).value;
            s.first.Some? && s.tokens == [] ==>
              (&& (s.m.state.Finished? || s.m.state.Cancelled?) && !s.m.isFinishing
               && Step(s, Finish).value.tokens == [Lookup] && Step(s, Append).value.tokens == [Lookup]
               && Step(s, Append).value.m.state == if s.m.state.Cancelled? then Cancelled else Resumed)
  {
    RunAttended(events);
    RunKeeps(events);
    LatePassFlag(Run(Initial(), events).value);
    hide Run, Inv;
  }

  /** Cancellation is final. */
  lemma {:induction false} CancelledIsFinal(s: System, events: seq<Event>)
    requires s.m.state.Cancelled? && Run(s, events).Some?
    ensures Run(s, events).value.m.state.Cancelled?
  {
    hide Replaced, Removed;
    if events != [] { CancelledIsFinal(s, events[..|events| - 1]); }
  }
}
