/** What a decoded message holds for a field of which no record arrived, in terms of the descriptor's default. */
module AbsentFields {
  import opened Bytes
  import opened Varint
  import opened Messages
  import opened Decode
  import opened DefaultMessages
  import opened RoundTrip
  import opened Soundness

  /** The all-zero value of a field's type; a submessage is itself at its defaults. */
  ghost predicate AtZero(f: Field, v: Value) {
    match f.ltype
    case BytesType => v == Blob([])
    case StringType => v == Blob([])
    case FixedLengthBytesType => v.Blob? && |v.data| == f.dataSize && forall k | 0 <= k < f.dataSize :: v.data[k] == 0
    case SubmessageType(sub) => v == Msg(Defaults(sub))
    case _ => v == Num(0)
  }

  /** The declared default where there is one, else zero. */
  ghost predicate AtDefault(f: Field, v: Value) {
    if f.initial.Some? then v == f.initial.value else AtZero(f, v)
  }

  /** What a struct member holds that nothing was received for. */
  ghost predicate HoldsInitial(f: Field, x: Slot) {
    match f.htype
    case Required => x.One? && AtDefault(f, x.v)
    case Singular => x.One? && AtDefault(f, x.v)
    case Optional => x.Opt? && !x.has && AtDefault(f, x.v)
    case Repeated => x == Many([])
    case FixedCount => x.Many? && |x.items| == f.arraySize && forall k | 0 <= k < |x.items| :: AtZero(f, x.items[k])
    case Oneof => x == Unset
  }

  lemma ZeroByType(f: Field)
    ensures AtZero(f, ZeroValue(f))
  {}

  lemma DefaultByType(f: Field)
    requires ValidField(f)
    ensures AtDefault(f, DefaultValue(f))
  {
    ZeroByType(f);
  }

  /** The default message holds every field's declared default, or zero if none is declared. */
  lemma DefaultsByDescriptor(mt: MsgType, i: nat)
    requires ValidType(mt) && i < |mt.fields|
    ensures HoldsInitial(mt.fields[i], GetSlot(Defaults(mt), mt.fields[i].slot))
  {
    var f := mt.fields[i];
    SlotBound(mt, i);
    DefaultsAt(mt, i);
    ZeroByType(f);
    DefaultByType(f);
    hide ValidType, ValidField, Defaults, ZeroValue, DefaultValue, AtZero, AtDefault;
  }

  // ---- Fields that did not arrive --------------------------------------------------------------------------

  /** None of the fields in slot `k` has a record on the wire. */
  ghost predicate Missing(mt: MsgType, tags: set<nat>, k: nat) {
    forall i | 0 <= i < |mt.fields| && mt.fields[i].slot == k :: mt.fields[i].tag !in tags
  }

  lemma BodyLeaves(mt: MsgType, tag: nat, wireType: nat, s: seq<byte>, st: DState, k: nat)
    requires DecodeBody(mt, tag, wireType, s, st).Got? && Missing(mt, {tag}, k)
    ensures GetSlot(DecodeBody(mt, tag, wireType, s, st).value.slots, k) == GetSlot(st.slots, k)
  {
    hide DecodeSlot, SkipField, DecodeVarint32, RequiredBefore;
  }

  lemma {:induction false} LoopLeaves(mt: MsgType, s: seq<byte>, st: DState, k: nat)
    requires DecodeLoop(mt, s, st).Got? && Missing(mt, WireTags(mt, s, st), k)
    ensures GetSlot(DecodeLoop(mt, s, st).value.st.slots, k) == GetSlot(st.slots, k)
    decreases |s|
  {
    hide DecodeBody, DecodeVarint32;
    if s != [] {
      var raw, n := DecodeVarint32(s).value, DecodeVarint32(s).used;
      if raw != 0 {
        var p := DecodeRecord(mt, s, st);
        assert WireTags(mt, s, st) == {raw / 8} + WireTags(mt, s[p.used..], p.value.st);
        BodyLeaves(mt, raw / 8, raw % 8, s[n..], st, k);
        LoopLeaves(mt, s[p.used..], p.value.st, k);
      }
    }
  }

  /** Decoding any bytes that hold no record for a struct member leaves the member at its declared default, or
      at zero if none is declared. */
  lemma AbsentHoldsDefault(mt: MsgType, s: seq<byte>, i: nat)
    requires ValidType(mt) && i < |mt.fields| && DecodeMessage(mt, s).Got?
    requires Missing(mt, WireTags(mt, s, Start(Defaults(mt))), mt.fields[i].slot)
    ensures HoldsInitial(mt.fields[i], GetSlot(DecodeMessage(mt, s).value, mt.fields[i].slot))
  {
    hide ValidType, DecodeLoop, WireTags, Missing, HoldsInitial, Finished, Defaults;
    LoopLeaves(mt, s, Start(Defaults(mt)), mt.fields[i].slot);
    DefaultsByDescriptor(mt, i);
  }
}
