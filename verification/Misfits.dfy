/** Decoding an encoded message onto one it does not fit on: where arrays of both exceed their size, at any
    depth at which messages are merged, decoding fails. */
module Misfits {
  import opened Bytes
  import opened Varint
  import opened Messages
  import opened Encode
  import opened Decode
  import opened Framing
  import opened Merge
  import opened DefaultMessages
  import opened RoundTrip
  import opened Packing

  /** A record whose body cannot be stored makes decoding fail. */
  lemma RecordFails(mt: MsgType, i: nat, wireType: nat, body: seq<byte>, st: DState)
    requires ValidType(mt) && i < |mt.fields| && wireType < 8 && BeginField(mt, i, st) == Some(st)
    requires DecodeSlot(mt.fields[i], wireType, body, GetSlot(st.slots, mt.fields[i].slot), st.fixedSize).Fail?
    ensures DecodeLoop(mt, EncodeTag(wireType, mt.fields[i].tag) + body, st).Fail?
  {
    hide DecodeVarint32, EncodeTag, FindField, ValidType, ValidField, DecodeSlot, BeginField;
    var f := mt.fields[i];
    SlotBound(mt, i);
    TagRange(f);
    var r := EncodeTag(wireType, f.tag) + body;
    TagDecodes(f.tag, wireType, body);
    FindOwn(mt, i);
    assert r[|EncodeTag(wireType, f.tag)|..] == body;
    assert DecodeBody(mt, f.tag, wireType, body, st).Fail?;
    assert DecodeRecord(mt, r, st).Fail?;
  }

  /** A further element of an unpacked array that is full. */
  lemma FullRepeatedFails(mt: MsgType, i: nat, v: Value, st: DState, items: seq<Value>, rest: seq<byte>)
    requires ValidType(mt) && i < |mt.fields| && mt.fields[i].htype.Repeated? && !Packable(mt.fields[i].ltype)
    requires Receiving(mt, i, st, items, |items|) && |items| >= mt.fields[i].arraySize
    requires EncodeTagged(mt.fields[i], v).Some?
    ensures DecodeLoop(mt, EncodeTagged(mt.fields[i], v).value + rest, st).Fail?
  {
    var f := mt.fields[i];
    var body := EncodeValue(f, v).value + rest;
    assert EncodeTagged(f, v).value + rest == EncodeTag(WireType(f.ltype), f.tag) + body;
    hide ValidType, EncodeTag, EncodeValue, DecodeValue, DecodeLoop;
    RecordFails(mt, i, WireType(f.ltype), body, st);
  }

  /** An unpacked array with more elements than there is room for. */
  lemma {:induction false} UnpackedOverflows(mt: MsgType, i: nat, vals: seq<Value>, st: DState, items: seq<Value>, rest: seq<byte>)
    requires ValidType(mt) && i < |mt.fields| && mt.fields[i].htype.Repeated? && !Packable(mt.fields[i].ltype)
    requires Receiving(mt, i, st, items, |items|) && |items| <= mt.fields[i].arraySize < |items| + |vals|
    requires forall k | 0 <= k < |vals| :: ItemFits(mt.fields[i], vals[k])
    requires EncodeUnpacked(mt.fields[i], vals).Some? && AllShort(mt.fields[i], vals)
    ensures DecodeLoop(mt, EncodeUnpacked(mt.fields[i], vals).value + rest, st).Fail?
    decreases |vals|
  {
    hide EncodeTagged, ValidType, ItemFits, MergeValue, DecodeLoop;
    var f := mt.fields[i];
    var e, tail := EncodeTagged(f, vals[0]).value, EncodeUnpacked(f, vals[1..]).value;
    assert EncodeUnpacked(f, vals).value + rest == e + (tail + rest);
    if |items| == f.arraySize {
      FullRepeatedFails(mt, i, vals[0], st, items, tail + rest);
    } else {
      ItemDecodes(mt, i, vals[0], st, items, |items|);
      var items' := StoreItem(items, |items|, MergeValue(f, Unset, vals[0]));
      var st' := WithSlot(mt, i, st, Many(items'), st.fixedSize);
      UnpackedOverflows(mt, i, vals[1..], st', items', rest);
      DecodeConcat(mt, e, tail + rest, st);
    }
  }

  /** A repeated field whose elements exceed the room left. */
  lemma ArrayOverflows(mt: MsgType, i: nat, vals: seq<Value>, st: DState, items: seq<Value>, rest: seq<byte>)
    requires ValidType(mt) && i < |mt.fields| && ValidField(mt.fields[i]) && mt.fields[i].htype.Repeated?
    requires Receiving(mt, i, st, items, |items|) && |items| <= mt.fields[i].arraySize < |items| + |vals|
    requires ValidItems(mt.fields[i], vals)
    requires EncodeArray(mt.fields[i], vals).Some? && SlotShort(mt.fields[i], Many(vals))
    ensures DecodeLoop(mt, EncodeArray(mt.fields[i], vals).value + rest, st).Fail?
  {
    hide ValidType, ValidField, ValidItems, EncodePacked, EncodeUnpacked, EncodeTag, DecodeLoop, Receiving;
    var f := mt.fields[i];
    if Packable(f.ltype) {
      assert EncodeArray(f, vals).value == ChunkBytes(f, Packed(vals));
      ChunkDecodes(mt, i, Packed(vals), st, items, |items|, rest);
    } else {
      ItemsFit(f, vals);
      UnpackedOverflows(mt, i, vals, st, items, rest);
    }
  }

  lemma SubmessageSlotFails(f: Field, payload: seq<byte>, rest: seq<byte>, was: Slot, size: nat)
    requires f.ltype.SubmessageType? && !f.htype.Repeated? && !f.htype.FixedCount? && |payload| < TWO32
    requires DecodeNoinit(f.ltype.sub, payload, StartOf(f, was)).Fail?
    ensures DecodeSlot(f, WT_STRING, EncodeString(payload) + rest, was, size).Fail?
  {
    hide DecodeNoinit, StartOf, LenDelim, EncodeString;
    LenDelimEncoded(payload);
    LenDelimLocal(EncodeString(payload), rest);
  }

  /** A submessage that does not fit on what its field holds. */
  lemma SubmessageFails(mt: MsgType, i: nat, v: Value, st: DState, rest: seq<byte>)
    requires ValidType(mt) && i < |mt.fields| && mt.fields[i].ltype.SubmessageType? && v.Msg?
    requires !mt.fields[i].htype.Repeated? && !mt.fields[i].htype.FixedCount?
    requires EncodeTagged(mt.fields[i], v).Some? && Short(mt.fields[i], v)
    requires EncodeMessage(mt.fields[i].ltype.sub, v.members).Some?
    requires var start := StartOf(mt.fields[i], GetSlot(st.slots, mt.fields[i].slot));
             DecodeNoinit(mt.fields[i].ltype.sub, EncodeMessage(mt.fields[i].ltype.sub, v.members).value, start).Fail?
    ensures DecodeLoop(mt, EncodeTagged(mt.fields[i], v).value + rest, st).Fail?
  {
    hide ValidType, EncodeTag, DecodeLoop, DecodeNoinit, EncodeFrom, StartOf, DecodeSlot, EncodeString;
    var f := mt.fields[i];
    var payload := EncodeFrom(f.ltype.sub, v.members, 0).value;
    TaggedIsLonger(f, v);
    SubmessageSlotFails(f, payload, rest, GetSlot(st.slots, f.slot), st.fixedSize);
    var tag, s := EncodeTag(WT_STRING, f.tag), EncodeString(payload);
    assert tag + s + rest == tag + (s + rest);
    RecordFailsAfterBegin(mt, i, WT_STRING, s + rest, st);
  }

  /** The same when the record also marks a required field first. */
  lemma RecordFailsAfterBegin(mt: MsgType, i: nat, wireType: nat, body: seq<byte>, st: DState)
    requires ValidType(mt) && i < |mt.fields| && wireType < 8 && !mt.fields[i].htype.FixedCount?
    requires DecodeSlot(mt.fields[i], wireType, body, GetSlot(st.slots, mt.fields[i].slot), st.fixedSize).Fail?
    ensures DecodeLoop(mt, EncodeTag(wireType, mt.fields[i].tag) + body, st).Fail?
  {
    hide ValidType, EncodeTag, DecodeLoop, DecodeSlot, RequiredBefore;
    var st1 := BeginField(mt, i, st).value;
    SameAfterBegin(mt, i, wireType, body, st);
    RecordFails(mt, i, wireType, body, st1);
  }

  // ---- Messages ------------------------------------------------------------------------------------------

  lemma MisfitFieldFails(mt: MsgType, i: nat, now: Slot, st: DState, rest: seq<byte>)
    requires ValidType(mt) && i < |mt.fields| && |st.slots| == mt.slots && mt.fields[i].slot < mt.slots
    requires ValidField(mt.fields[i]) && ValidSlot(mt.fields[i], now)
    requires var was := GetSlot(st.slots, mt.fields[i].slot);
             ValidSlot(mt.fields[i], was) && !SlotFits(mt.fields[i], was, now)
    requires EncodeField(mt.fields[i], now).Some? && SlotShort(mt.fields[i], now)
    ensures DecodeLoop(mt, EncodeField(mt.fields[i], now).value + rest, st).Fail?
    decreases mt, 0
  {
    hide ValidType, ValidField, ValidItems, EncodeTagged, EncodeArray, IsZero, DecodeLoop, ValidMessage, MergeFits, Defaults, StartOf;
    hide ValidScalar, EncodeFrom, DecodeNoinit;
    var f := mt.fields[i];
    var was := GetSlot(st.slots, f.slot);
    if now.Many? {
      ArrayOverflows(mt, i, now.items, st, was.items, rest);
    } else {
      SubmessageHere(f, now);
      TaggedIsLonger(f, now.v);
      StartValid(f, was);
      ShortIsDelimited(f.ltype.sub, now.v.members);
      MisfitFails(f.ltype.sub, StartOf(f, was), now.v.members);
      SubmessageFails(mt, i, now.v, st, rest);
    }
  }

  lemma SubmessageHere(f: Field, now: Slot)
    requires ValidField(f) && f.ltype.SubmessageType? && ValidSlot(f, now) && Emits(f, now) && !now.Many?
    ensures ValidType(f.ltype.sub) && now.v.Msg? && ValidMessage(f.ltype.sub, now.v.members)
  {
    hide ValidType, ValidMessage, IsZero;
  }

  lemma TaggedIsLonger(f: Field, v: Value)
    requires f.ltype.SubmessageType? && v.Msg? && EncodeTagged(f, v).Some?
    ensures EncodeMessage(f.ltype.sub, v.members).Some?
    ensures |EncodeMessage(f.ltype.sub, v.members).value| < |EncodeTagged(f, v).value|
  {
    hide EncodeFrom;
  }

  /** Some field from index `i` on does not fit. */
  ghost predicate MisfitFrom(mt: MsgType, m1: seq<Slot>, m2: seq<Slot>, i: nat) {
    exists j :: i <= j < |mt.fields| && !SlotFits(mt.fields[j], GetSlot(m1, mt.fields[j].slot), GetSlot(m2, mt.fields[j].slot))
  }

  lemma {:induction false} MisfitFieldsFail(mt: MsgType, m1: seq<Slot>, m2: seq<Slot>, st: DState, i: nat)
    requires ValidType(mt) && ValidMessage(mt, m1) && ValidMessage(mt, m2) && i <= |mt.fields|
    requires st.slots == m1 && FixedReady(mt, st, 0) && MisfitFrom(mt, m1, m2, i)
    requires EncodeFrom(mt, m2, i).Some? && Delimited(mt, m2)
    ensures DecodeLoop(mt, EncodeFrom(mt, m2, i).value, StateAt(mt, m2, st, i)).Fail?
    decreases mt, 1, |mt.fields| - i
  {
    hide ValidType, ValidField, ValidMessage, ValidSlot, SlotFits, Emits, EncodeField, AfterField, DecodeLoop;
    var f := mt.fields[i];
    var now, was := GetSlot(m2, f.slot), GetSlot(m1, f.slot);
    var here, rest := StateAt(mt, m2, st, i), EncodeFrom(mt, m2, i + 1).value;
    FieldHere(mt, m1, m2, st, i);
    if !SlotFits(f, was, now) {
      MisfitFieldFails(mt, i, now, here, rest);
    } else {
      MisfitFieldsFail(mt, m1, m2, st, i + 1);
      StateFixed(mt, m2, st, i);
      FieldDecodes(mt, i, now, here);
      DecodeConcat(mt, EncodeField(f, now).value, rest, here);
    }
  }

  /** What field `i` holds when its turn comes. */
  lemma FieldHere(mt: MsgType, m1: seq<Slot>, m2: seq<Slot>, st: DState, i: nat)
    requires ValidType(mt) && ValidMessage(mt, m1) && ValidMessage(mt, m2) && i < |mt.fields| && st.slots == m1
    ensures var f := mt.fields[i];
            && ValidField(f) && ValidSlot(f, GetSlot(m1, f.slot)) && ValidSlot(f, GetSlot(m2, f.slot))
            && f.slot < mt.slots && |StateAt(mt, m2, st, i).slots| == mt.slots
            && (Emits(f, GetSlot(m2, f.slot)) ==> GetSlot(StateAt(mt, m2, st, i).slots, f.slot) == GetSlot(m1, f.slot))
            && (!SlotFits(f, GetSlot(m1, f.slot), GetSlot(m2, f.slot)) ==> Emits(f, GetSlot(m2, f.slot)))
  {
    var f := mt.fields[i];
    assert ValidField(f) && ValidSlot(f, GetSlot(m1, f.slot)) && ValidSlot(f, GetSlot(m2, f.slot));
    assert !SlotFits(f, GetSlot(m1, f.slot), GetSlot(m2, f.slot)) ==> Emits(f, GetSlot(m2, f.slot));
    hide ValidField, ValidSlot, Emits, SlotFits;
    StateSlots(mt, m2, st, i);
    if Emits(f, GetSlot(m2, f.slot)) { PrefixUntouched(mt, m1, m2, i, i); }
  }

  /** Decoding an encoded message onto one it does not fit on fails. */
  lemma MisfitFails(mt: MsgType, m1: seq<Slot>, m2: seq<Slot>)
    requires ValidType(mt) && ValidMessage(mt, m1) && ValidMessage(mt, m2) && !MergeFits(mt, m1, m2)
    requires EncodeMessage(mt, m2).Some? && Delimited(mt, m2)
    ensures DecodeNoinit(mt, EncodeMessage(mt, m2).value, m1).Fail?
    decreases mt, 2
  {
    hide ValidType, ValidMessage, EncodeFrom, DecodeLoop, SlotFits;
    MisfitFieldsFail(mt, m1, m2, Start(m1), 0);
    StateZero(mt, m2, Start(m1));
  }

  /** An encoded message decodes onto a valid one if and only if it fits on it, and then into the merge. */
  lemma DecodesIffFits(mt: MsgType, m1: seq<Slot>, m2: seq<Slot>)
    requires ValidType(mt) && ValidMessage(mt, m1) && ValidMessage(mt, m2)
    requires EncodeMessage(mt, m2).Some? && Delimited(mt, m2)
    ensures DecodeNoinit(mt, EncodeMessage(mt, m2).value, m1)
         == if MergeFits(mt, m1, m2) then Got(MergeMessages(mt, m1, m2), |EncodeMessage(mt, m2).value|) else Fail
  {
    hide ValidType, ValidMessage, EncodeFrom, DecodeNoinit, MergeFits, MergeMessages;
    if MergeFits(mt, m1, m2) { MessageDecodes(mt, m1, m2); } else { MisfitFails(mt, m1, m2); }
  }
}
