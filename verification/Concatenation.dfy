/** Decoding the concatenation of two encoded messages: "last one wins" and its one exception. */
module Concatenation {
  import opened Bytes
  import opened Varint
  import opened Messages
  import opened Encode
  import opened Decode
  import opened Framing
  import opened Merge
  import opened DefaultMessages
  import opened RoundTrip
  import opened Theorems
  import opened Misfits

  /** Field `k` is the only fixed-count array of the message type. */
  ghost predicate SoleFixedCount(fs: seq<Field>, k: nat) {
    && k < |fs| && fs[k].htype.FixedCount?
    && forall j | 0 <= j < |fs| && fs[j].htype.FixedCount? :: j == k
  }

  /** After a whole message the decoder remembers its last fixed-count array. */
  lemma {:induction false} LastFixed(mt: MsgType, m: seq<Slot>, st: DState, i: nat)
    requires i <= |mt.fields| && st.fixedField.None?
    ensures var last := StateAt(mt, m, st, i).fixedField;
            && (last.Some? ==> last.value < i && mt.fields[last.value].htype.FixedCount?)
            && (forall j | (if last.Some? then last.value + 1 else 0) <= j < i :: !mt.fields[j].htype.FixedCount?)
            && (last.Some? ==> StateAt(mt, m, st, i).fixedSize == mt.fields[last.value].arraySize)
  {
    hide MergeSlot;
    if i > 0 { LastFixed(mt, m, st, i - 1); }
  }

  /** A further element for an array that is already full. */
  lemma FullArrayFails(mt: MsgType, k: nat, wireType: nat, body: seq<byte>, st: DState)
    requires ValidType(mt) && k < |mt.fields| && mt.fields[k].htype.FixedCount? && wireType < 8
    requires st.fixedField == Some(k) && st.fixedSize >= mt.fields[k].arraySize
    requires wireType == WT_STRING && Packable(mt.fields[k].ltype) ==> LenDelim(body).Got? && LenDelim(body).value != []
    ensures DecodeLoop(mt, EncodeTag(wireType, mt.fields[k].tag) + body, st).Fail?
  {
    var f := mt.fields[k];
    assert ValidField(f);
    hide DecodeVarint32, EncodeTag, FindField, ValidType, ValidField, DecodeScalar, DecodeValue, LenDelim;
    var r := EncodeTag(wireType, f.tag) + body;
    TagDecodes(f.tag, wireType, body);
    FindOwn(mt, k);
    assert r[|EncodeTag(wireType, f.tag)|..] == body;
    assert DecodeItems(f, wireType, body, ItemsOf(GetSlot(st.slots, f.slot)), st.fixedSize).Fail?;
    assert DecodeBody(mt, f.tag, wireType, body, st).Fail?;
    assert DecodeRecord(mt, r, st).Fail?;
  }

  lemma PackedNonEmpty(f: Field, items: seq<Value>)
    requires ValidField(f) && Packable(f.ltype) && ValidItems(f, items) && items != []
    requires EncodePacked(f, items).Some?
    ensures EncodePacked(f, items).value != []
  {
    hide EncodeScalar, ValidScalar;
    assert ValidData(f) && ValidScalar(f, items[0]);
    ScalarDecodes(f, items[0]);
  }

  lemma FullFieldFails(mt: MsgType, k: nat, x: Slot, rest: seq<byte>, st: DState)
    requires ValidType(mt) && k < |mt.fields| && mt.fields[k].htype.FixedCount?
    requires st.fixedField == Some(k) && st.fixedSize >= mt.fields[k].arraySize
    requires ValidField(mt.fields[k]) && ValidSlot(mt.fields[k], x)
    requires EncodeField(mt.fields[k], x).Some? && SlotShort(mt.fields[k], x)
    ensures DecodeLoop(mt, EncodeField(mt.fields[k], x).value + rest, st).Fail?
  {
    hide ValidType, DecodeLoop, EncodeTag, EncodeValue, EncodePacked, LenDelim, ValidItems;
    var f := mt.fields[k];
    var e := EncodeField(f, x).value;
    assert EncodeField(f, x) == EncodeArray(f, x.items);
    if Packable(f.ltype) {
      var payload := EncodePacked(f, x.items).value;
      PackedNonEmpty(f, x.items);
      LenDelimEncoded(payload);
      LenDelimLocal(EncodeString(payload), rest);
      assert e + rest == EncodeTag(WT_STRING, f.tag) + (EncodeString(payload) + rest);
      FullArrayFails(mt, k, WT_STRING, EncodeString(payload) + rest, st);
    } else {
      assert EncodeArray(f, x.items) == EncodeUnpacked(f, x.items)
          == Cat(EncodeTagged(f, x.items[0]), EncodeUnpacked(f, x.items[1..]));
      var body := EncodeValue(f, x.items[0]).value + EncodeUnpacked(f, x.items[1..]).value + rest;
      assert e + rest == EncodeTag(WireType(f.ltype), f.tag) + body;
      FullArrayFails(mt, k, WireType(f.ltype), body, st);
    }
  }

  /** The field whose turn it is and those behind it. */
  lemma CopyStep(mt: MsgType, m: seq<Slot>, st: DState, k: nat, i: nat)
    requires SoleFixedCount(mt.fields, k) && i <= k
    ensures i <= k < |mt.fields| && mt.fields[k].htype.FixedCount?
    ensures var f := mt.fields[i];
            && EncodeFrom(mt, m, i) == Cat(EncodeField(f, GetSlot(m, f.slot)), EncodeFrom(mt, m, i + 1))
            && StateAt(mt, m, st, i + 1) == AfterField(mt, i, GetSlot(m, f.slot), StateAt(mt, m, st, i))
            && (i != k ==> !f.htype.FixedCount?)
            && (Delimited(mt, m) ==> SlotShort(f, GetSlot(m, f.slot)))
  {
    hide EncodeField, AfterField, SlotShort;
  }

  /** A second encoded message fails at the sole fixed-count array, which is already full, if not before. */
  lemma {:induction false} SecondCopyFails(mt: MsgType, m1: seq<Slot>, m2: seq<Slot>, st: DState, k: nat, i: nat)
    requires ValidType(mt) && ValidMessage(mt, m1) && ValidMessage(mt, m2)
    requires st.slots == m1 && SoleFixedCount(mt.fields, k) && i <= k
    requires st.fixedField == Some(k) && st.fixedSize == mt.fields[k].arraySize
    requires EncodeFrom(mt, m2, i).Some? && Delimited(mt, m2)
    ensures DecodeLoop(mt, EncodeFrom(mt, m2, i).value, StateAt(mt, m2, st, i)).Fail?
    decreases k - i
  {
    hide EncodeFrom, StateAt, ValidType, ValidField, ValidMessage, ValidSlot, SlotFits, Emits, EncodeField, AfterField;
    hide SoleFixedCount, DecodeLoop, Delimited, SlotShort;
    CopyStep(mt, m2, st, k, i);
    var f := mt.fields[i];
    var now := GetSlot(m2, f.slot);
    var here, rest := StateAt(mt, m2, st, i), EncodeFrom(mt, m2, i + 1).value;
    FieldHere(mt, m1, m2, st, i);
    FixedUnmoved(mt, m2, st, k, i);
    if i == k {
      FullFieldFails(mt, k, now, rest, here);
    } else if !SlotFits(f, GetSlot(m1, f.slot), now) {
      MisfitFieldFails(mt, i, now, here, rest);
    } else {
      SecondCopyFails(mt, m1, m2, st, k, i + 1);
      FieldDecodes(mt, i, now, here);
      DecodeConcat(mt, EncodeField(f, now).value, rest, here);
    }
  }

  lemma {:induction false} FixedUnmoved(mt: MsgType, m: seq<Slot>, st: DState, k: nat, i: nat)
    requires SoleFixedCount(mt.fields, k) && i <= k
    ensures StateAt(mt, m, st, i).fixedField == st.fixedField && StateAt(mt, m, st, i).fixedSize == st.fixedSize
  {
    hide MergeSlot;
    if i > 0 { FixedUnmoved(mt, m, st, k, i - 1); }
  }

  /** The state after the first message, onto which the second is decoded. */
  lemma FirstCopy(mt: MsgType, m1: seq<Slot>)
    requires ValidType(mt) && ValidMessage(mt, m1) && CanonicalMessage(mt, m1)
    requires EncodeMessage(mt, m1).Some? && Delimited(mt, m1)
    ensures var p := DecodeLoop(mt, EncodeMessage(mt, m1).value, Start(Defaults(mt)));
            && p == Got(Run(StateAt(mt, m1, Start(Defaults(mt)), |mt.fields|), false), |EncodeMessage(mt, m1).value|)
            && p.value.st.slots == m1
  {
    hide ValidType, ValidMessage, CanonicalMessage, MergeFits, EncodeFrom, DecodeLoop, Defaults, StateAt, MergeMessages;
    DefaultsValid(mt);
    DefaultsFit(mt, m1);
    FieldsDecode(mt, Defaults(mt), m1, Start(Defaults(mt)), 0);
    StateZero(mt, m1, Start(Defaults(mt)));
    StateSlots(mt, m1, Start(Defaults(mt)), |mt.fields|);
    MergedAll(mt, m1);
    MergeOntoDefaults(mt, m1);
  }

  lemma MergedAll(mt: MsgType, m: seq<Slot>)
    ensures MergeUpTo(mt, Defaults(mt), m, |mt.fields|) == MergeMessages(mt, Defaults(mt), m)
  {}

  lemma MergeFails(mt: MsgType, m1: seq<Slot>, m2: seq<Slot>, k: nat)
    requires ValidType(mt) && ValidMessage(mt, m1) && ValidMessage(mt, m2) && CanonicalMessage(mt, m1)
    requires EncodeMessage(mt, m1).Some? && Delimited(mt, m1)
    requires EncodeMessage(mt, m2).Some? && Delimited(mt, m2)
    requires SoleFixedCount(mt.fields, k)
    ensures DecodeMessage(mt, EncodeMessage(mt, m1).value + EncodeMessage(mt, m2).value).Fail?
  {
    var st0, n := Start(Defaults(mt)), |mt.fields|;
    FirstCopy(mt, m1);
    LastFixed(mt, m1, st0, n);
    assert StateAt(mt, m1, st0, n).fixedField == Some(k);
    hide ValidType, ValidMessage, CanonicalMessage, MergeFits, EncodeFrom, DecodeLoop, Defaults, SoleFixedCount, StateAt;
    var st1 := StateAt(mt, m1, st0, n);
    SecondCopyFails(mt, m1, m2, st1, k, 0);
    StateZero(mt, m2, st1);
    DecodeConcat(mt, EncodeMessage(mt, m1).value, EncodeMessage(mt, m2).value, st0);
  }

  /** Where the second copy starts when no fixed-count array is in its way. */
  lemma ReadyForMore(mt: MsgType, m1: seq<Slot>)
    requires ValidType(mt) && ValidMessage(mt, m1) && CanonicalMessage(mt, m1)
    requires EncodeMessage(mt, m1).Some? && Delimited(mt, m1)
    requires !exists k :: SoleFixedCount(mt.fields, k)
    ensures var p := DecodeLoop(mt, EncodeMessage(mt, m1).value, Start(Defaults(mt)));
            && p.Got? && !p.value.terminated && p.used == |EncodeMessage(mt, m1).value|
            && p.value.st.slots == m1 && FixedReady(mt, p.value.st, 0)
  {
    var st0, n := Start(Defaults(mt)), |mt.fields|;
    FirstCopy(mt, m1);
    var st1 := StateAt(mt, m1, st0, n);
    LastFixed(mt, m1, st0, n);
    if st1.fixedField.Some? { assert !SoleFixedCount(mt.fields, st1.fixedField.value); }
    assert FixedReady(mt, st1, 0);
    hide ValidType, ValidMessage, CanonicalMessage, EncodeFrom, DecodeLoop, Defaults, SoleFixedCount, StateAt, FixedReady;
  }

  lemma MergeSucceeds(mt: MsgType, m1: seq<Slot>, m2: seq<Slot>)
    requires ValidType(mt) && ValidMessage(mt, m1) && ValidMessage(mt, m2)
    requires CanonicalMessage(mt, m1) && MergeFits(mt, m1, m2)
    requires EncodeMessage(mt, m1).Some? && Delimited(mt, m1)
    requires EncodeMessage(mt, m2).Some? && Delimited(mt, m2)
    requires !exists k :: SoleFixedCount(mt.fields, k)
    ensures DecodeMessage(mt, EncodeMessage(mt, m1).value + EncodeMessage(mt, m2).value)
         == Got(MergeMessages(mt, m1, m2), |EncodeMessage(mt, m1).value| + |EncodeMessage(mt, m2).value|)
  {
    hide ValidType, ValidMessage, CanonicalMessage, MergeFits, EncodeFrom, DecodeLoop, Defaults, SoleFixedCount;
    hide FixedReady, Finished, MergeMessages;
    ReadyForMore(mt, m1);
    MessageDecodesFrom(mt, m1, m2, DecodeLoop(mt, EncodeMessage(mt, m1).value, Start(Defaults(mt))).value.st);
    DecodeConcat(mt, EncodeMessage(mt, m1).value, EncodeMessage(mt, m2).value, Start(Defaults(mt)));
  }

  lemma MergeMisfits(mt: MsgType, m1: seq<Slot>, m2: seq<Slot>)
    requires ValidType(mt) && ValidMessage(mt, m1) && ValidMessage(mt, m2)
    requires CanonicalMessage(mt, m1) && !MergeFits(mt, m1, m2)
    requires EncodeMessage(mt, m1).Some? && Delimited(mt, m1)
    requires EncodeMessage(mt, m2).Some? && Delimited(mt, m2)
    requires !exists k :: SoleFixedCount(mt.fields, k)
    ensures DecodeMessage(mt, EncodeMessage(mt, m1).value + EncodeMessage(mt, m2).value).Fail?
  {
    hide SlotFits, ValidType, ValidMessage, CanonicalMessage, EncodeFrom, DecodeLoop, Defaults, SoleFixedCount, FixedReady, Finished;
    ReadyForMore(mt, m1);
    var st := DecodeLoop(mt, EncodeMessage(mt, m1).value, Start(Defaults(mt))).value.st;
    MisfitFieldsFail(mt, m1, m2, st, 0);
    StateZero(mt, m2, st);
    DecodeConcat(mt, EncodeMessage(mt, m1).value, EncodeMessage(mt, m2).value, Start(Defaults(mt)));
  }

  /** Concatenated encodings decode to the merge of the messages, and fail if and only if the arrays of the two
      do not fit together or the type has exactly one fixed-count array. */
  lemma MergeOnConcatenation(mt: MsgType, m1: seq<Slot>, m2: seq<Slot>)
    requires ValidType(mt) && ValidMessage(mt, m1) && ValidMessage(mt, m2) && CanonicalMessage(mt, m1)
    requires EncodeMessage(mt, m1).Some? && Delimited(mt, m1)
    requires EncodeMessage(mt, m2).Some? && Delimited(mt, m2)
    ensures var p := DecodeMessage(mt, EncodeMessage(mt, m1).value + EncodeMessage(mt, m2).value);
            && (p.Fail? <==> !MergeFits(mt, m1, m2) || exists k :: SoleFixedCount(mt.fields, k))
            && (p.Got? ==> p.value == MergeMessages(mt, m1, m2))
            && (p.Got? ==> p.used == |EncodeMessage(mt, m1).value| + |EncodeMessage(mt, m2).value|)
  {
    hide ValidType, ValidMessage, CanonicalMessage, MergeFits, EncodeFrom, DecodeNoinit, Defaults, MergeMessages, SoleFixedCount;
    if k :| SoleFixedCount(mt.fields, k) {
      MergeFails(mt, m1, m2, k);
    } else if MergeFits(mt, m1, m2) {
      MergeSucceeds(mt, m1, m2);
    } else {
      MergeMisfits(mt, m1, m2);
    }
  }
}
