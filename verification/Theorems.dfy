/** Round trip, injectivity, and what decoding a concatenation of two encodings means. */
module Theorems {
  import opened Bytes
  import opened Varint
  import opened Integers
  import opened Messages
  import opened Encode
  import opened Decode
  import opened Framing
  import opened Merge
  import opened DefaultMessages
  import opened RoundTrip

  // ---- The encoder accepts every valid message ------------------------------------------------

  lemma {:induction false} PackedEncodes(f: Field, items: seq<Value>)
    requires ValidField(f) && !f.ltype.SubmessageType? && ValidItems(f, items)
    ensures EncodePacked(f, items).Some?
    decreases |items|
  {
    hide EncodeScalar, ValidScalar;
    if items != [] {
      assert ValidData(f) && ValidScalar(f, items[0]);
      ScalarDecodes(f, items[0]);
      PackedEncodes(f, items[1..]);
    }
  }

  lemma {:induction false} ValueEncodes(f: Field, v: Value)
    requires ValidField(f) && ValidValue(f, v)
    ensures EncodeTagged(f, v).Some?
    decreases f, 0
  {
    hide EncodeScalar, ValidScalar, EncodeTag, EncodeString, ValidType, ValidMessage, EncodeFrom;
    if f.ltype.SubmessageType? {
      MessageEncodes(f.ltype.sub, v.members, 0);
    } else {
      assert ValidData(f);
      ScalarDecodes(f, v);
    }
  }

  lemma {:induction false} UnpackedEncodes(f: Field, items: seq<Value>)
    requires ValidField(f) && ValidItems(f, items)
    ensures EncodeUnpacked(f, items).Some?
    decreases f, 1, |items|
  {
    hide EncodeTagged, ValidValue, ValidField;
    if items != [] {
      ValueEncodes(f, items[0]);
      UnpackedEncodes(f, items[1..]);
    }
  }

  lemma FieldEncodes(f: Field, x: Slot)
    requires ValidField(f) && ValidSlot(f, x)
    ensures EncodeField(f, x).Some?
    decreases f, 2
  {
    hide EncodeTagged, EncodeUnpacked, EncodePacked, ValidItems, ValidValue, ValidField, IsZero;
    if x.Many? {
      UnpackedEncodes(f, x.items);
      if Packable(f.ltype) { PackedEncodes(f, x.items); }
    } else if !x.Unset? {
      if !f.htype.Oneof? || x.which == f.tag { ValueEncodes(f, x.v); }
    }
  }

  /** Encoding a valid message never fails for a reason of its own. */
  lemma {:induction false} MessageEncodes(mt: MsgType, m: seq<Slot>, i: nat)
    requires ValidType(mt) && ValidMessage(mt, m) && i <= |mt.fields|
    ensures EncodeFrom(mt, m, i).Some?
    decreases mt, 3, |mt.fields| - i
  {
    hide EncodeField, ValidSlot;
    if i < |mt.fields| {
      FieldEncodes(mt.fields[i], GetSlot(m, mt.fields[i].slot));
      MessageEncodes(mt, m, i + 1);
    }
  }

  // ---- Canonical messages ------------------------------------------------------------------------

  /** A message whose every part the wire format can carry: strings end at their first NUL, absent
      optional fields hold their default, and a oneof's `which_` names one of its members. */
  ghost predicate CanonicalMessage(mt: MsgType, m: seq<Slot>)
    decreases mt
  {
    forall i | 0 <= i < |mt.fields| ::
      var f := mt.fields[i];
      var x := GetSlot(m, f.slot);
      && CanonicalSlot(f, x)
      && (f.htype.Oneof? && x.Chosen? ==> WhichListed(mt.fields, f.slot, x.which))
  }

  ghost predicate WhichListed(fs: seq<Field>, k: nat, which: nat) {
    exists j | 0 <= j < |fs| :: fs[j].slot == k && fs[j].htype.Oneof? && fs[j].tag == which
  }

  ghost predicate CanonicalSlot(f: Field, x: Slot)
    decreases f, 1
  {
    match x
    case One(v) => CanonicalValue(f, v)
    case Opt(has, v) => if has then CanonicalValue(f, v) else v == DefaultValue(f)
    case Many(items) => forall k | 0 <= k < |items| :: CanonicalValue(f, items[k])
    case Unset => true
    case Chosen(which, v) => which == f.tag ==> CanonicalValue(f, v)
  }

  ghost predicate CanonicalValue(f: Field, v: Value)
    decreases f, 0
  {
    && (f.ltype.StringType? && v.Blob? ==> 0 !in v.data)
    && (f.ltype.SubmessageType? && v.Msg? ==> CanonicalMessage(f.ltype.sub, v.members))
  }

  /** What a proto3 encoder leaves out is the default. */
  lemma {:induction false} ZeroIsDefault(f: Field, v: Value)
    requires ValidField(f) && ValidValue(f, v) && CanonicalValue(f, v) && IsZero(f, v)
    ensures v == ZeroValue(f)
    decreases f, 0
  {
    hide ValidType, ValidMessage, CanonicalMessage, AllHoldDefault, Defaults;
    if f.ltype.SubmessageType? { AllDefault(f.ltype.sub, v.members); }
  }

  lemma HeldDefault(f: Field, x: Slot)
    requires ValidField(f) && ValidSlot(f, x) && CanonicalSlot(f, x) && HoldsDefault(f, x)
    ensures x == DefaultSlot(f)
    decreases f, 1
  {
    hide ValidType, ValidValue, CanonicalValue, IsZero, ZeroValue;
    if f.htype.Singular? { ZeroIsDefault(f, x.v); }
  }

  lemma {:induction false} AllHoldDefaultAt(mt: MsgType, m: seq<Slot>, i: nat, j: nat)
    requires j <= i < |mt.fields| && AllHoldDefault(mt, m, j)
    ensures HoldsDefault(mt.fields[i], GetSlot(m, mt.fields[i].slot))
    decreases i - j
  {
    hide HoldsDefault;
    if j < i { AllHoldDefaultAt(mt, m, i, j + 1); }
  }

  lemma {:induction false} AllDefault(mt: MsgType, m: seq<Slot>)
    requires ValidType(mt) && ValidMessage(mt, m) && CanonicalMessage(mt, m) && AllHoldDefault(mt, m, 0)
    ensures m == Defaults(mt)
    decreases mt
  {
    hide HoldsDefault, ValidSlot, CanonicalSlot, DefaultSlot, AllHoldDefault, Defaults;
    forall k | 0 <= k < |m| ensures m[k] == Defaults(mt)[k] {
      assert SlotUsed(mt.fields, k);
      var i :| 0 <= i < |mt.fields| && mt.fields[i].slot == k;
      AllHoldDefaultAt(mt, m, i, 0);
      HeldDefault(mt.fields[i], GetSlot(m, k));
      DefaultsAt(mt, i);
    }
  }

  // ---- Merging onto the default message is the identity -----------------------------------------------

  lemma {:induction false} CStringWhole(s: seq<byte>)
    requires 0 !in s
    ensures CString(s) == s
  {
    if s != [] { CStringWhole(s[1..]); }
  }

  lemma {:induction false} MergeValueFresh(f: Field, was: Slot, v: Value)
    requires ValidField(f) && ValidValue(f, v) && CanonicalValue(f, v)
    requires f.ltype.SubmessageType? ==> StartOf(f, was) == Defaults(f.ltype.sub)
    ensures MergeValue(f, was, v) == v
    decreases f, 0
  {
    hide ValidType, ValidMessage, CanonicalMessage, MergeMessages, Defaults, CString, StartOf;
    if f.ltype.SubmessageType? {
      MergeOntoDefaults(f.ltype.sub, v.members);
    } else if f.ltype.StringType? {
      CStringWhole(v.data);
    }
  }

  lemma {:induction false} FreshItemsSame(f: Field, items: seq<Value>)
    requires ValidField(f) && ValidItems(f, items)
    requires forall k | 0 <= k < |items| :: CanonicalValue(f, items[k])
    ensures FreshItems(f, items) == items
    decreases f, 1, |items|
  {
    hide ValidField, ValidValue, CanonicalValue, MergeValue;
    if items != [] {
      MergeValueFresh(f, Unset, items[0]);
      FreshItemsSame(f, items[1..]);
    }
  }

  lemma StartOfDefault(f: Field)
    requires f.ltype.SubmessageType?
    ensures StartOf(f, DefaultSlot(f)) == Defaults(f.ltype.sub)
  {
    hide Defaults;
    assert ZeroValue(f) == Msg(Defaults(f.ltype.sub));
  }

  lemma MergeSlotFresh(f: Field, now: Slot)
    requires ValidField(f) && ValidSlot(f, now) && CanonicalSlot(f, now)
    requires f.htype.Oneof? ==> Emits(f, now) || now.Unset?
    ensures MergeSlot(f, DefaultSlot(f), now) == now
    decreases f, 2
  {
    hide ValidType, ValidValue, CanonicalValue, MergeValue, IsZero, StartOf, FreshItems;
    if f.ltype.SubmessageType? { StartOfDefault(f); }
    if !Emits(f, now) {
      if f.htype.Singular? { ZeroIsDefault(f, now.v); }
    } else if now.Many? {
      FreshItemsSame(f, now.items);
    } else {
      MergeValueFresh(f, DefaultSlot(f), now.v);
    }
  }

  lemma {:induction false} MergeOntoDefaults(mt: MsgType, m: seq<Slot>)
    requires ValidType(mt) && ValidMessage(mt, m) && CanonicalMessage(mt, m)
    ensures MergeMessages(mt, Defaults(mt), m) == m
    decreases mt
  {
    forall k | 0 <= k < |m| ensures MergeMessages(mt, Defaults(mt), m)[k] == m[k] {
      MergedSlotFresh(mt, m, k);
    }
  }

  lemma MergedSlotFresh(mt: MsgType, m: seq<Slot>, k: nat)
    requires ValidType(mt) && ValidMessage(mt, m) && CanonicalMessage(mt, m) && k < |m|
    ensures GetSlot(MergeMessages(mt, Defaults(mt), m), k) == m[k]
    decreases mt, 0
  {
    assert SlotUsed(mt.fields, k);
    var i :| 0 <= i < |mt.fields| && mt.fields[i].slot == k;
    var f := mt.fields[i];
    var x := GetSlot(m, k);
    assert f.htype.Oneof? && x.Chosen? ==> WhichListed(mt.fields, k, x.which);
    assert ValidField(f) && ValidSlot(f, x) && CanonicalSlot(f, x);
    var j := if f.htype.Oneof? && x.Chosen?
             then var j :| 0 <= j < |mt.fields| && mt.fields[j].slot == k && mt.fields[j].htype.Oneof? && mt.fields[j].tag == x.which; j
             else i;
    var g := mt.fields[j];
    assert ValidField(g) && ValidSlot(g, x) && CanonicalSlot(g, x);
    hide ValidField, CanonicalMessage, CanonicalSlot, MergeSlot, Defaults, MergeMessages, DefaultSlot, IsZero;
    DefaultsAt(mt, j);
    MergeSlotFresh(g, x);
    if g.htype.Oneof? && x.Unset? {
      UnionsSilent(mt, m, j);
    } else {
      MergedSlot(mt, Defaults(mt), m, j);
    }
  }

  /** An unset union stays unset. */
  lemma UnionsSilent(mt: MsgType, m: seq<Slot>, i: nat)
    requires ValidType(mt) && i < |mt.fields| && GetSlot(m, mt.fields[i].slot).Unset?
    ensures GetSlot(MergeMessages(mt, Defaults(mt), m), mt.fields[i].slot) == DefaultSlot(mt.fields[i])
  {
    hide ValidField, Defaults, DefaultSlot;
    DefaultsAt(mt, i);
    SilentSlot(mt, Defaults(mt), m, mt.fields[i].slot, |mt.fields|);
  }

  // ---- Main results ---------------------------------------------------------------------------------

  /** Decoding an encoded message gives the message back and takes every byte. */
  lemma MessageRoundTrip(mt: MsgType, m: seq<Slot>)
    requires ValidType(mt) && ValidMessage(mt, m) && CanonicalMessage(mt, m)
    requires Delimited(mt, m)
    ensures EncodeMessage(mt, m).Some?
    ensures DecodeMessage(mt, EncodeMessage(mt, m).value) == Got(m, |EncodeMessage(mt, m).value|)
  {
    hide ValidType, ValidMessage, CanonicalMessage, MergeMessages, Defaults, EncodeFrom, DecodeNoinit, MergeFits;
    MessageEncodes(mt, m, 0);
    DefaultsValid(mt);
    DefaultsFit(mt, m);
    MessageDecodes(mt, Defaults(mt), m);
    MergeOntoDefaults(mt, m);
  }

  /** Different canonical messages have different encodings. */
  lemma EncodingIsInjective(mt: MsgType, a: seq<Slot>, b: seq<Slot>)
    requires ValidType(mt) && ValidMessage(mt, a) && ValidMessage(mt, b)
    requires CanonicalMessage(mt, a) && CanonicalMessage(mt, b)
    requires EncodeMessage(mt, a) == EncodeMessage(mt, b)
    requires Delimited(mt, a) && Delimited(mt, b)
    ensures a == b
  {
    hide ValidType, ValidMessage, CanonicalMessage, EncodeFrom, DecodeNoinit, Defaults;
    MessageRoundTrip(mt, a);
    MessageRoundTrip(mt, b);
  }

  // ---- Fields of a newer schema -----------------------------------------------------------------------

  /** Skipping by wire type takes exactly an encoded value, whatever its field's type. */
  lemma EncodedValueSkips(f: Field, v: Value)
    requires EncodeValue(f, v).Some? && |EncodeValue(f, v).value| < TWO32
    ensures SkipField(WireType(f.ltype), EncodeValue(f, v).value) == Got((), |EncodeValue(f, v).value|)
  {
    hide EncodeFrom, CString, FixedBytes, EncodeVarint, LenDelim, RunLength, ToWire;
    match (f.ltype, v)
    case (BoolType, Num(n)) => EncodeShape(if n != 0 then 1 else 0);
    case (VarintType(kind), Num(n)) => EncodeShape(ToWire(kind, n));
    case (BytesType, Blob(d)) => LenDelimEncoded(d);
    case (StringType, Blob(d)) => LenDelimEncoded(CString(d));
    case (FixedLengthBytesType, Blob(d)) => LenDelimEncoded(d);
    case (SubmessageType(sub), Msg(m)) => LenDelimEncoded(EncodeFrom(sub, m, 0).value);
    case _ =>
  }

  /** Whatever an encoder emits for a field the decoder does not list is a record it skips, so fields
      added to a schema later do not disturb older decoders. */
  lemma EncodedFieldIsUnknown(mt: MsgType, f: Field, v: Value)
    requires 1 <= f.tag < 0x2000_0000 && forall i | 0 <= i < |mt.fields| :: mt.fields[i].tag != f.tag
    requires EncodeTagged(f, v).Some? && |EncodeTagged(f, v).value| < TWO32
    ensures UnknownRecord(mt, EncodeTagged(f, v).value)
  {
    hide EncodeValue, EncodeTag, DecodeVarint32, SkipField;
    var tag, e := EncodeTag(WireType(f.ltype), f.tag), EncodeValue(f, v).value;
    EncodedValueSkips(f, v);
    TagDecodes(f.tag, WireType(f.ltype), e);
    assert (tag + e)[|tag|..] == e;
  }
}
