/** What the limits of the decoder let happen: a required field beyond the first 64 may be missing, and a sole
    fixed-count array cannot be concatenated. */
module Witnesses {
  import opened Bytes
  import opened Varint
  import opened Messages
  import opened Encode
  import opened Decode
  import opened Framing
  import opened Merge
  import opened DefaultMessages
  import opened RoundTrip
  import opened Theorems
  import opened Misfits
  import opened Concatenation

  /** What the encoder emits for the first `i` fields. */
  function FirstFields(mt: MsgType, m: seq<Slot>, i: nat): Option<seq<byte>>
    requires i <= |mt.fields|
  {
    if i == 0 then Some([])
    else Cat(FirstFields(mt, m, i - 1), EncodeField(mt.fields[i - 1], GetSlot(m, mt.fields[i - 1].slot)))
  }

  lemma {:induction false} FirstFieldsDecode(mt: MsgType, m1: seq<Slot>, m2: seq<Slot>, st: DState, i: nat)
    requires ValidType(mt) && ValidMessage(mt, m1) && ValidMessage(mt, m2) && MergeFits(mt, m1, m2)
    requires st.slots == m1 && FixedReady(mt, st, 0) && i <= |mt.fields|
    requires FirstFields(mt, m2, i).Some? && Delimited(mt, m2)
    ensures DecodeLoop(mt, FirstFields(mt, m2, i).value, st)
         == Got(Run(StateAt(mt, m2, st, i), false), |FirstFields(mt, m2, i).value|)
  {
    hide ValidType, ValidField, ValidMessage, MergeFits, ValidSlot, SlotFits, Emits, EncodeField, AfterField;
    if i > 0 {
      var f := mt.fields[i - 1];
      FirstFieldsDecode(mt, m1, m2, st, i - 1);
      FieldFits(mt, m1, m2, i - 1);
      FieldHere(mt, m1, m2, st, i - 1);
      StateFixed(mt, m2, st, i - 1);
      var here := StateAt(mt, m2, st, i - 1);
      FieldDecodes(mt, i - 1, GetSlot(m2, f.slot), here);
      DecodeConcat(mt, FirstFields(mt, m2, i - 1).value, EncodeField(f, GetSlot(m2, f.slot)).value, st);
    }
  }

  /** For any message type whose last field is required but not among the first 64 required ones: an encoding
      without that field is accepted, and the field then holds its default. */
  lemma UntrackedRequiredMayBeMissing(mt: MsgType, m: seq<Slot>)
    requires ValidType(mt) && ValidMessage(mt, m) && mt.fields != []
    requires var last := |mt.fields| - 1;
             && mt.fields[last].htype.Required? && RequiredBefore(mt.fields, last) >= MAX_REQUIRED_FIELDS
             && FirstFields(mt, m, last).Some? && Delimited(mt, m)
    ensures var last := |mt.fields| - 1;
            var p := DecodeMessage(mt, FirstFields(mt, m, last).value);
            && p.Got? && p.used == |FirstFields(mt, m, last).value|
            && GetSlot(p.value, mt.fields[last].slot) == DefaultSlot(mt.fields[last])
  {
    var last := |mt.fields| - 1;
    var st := Start(Defaults(mt));
    DefaultsValid(mt);
    DefaultsFit(mt, m);
    FirstFieldsDecode(mt, Defaults(mt), m, st, last);
    StateFixed(mt, m, st, last);
    StateSlots(mt, m, st, last);
    LastUntouched(mt, m);
    hide ValidType, ValidMessage, MergeFits, StateAt, DecodeLoop, FirstFields, Defaults;
    forall r | 0 <= r < TrackedRequired(mt.fields) ensures r in StateAt(mt, m, st, last).seen {
      StateSeen(mt, m, st, last, r);
    }
  }

  lemma LastUntouched(mt: MsgType, m: seq<Slot>)
    requires ValidType(mt) && ValidMessage(mt, m) && mt.fields != [] && mt.fields[|mt.fields| - 1].htype.Required?
    ensures var last := |mt.fields| - 1;
            GetSlot(MergeUpTo(mt, Defaults(mt), m, last), mt.fields[last].slot) == DefaultSlot(mt.fields[last])
  {
    var last := |mt.fields| - 1;
    DefaultsAt(mt, last);
    assert ValidSlot(mt.fields[last], GetSlot(m, mt.fields[last].slot));
    hide ValidType, ValidMessage;
    PrefixUntouched(mt, Defaults(mt), m, last, last);
  }

  // ---- Sixty-five required fields -----------------------------------------------------------------------

  /** Boolean field `i` of a message in which every field is required. */
  function Flag(i: nat): Field {
    Field(i + 1, BoolType, Required, 0, 0, 1, 1, i, false, None)
  }

  function Flags(n: nat): (mt: MsgType)
    ensures |mt.fields| == n && forall i | 0 <= i < n :: mt.fields[i] == Flag(i)
  {
    MsgType(seq(n, i requires 0 <= i < n => Flag(i)), n)
  }

  function AllSet(n: nat): (m: seq<Slot>)
    ensures |m| == n && forall i | 0 <= i < n :: m[i] == One(Num(1))
  {
    seq(n, i => One(Num(1)))
  }

  lemma FlagsValid(n: nat)
    requires n < 0x1000_0000
    ensures ValidType(Flags(n)) && ValidMessage(Flags(n), AllSet(n)) && Delimited(Flags(n), AllSet(n))
  {
    var mt := Flags(n);
    forall k | 0 <= k < n ensures SlotUsed(mt.fields, k) { assert mt.fields[k].slot == k; }
    assert forall i | 0 <= i < n :: ValidField(Flag(i));
    assert ValidType(mt);
    assert forall i | 0 <= i < n :: ValidSlot(Flag(i), One(Num(1)));
  }

  lemma {:induction false} FlagsRequired(n: nat, i: nat)
    requires i <= n
    ensures RequiredBefore(Flags(n).fields, i) == i
  {
    if i > 0 { FlagsRequired(n, i - 1); }
  }

  lemma {:induction false} FlagsEncode(n: nat, i: nat)
    requires i <= n < 0x1000_0000
    ensures FirstFields(Flags(n), AllSet(n), i).Some?
    ensures |FirstFields(Flags(n), AllSet(n), i).value| <= 11 * i
  {
    if i > 0 {
      FlagsEncode(n, i - 1);
      EncodeAtMostTen(8 * i);
      hide EncodeVarint;
      var f := Flag(i - 1);
      assert EncodeTag(WireType(f.ltype), f.tag) == EncodeVarint(8 * i);
      assert EncodeValue(f, Num(1)) == EncodeScalar(f, Num(1)) == Some(EncodeVarint(1));
      assert EncodeField(f, One(Num(1))) == EncodeTagged(f, Num(1)) == Some(EncodeVarint(8 * i) + EncodeVarint(1));
      assert |EncodeVarint(1)| == 1 by { OneByte(); }
    }
  }

  lemma OneByte()
    ensures |EncodeVarint(1)| == 1
  {}

  /** A message type with 65 required fields, and an accepted encoding that has only 64 of them. */
  lemma SixtyFifthMayBeMissing() returns (mt: MsgType, s: seq<byte>)
    ensures ValidType(mt) && |mt.fields| == 65 && forall i | 0 <= i < 65 :: mt.fields[i].htype.Required?
    ensures DecodeMessage(mt, s).Got? && GetSlot(DecodeMessage(mt, s).value, 64) == DefaultSlot(mt.fields[64])
  {
    hide ValidType, ValidMessage, Delimited, FirstFields, DecodeNoinit, RequiredBefore, Defaults, Flags, AllSet;
    mt := Flags(65);
    FlagsValid(65);
    FlagsRequired(65, 64);
    FlagsEncode(65, 64);
    s := FirstFields(mt, AllSet(65), 64).value;
    UntrackedRequiredMayBeMissing(mt, AllSet(65));
  }

  // ---- One fixed-count array ------------------------------------------------------------------------------

  /** A message type and a message that round-trips, while two copies in a row are rejected. */
  lemma TwoCopiesRejected() returns (mt: MsgType, e: seq<byte>)
    ensures ValidType(mt) && DecodeMessage(mt, e).Got? && DecodeMessage(mt, e + e).Fail?
  {
    var f := Field(1, BoolType, FixedCount, 0, 0, 1, 1, 0, false, None);
    var items := [Num(1)];
    mt := MsgType([f], 1);
    var m := [Many(items)];
    SoleArrayValid(mt, f, m, items);
    SoleArrayEncodes(mt, f, m, items);
    hide ValidType, ValidMessage, Delimited, CanonicalMessage, EncodeFrom, DecodeNoinit, MergeFits;
    e := EncodeMessage(mt, m).value;
    ShortIsDelimited(mt, m);
    MessageRoundTrip(mt, m);
    assert SoleFixedCount(mt.fields, 0);
    MergeOnConcatenation(mt, m, m);
  }

  lemma SoleArrayValid(mt: MsgType, f: Field, m: seq<Slot>, items: seq<Value>)
    requires f == Field(1, BoolType, FixedCount, 0, 0, 1, 1, 0, false, None) && items == [Num(1)]
    requires mt == MsgType([f], 1) && m == [Many(items)]
    ensures ValidType(mt) && ValidMessage(mt, m) && CanonicalMessage(mt, m)
  {
    assert mt.fields[0] == f && GetSlot(m, 0) == Many(items);
    assert SlotUsed(mt.fields, 0);
    assert ValidField(f);
    assert ValidType(mt);
    assert ValidItems(f, items);
    assert ValidSlot(f, Many(items));
    assert CanonicalSlot(f, Many(items));
  }

  lemma SoleArrayEncodes(mt: MsgType, f: Field, m: seq<Slot>, items: seq<Value>)
    requires f == Field(1, BoolType, FixedCount, 0, 0, 1, 1, 0, false, None) && items == [Num(1)]
    requires mt == MsgType([f], 1) && m == [Many(items)]
    ensures EncodeMessage(mt, m).Some? && |EncodeMessage(mt, m).value| < TWO32
  {
    assert mt.fields[0] == f && GetSlot(m, 0) == Many(items);
    assert items[1..] == [] && EncodePacked(f, items[1..]) == Some([]);
    assert EncodePacked(f, items) == Some(EncodeVarint(1) + []);
    OneByte();
    EncodeAtMostTen(10);
    hide EncodeVarint;
    assert EncodeArray(f, items) == Some(EncodeTag(WT_STRING, 1) + EncodeString(EncodeVarint(1) + []));
    assert EncodeFrom(mt, m, 1) == Some([]);
    assert EncodeFrom(mt, m, 0) == Cat(EncodeArray(f, items), Some([]));
  }
}
