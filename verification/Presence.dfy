/** Implicit presence: which proto3 fields an encoder leaves out. */
module Presence {
  import opened Bytes
  import opened Messages
  import opened Encode
  import opened Theorems

  /** A value the wire format does not carry for a field with implicit presence: numeric zero, no bytes, a
      string that ends at once, a submessage of which nothing would be emitted. */
  ghost predicate Absent(f: Field, v: Value) {
    match (f.ltype, v)
    case (BoolType, Num(n)) => n == 0
    case (VarintType(_), Num(n)) => n == 0
    case (Fixed32Type, Num(n)) => n == 0
    case (Fixed64Type, Num(n)) => n == 0
    case (BytesType, Blob(d)) => |d| == 0
    case (StringType, Blob(d)) => |d| == 0 || d[0] == 0
    case (SubmessageType(sub), Msg(m)) => EncodeMessage(sub, m) == Some([])
    case _ => false
  }

  lemma TaggedIsSomething(f: Field, v: Value)
    ensures EncodeTagged(f, v) != Some([])
  {
    hide EncodeValue;
  }

  lemma UnpackedIsSomething(f: Field, items: seq<Value>)
    requires items != []
    ensures EncodeArray(f, items) != Some([])
  {
    hide EncodeTagged, EncodePacked;
    TaggedIsSomething(f, items[0]);
  }

  lemma CatNothing(a: Option<seq<byte>>, b: Option<seq<byte>>)
    ensures Cat(a, b) == Some([]) <==> a == Some([]) && b == Some([])
  {
    if a.Some? && b.Some? { assert |a.value + b.value| == |a.value| + |b.value|; }
  }

  /** Everything emitted for the fields from `i` on is nothing exactly when each of them emits nothing. */
  lemma {:induction false} NothingFrom(mt: MsgType, m: seq<Slot>, i: nat)
    requires i <= |mt.fields|
    ensures EncodeFrom(mt, m, i) == Some([])
       <==> forall j | i <= j < |mt.fields| :: EncodeField(mt.fields[j], GetSlot(m, mt.fields[j].slot)) == Some([])
    decreases |mt.fields| - i
  {
    hide EncodeField;
    if i < |mt.fields| {
      NothingFrom(mt, m, i + 1);
      CatNothing(EncodeField(mt.fields[i], GetSlot(m, mt.fields[i].slot)), EncodeFrom(mt, m, i + 1));
    }
  }

  lemma {:induction false} AllDefaultFrom(mt: MsgType, m: seq<Slot>, i: nat)
    requires i <= |mt.fields|
    ensures AllHoldDefault(mt, m, i)
       <==> forall j | i <= j < |mt.fields| :: HoldsDefault(mt.fields[j], GetSlot(m, mt.fields[j].slot))
    decreases |mt.fields| - i
  {
    hide HoldsDefault;
    if i < |mt.fields| { AllDefaultFrom(mt, m, i + 1); }
  }

  /** Outside unions a field holds its default exactly when it emits nothing; a union set to no member, likewise
      for all of its fields. */
  lemma FieldSilence(f: Field, x: Slot)
    requires ValidField(f) && ValidSlot(f, x)
    ensures HoldsDefault(f, x) ==> EncodeField(f, x) == Some([])
    ensures !f.htype.Oneof? && EncodeField(f, x) == Some([]) ==> HoldsDefault(f, x)
    ensures x.Chosen? && x.which == f.tag ==> EncodeField(f, x) != Some([])
  {
    hide ValidType, ValidValue, EncodeTagged, EncodeArray, IsZero, ValidItems;
    if x.One? || x.Opt? || x.Chosen? { TaggedIsSomething(f, x.v); }
    if x.Many? && x.items != [] { UnpackedIsSomething(f, x.items); }
    EmptyArray(f);
  }

  lemma EmptyArray(f: Field)
    ensures EncodeArray(f, []) == Some([])
  {}

  /** Every field of a message holds its default exactly when nothing is emitted for the message. */
  lemma DefaultIffEmpty(mt: MsgType, m: seq<Slot>)
    requires ValidType(mt) && ValidMessage(mt, m) && CanonicalMessage(mt, m)
    ensures AllHoldDefault(mt, m, 0) <==> EncodeMessage(mt, m) == Some([])
  {
    NothingFrom(mt, m, 0);
    AllDefaultFrom(mt, m, 0);
    forall j | 0 <= j < |mt.fields| ensures FieldFacts(mt, m, j) { SlotOfField(mt, m, j); }
    hide ValidType, ValidMessage, EncodeFrom, AllHoldDefault, HoldsDefault, EncodeField, CanonicalSlot;
    if EncodeMessage(mt, m) == Some([]) {
      forall j | 0 <= j < |mt.fields| ensures HoldsDefault(mt.fields[j], GetSlot(m, mt.fields[j].slot)) {
        assert FieldFacts(mt, m, j);
        UnionSilence(mt, m, j);
      }
    } else {
      var j :| 0 <= j < |mt.fields| && EncodeField(mt.fields[j], GetSlot(m, mt.fields[j].slot)) != Some([]);
      assert FieldFacts(mt, m, j);
    }
  }

  ghost predicate FieldFacts(mt: MsgType, m: seq<Slot>, j: nat)
    requires j < |mt.fields|
  {
    var f, x := mt.fields[j], GetSlot(m, mt.fields[j].slot);
    && (HoldsDefault(f, x) ==> EncodeField(f, x) == Some([]))
    && (!f.htype.Oneof? && EncodeField(f, x) == Some([]) ==> HoldsDefault(f, x))
    && (x.Chosen? && x.which == f.tag ==> EncodeField(f, x) != Some([]))
    && (f.htype.Oneof? ==> x.Unset? || x.Chosen?)
  }

  lemma SlotOfField(mt: MsgType, m: seq<Slot>, j: nat)
    requires ValidType(mt) && ValidMessage(mt, m) && j < |mt.fields|
    ensures FieldFacts(mt, m, j)
  {
    assert ValidField(mt.fields[j]) && ValidSlot(mt.fields[j], GetSlot(m, mt.fields[j].slot));
    FieldSilence(mt.fields[j], GetSlot(m, mt.fields[j].slot));
    hide ValidType, ValidField, ValidMessage, HoldsDefault, EncodeField, ValidValue, ValidItems;
  }

  lemma ListedEmits(mt: MsgType, m: seq<Slot>, j: nat)
    requires j < |mt.fields| && CanonicalMessage(mt, m)
    requires mt.fields[j].htype.Oneof? && GetSlot(m, mt.fields[j].slot).Chosen?
    requires forall i | 0 <= i < |mt.fields| :: FieldFacts(mt, m, i)
    ensures exists i :: 0 <= i < |mt.fields| && EncodeField(mt.fields[i], GetSlot(m, mt.fields[i].slot)) != Some([])
  {
    hide EncodeField, CanonicalSlot;
    var f, x := mt.fields[j], GetSlot(m, mt.fields[j].slot);
    assert WhichListed(mt.fields, f.slot, x.which);
    var i :| 0 <= i < |mt.fields| && mt.fields[i].slot == f.slot && mt.fields[i].htype.Oneof? && mt.fields[i].tag == x.which;
    assert FieldFacts(mt, m, i);
  }

  /** A union of which no member is emitted is unset, because its `which_` names one of them. */
  lemma UnionSilence(mt: MsgType, m: seq<Slot>, j: nat)
    requires j < |mt.fields| && CanonicalMessage(mt, m)
    requires forall i | 0 <= i < |mt.fields| :: FieldFacts(mt, m, i)
    requires forall i | 0 <= i < |mt.fields| :: EncodeField(mt.fields[i], GetSlot(m, mt.fields[i].slot)) == Some([])
    ensures HoldsDefault(mt.fields[j], GetSlot(m, mt.fields[j].slot))
  {
    hide EncodeField, CanonicalSlot;
    var f, x := mt.fields[j], GetSlot(m, mt.fields[j].slot);
    assert FieldFacts(mt, m, j);
    if f.htype.Oneof? && x.Chosen? { ListedEmits(mt, m, j); }
  }

  lemma ZeroIsAbsent(f: Field, v: Value)
    requires ValidField(f) && ValidValue(f, v) && CanonicalValue(f, v)
    ensures IsZero(f, v) <==> Absent(f, v)
  {
    hide ValidType, ValidMessage, CanonicalMessage, AllHoldDefault, EncodeFrom;
    if f.ltype.SubmessageType? { DefaultIffEmpty(f.ltype.sub, v.members); }
  }

  /** A field with implicit presence is left out exactly when its value is absent in this sense, and else is one
      record. */
  lemma ImplicitPresence(f: Field, v: Value)
    requires ValidField(f) && f.htype.Singular? && ValidValue(f, v) && CanonicalValue(f, v)
    ensures EncodeField(f, One(v)) == if Absent(f, v) then Some([]) else EncodeTagged(f, v)
  {
    hide ValidType, ValidValue, CanonicalValue, Absent, IsZero, EncodeTagged;
    ZeroIsAbsent(f, v);
  }

  /** Fields with explicit presence are left out exactly when their flag, count or `which_` says so. */
  lemma ExplicitPresence(f: Field, v: Value, has: bool, which: nat, items: seq<Value>)
    ensures f.htype.Required? ==> EncodeField(f, One(v)) == EncodeTagged(f, v)
    ensures f.htype.Optional? ==> EncodeField(f, Opt(has, v)) == if has then EncodeTagged(f, v) else Some([])
    ensures f.htype.Oneof? ==> EncodeField(f, Chosen(which, v)) == if which == f.tag then EncodeTagged(f, v) else Some([])
    ensures f.htype.Repeated? || f.htype.FixedCount? ==> (EncodeField(f, Many(items)) == Some([]) <==> items == [])
  {
    hide EncodeTagged, EncodeArray;
    EmptyArray(f);
    if items != [] { UnpackedIsSomething(f, items); }
  }
}
