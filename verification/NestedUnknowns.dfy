/** Unknown fields inside submessages: a record an older decoder does not list may stand at any record boundary,
    at any depth of nesting. */
module NestedUnknowns {
  import opened Bytes
  import opened Varint
  import opened Messages
  import opened Encode
  import opened Decode
  import opened Framing
  import opened RoundTrip

  /** Where an unknown record stands: at a boundary of this message, or inside the submessage that a record of
      field `field` carries. */
  datatype Place =
    | Here(before: seq<byte>, unknown: seq<byte>, behind: seq<byte>)
    | Inside(before: seq<byte>, field: nat, inner: Place, behind: seq<byte>)

  /** The message with the unknown record, or without it. */
  function Wire(mt: MsgType, p: Place, padded: bool): seq<byte>
    decreases p
  {
    match p
    case Here(a, u, b) => a + ((if padded then u else []) + b)
    case Inside(a, i, inner, b) =>
      if i < |mt.fields| && mt.fields[i].ltype.SubmessageType? then
        a + (SubmessageRecord(mt.fields[i], Wire(mt.fields[i].ltype.sub, inner, padded)) + b)
      else a + b
  }

  function SubmessageRecord(f: Field, payload: seq<byte>): seq<byte> {
    EncodeTag(WT_STRING, f.tag) + EncodeString(payload)
  }

  /** The struct a submessage in field `i` is decoded onto in this state; array elements start afresh. */
  function InnerStart(mt: MsgType, i: nat, st: DState): seq<Slot>
    requires i < |mt.fields| && mt.fields[i].ltype.SubmessageType?
  {
    var f := mt.fields[i];
    StartOf(f, if f.htype.Repeated? || f.htype.FixedCount? then Unset else GetSlot(st.slots, f.slot))
  }

  /** The unknown record stands at a boundary and can be skipped; the lengths around it fit. */
  ghost predicate Placed(mt: MsgType, m: seq<Slot>, p: Place)
    decreases p
  {
    && AtBoundary(mt, p.before, m)
    && match p
       case Here(_, u, _) => UnknownRecord(mt, u)
       case Inside(a, i, inner, _) =>
         && i < |mt.fields| && mt.fields[i].ltype.SubmessageType?
         && |Wire(mt.fields[i].ltype.sub, inner, true)| < TWO32 && |Wire(mt.fields[i].ltype.sub, inner, false)| < TWO32
         && Placed(mt.fields[i].ltype.sub, InnerStart(mt, i, DecodeLoop(mt, a, Start(m)).value.st), inner)
  }

  /** The state after a submessage decoded to `inner` has been stored in field `i`; None if it cannot be. */
  function Stored(mt: MsgType, i: nat, st: DState, inner: Option<seq<Slot>>): Option<DState>
    requires i < |mt.fields|
  {
    var f, begun := mt.fields[i], BeginField(mt, i, st);
    if begun.None? || inner.None? then None
    else
      var st1 := begun.value;
      var x := GetSlot(st1.slots, f.slot);
      if f.htype.Repeated? || f.htype.FixedCount? then
        var count := if f.htype.Repeated? then |ItemsOf(x)| else st1.fixedSize;
        if count >= f.arraySize then None
        else Some(st1.(slots := PutSlot(st1.slots, f.slot, Many(StoreItem(ItemsOf(x), count, Msg(inner.value)))),
                       fixedSize := if f.htype.Repeated? then st1.fixedSize else count + 1))
      else Some(st1.(slots := PutSlot(st1.slots, f.slot, WithValue(f, x, Msg(inner.value)))))
  }

  function Result(p: Parse<seq<Slot>>): Option<seq<Slot>> {
    if p.Got? then Some(p.value) else None
  }

  lemma SubmessageValue(f: Field, payload: seq<byte>, b: seq<byte>, x: Slot)
    requires f.ltype.SubmessageType? && |payload| < TWO32
    ensures var inner := DecodeNoinit(f.ltype.sub, payload, StartOf(f, x));
            DecodeValue(f, EncodeString(payload) + b, x)
            == if inner.Fail? then Fail else Got(Msg(inner.value), |EncodeString(payload)|)
  {
    hide LenDelim, EncodeString, DecodeNoinit, StartOf;
    LenDelimEncoded(payload);
    LenDelimLocal(EncodeString(payload), b);
  }

  lemma SubmessageSlot(mt: MsgType, i: nat, payload: seq<byte>, b: seq<byte>, st: DState)
    requires i < |mt.fields| && mt.fields[i].ltype.SubmessageType? && |payload| < TWO32 && BeginField(mt, i, st).Some?
    ensures var f, st1 := mt.fields[i], BeginField(mt, i, st).value;
            var p := DecodeSlot(f, WT_STRING, EncodeString(payload) + b, GetSlot(st1.slots, f.slot), st1.fixedSize);
            var after := Stored(mt, i, st, Result(DecodeNoinit(f.ltype.sub, payload, InnerStart(mt, i, st))));
            && (p.Fail? <==> after.None?)
            && (p.Got? ==> p.used == |EncodeString(payload)|
                           && after.value == st1.(slots := PutSlot(st1.slots, f.slot, p.value.0), fixedSize := p.value.1))
  {
    hide DecodeValue, DecodeNoinit, StartOf, EncodeString, RequiredBefore, StoreItem;
    var f, st1 := mt.fields[i], BeginField(mt, i, st).value;
    SubmessageValue(f, payload, b, Unset);
    SubmessageValue(f, payload, b, GetSlot(st1.slots, f.slot));
  }

  /** What the record loop makes of a record that carries a submessage depends on its payload only through
      what the payload decodes to. */
  lemma SubmessageStep(mt: MsgType, i: nat, payload: seq<byte>, b: seq<byte>, st: DState)
    requires ValidType(mt) && i < |mt.fields| && mt.fields[i].ltype.SubmessageType? && |payload| < TWO32
    ensures var f := mt.fields[i];
            var r := SubmessageRecord(f, payload);
            var after := Stored(mt, i, st, Result(DecodeNoinit(f.ltype.sub, payload, InnerStart(mt, i, st))));
            DecodeLoop(mt, r + b, st) == if after.None? then Fail else DecodeLoop(mt, b, after.value).After(|r|)
  {
    hide DecodeVarint32, EncodeTag, EncodeString, FindField, ValidType, ValidField, DecodeSlot, Stored, DecodeNoinit, BeginField;
    hide InnerStart;
    var f := mt.fields[i];
    SlotBound(mt, i);
    TagOfField(f);
    FindOwn(mt, i);
    var body, tag := EncodeString(payload) + b, EncodeTag(WT_STRING, f.tag);
    TagDecodes(f.tag, WT_STRING, body);
    var r := SubmessageRecord(f, payload) + b;
    RecordSplit(tag, EncodeString(payload), b);
    if BeginField(mt, i, st).Some? { SubmessageSlot(mt, i, payload, b, st); } else { NotBegun(mt, i, st); }
    var inner := Result(DecodeNoinit(f.ltype.sub, payload, InnerStart(mt, i, st)));
    var after := Stored(mt, i, st, inner);
    assert DecodeBody(mt, f.tag, WT_STRING, body, st)
        == if after.None? then Fail else Got(after.value, |EncodeString(payload)|);
    assert DecodeRecord(mt, r, st)
        == if after.None? then Fail else Got(Continue(after.value), |tag| + |EncodeString(payload)|);
  }

  lemma TagOfField(f: Field)
    requires ValidField(f)
    ensures 1 <= f.tag < 0x2000_0000
  {}

  lemma RecordSplit(tag: seq<byte>, s: seq<byte>, b: seq<byte>)
    ensures tag + s + b == tag + (s + b)
    ensures (tag + s + b)[|tag|..] == s + b
    ensures (tag + s + b)[|tag| + |s|..] == b
  {}

  lemma NotBegun(mt: MsgType, i: nat, st: DState)
    requires i < |mt.fields| && BeginField(mt, i, st).None?
    ensures forall inner :: Stored(mt, i, st, inner).None?
  {
    hide BeginField;
  }

  /** Decoding gives the same success and the same message with the unknown record and without it, and the
      former takes exactly the additional bytes more. */
  ghost predicate Same(mt: MsgType, m: seq<Slot>, p: Place) {
    var with, without := DecodeNoinit(mt, Wire(mt, p, true), m), DecodeNoinit(mt, Wire(mt, p, false), m);
    && (with.Got? <==> without.Got?)
    && (with.Got? ==> with.value == without.value
                      && with.used - without.used == |Wire(mt, p, true)| - |Wire(mt, p, false)|)
  }

  /** Two continuations behind the same beginning. */
  lemma SameBehind(mt: MsgType, m: seq<Slot>, a: seq<byte>, x: seq<byte>, y: seq<byte>)
    requires AtBoundary(mt, a, m)
    requires var st := DecodeLoop(mt, a, Start(m)).value.st;
             var p, q := DecodeLoop(mt, x, st), DecodeLoop(mt, y, st);
             (p.Got? <==> q.Got?) && (p.Got? ==> p.value.st == q.value.st && p.used - q.used == |x| - |y|)
    ensures var p, q := DecodeNoinit(mt, a + x, m), DecodeNoinit(mt, a + y, m);
            (p.Got? <==> q.Got?) && (p.Got? ==> p.value == q.value && p.used - q.used == |a + x| - |a + y|)
  {
    hide DecodeLoop, Finished;
    DecodeConcat(mt, a, x, Start(m));
    DecodeConcat(mt, a, y, Start(m));
  }

  /** An unknown record at any boundary, at any depth, changes neither success nor the message. */
  lemma {:induction false} UnknownAnywhere(mt: MsgType, m: seq<Slot>, p: Place)
    requires ValidType(mt) && Placed(mt, m, p)
    ensures Same(mt, m, p)
    decreases p
  {
    hide DecodeLoop, DecodeNoinit, ValidType, ValidField, UnknownRecord, Stored, SubmessageRecord, InnerStart;
    var st := DecodeLoop(mt, p.before, Start(m)).value.st;
    match p
    case Here(a, u, b) =>
      UnknownStep(mt, u, st);
      DecodeConcat(mt, u, b, st);
      assert [] + b == b;
      SameBehind(mt, m, a, u + b, b);
    case Inside(a, i, inner, b) =>
      var f := mt.fields[i];
      SubIsValid(mt, i);
      UnknownAnywhere(f.ltype.sub, InnerStart(mt, i, st), inner);
      var with, without := Wire(f.ltype.sub, inner, true), Wire(f.ltype.sub, inner, false);
      SubmessageStep(mt, i, with, b, st);
      SubmessageStep(mt, i, without, b, st);
      SameBehind(mt, m, a, SubmessageRecord(f, with) + b, SubmessageRecord(f, without) + b);
  }

  lemma SubIsValid(mt: MsgType, i: nat)
    requires ValidType(mt) && i < |mt.fields| && mt.fields[i].ltype.SubmessageType?
    ensures ValidType(mt.fields[i].ltype.sub)
  {
    assert ValidField(mt.fields[i]);
  }
}
