/** The encoder of pb_encode.c over sizing and memory streams, proved against the encoding function. */
module Encoder {
  import opened Bytes
  import opened Varint
  import opened Integers
  import opened Messages
  import opened Encode
  import opened FieldIteration
  import opened OutputStreams

  // ---- Writers in sequence ------------------------------------------------------------------------

  /** Part of `whole` has been emitted since `st`; `rest` is still to come. */
  ghost predicate Progress(st: OState, whole: Option<seq<byte>>, rest: Option<seq<byte>>, now: OState)
    requires Ready(st)
  {
    exists done :: Outcome(st, Some(done), true, now) && whole == Cat(Some(done), rest)
  }

  lemma ProgressStart(st: OState, whole: Option<seq<byte>>)
    requires Ready(st)
    ensures Progress(st, whole, whole, st)
  {
    NothingEmitted(st);
    hide Outcome;
    if whole.Some? { assert [] + whole.value == whole.value; }
    assert whole == Cat(Some([]), whole);
  }

  lemma CatAssoc(a: seq<byte>, b: seq<byte>, rest: Option<seq<byte>>)
    ensures Cat(Some(a), Cat(Some(b), rest)) == Cat(Some(a + b), rest)
  {
    if rest.Some? { assert a + (b + rest.value) == a + b + rest.value; }
  }

  lemma ProgressStep(st: OState, whole: Option<seq<byte>>, a: Option<seq<byte>>, rest: Option<seq<byte>>, mid: OState, now: OState)
    requires Ready(st) && Ready(mid) && Progress(st, whole, Cat(a, rest), mid) && Outcome(mid, a, true, now)
    ensures Progress(st, whole, rest, now)
  {
    assert a.Some?;
    hide Outcome;
    var done :| Outcome(st, Some(done), true, mid) && whole == Cat(Some(done), Cat(a, rest));
    OutcomeThen(st, Some(done), mid, a, true, now);
    CatAssoc(done, a.value, rest);
  }

  /** The writer in turn failed, so the whole fails. */
  lemma ProgressFails(st: OState, whole: Option<seq<byte>>, a: Option<seq<byte>>, rest: Option<seq<byte>>, mid: OState, now: OState)
    requires Ready(st) && Ready(mid) && Progress(st, whole, Cat(a, rest), mid) && Outcome(mid, a, false, now)
    ensures Outcome(st, whole, false, now)
  {
    OutcomeFails(mid, a, now, rest);
    ProgressLast(st, whole, Cat(a, rest), mid, false, now);
  }

  /** The last writer decides. */
  lemma ProgressLast(st: OState, whole: Option<seq<byte>>, rest: Option<seq<byte>>, mid: OState, ok: bool, now: OState)
    requires Ready(st) && Ready(mid) && Progress(st, whole, rest, mid) && Outcome(mid, rest, ok, now)
    ensures Outcome(st, whole, ok, now)
  {
    hide Outcome;
    var done :| Outcome(st, Some(done), true, mid) && whole == Cat(Some(done), rest);
    OutcomeThen(st, Some(done), mid, rest, ok, now);
  }

  lemma ProgressEnd(st: OState, whole: Option<seq<byte>>, now: OState)
    requires Ready(st) && Ready(now) && Progress(st, whole, Some([]), now)
    ensures Outcome(st, whole, true, now)
  {
    NothingEmitted(now);
    ProgressLast(st, whole, Some([]), now, true, now);
  }

  // ---- Scalar fields ----------------------------------------------------------------------------------

  lemma CStringStep(data: seq<byte>, k: nat)
    requires k < |data| && data[k] != 0
    ensures data[..k] + CString(data[k..]) == data[..k + 1] + CString(data[k + 1..])
  {
    assert data[k..][1..] == data[k + 1..];
    assert data[..k] + [data[k]] == data[..k + 1];
  }

  /** `pb_enc_string`: the loop that stands in for `strnlen`. */
  method StringLength(data: seq<byte>) returns (size: nat)
    ensures size <= |data| && data[..size] == CString(data)
  {
    size := 0;
    while size < |data| && data[size] != 0
      invariant size <= |data|
      invariant CString(data) == data[..size] + CString(data[size..])
    {
      CStringStep(data, size);
      size := size + 1;
    }
  }

  /** Dispatch through the encoder table for everything but submessages. */
  method WriteScalar(o: OStream, f: Field, v: Value) returns (ok: bool)
    requires o.Valid()
    modifies o, o.buf
    ensures o.Valid() && Outcome(old(o.State()), EncodeScalar(f, v), ok, o.State())
  {
    NoEncoding(o.State());
    hide Outcome, CString, FixedBytes, EncodeVarint, CastUnsigned, ZigZag;
    match (f.ltype, v)
    case (BoolType, Num(n)) =>
      ok := o.WriteVarint(if n != 0 then 1 else 0);
    case (VarintType(kind), Num(n)) =>
      if !ValidWidth(f.dataSize) || (kind.ZigZagged? && !FitsSigned(n, 8)) { return false; }
      if kind.ZigZagged? { ok := o.WriteSvarint(n); } else { ok := o.WriteVarint(CastUnsigned(n, 8)); }
    case (Fixed32Type, Num(n)) =>
      ok := o.WriteFixed(CastUnsigned(n, 4), 4);
    case (Fixed64Type, Num(n)) =>
      ok := o.WriteFixed(CastUnsigned(n, 8), 8);
    case (BytesType, Blob(d)) =>
      if |d| + BYTES_HEADER > f.dataSize { return false; }
      ok := o.WriteString(d);
    case (StringType, Blob(d)) =>
      var size := StringLength(d);
      ok := o.WriteString(d[..size]);
    case (FixedLengthBytesType, Blob(d)) =>
      ok := o.WriteString(d);
    case _ =>
      ok := false;
  }

  // ---- Submessages --------------------------------------------------------------------------------------

  function SubmessageBytes(mt: MsgType, m: seq<Slot>): Option<seq<byte>> {
    var body := EncodeMessage(mt, m);
    if body.Some? then Some(EncodeString(body.value)) else None
  }

  lemma Counted(st: OState, e: seq<byte>)
    requires Ready(st) && st.sizing
    ensures Outcome(st, Some(e), true, st.(written := st.written + |e|))
  {
    PlusConfined(st, e);
  }

  lemma Full(st: OState, e: seq<byte>)
    requires Ready(st) && !Room(st, |e|)
    ensures Outcome(st, Some(e), false, st)
  {}

  lemma SizeCounted(st: OState, e: Option<seq<byte>>, ok: bool, now: OState)
    requires Ready(st) && st.sizing && st.written == 0 && Outcome(st, e, ok, now)
    ensures ok <==> e.Some?
    ensures ok ==> now.written == |e.value|
  {}

  /** Writing through a substream limited to the announced size emits exactly the payload, and its
      size cannot have changed. */
  lemma SubstreamWritten(mid: OState, e: seq<byte>, status: bool, now: OState)
    requires Ready(mid) && !mid.sizing && Room(mid, |e|)
    requires Outcome(OState(false, mid.at, 0, |e|, mid.bytes), Some(e), status, now)
    ensures status && now.written == |e|
    ensures Ready(OState(false, now.at, mid.written + now.written, mid.maxSize, now.bytes))
    ensures Outcome(mid, Some(e), true, OState(false, now.at, mid.written + now.written, mid.maxSize, now.bytes))
  {
    PlusConfined(mid, e);
    hide Confined;
  }

  /** `pb_encode_submessage`: size the message in one pass, write it in a second. */
  method WriteSubmessage(o: OStream, mt: MsgType, m: seq<Slot>) returns (ok: bool)
    requires o.Valid()
    modifies o, o.buf
    ensures o.Valid() && Outcome(old(o.State()), SubmessageBytes(mt, m), ok, o.State())
    decreases mt, 1
  {
    ghost var st, e := o.State(), EncodeMessage(mt, m);
    NoEncoding(st);
    var size;
    ok, size := EncodedSize(mt, m);
    if !ok { return; }
    hide Outcome, EncodeMessage;
    ghost var prefix := EncodeVarint(size);
    ok := o.WriteVarint(size);
    ghost var mid := o.State();
    if !ok {
      OutcomeFails(st, Some(prefix), mid, e);
      return;
    }
    if o.sizing {
      Counted(mid, e.value);
      ok := o.Count(size);
    } else if o.bytesWritten + size > o.maxSize {
      Full(mid, e.value);
      ok := false;
    } else {
      ok := WriteLimited(o, mt, m, size);
    }
    OutcomeThen(st, Some(prefix), mid, e, ok, o.State());
  }

  /** The second pass, through a substream with the announced size as its limit. */
  method WriteLimited(o: OStream, mt: MsgType, m: seq<Slot>, size: nat) returns (ok: bool)
    requires o.Valid() && !o.sizing && o.bytesWritten + size <= o.maxSize
    requires EncodeMessage(mt, m).Some? && size == |EncodeMessage(mt, m).value|
    modifies o, o.buf
    ensures o.Valid() && Outcome(old(o.State()), EncodeMessage(mt, m), ok, o.State())
    decreases mt, 0, 2
  {
    hide Outcome, EncodeMessage;
    ghost var mid, e := o.State(), EncodeMessage(mt, m);
    var sub := new OStream.Sub(o, size);
    var status := WriteMessage(sub, mt, m);
    SubstreamWritten(mid, e.value, status, sub.State());
    o.bytesWritten := o.bytesWritten + sub.bytesWritten;
    o.at := sub.at;
    // "submsg size changed" would be reported here; it cannot be.
    assert sub.bytesWritten == size;
    ok := status;
  }

  /** `pb_get_encoded_size`. */
  method EncodedSize(mt: MsgType, m: seq<Slot>) returns (ok: bool, size: nat)
    ensures ok <==> EncodeMessage(mt, m).Some?
    ensures ok ==> size == |EncodeMessage(mt, m).value|
    decreases mt, 0, 2
  {
    hide EncodeMessage, Outcome;
    var sizing := new OStream.Sizing();
    ghost var st := sizing.State();
    ok := WriteMessage(sizing, mt, m);
    SizeCounted(st, EncodeMessage(mt, m), ok, sizing.State());
    size := sizing.bytesWritten;
  }

  method WriteValue(o: OStream, f: Field, v: Value) returns (ok: bool)
    requires o.Valid()
    modifies o, o.buf
    ensures o.Valid() && Outcome(old(o.State()), EncodeValue(f, v), ok, o.State())
    decreases f, 0
  {
    hide Outcome, EncodeScalar, EncodeFrom;
    if f.ltype.SubmessageType? && v.Msg? {
      ok := WriteSubmessage(o, f.ltype.sub, v.members);
    } else {
      ok := WriteScalar(o, f, v);
    }
  }

  /** A tag and a value. */
  method WriteTagged(o: OStream, f: Field, v: Value) returns (ok: bool)
    requires o.Valid()
    modifies o, o.buf
    ensures o.Valid() && Outcome(old(o.State()), EncodeTagged(f, v), ok, o.State())
    decreases f, 1
  {
    hide Outcome, EncodeTag, EncodeValue;
    ghost var st, tag := o.State(), Some(EncodeTag(WireType(f.ltype), f.tag));
    ok := o.WriteTag(WireType(f.ltype), f.tag);
    ghost var mid := o.State();
    if !ok {
      OutcomeFails(st, tag, mid, EncodeValue(f, v));
      return;
    }
    ok := WriteValue(o, f, v);
    OutcomeThen(st, tag, mid, EncodeValue(f, v), ok, o.State());
  }

  // ---- Arrays ---------------------------------------------------------------------------------------------

  /** The elements of an array without tags, on a sizing or a writing stream. */
  method WritePacked(o: OStream, f: Field, items: seq<Value>) returns (ok: bool)
    requires o.Valid()
    modifies o, o.buf
    ensures o.Valid() && Outcome(old(o.State()), EncodePacked(f, items), ok, o.State())
  {
    ghost var st, whole := o.State(), EncodePacked(f, items);
    ProgressStart(st, whole);
    assert items[0..] == items;
    assert EncodePacked(f, []) == Some([]);
    hide Outcome, Progress, EncodeScalar;
    var i := 0;
    while i < |items|
      invariant i <= |items| && o.Valid()
      invariant Progress(st, whole, EncodePacked(f, items[i..]), o.State())
    {
      ghost var mid, a, rest := o.State(), EncodeScalar(f, items[i]), EncodePacked(f, items[i + 1..]);
      assert items[i..][1..] == items[i + 1..];
      ok := WriteScalar(o, f, items[i]);
      if !ok {
        ProgressFails(st, whole, a, rest, mid, o.State());
        return;
      }
      ProgressStep(st, whole, a, rest, mid, o.State());
      i := i + 1;
    }
    ok := true;
    ProgressEnd(st, whole, o.State());
  }

  /** The elements of an array, one record each. */
  method WriteUnpacked(o: OStream, f: Field, items: seq<Value>) returns (ok: bool)
    requires o.Valid()
    modifies o, o.buf
    ensures o.Valid() && Outcome(old(o.State()), EncodeUnpacked(f, items), ok, o.State())
    decreases f, 2
  {
    ghost var st, whole := o.State(), EncodeUnpacked(f, items);
    ProgressStart(st, whole);
    assert items[0..] == items;
    assert EncodeUnpacked(f, []) == Some([]);
    hide Outcome, Progress, EncodeTagged;
    var i := 0;
    while i < |items|
      invariant i <= |items| && o.Valid()
      invariant Progress(st, whole, EncodeUnpacked(f, items[i..]), o.State())
    {
      ghost var mid, a, rest := o.State(), EncodeTagged(f, items[i]), EncodeUnpacked(f, items[i + 1..]);
      assert items[i..][1..] == items[i + 1..];
      ok := WriteTagged(o, f, items[i]);
      if !ok {
        ProgressFails(st, whole, a, rest, mid, o.State());
        return;
      }
      ProgressStep(st, whole, a, rest, mid, o.State());
      i := i + 1;
    }
    ok := true;
    ProgressEnd(st, whole, o.State());
  }

  predicate AllNumbers(items: seq<Value>) {
    forall k | 0 <= k < |items| :: items[k].Num?
  }

  /** Fixed-width elements all take their width. */
  lemma {:induction false} FixedWidthSize(f: Field, items: seq<Value>)
    requires (f.ltype.Fixed32Type? || f.ltype.Fixed64Type?)
    ensures EncodePacked(f, items).Some? <==> AllNumbers(items)
    ensures AllNumbers(items) ==> |EncodePacked(f, items).value| == (if f.ltype.Fixed32Type? then 4 else 8) * |items|
  {
    hide FixedBytes, CastUnsigned;
    if items != [] {
      assert items == [items[0]] + items[1..];
      FixedWidthSize(f, items[1..]);
    }
  }

  /** The size of a packed array: computed for fixed-width elements, counted by a sizing stream
      otherwise. A value of another shape than the field's cannot stand in the C array. */
  method PackedSize(f: Field, items: seq<Value>) returns (ok: bool, size: nat)
    ensures ok <==> EncodePacked(f, items).Some?
    ensures ok ==> size == |EncodePacked(f, items).value|
  {
    if f.ltype.Fixed32Type? || f.ltype.Fixed64Type? {
      FixedWidthSize(f, items);
      ok := AllNumbers(items);
      size := (if f.ltype.Fixed32Type? then 4 else 8) * |items|;
    } else {
      hide EncodePacked, Outcome;
      var sizing := new OStream.Sizing();
      ghost var st := sizing.State();
      ok := WritePacked(sizing, f, items);
      SizeCounted(st, EncodePacked(f, items), ok, sizing.State());
      size := sizing.bytesWritten;
    }
  }

  function PackedRecord(f: Field, items: seq<Value>): Option<seq<byte>> {
    Cat(Some(EncodeTag(WT_STRING, f.tag)), PackedString(f, items))
  }

  function PackedString(f: Field, items: seq<Value>): Option<seq<byte>> {
    var body := EncodePacked(f, items);
    if body.Some? then Some(EncodeString(body.value)) else None
  }

  /** Length and elements of a packed array; a sizing stream only counts the elements. */
  method WritePackedString(o: OStream, f: Field, items: seq<Value>) returns (ok: bool)
    requires o.Valid()
    modifies o, o.buf
    ensures o.Valid() && Outcome(old(o.State()), PackedString(f, items), ok, o.State())
  {
    ghost var st, e := o.State(), EncodePacked(f, items);
    NoEncoding(st);
    var size;
    ok, size := PackedSize(f, items);
    if !ok { return; }
    hide Outcome, EncodePacked;
    ghost var prefix := EncodeVarint(size);
    ok := o.WriteVarint(size);
    ghost var mid := o.State();
    if !ok {
      OutcomeFails(st, Some(prefix), mid, e);
      return;
    }
    if o.sizing {
      Counted(mid, e.value);
      ok := o.Count(size);
    } else {
      ok := WritePacked(o, f, items);
    }
    OutcomeThen(st, Some(prefix), mid, e, ok, o.State());
  }

  /** `encode_array`. */
  method WriteArray(o: OStream, f: Field, items: seq<Value>) returns (ok: bool)
    requires o.Valid()
    modifies o, o.buf
    ensures o.Valid() && Outcome(old(o.State()), EncodeArray(f, items), ok, o.State())
    decreases f, 3
  {
    ghost var st := o.State();
    NothingEmitted(st);
    NoEncoding(st);
    hide Outcome, EncodePacked, EncodeUnpacked, EncodeTag;
    if |items| == 0 { return true; }
    if |items| > f.arraySize { return false; }
    if Packable(f.ltype) {
      ok := o.WriteTag(WT_STRING, f.tag);
      ghost var mid := o.State();
      assert EncodeArray(f, items) == PackedRecord(f, items);
      if !ok {
        OutcomeFails(st, Some(EncodeTag(WT_STRING, f.tag)), mid, PackedString(f, items));
        return;
      }
      ok := WritePackedString(o, f, items);
      OutcomeThen(st, Some(EncodeTag(WT_STRING, f.tag)), mid, PackedString(f, items), ok, o.State());
    } else {
      ok := WriteUnpacked(o, f, items);
    }
  }

  // ---- Fields and messages ----------------------------------------------------------------------------------

  /** `pb_check_proto3_default_value`. */
  method CheckDefault(f: Field, x: Slot) returns (isDefault: bool)
    ensures isDefault == HoldsDefault(f, x)
    decreases f
  {
    match f.htype
    case Required => isDefault := false;
    case Repeated => isDefault := !x.Many? || |x.items| == 0;
    case FixedCount => isDefault := false;
    case Oneof => isDefault := !x.Chosen? || x.which == 0;
    case Optional => isDefault := !x.Opt? || !x.has;
    case Singular =>
      if !x.One? { return false; }
      match (f.ltype, x.v)
      case (SubmessageType(sub), Msg(m)) => isDefault := CheckAllDefault(sub, m);
      case (BytesType, Blob(d)) => isDefault := |d| == 0;
      case (StringType, Blob(d)) => isDefault := |d| == 0 || d[0] == 0;
      case (FixedLengthBytesType, _) => isDefault := f.dataSize == 0;
      case (_, Num(n)) => isDefault := n == 0;
      case _ => isDefault := false;
  }

  /** Its loop over the fields of a submessage. */
  method CheckAllDefault(mt: MsgType, m: seq<Slot>) returns (isDefault: bool)
    ensures isDefault == AllHoldDefault(mt, m, 0)
    decreases mt
  {
    hide HoldsDefault;
    var iter := new FieldIter(mt.fields);
    if |mt.fields| == 0 { return true; }
    var more := true;
    while more
      invariant iter.Valid() && iter.fields == mt.fields
      invariant AllHoldDefault(mt, m, 0) == AllHoldDefault(mt, m, if more then iter.pos else |mt.fields|)
      decreases if more then |mt.fields| - iter.pos else 0
    {
      var f := mt.fields[iter.pos];
      var d := CheckDefault(f, GetSlot(m, f.slot));
      if !d { return false; }
      more := iter.Next();
    }
    isDefault := true;
  }

  /** `encode_basic_field`. */
  method WriteField(o: OStream, f: Field, x: Slot) returns (ok: bool)
    requires o.Valid()
    modifies o, o.buf
    ensures o.Valid() && Outcome(old(o.State()), EncodeField(f, x), ok, o.State())
    decreases f, 4
  {
    NothingEmitted(o.State());
    NoEncoding(o.State());
    hide Outcome, EncodeTagged, EncodeArray, IsZero;
    match (f.htype, x)
    case (Required, One(v)) =>
      ok := WriteTagged(o, f, v);
    case (Singular, One(v)) =>
      var isDefault := CheckDefault(f, x);
      if isDefault { return true; }
      ok := WriteTagged(o, f, v);
    case (Optional, Opt(has, v)) =>
      if !has { return true; }
      ok := WriteTagged(o, f, v);
    case (Repeated, Many(items)) =>
      ok := WriteArray(o, f, items);
    case (FixedCount, Many(items)) =>
      ok := WriteArray(o, f, items);
    case (Oneof, Chosen(which, v)) =>
      if which != f.tag { return true; }
      ok := WriteTagged(o, f, v);
    case (Oneof, Unset) =>
      ok := true;
    case _ =>
      ok := false;
  }

  lemma FieldsStep(mt: MsgType, m: seq<Slot>, i: nat)
    requires i < |mt.fields|
    ensures EncodeFrom(mt, m, i) == Cat(EncodeField(mt.fields[i], GetSlot(m, mt.fields[i].slot)), EncodeFrom(mt, m, i + 1))
  {}

  /** One field of the loop of `pb_encode`. */
  method WriteNext(o: OStream, mt: MsgType, m: seq<Slot>, i: nat, ghost st: OState, ghost whole: Option<seq<byte>>)
    returns (ok: bool)
    requires o.Valid() && i < |mt.fields| && Ready(st)
    requires Progress(st, whole, EncodeFrom(mt, m, i), o.State())
    modifies o, o.buf
    ensures o.Valid()
    ensures ok ==> Progress(st, whole, EncodeFrom(mt, m, i + 1), o.State())
    ensures !ok ==> Outcome(st, whole, false, o.State())
    decreases mt, 0, 0
  {
    hide Outcome, Progress, EncodeField, EncodeFrom;
    FieldsStep(mt, m, i);
    var f := mt.fields[i];
    ghost var mid, a, rest := o.State(), EncodeField(f, GetSlot(m, f.slot)), EncodeFrom(mt, m, i + 1);
    ok := WriteField(o, f, GetSlot(m, f.slot));
    if ok { ProgressStep(st, whole, a, rest, mid, o.State()); } else { ProgressFails(st, whole, a, rest, mid, o.State()); }
  }

  /** `pb_encode`: it succeeds on a memory stream exactly when the message has an encoding and the
      encoding fits in the remaining space, and always agrees with the size a sizing stream counts. */
  method WriteMessage(o: OStream, mt: MsgType, m: seq<Slot>) returns (ok: bool)
    requires o.Valid()
    modifies o, o.buf
    ensures o.Valid() && Outcome(old(o.State()), EncodeMessage(mt, m), ok, o.State())
    decreases mt, 0, 1
  {
    ghost var st, whole := o.State(), EncodeMessage(mt, m);
    assert EncodeFrom(mt, m, |mt.fields|) == Some([]);
    ProgressStart(st, whole);
    NothingEmitted(st);
    hide Outcome, Progress, EncodeField, EncodeFrom;
    var iter := new FieldIter(mt.fields);
    if |mt.fields| == 0 { return true; }
    var more := true;
    while more
      invariant o.Valid() && fresh(iter) && iter.Valid() && iter.fields == mt.fields
      invariant Progress(st, whole, EncodeFrom(mt, m, if more then iter.pos else |mt.fields|), o.State())
      decreases if more then |mt.fields| - iter.pos else 0
    {
      ok := WriteNext(o, mt, m, iter.pos, st, whole);
      if !ok { return; }
      more := iter.Next();
    }
    ok := true;
    ProgressEnd(st, whole, o.State());
  }

  /** Sizing refines writing. Put the same encoding through a sizing stream and through a memory stream, in
      whatever states: the memory stream succeeds exactly when the sizing stream does and the size it
      counted fits in the remaining space, and then emits exactly that many bytes, the encoding. */
  lemma SizingRefinesWriting(e: Option<seq<byte>>, sizing: OState, sized: bool, sizedTo: OState,
                             memory: OState, ok: bool, wroteTo: OState)
    requires Ready(sizing) && sizing.sizing && Outcome(sizing, e, sized, sizedTo)
    requires Ready(memory) && !memory.sizing && Outcome(memory, e, ok, wroteTo)
    ensures ok <==> sized && memory.written + (sizedTo.written - sizing.written) <= memory.maxSize
    ensures ok ==> wroteTo.written - memory.written == sizedTo.written - sizing.written
    ensures ok ==> wroteTo.bytes[memory.at..wroteTo.at] == e.value
  {
    if ok { WrittenHere(memory.bytes, memory.at, e.value); }
    hide Confined, Splice;
  }

  lemma WrittenHere(s: seq<byte>, at: nat, e: seq<byte>)
    requires at + |e| <= |s|
    ensures Splice(s, at, e)[at..at + |e|] == e
  {}
}
