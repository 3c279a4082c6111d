/** The decoder of pb_decode.c over a memory stream, proved against the decoding function. */
module Decoder {
  import opened Bytes
  import opened Varint
  import opened Integers
  import opened Messages
  import opened Encode
  import opened Decode
  import opened Soundness
  import opened FieldIteration
  import opened RequiredBitmap
  import opened InputStreams

  // ---- Field decoders ---------------------------------------------------------------------------

  /** `(uint32_t)b0 << 0 | b1 << 8 | b2 << 16 | b3 << 24`; the parts do not overlap. */
  function Joined(b0: int, b1: int, b2: int, b3: int): int {
    b0 + 0x100 * b1 + 0x1_0000 * b2 + 0x100_0000 * b3
  }

  lemma FixedValueOf4(d: seq<byte>)
    requires |d| == 4
    ensures FixedValue(d) == Joined(d[0], d[1], d[2], d[3])
  {
    assert d[1..][1..] == d[2..] && d[2..][1..] == d[3..] && d[3..][1..] == d[4..] == [];
    assert FixedValue(d[3..]) == d[3] + 256 * FixedValue(d[4..]);
    assert FixedValue(d[2..]) == d[2] + 256 * FixedValue(d[3..]);
    assert FixedValue(d[1..]) == d[1] + 256 * FixedValue(d[2..]);
  }

  lemma FixedValueOf8(d: seq<byte>)
    requires |d| == 8
    ensures FixedValue(d) == FixedValue(d[..4]) + TWO32 * FixedValue(d[4..])
  {
    FixedValueSplit(d, 4);
    Pow256Widths();
  }

  lemma {:induction false} FixedValueSplit(d: seq<byte>, n: nat)
    requires n <= |d|
    ensures FixedValue(d) == FixedValue(d[..n]) + Pow256(n) * FixedValue(d[n..])
  {
    if n == 0 {
      assert d[0..] == d;
    } else {
      FixedValueSplit(d[1..], n - 1);
      assert d[1..][..n - 1] == d[..n][1..] && d[1..][n - 1..] == d[n..];
      Scale(Pow256(n - 1), FixedValue(d[n..]));
    }
  }

  lemma Scale(p: nat, x: nat)
    ensures 256 * (p * x) == 256 * p * x
  {}

  /** `pb_decode_fixed32` and `pb_decode_fixed64`. */
  method ReadFixed(s: IStream, n: nat) returns (ok: bool, v: Value)
    requires s.Valid() && (n == 4 || n == 8)
    modifies s
    ensures s.Valid() && s.Within()
    ensures ok <==> DecodeFixed(old(s.Rest()), n).Got?
    ensures ok ==> v == DecodeFixed(old(s.Rest()), n).value && s.Advanced(n)
  {
    hide FixedValue;
    v := Num(0);
    var d;
    ok, d := s.Read(n);
    if !ok { return; }
    FixedValueOf4(d[..4]);
    var low := Joined(d[0], d[1], d[2], d[3]);
    if n == 4 {
      assert d[..4] == d;
      v := Num(low);
    } else {
      FixedValueOf4(d[4..]);
      FixedValueOf8(d);
      v := Num(low + TWO32 * Joined(d[4], d[5], d[6], d[7]));
    }
  }

  /** `pb_dec_varint`, `pb_dec_uvarint` and `pb_dec_svarint`. */
  method ReadInteger(s: IStream, kind: IntKind, width: nat) returns (ok: bool, v: Value)
    requires s.Valid()
    modifies s
    ensures s.Valid() && s.Within()
    ensures ok <==> DecodeInteger(kind, width, old(s.Rest())).Got?
    ensures ok ==> v == DecodeInteger(kind, width, old(s.Rest())).value
    ensures ok ==> s.Advanced(DecodeInteger(kind, width, old(s.Rest())).used)
  {
    hide DecodeVarint;
    v := Num(0);
    var wire;
    ok, wire := s.ReadVarint();
    if !ok { return; }
    if width != 8 && width != 4 && width != 2 && width != 1 { return false, v; }
    var value: int := match kind
      case Signed => if width == 8 then CastSigned(wire, 8) else CastSigned(wire, 4)
      case Unsigned => wire
      case ZigZagged => UnZigZag(wire);
    var clamped := if kind.Unsigned? then CastUnsigned(value, width) else CastSigned(value, width);
    if clamped != value { return false, v; }
    v := Num(clamped);
  }

  /** `pb_dec_bytes`, `pb_dec_string` and `pb_dec_fixed_length_bytes`. */
  method ReadBlob(s: IStream, f: Field) returns (ok: bool, v: Value)
    requires s.Valid()
    modifies s
    ensures s.Valid() && s.Within()
    ensures ok <==> DecodeBlob(f, old(s.Rest())).Got?
    ensures ok ==> v == DecodeBlob(f, old(s.Rest())).value && s.Advanced(DecodeBlob(f, old(s.Rest())).used)
  {
    hide DecodeVarint32;
    v := Blob([]);
    var got, size, eof := s.ReadVarint32();
    if !got { return false, v; }
    if f.ltype.BytesType? {
      if size + BYTES_HEADER > f.dataSize { return false, v; }
    } else if f.ltype.StringType? {
      // size + 1 is computed in 32 bits.
      var allocSize := (size + 1) % TWO32;
      if allocSize < size || allocSize > f.dataSize { return false, v; }
    } else if f.ltype.FixedLengthBytesType? {
      if size == 0 { return true, Blob(Repeat(0, f.dataSize)); }
      if size != f.dataSize { return false, v; }
    }
    var d;
    ok, d := s.Read(size);
    if ok { v := Blob(d); }
  }

  /** Dispatch through the decoder table for everything but submessages. */
  method ReadScalar(s: IStream, f: Field) returns (ok: bool, v: Value)
    requires s.Valid()
    modifies s
    ensures s.Valid() && s.Within()
    ensures ok <==> DecodeScalar(f, old(s.Rest())).Got?
    ensures ok ==> v == DecodeScalar(f, old(s.Rest())).value && s.Advanced(DecodeScalar(f, old(s.Rest())).used)
  {
    hide DecodeVarint32, DecodeInteger, DecodeFixed, DecodeBlob;
    match f.ltype
    case BoolType =>
      var value, eof;
      ok, value, eof := s.ReadVarint32();
      v := Num(if value != 0 then 1 else 0);
    case VarintType(kind) => ok, v := ReadInteger(s, kind, f.dataSize);
    case Fixed32Type => ok, v := ReadFixed(s, 4);
    case Fixed64Type => ok, v := ReadFixed(s, 8);
    case SubmessageType(_) => return false, Num(0);
    case _ => ok, v := ReadBlob(s, f);
  }

  // ---- Default values ----------------------------------------------------------------------------

  /** `pb_message_set_to_defaults`: walk the fields with the iterator. */
  method SetToDefaults(mt: MsgType, base: seq<Slot>) returns (m: seq<Slot>)
    ensures m == DefaultsUpTo(mt, base, |mt.fields|)
  {
    hide DefaultSlot;
    m := base;
    var iter := new FieldIter(mt.fields);
    if |mt.fields| == 0 { return; }
    var more := true;
    while more
      invariant iter.Valid() && iter.fields == mt.fields
      invariant m == DefaultsUpTo(mt, base, if more then iter.pos else |mt.fields|)
      decreases if more then |mt.fields| - iter.pos else 0
    {
      var f := mt.fields[iter.pos];
      m := PutSlot(m, f.slot, DefaultSlot(f));
      more := iter.Next();
    }
  }

  // ---- Fields --------------------------------------------------------------------------------------

  /** `pb_dec_submessage`, or the scalar decoders. */
  method ReadValue(s: IStream, f: Field, x: Slot) returns (ok: bool, v: Value)
    requires s.Valid() && ValidField(f)
    modifies s
    ensures s.Valid() && s.Within()
    ensures ok <==> DecodeValue(f, old(s.Rest()), x).Got?
    ensures ok ==> v == DecodeValue(f, old(s.Rest()), x).value && s.Advanced(DecodeValue(f, old(s.Rest()), x).used)
    decreases s.bytesLeft, 0
  {
    hide DecodeScalar, LenDelim, DecodeNoinit, ValidType, StartOf;
    if f.ltype.SubmessageType? {
      v := Num(0);
      var sub;
      ok, sub := s.MakeSubstream();
      if !ok { return; }
      ghost var payload := sub.Rest();
      var status, m := ReadMessage(sub, f.ltype.sub, StartOf(f, x));
      var closed := s.CloseSubstream(sub);
      if !closed { return false, v; }
      ok := status;
      if ok { v := Msg(m); }
    } else {
      ok, v := ReadScalar(s, f);
    }
  }

  /** Where decoding a packed payload stands after `k` bytes. */
  ghost predicate PackedAt(f: Field, s: seq<byte>, items0: seq<Value>, count0: nat, k: nat, items: seq<Value>, count: nat) {
    k <= |s| && DecodePacked(f, s, items0, count0) == DecodePacked(f, s[k..], items, count)
  }

  lemma PackedStart(f: Field, s: seq<byte>, items0: seq<Value>, count0: nat)
    ensures PackedAt(f, s, items0, count0, 0, items0, count0)
  {
    assert s[0..] == s;
  }

  lemma PackedStep(f: Field, s: seq<byte>, items0: seq<Value>, count0: nat, k: nat, items: seq<Value>, count: nat)
    requires PackedAt(f, s, items0, count0, k, items, count)
    requires k < |s| && count < f.arraySize
    ensures var p := DecodeScalar(f, s[k..]);
            if p.Fail? then DecodePacked(f, s, items0, count0).None?
            else PackedAt(f, s, items0, count0, k + p.used, StoreItem(items, count, p.value), count + 1)
  {
    var p := DecodeScalar(f, s[k..]);
    if p.Got? { assert s[k..][p.used..] == s[k + p.used..]; }
    hide DecodeScalar, StoreItem;
  }

  lemma PackedEnd(f: Field, s: seq<byte>, items0: seq<Value>, count0: nat, k: nat, items: seq<Value>, count: nat)
    requires PackedAt(f, s, items0, count0, k, items, count) && (k == |s| || count >= f.arraySize)
    ensures DecodePacked(f, s, items0, count0) == if k == |s| then Some((items, count)) else None
  {}

  method ReadElement(sub: IStream, f: Field, ghost payload: seq<byte>, ghost k: nat)
    returns (ok: bool, v: Value, ghost k': nat)
    requires sub.At(payload, k)
    modifies sub
    ensures sub.Valid() && sub.Within()
    ensures ok <==> DecodeScalar(f, payload[k..]).Got?
    ensures ok ==> k' > k && DecodeScalar(f, payload[k..]).used == k' - k && DecodeScalar(f, payload[k..]).value == v
    ensures ok ==> sub.At(payload, k') && sub.Advanced(k' - k)
  {
    hide DecodeScalar, IStream.At;
    ghost var p := DecodeScalar(f, payload[k..]);
    ok, v := ReadScalar(sub, f);
    k' := k;
    if ok {
      sub.Moved(payload, k, p.used);
      k' := k + p.used;
    }
  }

  /** The elements of one packed record, from a substream holding exactly its payload. */
  method ReadPacked(sub: IStream, f: Field, items0: seq<Value>, count0: nat)
    returns (ok: bool, items: seq<Value>, count: nat)
    requires sub.Valid()
    modifies sub
    ensures sub.Valid() && sub.Within()
    ensures ok <==> DecodePacked(f, old(sub.Rest()), items0, count0).Some?
    ensures ok ==> DecodePacked(f, old(sub.Rest()), items0, count0) == Some((items, count))
    ensures ok ==> sub.bytesLeft == 0 && sub.pos == old(sub.pos + sub.bytesLeft)
  {
    hide DecodeScalar, StoreItem, DecodePacked, PackedAt;
    ghost var payload := sub.Rest();
    ghost var k: nat := 0;
    items, count := items0, count0;
    PackedStart(f, payload, items, count);
    assert sub.At(payload, 0);
    hide IStream.At, IStream.Rest;
    while sub.bytesLeft > 0 && count < f.arraySize
      invariant sub.At(payload, k) && sub.Advanced(k)
      invariant PackedAt(f, payload, items0, count0, k, items, count)
      decreases sub.bytesLeft
    {
      PackedStep(f, payload, items0, count0, k, items, count);
      var v;
      ok, v, k := ReadElement(sub, f, payload, k);
      if !ok { return; }
      items, count := StoreItem(items, count, v), count + 1;
    }
    PackedEnd(f, payload, items0, count0, k, items, count);
    ok := sub.bytesLeft == 0;
  }

  /** A repeated field: one packed record, or one element. */
  method ReadItems(s: IStream, f: Field, wireType: nat, items0: seq<Value>, count0: nat)
    returns (ok: bool, items: seq<Value>, count: nat)
    requires s.Valid() && ValidField(f)
    modifies s
    ensures s.Valid() && s.Within()
    ensures ok <==> DecodeItems(f, wireType, old(s.Rest()), items0, count0).Got?
    ensures ok ==> DecodeItems(f, wireType, old(s.Rest()), items0, count0).value == (items, count)
    ensures ok ==> s.Advanced(DecodeItems(f, wireType, old(s.Rest()), items0, count0).used)
    decreases s.bytesLeft, 1
  {
    hide DecodeValue, DecodePacked, LenDelim, StoreItem, ValidField;
    items, count := items0, count0;
    if wireType == WT_STRING && Packable(f.ltype) {
      var sub;
      ok, sub := s.MakeSubstream();
      if !ok { return; }
      ok, items, count := ReadPacked(sub, f, items0, count0);
      if !ok { return; }
      ok := s.CloseSubstream(sub);
    } else {
      if count >= f.arraySize { return false, items, count; }
      var v;
      ok, v := ReadValue(s, f, Unset);
      if ok { items, count := StoreItem(items, count, v), count + 1; }
    }
  }

  /** `decode_static_field`. */
  method ReadSlot(s: IStream, f: Field, wireType: nat, x: Slot, fixedSize: nat)
    returns (ok: bool, y: Slot, size: nat)
    requires s.Valid() && ValidField(f)
    modifies s
    ensures s.Valid() && s.Within()
    ensures ok <==> DecodeSlot(f, wireType, old(s.Rest()), x, fixedSize).Got?
    ensures ok ==> DecodeSlot(f, wireType, old(s.Rest()), x, fixedSize).value == (y, size)
    ensures ok ==> s.Advanced(DecodeSlot(f, wireType, old(s.Rest()), x, fixedSize).used)
    decreases s.bytesLeft, 2
  {
    hide DecodeValue, DecodeItems, ValidField;
    y, size := x, fixedSize;
    match f.htype
    case Repeated =>
      var items, count;
      ok, items, count := ReadItems(s, f, wireType, ItemsOf(x), |ItemsOf(x)|);
      if ok { y := Many(items); }
    case FixedCount =>
      var items, count;
      ok, items, count := ReadItems(s, f, wireType, ItemsOf(x), fixedSize);
      if ok { y, size := Many(items), count; }
    case Optional =>
      var v;
      ok, v := ReadValue(s, f, x);
      if ok { y := Opt(true, v); }
    case Oneof =>
      var v;
      ok, v := ReadValue(s, f, x);
      if ok { y := Chosen(f.tag, v); }
    case _ =>
      var v;
      ok, v := ReadValue(s, f, x);
      if ok { y := One(v); }
  }

  // ---- The record loop ---------------------------------------------------------------------------

  /** The bitmap stands for the set of required fields seen so far. */
  ghost predicate Stands(bitmap: SeenFields, seen: set<nat>)
    requires bitmap.Valid()
    reads bitmap, bitmap.words
  {
    && (forall r: nat | r < MAX_REQUIRED_FIELDS :: bitmap.Has(r) <==> r in seen)
    && (forall r | r in seen :: r < MAX_REQUIRED_FIELDS)
  }

  /** Only tracked required fields are ever marked. */
  ghost predicate OnlyTracked(mt: MsgType, seen: set<nat>) {
    forall r | r in seen :: r < TrackedRequired(mt.fields)
  }

  lemma BeginTracked(mt: MsgType, i: nat, st: DState)
    requires i < |mt.fields| && BeginField(mt, i, st).Some? && OnlyTracked(mt, st.seen)
    ensures OnlyTracked(mt, BeginField(mt, i, st).value.seen)
  {
    hide RequiredBefore;
    if mt.fields[i].htype.Required? { RequiredBeforeGrows(mt.fields, i, |mt.fields|); }
  }

  /** What the decoder's locals hold between two records. */
  ghost predicate Loops(mt: MsgType, st: DState, m: seq<Slot>, fixedField: Option<nat>, fixedSize: nat) {
    && st.slots == m && st.fixedField == fixedField && st.fixedSize == fixedSize
    && (fixedField.Some? ==> fixedField.value < |mt.fields|)
    && OnlyTracked(mt, st.seen)
  }

  predicate RangeStart(start: nat) {
    start == 0 || start == TWO32 - 1
  }

  /** What decoding a record's body comes to once its field is found. */
  lemma KnownBody(mt: MsgType, i: nat, wireType: nat, s: seq<byte>, st: DState)
    requires i < |mt.fields| && FindField(mt.fields, mt.fields[i].tag) == i
    ensures var body := DecodeBody(mt, mt.fields[i].tag, wireType, s, st);
            var begun := BeginField(mt, i, st);
            if begun.None? then body.Fail?
            else
              var st1 := begun.value;
              var p := DecodeSlot(mt.fields[i], wireType, s, GetSlot(st1.slots, mt.fields[i].slot), st1.fixedSize);
              if p.Fail? then body.Fail?
              else body == Got(st1.(slots := PutSlot(st1.slots, mt.fields[i].slot, p.value.0), fixedSize := p.value.1), p.used)
  {
    hide DecodeSlot, BeginField, FindField;
  }

  lemma FieldIsValid(mt: MsgType, i: nat)
    requires ValidType(mt) && i < |mt.fields|
    ensures ValidField(mt.fields[i])
  {}

  /** The body of a record whose field the iterator has found. */
  method ReadKnown(s: IStream, mt: MsgType, i: nat, wireType: nat, bitmap: SeenFields, requiredIndex: nat, ghost st: DState,
                   slots0: seq<Slot>, fixedField0: Option<nat>, fixedSize0: nat)
    returns (ok: bool, slots: seq<Slot>, fixedField: Option<nat>, fixedSize: nat)
    requires s.Valid() && ValidType(mt) && i < |mt.fields|
    requires FindField(mt.fields, mt.fields[i].tag) == i
    requires requiredIndex == RequiredBefore(mt.fields, i)
    requires bitmap.Valid() && Stands(bitmap, st.seen) && Loops(mt, st, slots0, fixedField0, fixedSize0)
    modifies s, bitmap.words
    ensures s.Valid() && s.Within() && bitmap.Valid()
    ensures var body := DecodeBody(mt, mt.fields[i].tag, wireType, old(s.Rest()), st);
            && (ok <==> body.Got?)
            && (ok ==> s.Advanced(body.used) && Stands(bitmap, body.value.seen))
            && (ok ==> Loops(mt, body.value, slots, fixedField, fixedSize))
    decreases s.bytesLeft, 3
  {
    hide ValidType, ValidField, DecodeBody, DecodeSlot, FindField, RequiredBefore, TrackedRequired, IStream.Rest;
    var f := mt.fields[i];
    FieldIsValid(mt, i);
    KnownBody(mt, i, wireType, s.Rest(), st);
    slots, fixedField, fixedSize := slots0, fixedField0, fixedSize0;
    if f.htype.FixedCount? && fixedField != Some(i) {
      if fixedField.Some? && fixedSize != mt.fields[fixedField.value].arraySize {
        return false, slots, fixedField, fixedSize;
      }
      fixedField, fixedSize := Some(i), 0;
    }
    ghost var st1 := BeginField(mt, i, st).value;
    BeginTracked(mt, i, st);
    if f.htype.Required? && requiredIndex < MAX_REQUIRED_FIELDS {
      bitmap.Mark(requiredIndex);
    }
    assert Stands(bitmap, st1.seen);
    var x;
    ok, x, fixedSize := ReadSlot(s, f, wireType, GetSlot(slots, f.slot), fixedSize);
    if ok { slots := PutSlot(slots, f.slot, x); }
  }

  /** A record whose tag no field has: look for an extension field that could take it, else skip it.
      `rangeStart` is the smallest tag an extension may have, once the search has been made. */
  method ReadUnknown(s: IStream, mt: MsgType, iter: FieldIter, tag: nat, wireType: nat, rangeStart0: nat)
    returns (ok: bool, rangeStart: nat)
    requires s.Valid() && ValidType(mt) && iter.Valid() && iter.fields == mt.fields
    requires tag < 0x2000_0000 && RangeStart(rangeStart0)
    modifies s, iter
    ensures s.Valid() && s.Within() && iter.Valid()
    ensures RangeStart(rangeStart)
    ensures ok <==> SkipField(wireType, old(s.Rest())).Got?
    ensures ok ==> s.Advanced(SkipField(wireType, old(s.Rest())).used)
    decreases s.bytesLeft, 3
  {
    forall i | 0 <= i < |mt.fields| ensures !mt.fields[i].extension { assert ValidField(mt.fields[i]); }
    hide SkipField, ValidType;
    rangeStart := rangeStart0;
    if tag >= rangeStart {
      // No message type here has an extension field, so the search fails.
      var found := iter.FindExtension();
      assert !found;
      rangeStart := TWO32 - 1;
    }
    ok := s.SkipBody(wireType);
  }

  /** One iteration of the record loop, in terms of the tag and the record's body. */
  lemma LoopStep(mt: MsgType, s: seq<byte>, st: DState)
    requires s != []
    ensures DecodeVarint32(s).Fail? ==> DecodeLoop(mt, s, st).Fail?
    ensures DecodeVarint32(s).Got? && DecodeVarint32(s).value == 0 ==>
              DecodeLoop(mt, s, st) == Got(Run(st, true), DecodeVarint32(s).used)
    ensures DecodeVarint32(s).Got? && DecodeVarint32(s).value != 0 ==>
              var n, raw := DecodeVarint32(s).used, DecodeVarint32(s).value;
              var body := DecodeBody(mt, raw / 8, raw % 8, s[n..], st);
              DecodeLoop(mt, s, st) ==
              if body.Fail? then Fail else DecodeLoop(mt, s[n + body.used..], body.value).After(n + body.used)
  {
    hide DecodeVarint32, DecodeBody;
  }

  /** Where the record loop stands `k` bytes into `s`. */
  ghost predicate LoopAt(mt: MsgType, s: seq<byte>, m0: seq<Slot>, k: nat, st: DState) {
    k <= |s| && DecodeLoop(mt, s, Start(m0)) == DecodeLoop(mt, s[k..], st).After(k)
  }

  lemma LoopStart(mt: MsgType, s: seq<byte>, m0: seq<Slot>)
    ensures LoopAt(mt, s, m0, 0, Start(m0))
  {
    hide DecodeLoop;
    assert s[0..] == s;
  }

  lemma LoopEnds(mt: MsgType, s: seq<byte>, m0: seq<Slot>, st: DState)
    requires LoopAt(mt, s, m0, |s|, st)
    ensures DecodeNoinit(mt, s, m0) == if Finished(mt, st) then Got(st.slots, |s|) else Fail
  {
    hide Finished;
    assert DecodeLoop(mt, s, Start(m0)) == Got(Run(st, false), |s|);
  }

  lemma LoopStops(mt: MsgType, s: seq<byte>, m0: seq<Slot>, k: nat, st: DState)
    requires LoopAt(mt, s, m0, k, st) && k < |s|
    ensures var p := DecodeVarint32(s[k..]);
            && (p.Fail? ==> DecodeNoinit(mt, s, m0).Fail?)
            && (p.Got? && p.value == 0 ==> DecodeNoinit(mt, s, m0) == if Finished(mt, st) then Got(st.slots, k + p.used) else Fail)
  {
    LoopStep(mt, s[k..], st);
    hide DecodeLoop, DecodeVarint32, DecodeBody, Finished;
  }

  lemma LoopAdvances(mt: MsgType, s: seq<byte>, m0: seq<Slot>, k: nat, st: DState, raw: nat, n: nat)
    requires LoopAt(mt, s, m0, k, st) && k < |s|
    requires DecodeVarint32(s[k..]) == Got(raw, n) && raw != 0
    ensures k + n <= |s|
    ensures var body := DecodeBody(mt, raw / 8, raw % 8, s[k + n..], st);
            if body.Fail? then DecodeNoinit(mt, s, m0).Fail? else LoopAt(mt, s, m0, k + n + body.used, body.value)
  {
    hide DecodeLoop, DecodeVarint32, DecodeBody, DecodeNoinit, LoopAt;
    assert s[k..][n..] == s[k + n..];
    LoopStep(mt, s[k..], st);
    var body := DecodeBody(mt, raw / 8, raw % 8, s[k + n..], st);
    if body.Fail? {
      LoopFails(mt, s, m0, k, st);
    } else {
      assert s[k..][n + body.used..] == s[k + (n + body.used)..];
      LoopMoves(mt, s, m0, k, st, n + body.used, body.value);
    }
  }

  lemma LoopFails(mt: MsgType, s: seq<byte>, m0: seq<Slot>, k: nat, st: DState)
    requires LoopAt(mt, s, m0, k, st) && DecodeLoop(mt, s[k..], st).Fail?
    ensures DecodeNoinit(mt, s, m0).Fail?
  {
    hide DecodeLoop;
  }

  lemma LoopMoves(mt: MsgType, s: seq<byte>, m0: seq<Slot>, k: nat, st: DState, n: nat, st': DState)
    requires LoopAt(mt, s, m0, k, st) && k + n <= |s|
    requires DecodeLoop(mt, s[k..], st) == DecodeLoop(mt, s[k + n..], st').After(n)
    ensures LoopAt(mt, s, m0, k + n, st')
  {
    hide DecodeLoop;
  }

  lemma UnknownBody(mt: MsgType, tag: nat, wireType: nat, s: seq<byte>, st: DState)
    requires FindField(mt.fields, tag) == |mt.fields| && !(mt.fields == [] && tag == 0)
    ensures var body := DecodeBody(mt, tag, wireType, s, st);
            var skip := SkipField(wireType, s);
            if skip.Fail? then body.Fail? else body == Got(st, skip.used)
  {
    hide SkipField;
  }

  lemma TerminatorBody(mt: MsgType, wireType: nat, s: seq<byte>, st: DState)
    requires mt.fields == []
    ensures var body := DecodeBody(mt, 0, wireType, s, st);
            var p := DecodeVarint32(s);
            if p.Fail? then body.Fail? else body == Got(st, p.used)
  {
    hide DecodeVarint32;
  }

  /** The iterator's search finds the field the tag determines. */
  lemma FoundField(mt: MsgType, i: nat)
    requires ValidType(mt) && i < |mt.fields|
    ensures FindField(mt.fields, mt.fields[i].tag) == i
  {
    hide ValidField;
    assert FindField(mt.fields, mt.fields[i].tag) <= i;
  }

  lemma MatchedField(mt: MsgType, i: nat, tag: nat)
    requires ValidType(mt) && i < |mt.fields| && Matches(mt.fields[i], tag)
    ensures mt.fields[i].tag == tag && FindField(mt.fields, tag) == i
  {
    FoundField(mt, i);
  }

  lemma StartTracked(mt: MsgType, m0: seq<Slot>)
    ensures OnlyTracked(mt, Start(m0).seen)
  {}

  lemma NotFound(mt: MsgType, tag: nat)
    requires ValidType(mt)
    requires !exists i :: 0 <= i < |mt.fields| && Matches(mt.fields[i], tag)
    ensures FindField(mt.fields, tag) == |mt.fields|
  {
    var k := FindField(mt.fields, tag);
    if k < |mt.fields| {
      assert ValidField(mt.fields[k]);
      assert Matches(mt.fields[k], tag);
    }
  }

  /** The checks after the loop: the last fixed-count array is complete, and the bitmap holds every
      tracked required field. */
  method Complete(mt: MsgType, iter: FieldIter, bitmap: SeenFields, m: seq<Slot>, fixedField: Option<nat>, fixedSize: nat, ghost st: DState)
    returns (ok: bool)
    requires iter.Valid() && iter.fields == mt.fields
    requires bitmap.Valid() && Stands(bitmap, st.seen) && Loops(mt, st, m, fixedField, fixedSize)
    modifies iter
    ensures ok <==> Finished(mt, st)
  {
    hide RequiredBefore;
    if fixedField.Some? && fixedSize != mt.fields[fixedField.value].arraySize { return false; }
    var count := iter.CountRequired();
    if count > MAX_REQUIRED_FIELDS { count := MAX_REQUIRED_FIELDS; }
    ok := bitmap.AllSeen(count);
    assert forall r: nat | r < count :: bitmap.Has(r) <==> r in st.seen;
    assert ok <==> forall r: nat | r < count :: r in st.seen;
  }

  /** The rest of a record whose tag has been read. */
  method ReadBody(s: IStream, mt: MsgType, iter: FieldIter, bitmap: SeenFields, tag: nat, wireType: nat, ghost st: DState,
                  m0: seq<Slot>, fixedField0: Option<nat>, fixedSize0: nat, rangeStart0: nat)
    returns (ok: bool, m: seq<Slot>, fixedField: Option<nat>, fixedSize: nat, rangeStart: nat)
    requires s.Valid() && ValidType(mt) && iter.Valid() && iter.fields == mt.fields && tag < 0x2000_0000
    requires bitmap.Valid() && Stands(bitmap, st.seen)
    requires Loops(mt, st, m0, fixedField0, fixedSize0) && RangeStart(rangeStart0)
    modifies s, iter, bitmap.words
    ensures s.Valid() && s.Within() && iter.Valid() && bitmap.Valid()
    ensures var body := DecodeBody(mt, tag, wireType, old(s.Rest()), st);
            && (ok <==> body.Got?)
            && (ok ==> s.Advanced(body.used) && Stands(bitmap, body.value.seen))
            && (ok ==> Loops(mt, body.value, m, fixedField, fixedSize) && RangeStart(rangeStart))
    decreases s.bytesLeft, 4, 0
  {
    hide DecodeBody, DecodeVarint32, ValidType, FindField, RequiredBefore, SkipField, Matches, IStream.Rest, Loops, Stands;
    m, fixedField, fixedSize, rangeStart := m0, fixedField0, fixedSize0, rangeStart0;
    ghost var rest := s.Rest();
    var found := iter.Find(tag);
    if !found {
      NotFound(mt, tag);
      UnknownBody(mt, tag, wireType, rest, st);
      ok, rangeStart := ReadUnknown(s, mt, iter, tag, wireType, rangeStart);
    } else if |mt.fields| == 0 {
      TerminatorBody(mt, wireType, rest, st);
      var value, eof;
      ok, value, eof := s.ReadVarint32();
    } else {
      MatchedField(mt, iter.pos, tag);
      ok, m, fixedField, fixedSize :=
        ReadKnown(s, mt, iter.pos, wireType, bitmap, iter.requiredIndex, st, m, fixedField, fixedSize);
    }
  }

  /** The same, `k` bytes into `rest`. */
  method ReadBodyAt(s: IStream, mt: MsgType, iter: FieldIter, bitmap: SeenFields, tag: nat, wireType: nat,
                    ghost rest: seq<byte>, ghost k: nat, ghost st: DState,
                    m0: seq<Slot>, fixedField0: Option<nat>, fixedSize0: nat, rangeStart0: nat)
    returns (ok: bool, m: seq<Slot>, fixedField: Option<nat>, fixedSize: nat, rangeStart: nat)
    requires s.At(rest, k) && ValidType(mt) && iter.Valid() && iter.fields == mt.fields && tag < 0x2000_0000
    requires bitmap.Valid() && Stands(bitmap, st.seen)
    requires Loops(mt, st, m0, fixedField0, fixedSize0) && RangeStart(rangeStart0)
    modifies s, iter, bitmap.words
    ensures s.Valid() && s.Within() && iter.Valid() && bitmap.Valid()
    ensures var body := DecodeBody(mt, tag, wireType, rest[k..], st);
            && (ok <==> body.Got?)
            && (ok ==> s.At(rest, k + body.used) && s.Advanced(body.used) && Stands(bitmap, body.value.seen))
            && (ok ==> Loops(mt, body.value, m, fixedField, fixedSize) && RangeStart(rangeStart))
    decreases s.bytesLeft, 4, 1
  {
    hide DecodeBody, ValidType, IStream.At, Loops, Stands;
    ok, m, fixedField, fixedSize, rangeStart :=
      ReadBody(s, mt, iter, bitmap, tag, wireType, st, m0, fixedField0, fixedSize0, rangeStart0);
    if ok { s.Moved(rest, k, DecodeBody(mt, tag, wireType, rest[k..], st).used); }
  }

  method ReadTagAt(s: IStream, ghost rest: seq<byte>, ghost k: nat)
    returns (ok: bool, wireType: nat, tag: nat, eof: bool, ghost k': nat)
    requires s.At(rest, k) && k < |rest|
    modifies s
    ensures s.Valid() && s.Within()
    ensures var p := DecodeVarint32(rest[k..]);
            && (ok <==> p.Got? && p.value != 0)
            && (ok ==> tag == p.value / 8 && wireType == p.value % 8)
            && (!ok ==> (eof <==> p.Got?))
            && (p.Got? ==> k' == k + p.used && s.At(rest, k') && s.Advanced(p.used))
  {
    hide DecodeVarint32, IStream.At;
    ok, wireType, tag, eof := s.ReadTag();
    k' := k;
    ghost var p := DecodeVarint32(rest[k..]);
    if p.Got? {
      k' := k + p.used;
      s.Moved(rest, k, p.used);
    }
  }

  /** One iteration of the record loop. When `end`, the message is complete: a zero tag was read. */
  method ReadRecord(s: IStream, mt: MsgType, iter: FieldIter, bitmap: SeenFields,
                    ghost rest: seq<byte>, ghost start: seq<Slot>, ghost k: nat, ghost st: DState,
                    m0: seq<Slot>, fixedField0: Option<nat>, fixedSize0: nat, rangeStart0: nat)
    returns (ok: bool, end: bool, m: seq<Slot>, fixedField: Option<nat>, fixedSize: nat, rangeStart: nat,
             ghost k': nat, ghost st': DState)
    requires s.At(rest, k) && k < |rest| && LoopAt(mt, rest, start, k, st)
    requires ValidType(mt) && iter.Valid() && iter.fields == mt.fields
    requires bitmap.Valid() && Stands(bitmap, st.seen)
    requires Loops(mt, st, m0, fixedField0, fixedSize0) && RangeStart(rangeStart0)
    modifies s, iter, bitmap.words
    ensures s.Valid() && s.Within() && iter.Valid() && bitmap.Valid()
    ensures !ok ==> DecodeNoinit(mt, rest, start).Fail?
    ensures ok ==> k' > k && s.At(rest, k') && s.Advanced(k' - k)
    ensures ok ==> Stands(bitmap, st'.seen) && Loops(mt, st', m, fixedField, fixedSize)
    ensures ok ==> RangeStart(rangeStart)
    ensures ok && end ==> DecodeNoinit(mt, rest, start) == if Finished(mt, st') then Got(st'.slots, k') else Fail
    ensures ok && !end ==> LoopAt(mt, rest, start, k', st')
    decreases s.bytesLeft, 5
  {
    hide DecodeNoinit, DecodeBody, DecodeVarint32, ValidType, Finished, LoopAt, Loops, IStream.At, IStream.Rest, Stands;
    m, fixedField, fixedSize, rangeStart, k', st' := m0, fixedField0, fixedSize0, rangeStart0, k, st;
    LoopStops(mt, rest, start, k, st);
    ghost var p := DecodeVarint32(rest[k..]);
    var wireType, tag;
    ok, wireType, tag, end, k' := ReadTagAt(s, rest, k);
    if !ok {
      ok := end;
      return;
    }
    end := false;
    LoopAdvances(mt, rest, start, k, st, p.value, p.used);
    ghost var body := DecodeBody(mt, tag, wireType, rest[k'..], st);
    ok, m, fixedField, fixedSize, rangeStart :=
      ReadBodyAt(s, mt, iter, bitmap, tag, wireType, rest, k', st, m, fixedField, fixedSize, rangeStart);
    if ok { k', st' := k' + body.used, body.value; }
  }

  /** `pb_decode_noinit` on the message `m0`. */
  method ReadMessage(s: IStream, mt: MsgType, m0: seq<Slot>) returns (ok: bool, m: seq<Slot>)
    requires s.Valid() && ValidType(mt)
    modifies s
    ensures s.Valid() && s.Within()
    ensures ok <==> DecodeNoinit(mt, old(s.Rest()), m0).Got?
    ensures ok ==> m == DecodeNoinit(mt, old(s.Rest()), m0).value && s.Advanced(DecodeNoinit(mt, old(s.Rest()), m0).used)
    decreases s.bytesLeft, 6
  {
    hide DecodeNoinit, ValidType, Finished, LoopAt, OnlyTracked;
    ghost var rest, st := s.Rest(), Start(m0);
    ghost var k: nat := 0;
    LoopStart(mt, rest, m0);
    StartTracked(mt, m0);
    assert s.At(rest, 0);
    hide IStream.At, IStream.Rest;
    var iter := new FieldIter(mt.fields);
    var bitmap := new SeenFields();
    var fixedField: Option<nat>, fixedSize: nat, rangeStart: nat := None, 0, 0;
    m := m0;
    var end := false;
    while s.bytesLeft > 0 && !end
      invariant s.At(rest, k) && s.Advanced(k)
      invariant if end then DecodeNoinit(mt, rest, m0) == (if Finished(mt, st) then Got(st.slots, k) else Fail)
                else LoopAt(mt, rest, m0, k, st)
      invariant Loops(mt, st, m, fixedField, fixedSize) && RangeStart(rangeStart)
      invariant fresh(iter) && iter.Valid() && iter.fields == mt.fields
      invariant fresh(bitmap) && fresh(bitmap.words) && bitmap.Valid() && Stands(bitmap, st.seen)
      decreases s.bytesLeft
    {
      ok, end, m, fixedField, fixedSize, rangeStart, k, st :=
        ReadRecord(s, mt, iter, bitmap, rest, m0, k, st, m, fixedField, fixedSize, rangeStart);
      if !ok { return; }
    }
    if !end { LoopEnds(mt, rest, m0, st); }
    ok := Complete(mt, iter, bitmap, m, fixedField, fixedSize, st);
  }

  /** `pb_decode` of a whole buffer. */
  method ReadNewMessage(s: IStream, mt: MsgType) returns (ok: bool, m: seq<Slot>)
    requires s.Valid() && ValidType(mt)
    modifies s
    ensures s.Valid() && s.Within()
    ensures ok <==> DecodeMessage(mt, old(s.Rest())).Got?
    ensures ok ==> m == DecodeMessage(mt, old(s.Rest())).value && s.Advanced(DecodeMessage(mt, old(s.Rest())).used)
  {
    hide DecodeNoinit;
    m := SetToDefaults(mt, Repeat(Unset, mt.slots));
    ok, m := ReadMessage(s, mt, m);
  }

  /** `pb_decode_delimited`: a length prefix, then the message in a substream; on success the stream
      stands exactly behind the payload. */
  method ReadDelimited(s: IStream, mt: MsgType) returns (ok: bool, m: seq<Slot>)
    requires s.Valid() && ValidType(mt)
    modifies s
    ensures s.Valid() && s.Within()
    ensures var p := LenDelim(old(s.Rest()));
            && (ok <==> p.Got? && DecodeMessage(mt, p.value).Got?)
            && (ok ==> m == DecodeMessage(mt, p.value).value)
            && (ok ==> s.Advanced(p.used))
  {
    hide LenDelim, DecodeMessage;
    m := [];
    var sub;
    ok, sub := s.MakeSubstream();
    if !ok { return; }
    var status;
    status, m := ReadNewMessage(sub, mt);
    var closed := s.CloseSubstream(sub);
    ok := closed && status;
  }
}
