/** Decoding what the encoder emits, onto any message, yields their merge. */
module RoundTrip {
  import opened Bytes
  import opened Varint
  import opened Integers
  import opened Messages
  import opened Encode
  import opened Decode
  import opened Framing
  import opened Merge
  import opened DefaultMessages

  // ---- Scalars ------------------------------------------------------------------------------

  lemma LenDelimEncoded(d: seq<byte>)
    requires |d| < TWO32
    ensures LenDelim(EncodeString(d)) == Got(d, |EncodeString(d)|)
  {
    hide DecodeVarint32, EncodeVarint;
    Varint32RoundTrip(|d|, d);
    var n := |EncodeVarint(|d|)|;
    assert EncodeString(d)[n..] == d;
    assert d[..|d|] == d;
  }

  lemma BlobDecodes(f: Field, d: seq<byte>)
    requires ValidData(f) && ValidScalar(f, Blob(d))
    ensures DecodeBlob(f, EncodeString(d)) == Got(Blob(d), |EncodeString(d)|)
  {
    hide DecodeVarint32, EncodeVarint;
    Varint32RoundTrip(|d|, d);
    var n := |EncodeVarint(|d|)|;
    assert EncodeString(d)[n..] == d;
    assert d[..|d|] == d;
  }

  lemma FixedDecodes(v: nat, n: nat)
    requires v < Pow256(n)
    ensures DecodeFixed(FixedBytes(v, n), n) == Got(Num(v), n)
  {
    FixedRoundTrip(v, n);
    assert FixedBytes(v, n)[..n] == FixedBytes(v, n);
  }

  lemma IntegerDecodes(kind: IntKind, width: nat, n: int)
    requires ValidWidth(width) && Fits(kind, n, width)
    ensures kind.ZigZagged? ==> FitsSigned(n, 8)
    ensures DecodeInteger(kind, width, EncodeVarint(ToWire(kind, n))) == Got(Num(n), |EncodeVarint(ToWire(kind, n))|)
  {
    hide DecodeVarint, EncodeVarint, FromWire, ToWire, Fits;
    WireRoundTrip(kind, n, width);
    VarintRoundTrip(ToWire(kind, n), []);
    assert EncodeVarint(ToWire(kind, n)) + [] == EncodeVarint(ToWire(kind, n));
  }

  lemma BoolDecodes(n: nat)
    requires n < 2
    ensures DecodeVarint32(EncodeVarint(n)) == Got(n, |EncodeVarint(n)|)
  {
    Varint32RoundTrip(n, []);
    assert EncodeVarint(n) + [] == EncodeVarint(n);
  }

  lemma Terminated(d: seq<byte>)
    ensures 0 in d <==> |CString(d)| < |d|
  {
    var c := CString(d);
    if |c| < |d| { assert d[|c|] == 0; } else { assert c == d; }
  }

  /** A string array of `dataSize` bytes round-trips exactly when it has a terminator inside. Without one
      the encoder emits all its bytes, which leave the decoder no room for the terminator it needs. */
  lemma StringDecodesIffTerminated(f: Field, d: seq<byte>)
    requires f.ltype.StringType? && |d| == f.dataSize < TWO32
    ensures var p := DecodeScalar(f, EncodeScalar(f, Blob(d)).value);
            && (p.Got? <==> 0 in d)
            && (p.Got? ==> p.value == Blob(CString(d)))
  {
    hide DecodeVarint32, EncodeVarint, CString;
    var c := CString(d);
    Terminated(d);
    Varint32RoundTrip(|c|, c);
    var s := EncodeString(c);
    assert s[|EncodeVarint(|c|)|..] == c;
    assert c[..|c|] == c;
  }

  lemma CStringShorter(f: Field, d: seq<byte>)
    requires ValidData(f) && f.ltype.StringType? && |d| < f.dataSize
    ensures ValidScalar(f, Blob(CString(d)))
  {}

  lemma ScalarDecodes(f: Field, v: Value)
    requires ValidData(f) && ValidScalar(f, v)
    ensures EncodeScalar(f, v).Some? && EncodeScalar(f, v).value != []
    ensures DecodeScalar(f, EncodeScalar(f, v).value) == Got(Normal(f, v), |EncodeScalar(f, v).value|)
  {
    hide DecodeVarint32, DecodeInteger, DecodeBlob, EncodeVarint, ToWire, FixedBytes, CString, Pow256, Fits;
    match f.ltype
    case BoolType => BoolDecodes(v.n);
    case VarintType(kind) => IntegerDecodes(kind, f.dataSize, v.n);
    case Fixed32Type => Pow256Widths(); FixedDecodes(v.n, 4);
    case Fixed64Type => Pow256Widths(); FixedDecodes(v.n, 8);
    case BytesType => BlobDecodes(f, v.data);
    case StringType => CStringShorter(f, v.data); BlobDecodes(f, CString(v.data));
    case FixedLengthBytesType => BlobDecodes(f, v.data);
  }

  // ---- Tags ----------------------------------------------------------------------------------

  lemma TagDecodes(tag: nat, wireType: nat, rest: seq<byte>)
    requires 1 <= tag < 0x2000_0000 && wireType < 8
    ensures DecodeVarint32(EncodeTag(wireType, tag) + rest) == Got(8 * tag + wireType, |EncodeTag(wireType, tag)|)
    ensures (8 * tag + wireType) / 8 == tag && (8 * tag + wireType) % 8 == wireType
  {
    hide DecodeVarint32, EncodeVarint;
    Varint32RoundTrip(8 * tag + wireType, rest);
  }

  lemma FindOwn(mt: MsgType, i: nat)
    requires ValidType(mt) && i < |mt.fields|
    ensures FindField(mt.fields, mt.fields[i].tag) == i
  {
    hide ValidField, SlotUsed, SlotsShared;
    assert forall k | 0 <= k < i :: mt.fields[k].tag != mt.fields[i].tag;
  }

  /** The decoder state after a record of field `i` whose body decodes to slot `x`. */
  function WithSlot(mt: MsgType, i: nat, st: DState, x: Slot, size: nat): DState
    requires i < |mt.fields|
  {
    st.(slots := PutSlot(st.slots, mt.fields[i].slot, x), fixedSize := size)
  }

  /** A tag followed by a body that `decode_static_field` accepts is one record. */
  lemma RecordDecodes(mt: MsgType, i: nat, wireType: nat, body: seq<byte>, st: DState, x: Slot, size: nat)
    requires ValidType(mt) && i < |mt.fields| && wireType < 8
    requires BeginField(mt, i, st).Some?
    requires var st1 := BeginField(mt, i, st).value;
             DecodeSlot(mt.fields[i], wireType, body, GetSlot(st1.slots, mt.fields[i].slot), st1.fixedSize)
             == Got((x, size), |body|)
    ensures var r := EncodeTag(wireType, mt.fields[i].tag) + body;
            DecodeLoop(mt, r, st) == Got(Run(WithSlot(mt, i, BeginField(mt, i, st).value, x, size), false), |r|)
  {
    hide DecodeVarint32, EncodeTag, FindField, DecodeSlot, BeginField, SlotUsed, SlotsShared, DistinctTags;
    var f := mt.fields[i];
    assert ValidField(f);
    var r := EncodeTag(wireType, f.tag) + body;
    TagDecodes(f.tag, wireType, body);
    assert r[|EncodeTag(wireType, f.tag)|..] == body;
    FindOwn(mt, i);
    RecordStep(mt, r, st, WithSlot(mt, i, BeginField(mt, i, st).value, x, size));
  }

  // ---- Arrays ----------------------------------------------------------------------------------

  function StoreAll(items: seq<Value>, k: nat, vals: seq<Value>): seq<Value>
    decreases |vals|
  {
    if vals == [] then items else StoreAll(StoreItem(items, k, vals[0]), k + 1, vals[1..])
  }

  lemma {:induction false} StoreAppends(items: seq<Value>, vals: seq<Value>)
    ensures StoreAll(items, |items|, vals) == items + vals
    decreases |vals|
  {
    if vals != [] {
      StoreAppends(items + [vals[0]], vals[1..]);
      assert items + [vals[0]] + vals[1..] == items + vals;
    }
  }

  lemma {:induction false} StoreOverwrites(items: seq<Value>, k: nat, vals: seq<Value>)
    requires k + |vals| == |items|
    ensures StoreAll(items, k, vals) == items[..k] + vals
    decreases |vals|
  {
    if vals != [] {
      StoreOverwrites(items[k := vals[0]], k + 1, vals[1..]);
      assert items[k := vals[0]][..k + 1] + vals[1..] == items[..k] + vals;
    }
  }

  lemma {:induction false} FreshPackable(f: Field, vals: seq<Value>)
    requires Packable(f.ltype)
    ensures FreshItems(f, vals) == vals
  {
    if vals != [] { FreshPackable(f, vals[1..]); }
  }

  /** A packed payload decodes to its elements, stored from position `count` on. */
  lemma {:induction false} PackedDecodes(f: Field, vals: seq<Value>, items: seq<Value>, count: nat)
    requires ValidField(f) && Packable(f.ltype) && ValidItems(f, vals)
    requires count + |vals| <= f.arraySize
    ensures EncodePacked(f, vals).Some?
    ensures DecodePacked(f, EncodePacked(f, vals).value, items, count)
         == Some((StoreAll(items, count, vals), count + |vals|))
    decreases |vals|
  {
    hide EncodeScalar, DecodeScalar, ValidScalar, ValidData, StoreItem;
    if vals != [] {
      assert ValidData(f);
      assert ValidScalar(f, vals[0]);
      ScalarDecodes(f, vals[0]);
      var e := EncodeScalar(f, vals[0]).value;
      PackedDecodes(f, vals[1..], StoreItem(items, count, vals[0]), count + 1);
      var rest := EncodePacked(f, vals[1..]).value;
      DecodeScalarLocal(f, e, rest);
      assert (e + rest)[|e|..] == rest;
    }
  }

  // ---- Length-delimited parts ---------------------------------------------------------------------

  /** A submessage's length fits the 32-bit varint it is read back by. */
  ghost predicate Short(f: Field, v: Value) {
    f.ltype.SubmessageType? && v.Msg? && EncodeFrom(f.ltype.sub, v.members, 0).Some? ==>
      |EncodeFrom(f.ltype.sub, v.members, 0).value| < TWO32
  }

  ghost predicate AllShort(f: Field, vals: seq<Value>) {
    forall k | 0 <= k < |vals| :: Short(f, vals[k])
  }

  /** So do the lengths of everything emitted for the field. */
  ghost predicate SlotShort(f: Field, x: Slot) {
    Emits(f, x) ==>
      if !x.Many? then x.Unset? || Short(f, x.v)
      else if Packable(f.ltype) then EncodePacked(f, x.items).Some? ==> |EncodePacked(f, x.items).value| < TWO32
      else AllShort(f, x.items)
  }

  /** Every length in front of a part of the encoded message fits; the message as a whole may be longer. */
  ghost predicate Delimited(mt: MsgType, m: seq<Slot>) {
    forall i | 0 <= i < |mt.fields| :: SlotShort(mt.fields[i], GetSlot(m, mt.fields[i].slot))
  }

  lemma ValueWithin(f: Field, v: Value)
    requires EncodeTagged(f, v).Some? && |EncodeTagged(f, v).value| < TWO32
    ensures Short(f, v)
  {
    hide EncodeFrom, EncodeScalar, EncodeTag;
  }

  lemma {:induction false} ItemsWithin(f: Field, vals: seq<Value>)
    requires EncodeUnpacked(f, vals).Some? && |EncodeUnpacked(f, vals).value| < TWO32
    ensures AllShort(f, vals)
  {
    hide EncodeTagged, Short;
    if vals != [] {
      ValueWithin(f, vals[0]);
      ItemsWithin(f, vals[1..]);
      assert forall k | 1 <= k < |vals| :: vals[k] == vals[1..][k - 1];
    }
  }

  lemma FieldWithin(f: Field, x: Slot)
    requires EncodeField(f, x).Some? && |EncodeField(f, x).value| < TWO32
    ensures SlotShort(f, x)
  {
    hide EncodeTagged, EncodePacked, EncodeUnpacked, EncodeTag, EncodeVarint, Short, AllShort, IsZero;
    if Emits(f, x) {
      if !x.Many? {
        if !x.Unset? { ValueWithin(f, x.v); }
      } else if !Packable(f.ltype) {
        ItemsWithin(f, x.items);
      }
    }
  }

  lemma {:induction false} FieldsWithin(mt: MsgType, m: seq<Slot>, i: nat, j: nat)
    requires i <= j < |mt.fields| && EncodeFrom(mt, m, i).Some? && |EncodeFrom(mt, m, i).value| < TWO32
    ensures SlotShort(mt.fields[j], GetSlot(m, mt.fields[j].slot))
    decreases j - i
  {
    hide EncodeField, SlotShort;
    if i == j { FieldWithin(mt.fields[i], GetSlot(m, mt.fields[i].slot)); } else { FieldsWithin(mt, m, i + 1, j); }
  }

  /** An encoding shorter than 2^32 bytes has only such parts. */
  lemma ShortIsDelimited(mt: MsgType, m: seq<Slot>)
    requires EncodeMessage(mt, m).Some? && |EncodeMessage(mt, m).value| < TWO32
    ensures Delimited(mt, m)
  {
    hide SlotShort, EncodeFrom;
    forall i | 0 <= i < |mt.fields| ensures SlotShort(mt.fields[i], GetSlot(m, mt.fields[i].slot)) {
      FieldsWithin(mt, m, 0, i);
    }
  }

  // ---- Fields and messages -----------------------------------------------------------------------

  /** The decoder state after everything the encoder emits for field `i` holding `now`. */
  function AfterField(mt: MsgType, i: nat, now: Slot, st: DState): DState
    requires i < |mt.fields|
  {
    var f := mt.fields[i];
    var r := RequiredBefore(mt.fields, i);
    DState(PutSlot(st.slots, f.slot, MergeSlot(f, GetSlot(st.slots, f.slot), now)),
           if f.htype.Required? && r < MAX_REQUIRED_FIELDS then st.seen + {r} else st.seen,
           if f.htype.FixedCount? then Some(i) else st.fixedField,
           if f.htype.FixedCount? then f.arraySize else st.fixedSize)
  }

  /** No fixed-count array is half received, and field `i` is not the one received last. */
  ghost predicate FixedReady(mt: MsgType, st: DState, i: nat) {
    && FixedComplete(mt, st)
    && (st.fixedField.Some? && i <= st.fixedField.value ==>
          exists k | i <= k < st.fixedField.value && k < |mt.fields| :: mt.fields[k].htype.FixedCount?)
  }

  ghost predicate StartsValid(f: Field, was: Slot)
    requires ValidField(f)
  {
    f.ltype.SubmessageType? ==> ValidMessage(f.ltype.sub, StartOf(f, was))
  }

  lemma {:induction false} ValueDecodes(f: Field, v: Value, was: Slot)
    requires ValidField(f) && ValidValue(f, v) && StartsValid(f, was)
    requires EncodeValue(f, v).Some? && Short(f, v)
    requires f.ltype.SubmessageType? ==> MergeFits(f.ltype.sub, StartOf(f, was), v.members)
    ensures DecodeValue(f, EncodeValue(f, v).value, was)
         == Got(MergeValue(f, was, v), |EncodeValue(f, v).value|)
    decreases f, 0
  {
    hide DecodeScalar, EncodeScalar, LenDelim, DecodeNoinit, EncodeFrom, StartOf, Normal, ValidScalar, MergeMessages, MergeFits;
    hide ValidMessage, ValidType;
    if f.ltype.SubmessageType? {
      var body := EncodeFrom(f.ltype.sub, v.members, 0).value;
      LenDelimEncoded(body);
      ShortIsDelimited(f.ltype.sub, v.members);
      MessageDecodes(f.ltype.sub, StartOf(f, was), v.members);
    } else {
      ScalarDecodes(f, v);
    }
  }

  ghost predicate ItemFits(f: Field, v: Value)
    requires ValidField(f)
  {
    && ValidValue(f, v)
    && StartsValid(f, Unset)
    && (f.ltype.SubmessageType? ==> MergeFits(f.ltype.sub, StartOf(f, Unset), v.members))
  }

  /** The array in field `i` after `vals` were received from position `count` on. */
  function WithItems(mt: MsgType, i: nat, st: DState, items: seq<Value>, count: nat, vals: seq<Value>): DState
    requires i < |mt.fields|
  {
    var f := mt.fields[i];
    WithSlot(mt, i, st, Many(StoreAll(items, count, FreshItems(f, vals))),
             if f.htype.Repeated? then st.fixedSize else count + |vals|)
  }

  ghost predicate Receiving(mt: MsgType, i: nat, st: DState, items: seq<Value>, count: nat)
    requires i < |mt.fields|
  {
    var f := mt.fields[i];
    && f.slot < |st.slots|
    && GetSlot(st.slots, f.slot) == Many(items)
    && (f.htype.Repeated? || f.htype.FixedCount?)
    && (f.htype.Repeated? ==> count == |items|)
    && (f.htype.FixedCount? ==> st.fixedField == Some(i) && count == st.fixedSize)
  }

  /** One element of an unpacked array. */
  lemma ItemDecodes(mt: MsgType, i: nat, v: Value, st: DState, items: seq<Value>, count: nat)
    requires ValidType(mt) && i < |mt.fields| && !Packable(mt.fields[i].ltype)
    requires Receiving(mt, i, st, items, count) && count < mt.fields[i].arraySize
    requires ItemFits(mt.fields[i], v)
    requires EncodeTagged(mt.fields[i], v).Some? && Short(mt.fields[i], v)
    ensures var e := EncodeTagged(mt.fields[i], v).value;
            DecodeLoop(mt, e, st)
            == Got(Run(WithSlot(mt, i, st, Many(StoreItem(items, count, MergeValue(mt.fields[i], Unset, v))),
                                if mt.fields[i].htype.Repeated? then st.fixedSize else count + 1), false), |e|)
    decreases mt, 0, 0
  {
    var f := mt.fields[i];
    assert ValidField(f);
    hide DecodeLoop, EncodeTag, EncodeValue, ValidType, ValidValue, MergeValue, StoreItem, DecodeValue, MergeFits, ValidMessage, EncodeScalar;
    ValueDecodes(f, v, Unset);
    var body := EncodeValue(f, v).value;
    assert DecodeItems(f, WireType(f.ltype), body, items, count)
        == Got((StoreItem(items, count, MergeValue(f, Unset, v)), count + 1), |body|);
    RecordDecodes(mt, i, WireType(f.ltype), body, st,
                  Many(StoreItem(items, count, MergeValue(f, Unset, v))),
                  if f.htype.Repeated? then st.fixedSize else count + 1);
  }

  lemma ItemStored(items: seq<Value>, k: nat, v: Value)
    ensures k == |items| ==> |StoreItem(items, k, v)| == k + 1
  {}

  lemma UnpackedStep(f: Field, vals: seq<Value>)
    requires vals != []
    ensures EncodeUnpacked(f, vals) == Cat(EncodeTagged(f, vals[0]), EncodeUnpacked(f, vals[1..]))
  {
    hide EncodeTagged;
  }

  lemma NothingUnpacked(mt: MsgType, i: nat, st: DState, items: seq<Value>, count: nat)
    requires i < |mt.fields| && Receiving(mt, i, st, items, count)
    ensures EncodeUnpacked(mt.fields[i], []) == Some([])
    ensures WithItems(mt, i, st, items, count, []) == st
    ensures DecodeLoop(mt, [], st) == Got(Run(st, false), 0)
  {
    hide DecodeRecord;
    assert WithItems(mt, i, st, items, count, []).slots == st.slots;
  }

  /** One element stored, the others still to come. */
  lemma ItemsStep(mt: MsgType, i: nat, st: DState, items: seq<Value>, count: nat, vals: seq<Value>)
    requires i < |mt.fields| && vals != []
    ensures var f := mt.fields[i];
            var items' := StoreItem(items, count, MergeValue(f, Unset, vals[0]));
            var st' := WithSlot(mt, i, st, Many(items'), if f.htype.Repeated? then st.fixedSize else count + 1);
            WithItems(mt, i, st', items', count + 1, vals[1..]) == WithItems(mt, i, st, items, count, vals)
  {
    hide MergeValue, StoreItem;
    var f := mt.fields[i];
    var items' := StoreItem(items, count, MergeValue(f, Unset, vals[0]));
    var st' := WithSlot(mt, i, st, Many(items'), if f.htype.Repeated? then st.fixedSize else count + 1);
    assert FreshItems(f, vals)[0] == MergeValue(f, Unset, vals[0]) && FreshItems(f, vals)[1..] == FreshItems(f, vals[1..]);
    hide StoreAll, FreshItems;
    assert WithItems(mt, i, st', items', count + 1, vals[1..]).slots == WithItems(mt, i, st, items, count, vals).slots;
  }

  /** An unpacked array: one record an element. */
  lemma {:induction false} UnpackedDecodes(mt: MsgType, i: nat, vals: seq<Value>, st: DState, items: seq<Value>, count: nat)
    requires ValidType(mt) && i < |mt.fields| && !Packable(mt.fields[i].ltype)
    requires Receiving(mt, i, st, items, count) && count + |vals| <= mt.fields[i].arraySize
    requires forall k | 0 <= k < |vals| :: ItemFits(mt.fields[i], vals[k])
    requires EncodeUnpacked(mt.fields[i], vals).Some? && AllShort(mt.fields[i], vals)
    ensures DecodeLoop(mt, EncodeUnpacked(mt.fields[i], vals).value, st)
         == Got(Run(WithItems(mt, i, st, items, count, vals), false), |EncodeUnpacked(mt.fields[i], vals).value|)
    decreases mt, 1, |vals|
  {
    hide EncodeTagged, ValidType, ItemFits, MergeValue, DecodeLoop, StoreItem, EncodeUnpacked, WithItems;
    var f := mt.fields[i];
    if vals == [] {
      NothingUnpacked(mt, i, st, items, count);
    } else {
      UnpackedStep(f, vals);
      var e := EncodeTagged(f, vals[0]).value;
      var rest := EncodeUnpacked(f, vals[1..]).value;
      ItemDecodes(mt, i, vals[0], st, items, count);
      var items' := StoreItem(items, count, MergeValue(f, Unset, vals[0]));
      var st' := WithSlot(mt, i, st, Many(items'), if f.htype.Repeated? then st.fixedSize else count + 1);
      ItemStored(items, count, MergeValue(f, Unset, vals[0]));
      UnpackedDecodes(mt, i, vals[1..], st', items', count + 1);
      DecodeConcat(mt, e, rest, st);
      ItemsStep(mt, i, st, items, count, vals);
    }
  }

  /** Beginning a field twice is beginning it once. */
  lemma SameAfterBegin(mt: MsgType, i: nat, wireType: nat, body: seq<byte>, st: DState)
    requires ValidType(mt) && i < |mt.fields| && wireType < 8
    requires BeginField(mt, i, st).Some?
    ensures var r := EncodeTag(wireType, mt.fields[i].tag) + body;
            DecodeLoop(mt, r, st) == DecodeLoop(mt, r, BeginField(mt, i, st).value)
  {
    var f := mt.fields[i];
    assert ValidField(f);
    hide DecodeVarint32, EncodeTag, FindField, DecodeSlot, ValidType, ValidField;
    var st1 := BeginField(mt, i, st).value;
    assert BeginField(mt, i, st1) == Some(st1);
    var r := EncodeTag(wireType, f.tag) + body;
    TagDecodes(f.tag, wireType, body);
    FindOwn(mt, i);
    assert r[|EncodeTag(wireType, f.tag)|..] == body;
    assert DecodeBody(mt, f.tag, wireType, body, st) == DecodeBody(mt, f.tag, wireType, body, st1);
    assert DecodeRecord(mt, r, st) == DecodeRecord(mt, r, st1);
  }

  lemma PackedFieldDecodes(mt: MsgType, i: nat, vals: seq<Value>, st: DState, items: seq<Value>, count: nat)
    requires ValidType(mt) && i < |mt.fields| && Packable(mt.fields[i].ltype)
    requires BeginField(mt, i, st).Some? && Receiving(mt, i, BeginField(mt, i, st).value, items, count)
    requires ValidField(mt.fields[i]) && ValidItems(mt.fields[i], vals) && count + |vals| <= mt.fields[i].arraySize
    requires EncodePacked(mt.fields[i], vals).Some? ==> |EncodePacked(mt.fields[i], vals).value| < TWO32
    ensures EncodePacked(mt.fields[i], vals).Some?
    ensures var r := EncodeTag(WT_STRING, mt.fields[i].tag) + EncodeString(EncodePacked(mt.fields[i], vals).value);
            DecodeLoop(mt, r, st)
            == Got(Run(WithItems(mt, i, BeginField(mt, i, st).value, items, count, vals), false), |r|)
  {
    hide DecodeLoop, EncodeTag, EncodeString, ValidType, ValidField, ValidItems, EncodePacked, DecodePacked, LenDelim;
    hide BeginField, StoreAll, FreshItems;
    var f := mt.fields[i];
    PackedDecodes(f, vals, items, count);
    FreshPackable(f, vals);
    var body := EncodePacked(f, vals).value;
    LenDelimEncoded(body);
    var st1 := BeginField(mt, i, st).value;
    var size := if f.htype.Repeated? then st1.fixedSize else count + |vals|;
    assert DecodeItems(f, WT_STRING, EncodeString(body), items, count)
        == Got((StoreAll(items, count, vals), count + |vals|), |EncodeString(body)|);
    RecordDecodes(mt, i, WT_STRING, EncodeString(body), st, Many(StoreAll(items, count, vals)), size);
  }

  lemma UnpackedFieldDecodes(mt: MsgType, i: nat, vals: seq<Value>, st: DState, items: seq<Value>, count: nat)
    requires ValidType(mt) && i < |mt.fields| && !Packable(mt.fields[i].ltype) && vals != []
    requires BeginField(mt, i, st).Some? && Receiving(mt, i, BeginField(mt, i, st).value, items, count)
    requires count + |vals| <= mt.fields[i].arraySize
    requires forall k | 0 <= k < |vals| :: ItemFits(mt.fields[i], vals[k])
    requires EncodeUnpacked(mt.fields[i], vals).Some? && AllShort(mt.fields[i], vals)
    ensures DecodeLoop(mt, EncodeUnpacked(mt.fields[i], vals).value, st)
         == Got(Run(WithItems(mt, i, BeginField(mt, i, st).value, items, count, vals), false),
                |EncodeUnpacked(mt.fields[i], vals).value|)
    decreases mt, 2
  {
    hide DecodeLoop, EncodeTag, ValidType, ItemFits, BeginField, EncodeValue, WithItems, Receiving;
    var f := mt.fields[i];
    var st1 := BeginField(mt, i, st).value;
    UnpackedDecodes(mt, i, vals, st1, items, count);
    var body := EncodeValue(f, vals[0]).value + EncodeUnpacked(f, vals[1..]).value;
    assert EncodeUnpacked(f, vals).value == EncodeTag(WireType(f.ltype), f.tag) + body;
    SameAfterBegin(mt, i, WireType(f.ltype), body, st);
  }

  /** A field that is not an array: one record. */
  lemma SingleDecodes(mt: MsgType, i: nat, now: Slot, v: Value, st: DState)
    requires ValidType(mt) && i < |mt.fields| && |st.slots| == mt.slots
    requires var f := mt.fields[i];
             && ValidField(f) && !f.htype.Repeated? && !f.htype.FixedCount?
             && Emits(f, now) && now.v == v && ValidValue(f, v)
             && StartsValid(f, GetSlot(st.slots, f.slot))
             && (f.ltype.SubmessageType? ==> MergeFits(f.ltype.sub, StartOf(f, GetSlot(st.slots, f.slot)), v.members))
    requires EncodeTagged(mt.fields[i], v).Some? && Short(mt.fields[i], v)
    ensures var e := EncodeTagged(mt.fields[i], v).value;
            DecodeLoop(mt, e, st) == Got(Run(AfterField(mt, i, now, st), false), |e|)
    decreases mt, 2
  {
    hide DecodeLoop, EncodeTag, ValidType, ValidField, ValidValue, EncodeValue, DecodeValue, MergeValue, StartOf, MergeFits, IsZero;
    hide EncodeScalar, ValidMessage;
    var f := mt.fields[i];
    var was := GetSlot(st.slots, f.slot);
    ValueDecodes(f, v, was);
    var body := EncodeValue(f, v).value;
    var x := WithValue(f, was, MergeValue(f, was, v));
    RecordDecodes(mt, i, WireType(f.ltype), body, st, x, st.fixedSize);
  }

  /** The state in which the elements of array field `i` are received. */
  lemma BeginArray(mt: MsgType, i: nat, st: DState)
    requires i < |mt.fields| && mt.fields[i].slot < |st.slots| && GetSlot(st.slots, mt.fields[i].slot).Many?
    requires mt.fields[i].htype.Repeated? || mt.fields[i].htype.FixedCount?
    requires mt.fields[i].htype.FixedCount? ==> FixedComplete(mt, st) && st.fixedField != Some(i)
    ensures BeginField(mt, i, st).Some?
    ensures var items := ItemsOf(GetSlot(st.slots, mt.fields[i].slot));
            Receiving(mt, i, BeginField(mt, i, st).value, items, if mt.fields[i].htype.Repeated? then |items| else 0)
  {}

  lemma ArrayState(mt: MsgType, i: nat, vals: seq<Value>, st: DState)
    requires i < |mt.fields| && mt.fields[i].slot < |st.slots| && GetSlot(st.slots, mt.fields[i].slot).Many?
    requires mt.fields[i].htype.Repeated? || mt.fields[i].htype.FixedCount?
    requires BeginField(mt, i, st).Some? && vals != []
    requires var items := ItemsOf(GetSlot(st.slots, mt.fields[i].slot));
             mt.fields[i].htype.FixedCount? ==> |items| == |vals| == mt.fields[i].arraySize && st.fixedField != Some(i)
    ensures var items := ItemsOf(GetSlot(st.slots, mt.fields[i].slot));
            WithItems(mt, i, BeginField(mt, i, st).value, items, if mt.fields[i].htype.Repeated? then |items| else 0, vals)
            == AfterField(mt, i, Many(vals), st)
  {
    hide StoreAll, FreshItems, RequiredBefore;
    var f := mt.fields[i];
    var items := ItemsOf(GetSlot(st.slots, f.slot));
    StoreAppends(items, FreshItems(f, vals));
    if f.htype.FixedCount? {
      StoreOverwrites(items, 0, FreshItems(f, vals));
      assert items[..0] + FreshItems(f, vals) == FreshItems(f, vals);
    }
  }

  lemma ItemsFit(f: Field, vals: seq<Value>)
    requires ValidField(f) && ValidItems(f, vals)
    ensures forall k | 0 <= k < |vals| :: ItemFits(f, vals[k])
  {
    hide ValidType, ValidMessage, ValidScalar, MergeFits, Defaults;
    if f.ltype.SubmessageType? {
      DefaultsValid(f.ltype.sub);
      forall k | 0 <= k < |vals| ensures ItemFits(f, vals[k]) {
        DefaultsFit(f.ltype.sub, vals[k].members);
      }
    }
  }

  lemma ArrayDecodes(mt: MsgType, i: nat, vals: seq<Value>, st: DState)
    requires ValidType(mt) && i < |mt.fields| && |st.slots| == mt.slots && ValidField(mt.fields[i]) && vals != []
    requires mt.fields[i].slot < mt.slots
    requires ValidSlot(mt.fields[i], Many(vals)) && ValidSlot(mt.fields[i], GetSlot(st.slots, mt.fields[i].slot))
    requires SlotFits(mt.fields[i], GetSlot(st.slots, mt.fields[i].slot), Many(vals))
    requires mt.fields[i].htype.Repeated? || mt.fields[i].htype.FixedCount?
    requires mt.fields[i].htype.FixedCount? ==> FixedComplete(mt, st) && st.fixedField != Some(i)
    requires EncodeArray(mt.fields[i], vals).Some? && SlotShort(mt.fields[i], Many(vals))
    ensures var e := EncodeArray(mt.fields[i], vals).value;
            DecodeLoop(mt, e, st) == Got(Run(AfterField(mt, i, Many(vals), st), false), |e|)
    decreases mt, 3
  {
    hide DecodeLoop, EncodeTag, ValidType, ValidField, ValidItems, BeginField, WithItems, Receiving;
    hide AfterField, EncodePacked, EncodeUnpacked, ItemFits, FixedComplete;
    var f := mt.fields[i];
    var items := ItemsOf(GetSlot(st.slots, f.slot));
    var count := if f.htype.Repeated? then |items| else 0;
    BeginArray(mt, i, st);
    ArrayState(mt, i, vals, st);
    if Packable(f.ltype) {
      PackedFieldDecodes(mt, i, vals, st, items, count);
    } else {
      ItemsFit(f, vals);
      UnpackedFieldDecodes(mt, i, vals, st, items, count);
    }
  }

  /** A field the encoder leaves out leaves the decoder where it was. */
  lemma SilentField(mt: MsgType, i: nat, now: Slot, st: DState)
    requires i < |mt.fields| && ValidField(mt.fields[i]) && ValidSlot(mt.fields[i], now) && !Emits(mt.fields[i], now)
    ensures EncodeField(mt.fields[i], now) == Some([])
    ensures AfterField(mt, i, now, st) == st
  {
    hide ValidType, ValidValue, IsZero, EncodeTagged;
    assert AfterField(mt, i, now, st).slots == st.slots;
  }

  lemma FieldDecodes(mt: MsgType, i: nat, now: Slot, st: DState)
    requires ValidType(mt) && i < |mt.fields| && |st.slots| == mt.slots && mt.fields[i].slot < mt.slots
    requires ValidField(mt.fields[i]) && ValidSlot(mt.fields[i], now)
    requires var was := GetSlot(st.slots, mt.fields[i].slot);
             Emits(mt.fields[i], now) ==> ValidSlot(mt.fields[i], was) && SlotFits(mt.fields[i], was, now)
    requires mt.fields[i].htype.FixedCount? ==> FixedComplete(mt, st) && st.fixedField != Some(i)
    requires EncodeField(mt.fields[i], now).Some? && SlotShort(mt.fields[i], now)
    ensures var e := EncodeField(mt.fields[i], now).value;
            DecodeLoop(mt, e, st) == Got(Run(AfterField(mt, i, now, st), false), |e|)
    decreases mt, 4
  {
    hide ValidType, ValidField, ValidScalar, ValidItems, AfterField, EncodeTagged, EncodeArray, IsZero, DecodeRecord, FixedComplete;
    hide ValidMessage, MergeFits, Defaults;
    var f := mt.fields[i];
    var was := GetSlot(st.slots, f.slot);
    if !Emits(f, now) {
      SilentField(mt, i, now, st);
    } else if f.htype.Repeated? || f.htype.FixedCount? {
      ArrayDecodes(mt, i, now.items, st);
    } else {
      if f.ltype.SubmessageType? { StartValid(f, was); }
      SingleDecodes(mt, i, now, now.v, st);
    }
  }

  /** The decoder state after the encodings of the first `i` fields of `m`. */
  function StateAt(mt: MsgType, m: seq<Slot>, st: DState, i: nat): DState
    requires i <= |mt.fields|
  {
    if i == 0 then st
    else AfterField(mt, i - 1, GetSlot(m, mt.fields[i - 1].slot), StateAt(mt, m, st, i - 1))
  }

  lemma {:induction false} StateSlots(mt: MsgType, m: seq<Slot>, st: DState, i: nat)
    requires i <= |mt.fields|
    ensures StateAt(mt, m, st, i).slots == MergeUpTo(mt, st.slots, m, i)
  {
    hide MergeSlot;
    if i > 0 { StateSlots(mt, m, st, i - 1); }
  }

  /** Which required fields have been seen after the first `i` fields. */
  lemma {:induction false} StateSeen(mt: MsgType, m: seq<Slot>, st: DState, i: nat, r: nat)
    requires i <= |mt.fields| && r < RequiredBefore(mt.fields, i) && r < MAX_REQUIRED_FIELDS
    ensures r in StateAt(mt, m, st, i).seen
  {
    hide MergeSlot;
    if r < RequiredBefore(mt.fields, i - 1) { StateSeen(mt, m, st, i - 1, r); }
  }

  /** Fixed-count arrays stay complete, and the next one is never the one received last. */
  lemma {:induction false} StateFixed(mt: MsgType, m: seq<Slot>, st: DState, i: nat)
    requires i <= |mt.fields| && FixedReady(mt, st, 0)
    ensures FixedReady(mt, StateAt(mt, m, st, i), i)
  {
    hide MergeSlot;
    if i > 0 {
      StateFixed(mt, m, st, i - 1);
      var prev, now := StateAt(mt, m, st, i - 1), StateAt(mt, m, st, i);
      if !mt.fields[i - 1].htype.FixedCount? && now.fixedField.Some? && i <= now.fixedField.value {
        var k :| i - 1 <= k < prev.fixedField.value && k < |mt.fields| && mt.fields[k].htype.FixedCount?;
        assert k >= i;
      }
    }
  }

  lemma FieldFits(mt: MsgType, m1: seq<Slot>, m2: seq<Slot>, i: nat)
    requires ValidType(mt) && ValidMessage(mt, m1) && ValidMessage(mt, m2) && MergeFits(mt, m1, m2) && i < |mt.fields|
    ensures var f := mt.fields[i];
            && ValidField(f) && ValidSlot(f, GetSlot(m1, f.slot)) && ValidSlot(f, GetSlot(m2, f.slot))
            && SlotFits(f, GetSlot(m1, f.slot), GetSlot(m2, f.slot))
    ensures |m1| == |m2| == mt.slots && mt.fields[i].slot < mt.slots
  {
    hide ValidField, ValidSlot, SlotFits;
  }

  lemma {:induction false} FieldsDecode(mt: MsgType, m1: seq<Slot>, m2: seq<Slot>, st: DState, i: nat)
    requires ValidType(mt) && ValidMessage(mt, m1) && ValidMessage(mt, m2) && MergeFits(mt, m1, m2)
    requires st.slots == m1 && FixedReady(mt, st, 0) && i <= |mt.fields|
    requires EncodeFrom(mt, m2, i).Some? && Delimited(mt, m2)
    ensures DecodeLoop(mt, EncodeFrom(mt, m2, i).value, StateAt(mt, m2, st, i))
         == Got(Run(StateAt(mt, m2, st, |mt.fields|), false), |EncodeFrom(mt, m2, i).value|)
    decreases mt, 5, |mt.fields| - i
  {
    hide ValidType, ValidField, ValidMessage, MergeFits, ValidSlot, SlotFits, Emits, EncodeField, AfterField;
    if i < |mt.fields| {
      var f := mt.fields[i];
      var now, was := GetSlot(m2, f.slot), GetSlot(m1, f.slot);
      FieldFits(mt, m1, m2, i);
      FieldsDecode(mt, m1, m2, st, i + 1);
      var here := StateAt(mt, m2, st, i);
      StateSlots(mt, m2, st, i);
      StateFixed(mt, m2, st, i);
      if Emits(f, now) { PrefixUntouched(mt, m1, m2, i, i); }
      SlotBound(mt, i);
      FieldDecodes(mt, i, now, here);
      DecodeConcat(mt, EncodeField(f, now).value, EncodeFrom(mt, m2, i + 1).value, here);
    }
  }

  lemma SlotBound(mt: MsgType, i: nat)
    requires ValidType(mt) && i < |mt.fields|
    ensures mt.fields[i].slot < mt.slots && ValidField(mt.fields[i])
  {}

  /** Decoding an encoded message onto a message it fits on yields exactly their merge and takes
      every byte, even when a complete fixed-count array was received just before. */
  lemma MessageDecodesFrom(mt: MsgType, m1: seq<Slot>, m2: seq<Slot>, st: DState)
    requires ValidType(mt) && ValidMessage(mt, m1) && ValidMessage(mt, m2) && MergeFits(mt, m1, m2)
    requires EncodeMessage(mt, m2).Some? && Delimited(mt, m2)
    requires st.slots == m1 && FixedReady(mt, st, 0)
    ensures var p := DecodeLoop(mt, EncodeMessage(mt, m2).value, st);
            && p.Got? && !p.value.terminated
            && Finished(mt, p.value.st) && p.value.st.slots == MergeMessages(mt, m1, m2)
    decreases mt, 6
  {
    hide ValidType, ValidMessage, MergeFits, EncodeFrom, DecodeLoop, StateAt;
    FieldsDecode(mt, m1, m2, st, 0);
    StateZero(mt, m2, st);
    var n := |mt.fields|;
    StateSlots(mt, m2, st, n);
    StateFixed(mt, m2, st, n);
    forall r | 0 <= r < TrackedRequired(mt.fields) ensures r in StateAt(mt, m2, st, n).seen {
      StateSeen(mt, m2, st, n, r);
    }
  }

  lemma StateZero(mt: MsgType, m: seq<Slot>, st: DState)
    ensures StateAt(mt, m, st, 0) == st
  {}

  /** `pb_decode_noinit` of an encoded message onto `m1` is the merge of the two. */
  lemma MessageDecodes(mt: MsgType, m1: seq<Slot>, m2: seq<Slot>)
    requires ValidType(mt) && ValidMessage(mt, m1) && ValidMessage(mt, m2) && MergeFits(mt, m1, m2)
    requires EncodeMessage(mt, m2).Some? && Delimited(mt, m2)
    ensures DecodeNoinit(mt, EncodeMessage(mt, m2).value, m1)
         == Got(MergeMessages(mt, m1, m2), |EncodeMessage(mt, m2).value|)
    decreases mt, 7
  {
    hide ValidType, ValidMessage, MergeFits, EncodeFrom, DecodeLoop, Finished;
    MessageDecodesFrom(mt, m1, m2, Start(m1));
  }
}
