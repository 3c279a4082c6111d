/** A scalar array may arrive as packed records, unpacked records, or any mix of the two. */
module Packing {
  import opened Bytes
  import opened Varint
  import opened Messages
  import opened Encode
  import opened Decode
  import opened Framing
  import opened Merge
  import opened RoundTrip

  /** One record of a scalar array: a packed one, possibly empty, or a single element. */
  datatype Chunk = Packed(vals: seq<Value>) | Single(v: Value)

  function ValuesOf(c: Chunk): seq<Value> {
    match c
    case Packed(vals) => vals
    case Single(v) => [v]
  }

  /** The elements of all records in order. */
  function AllValues(cs: seq<Chunk>): seq<Value> {
    if cs == [] then [] else ValuesOf(cs[0]) + AllValues(cs[1..])
  }

  function ChunkBody(f: Field, c: Chunk): seq<byte> {
    match c
    case Packed(vals) => if EncodePacked(f, vals).Some? then EncodeString(EncodePacked(f, vals).value) else []
    case Single(v) => if EncodeScalar(f, v).Some? then EncodeScalar(f, v).value else []
  }

  function ChunkType(f: Field, c: Chunk): nat {
    if c.Packed? then WT_STRING else WireType(f.ltype)
  }

  function ChunkBytes(f: Field, c: Chunk): seq<byte> {
    EncodeTag(ChunkType(f, c), f.tag) + ChunkBody(f, c)
  }

  function AllBytes(f: Field, cs: seq<Chunk>): seq<byte> {
    if cs == [] then [] else ChunkBytes(f, cs[0]) + AllBytes(f, cs[1..])
  }

  ghost predicate ValidChunk(f: Field, c: Chunk)
    requires ValidField(f)
  {
    && ValidItems(f, ValuesOf(c))
    && (c.Packed? && EncodePacked(f, c.vals).Some? ==> |EncodePacked(f, c.vals).value| < TWO32)
  }

  lemma {:induction false} PackedOverflows(f: Field, vals: seq<Value>, items: seq<Value>, count: nat)
    requires ValidField(f) && Packable(f.ltype) && ValidItems(f, vals)
    requires count <= f.arraySize < count + |vals|
    requires EncodePacked(f, vals).Some?
    ensures DecodePacked(f, EncodePacked(f, vals).value, items, count).None?
    decreases |vals|
  {
    hide EncodeScalar, DecodeScalar, ValidScalar, ValidData, StoreItem;
    assert ValidData(f);
    assert ValidScalar(f, vals[0]);
    ScalarDecodes(f, vals[0]);
    if count < f.arraySize {
      var e := EncodeScalar(f, vals[0]).value;
      PackedOverflows(f, vals[1..], StoreItem(items, count, vals[0]), count + 1);
      var rest := EncodePacked(f, vals[1..]).value;
      DecodeScalarLocal(f, e, rest);
      assert (e + rest)[|e|..] == rest;
    }
  }

  /** What one chunk's body decodes to, whatever follows it. */
  lemma ChunkBodyDecodes(f: Field, c: Chunk, items: seq<Value>, count: nat, rest: seq<byte>)
    requires ValidField(f) && Packable(f.ltype) && ValidChunk(f, c) && count <= f.arraySize
    ensures var body := ChunkBody(f, c);
            DecodeItems(f, ChunkType(f, c), body + rest, items, count)
            == if count + |ValuesOf(c)| <= f.arraySize
               then Got((StoreAll(items, count, ValuesOf(c)), count + |ValuesOf(c)|), |body|)
               else Fail
  {
    hide EncodePacked, DecodePacked, EncodeScalar, DecodeScalar, LenDelim, EncodeString, ValidScalar, StoreItem;
    match c
    case Packed(vals) =>
      PackedEncodable(f, vals);
      var payload := EncodePacked(f, vals).value;
      LenDelimEncoded(payload);
      LenDelimLocal(EncodeString(payload), rest);
      if count + |vals| <= f.arraySize {
        PackedDecodes(f, vals, items, count);
      } else {
        PackedOverflows(f, vals, items, count);
      }
    case Single(v) =>
      assert ValidData(f) && ValidItems(f, [v]) && [v][0] == v;
      assert ValidScalar(f, v);
      ScalarDecodes(f, v);
      DecodeScalarLocal(f, EncodeScalar(f, v).value, rest);
      assert StoreAll(items, count, [v]) == StoreAll(StoreItem(items, count, v), count + 1, []);
      assert v == Normal(f, v);
  }

  lemma {:induction false} PackedEncodable(f: Field, vals: seq<Value>)
    requires ValidField(f) && Packable(f.ltype) && ValidItems(f, vals)
    ensures EncodePacked(f, vals).Some?
  {
    hide EncodeScalar, ValidScalar;
    if vals != [] {
      assert ValidData(f) && ValidScalar(f, vals[0]);
      ScalarDecodes(f, vals[0]);
      PackedEncodable(f, vals[1..]);
    }
  }

  /** The state after `vals` have been received into array field `i`. */
  function Received(mt: MsgType, i: nat, st: DState, items: seq<Value>, count: nat, vals: seq<Value>): DState
    requires i < |mt.fields|
  {
    WithSlot(mt, i, st, Many(StoreAll(items, count, vals)),
             if mt.fields[i].htype.Repeated? then st.fixedSize else count + |vals|)
  }

  lemma ChunkDecodes(mt: MsgType, i: nat, c: Chunk, st: DState, items: seq<Value>, count: nat, rest: seq<byte>)
    requires ValidType(mt) && i < |mt.fields| && ValidField(mt.fields[i]) && Packable(mt.fields[i].ltype)
    requires Receiving(mt, i, st, items, count) && count <= mt.fields[i].arraySize
    requires ValidChunk(mt.fields[i], c)
    ensures var e := ChunkBytes(mt.fields[i], c);
            DecodeLoop(mt, e + rest, st)
            == if count + |ValuesOf(c)| <= mt.fields[i].arraySize
               then DecodeLoop(mt, rest, Received(mt, i, st, items, count, ValuesOf(c))).After(|e|)
               else Fail
  {
    hide ValidType, ValidField, ValidChunk, DecodeVarint32, EncodeTag, FindField, DecodeItems, ChunkBody, StoreAll, SkipField;
    var f := mt.fields[i];
    assert 1 <= f.tag < 0x2000_0000 by { TagRange(f); }
    var body, t := ChunkBody(f, c), EncodeTag(ChunkType(f, c), f.tag);
    ChunkBodyDecodes(f, c, items, count, rest);
    TagDecodes(f.tag, ChunkType(f, c), body + rest);
    FindOwn(mt, i);
    var r := ChunkBytes(f, c) + rest;
    assert r == t + (body + rest);
    assert r[|t|..] == body + rest;
    assert r[|t| + |body|..] == rest;
    assert BeginField(mt, i, st) == Some(st);
    var after := Received(mt, i, st, items, count, ValuesOf(c));
    assert DecodeBody(mt, f.tag, ChunkType(f, c), body + rest, st)
        == if count + |ValuesOf(c)| <= f.arraySize then Got(after, |body|) else Fail;
    assert DecodeRecord(mt, r, st)
        == if count + |ValuesOf(c)| <= f.arraySize then Got(Continue(after), |t| + |body|) else Fail;
  }

  lemma TagRange(f: Field)
    requires ValidField(f)
    ensures 1 <= f.tag < 0x2000_0000
  {}

  lemma {:induction false} StoreAllSplit(items: seq<Value>, k: nat, a: seq<Value>, b: seq<Value>)
    ensures StoreAll(items, k, a + b) == StoreAll(StoreAll(items, k, a), k + |a|, b)
    decreases |a|
  {
    if a == [] {
      assert a + b == b;
    } else {
      assert (a + b)[0] == a[0] && (a + b)[1..] == a[1..] + b;
      StoreAllSplit(StoreItem(items, k, a[0]), k + 1, a[1..], b);
    }
  }

  lemma {:induction false} StoreAllLength(items: seq<Value>, vals: seq<Value>)
    ensures |StoreAll(items, |items|, vals)| == |items| + |vals|
  {
    StoreAppends(items, vals);
  }

  /** Any list of chunks: the elements are stored in order, and decoding fails exactly when there
      are more than the array holds. */
  lemma {:induction false} ChunksDecode(mt: MsgType, i: nat, cs: seq<Chunk>, st: DState, items: seq<Value>, count: nat, rest: seq<byte>)
    requires ValidType(mt) && i < |mt.fields| && ValidField(mt.fields[i]) && Packable(mt.fields[i].ltype)
    requires Receiving(mt, i, st, items, count) && count <= mt.fields[i].arraySize
    requires forall k | 0 <= k < |cs| :: ValidChunk(mt.fields[i], cs[k])
    ensures DecodeLoop(mt, AllBytes(mt.fields[i], cs) + rest, st)
         == if count + |AllValues(cs)| <= mt.fields[i].arraySize
            then DecodeLoop(mt, rest, Received(mt, i, st, items, count, AllValues(cs))).After(|AllBytes(mt.fields[i], cs)|)
            else Fail
    decreases |cs|
  {
    hide ValidType, ValidField, ValidChunk, DecodeLoop, ChunkBytes, StoreAll, ValuesOf;
    var f := mt.fields[i];
    if cs == [] {
      assert AllBytes(f, cs) + rest == rest;
      StoreNothing(items, count);
      assert Received(mt, i, st, items, count, []) == st;
    } else {
      var vals, tail := ValuesOf(cs[0]), AllBytes(f, cs[1..]);
      assert AllBytes(f, cs) + rest == ChunkBytes(f, cs[0]) + (tail + rest);
      ChunkDecodes(mt, i, cs[0], st, items, count, tail + rest);
      if count + |vals| <= f.arraySize {
        var st' := Received(mt, i, st, items, count, vals);
        if f.htype.Repeated? { StoreAllLength(items, vals); }
        ChunksDecode(mt, i, cs[1..], st', StoreAll(items, count, vals), count + |vals|, rest);
        StoreAllSplit(items, count, vals, AllValues(cs[1..]));
        assert Received(mt, i, st', StoreAll(items, count, vals), count + |vals|, AllValues(cs[1..])).slots
            == Received(mt, i, st, items, count, AllValues(cs)).slots;
      }
    }
  }

  lemma StoreNothing(items: seq<Value>, count: nat)
    ensures StoreAll(items, count, []) == items
  {}

  /** A list of chunks where field `i` has not been begun: its first record begins it. */
  lemma ChunksBegin(mt: MsgType, i: nat, cs: seq<Chunk>, st: DState, rest: seq<byte>)
    requires ValidType(mt) && i < |mt.fields| && ValidField(mt.fields[i]) && Packable(mt.fields[i].ltype)
    requires BeginField(mt, i, st).Some? && (cs == [] ==> BeginField(mt, i, st) == Some(st))
    ensures DecodeLoop(mt, AllBytes(mt.fields[i], cs) + rest, st)
         == DecodeLoop(mt, AllBytes(mt.fields[i], cs) + rest, BeginField(mt, i, st).value)
  {
    hide ValidType, ValidField, DecodeLoop, EncodeTag, ChunkBody, BeginField;
    var f := mt.fields[i];
    if cs != [] {
      var body := ChunkBody(f, cs[0]) + AllBytes(f, cs[1..]) + rest;
      assert AllBytes(f, cs) + rest == EncodeTag(ChunkType(f, cs[0]), f.tag) + body;
      SameAfterBegin(mt, i, ChunkType(f, cs[0]), body, st);
    }
  }

  /** Two ways of splitting the same elements are indistinguishable to the decoder, wherever they stand: same
      success, same array, same count, same rest of the message. They may both begin a fixed-count array; only
      an empty list against one of empty records cannot, because it does not begin it. */
  lemma PackedAndUnpackedAgree(mt: MsgType, i: nat, cs: seq<Chunk>, ds: seq<Chunk>, a: seq<byte>, b: seq<byte>,
                               m: seq<Slot>, items: seq<Value>, count: nat)
    requires ValidType(mt) && i < |mt.fields| && ValidField(mt.fields[i]) && Packable(mt.fields[i].ltype)
    requires forall k | 0 <= k < |cs| :: ValidChunk(mt.fields[i], cs[k])
    requires forall k | 0 <= k < |ds| :: ValidChunk(mt.fields[i], ds[k])
    requires AllValues(cs) == AllValues(ds)
    requires AtBoundary(mt, a, m)
    requires var begun := BeginField(mt, i, DecodeLoop(mt, a, Start(m)).value.st);
             && begun.Some? && Receiving(mt, i, begun.value, items, count) && count <= mt.fields[i].arraySize
             && (cs == [] || ds == [] ==> begun.value == DecodeLoop(mt, a, Start(m)).value.st)
    ensures var f := mt.fields[i];
            var p, q := DecodeNoinit(mt, a + AllBytes(f, cs) + b, m), DecodeNoinit(mt, a + AllBytes(f, ds) + b, m);
            && (p.Got? <==> q.Got?)
            && (p.Got? ==> p.value == q.value && count + |AllValues(cs)| <= f.arraySize)
  {
    hide ValidType, ValidField, ValidChunk, DecodeLoop, AllBytes, AllValues, Finished, BeginField;
    var f := mt.fields[i];
    var st := DecodeLoop(mt, a, Start(m)).value.st;
    ChunksBegin(mt, i, cs, st, b);
    ChunksBegin(mt, i, ds, st, b);
    ChunksDecode(mt, i, cs, BeginField(mt, i, st).value, items, count, b);
    ChunksDecode(mt, i, ds, BeginField(mt, i, st).value, items, count, b);
    DecodeConcat(mt, a, AllBytes(f, cs) + b, Start(m));
    DecodeConcat(mt, a, AllBytes(f, ds) + b, Start(m));
    assert a + AllBytes(f, cs) + b == a + (AllBytes(f, cs) + b);
    assert a + AllBytes(f, ds) + b == a + (AllBytes(f, ds) + b);
  }

  // ---- Fixed-count arrays are received whole ---------------------------------------------------------------

  /** A message that ends with the records of a fixed-count array is accepted only if the array has received
      exactly its number of elements. */
  lemma FixedCountIsExact(mt: MsgType, i: nat, cs: seq<Chunk>, a: seq<byte>, m: seq<Slot>, items: seq<Value>, count: nat)
    requires ValidType(mt) && i < |mt.fields| && ValidField(mt.fields[i]) && Packable(mt.fields[i].ltype)
    requires mt.fields[i].htype.FixedCount? && forall k | 0 <= k < |cs| :: ValidChunk(mt.fields[i], cs[k])
    requires AtBoundary(mt, a, m) && cs != []
    requires var begun := BeginField(mt, i, DecodeLoop(mt, a, Start(m)).value.st);
             begun.Some? && Receiving(mt, i, begun.value, items, count) && count <= mt.fields[i].arraySize
    requires DecodeNoinit(mt, a + AllBytes(mt.fields[i], cs), m).Got?
    ensures count + |AllValues(cs)| == mt.fields[i].arraySize
  {
    hide ValidType, ValidField, ValidChunk, AllBytes, AllValues, DecodeLoop;
    var f := mt.fields[i];
    var st := DecodeLoop(mt, a, Start(m)).value.st;
    NoBytesBehind(mt, AllBytes(f, cs), Received(mt, i, BeginField(mt, i, st).value, items, count, AllValues(cs)));
    ChunksBegin(mt, i, cs, st, []);
    ChunksDecode(mt, i, cs, BeginField(mt, i, st).value, items, count, []);
    DecodeConcat(mt, a, AllBytes(f, cs), Start(m));
  }

  lemma NoBytesBehind(mt: MsgType, s: seq<byte>, st: DState)
    ensures s + [] == s && DecodeLoop(mt, [], st) == Got(Run(st, false), 0)
  {}

  /** A fixed-count array cannot begin while another is short of elements. */
  lemma FixedCountNotInterrupted(mt: MsgType, i: nat, k: nat, c: Chunk, st: DState, rest: seq<byte>)
    requires ValidType(mt) && i < |mt.fields| && k < |mt.fields| && i != k && ValidField(mt.fields[i])
    requires mt.fields[i].htype.FixedCount? && st.fixedField == Some(k) && st.fixedSize != mt.fields[k].arraySize
    ensures DecodeLoop(mt, ChunkBytes(mt.fields[i], c) + rest, st).Fail?
  {
    hide ValidType, ValidField, DecodeVarint32, EncodeTag, FindField, DecodeSlot, ChunkBody;
    var f := mt.fields[i];
    TagRange(f);
    var t, body := EncodeTag(ChunkType(f, c), f.tag), ChunkBody(f, c) + rest;
    TagDecodes(f.tag, ChunkType(f, c), body);
    FindOwn(mt, i);
    var r := ChunkBytes(f, c) + rest;
    assert r == t + body;
    assert r[|t|..] == body;
    assert DecodeBody(mt, f.tag, ChunkType(f, c), body, st).Fail?;
    assert DecodeRecord(mt, r, st).Fail?;
  }
}
