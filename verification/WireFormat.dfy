/** The wire format in the numbers of the Protocol Buffers Encoding guide: wire types, tags, widths and sizes. */
module WireFormat {
  import opened Bytes
  import opened Varint
  import opened Integers
  import opened Messages
  import opened Encode
  import opened Decode
  import opened Soundness

  // ---- Wire types ----------------------------------------------------------------------------------------------

  /** The wire type the guide assigns to a field's type: 0 for varints, 1 for 64-bit values, 2 for everything
      that carries its length, 5 for 32-bit values. */
  predicate Assigned(l: LType, wireType: nat) {
    match l
    case BoolType => wireType == 0
    case VarintType(_) => wireType == 0
    case Fixed64Type => wireType == 1
    case BytesType => wireType == 2
    case StringType => wireType == 2
    case FixedLengthBytesType => wireType == 2
    case SubmessageType(_) => wireType == 2
    case Fixed32Type => wireType == 5
  }

  /** A record of a single value starts with its field number and the wire type assigned to its type. */
  lemma TagByType(f: Field, v: Value, wireType: nat)
    requires EncodeTagged(f, v).Some? && Assigned(f.ltype, wireType)
    ensures EncodeValue(f, v).Some?
    ensures EncodeTagged(f, v).value == EncodeVarint(8 * f.tag + wireType) + EncodeValue(f, v).value
  {
    hide EncodeVarint, EncodeValue;
  }

  /** An array of numbers is one record with wire type 2, the length of the elements in front of them. */
  lemma PackedTag(f: Field, items: seq<Value>)
    requires f.ltype.BoolType? || f.ltype.VarintType? || f.ltype.Fixed32Type? || f.ltype.Fixed64Type?
    requires items != [] && EncodeArray(f, items).Some?
    ensures EncodePacked(f, items).Some?
    ensures var payload := EncodePacked(f, items).value;
            EncodeArray(f, items).value == EncodeVarint(8 * f.tag + 2) + (EncodeVarint(|payload|) + payload)
  {
    hide EncodeVarint, EncodePacked, EncodeUnpacked;
  }

  /** An array of anything else is one record an element. */
  lemma {:induction false} UnpackedTags(f: Field, items: seq<Value>)
    requires f.ltype.BytesType? || f.ltype.StringType? || f.ltype.FixedLengthBytesType? || f.ltype.SubmessageType?
    requires items != [] && EncodeArray(f, items).Some?
    ensures EncodeTagged(f, items[0]).Some? && EncodeUnpacked(f, items[1..]).Some?
    ensures EncodeArray(f, items).value == EncodeTagged(f, items[0]).value + EncodeUnpacked(f, items[1..]).value
  {
    hide EncodeTagged, EncodePacked;
  }

  /** Skipping takes one varint, 8 bytes, a length and what it announces, or 4 bytes; no other wire type can be
      skipped. */
  lemma SkipByNumber(s: seq<byte>, wireType: nat)
    ensures wireType == 0 ==> (SkipField(wireType, s) == if RunLength(s) == 0 then Fail else Got((), RunLength(s)))
    ensures wireType == 1 ==> (SkipField(wireType, s) == if |s| >= 8 then Got((), 8) else Fail)
    ensures wireType == 5 ==> (SkipField(wireType, s) == if |s| >= 4 then Got((), 4) else Fail)
    ensures wireType == 2 ==>
              var p := DecodeVarint32(s);
              (SkipField(wireType, s) == if p.Fail? || p.used + p.value > |s| then Fail else Got((), p.used + p.value))
    ensures wireType !in {0, 1, 2, 5} ==> SkipField(wireType, s).Fail?
  {
    hide DecodeVarint32, RunLength;
  }

  /** A packed record is recognised by wire type 2, for numbers only. */
  lemma PackedByNumber(f: Field, wireType: nat, s: seq<byte>, items: seq<Value>, count: nat)
    requires f.ltype.BoolType? || f.ltype.VarintType? || f.ltype.Fixed32Type? || f.ltype.Fixed64Type?
    ensures wireType == 2 && LenDelim(s).Got? ==>
              var p := DecodePacked(f, LenDelim(s).value, items, count);
              (DecodeItems(f, wireType, s, items, count) == if p.None? then Fail else Got(p.value, LenDelim(s).used))
    ensures wireType != 2 && count < f.arraySize ==>
              var p := DecodeScalar(f, s);
              (DecodeItems(f, wireType, s, items, count)
               == if p.Fail? then Fail else Got((StoreItem(items, count, p.value), count + 1), p.used))
  {
    hide LenDelim, DecodePacked, DecodeScalar, StoreItem;
  }

  // ---- Values ---------------------------------------------------------------------------------------------------

  /** Any number but zero is true. */
  lemma BoolByValue(f: Field, v: nat, rest: seq<byte>)
    requires f.ltype.BoolType? && v < 0x1_0000_0000
    ensures DecodeScalar(f, EncodeVarint(v) + rest) == Got(Num(if v == 0 then 0 else 1), |EncodeVarint(v)|)
  {
    hide DecodeVarint32, EncodeVarint;
    Varint32RoundTrip(v, rest);
  }

  /** Which byte strings a field takes: bytes need room for a four-byte count in front, strings for a terminator
      behind, fixed-length bytes must fill the field, or be empty and then count as zeros. */
  lemma BlobBySize(f: Field, d: seq<byte>)
    requires f.ltype.BytesType? || f.ltype.StringType? || f.ltype.FixedLengthBytesType?
    requires |d| < 0xFFFF_FFFF
    ensures var p, n := DecodeScalar(f, EncodeString(d)), |EncodeString(d)|;
            && (f.ltype.BytesType? ==> p == if |d| + 4 <= f.dataSize then Got(Blob(d), n) else Fail)
            && (f.ltype.StringType? ==> p == if |d| + 1 <= f.dataSize then Got(Blob(d), n) else Fail)
            && (f.ltype.FixedLengthBytesType? && d != [] ==> p == if |d| == f.dataSize then Got(Blob(d), n) else Fail)
            && (f.ltype.FixedLengthBytesType? && d == [] ==>
                  p.Got? && p.used == n && p.value.Blob? && |p.value.data| == f.dataSize
                  && forall k | 0 <= k < f.dataSize :: p.value.data[k] == 0)
  {
    hide DecodeVarint32, EncodeVarint;
    Varint32RoundTrip(|d|, d);
    var s := EncodeString(d);
    assert s[|EncodeVarint(|d|)|..] == d;
    assert d[..|d|] == d;
  }

  /** What is emitted for a bytes field, with the same four bytes of room. */
  lemma BytesEmitted(f: Field, d: seq<byte>)
    requires f.ltype.BytesType?
    ensures EncodeScalar(f, Blob(d)) == if |d| + 4 <= f.dataSize then Some(EncodeVarint(|d|) + d) else None
  {
    hide EncodeVarint;
  }

  // ---- Widths -----------------------------------------------------------------------------------------------------

  /** An integer of `width` bytes has as many values as `width` bytes have contents. */
  lemma SpanOfBytes(width: nat)
    requires ValidWidth(width)
    ensures Span(width) == Pow256(width)
    ensures width == 1 || width == 2 || width == 4 || width == 8
  {
    Pow256Widths();
    assert Pow256(1) == 256 * Pow256(0) && Pow256(2) == 256 * Pow256(1);
  }

  /** Casting an integer keeps it modulo 2^(8 * width) and brings it into the range of the type. */
  lemma CastsAreCongruent(n: int, width: nat)
    requires ValidWidth(width)
    ensures (n - CastUnsigned(n, width)) % Span(width) == 0 && 0 <= CastUnsigned(n, width) < Span(width)
    ensures (n - CastSigned(n, width)) % Span(width) == 0
    ensures -(Span(width) / 2) <= CastSigned(n, width) < Span(width) / 2
  {
    var p, u := Span(width), n % Span(width);
    assert n == p * (n / p) + u;
    Multiple(p, n / p);
    Multiple(p, n / p + 1);
  }

  lemma Multiple(p: nat, k: int)
    requires p > 0
    ensures p * k % p == 0
    ensures p * (k + 1) == p * k + p
  {
    var x := p * k;
    var q := x / p;
    assert x == p * q + x % p;
    if q < k { Above(p, q, k); }
    if q > k { Above(p, k, q); }
  }

  lemma Above(p: nat, a: int, b: int)
    requires a < b
    ensures p * b >= p * a + p
  {
    MulGrows(p, a + 1, b);
  }

  /** The constants of the codec are powers of two. */
  lemma PowersOfTwo()
    ensures TWO32 == Pow2(32) && TWO64 == Pow2(64) && 2 * TWO31 == TWO32 && 2 * TWO63 == TWO64
    ensures PB_SIZE_MAX == Pow2(32) - 1
  {
    assert Pow2(4) == 16;
    Pow2Septet(4);
    Pow2Septet(11);
    Pow2Septet(18);
    Pow2Septet(25);
    Pow2Add(32, 32);
  }

  // ---- Required fields ------------------------------------------------------------------------------------------------

  /** The required ones of the first `i` fields. */
  function RequiredAmong(fs: seq<Field>, i: nat): set<nat>
    requires i <= |fs|
  {
    set j | 0 <= j < i && fs[j].htype.Required?
  }

  lemma OneMore(fs: seq<Field>, i: nat)
    requires i < |fs|
    ensures RequiredAmong(fs, i + 1) == RequiredAmong(fs, i) + if fs[i].htype.Required? then {i} else {}
    ensures i !in RequiredAmong(fs, i)
  {}

  lemma {:induction false} RequiredIsCount(fs: seq<Field>, i: nat)
    requires i <= |fs|
    ensures RequiredBefore(fs, i) == |RequiredAmong(fs, i)|
  {
    if i == 0 {
      assert RequiredAmong(fs, 0) == {};
    } else {
      hide RequiredAmong;
      RequiredIsCount(fs, i - 1);
      OneMore(fs, i - 1);
    }
  }

  /** A decode that succeeds has read a record of every required field with fewer than 64 required fields in
      front of it. */
  lemma FirstSixtyFourRequired(mt: MsgType, s: seq<byte>, m: seq<Slot>, i: nat)
    requires ValidType(mt) && DecodeNoinit(mt, s, m).Got?
    requires i < |mt.fields| && mt.fields[i].htype.Required? && |RequiredAmong(mt.fields, i)| < 64
    ensures mt.fields[i].tag in WireTags(mt, s, Start(m))
  {
    hide ValidType, DecodeLoop, WireTags, DecodeNoinit, RequiredAmong;
    RequiredFieldsEnforced(mt, s, m);
    RequiredIsCount(mt.fields, i);
    assert Tracked(mt, i);
  }
}
