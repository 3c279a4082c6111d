/** Every decoder reads only the bytes it consumes, so decoding a concatenation is decoding the
    second part from the state the first part left. */
module Framing {
  import opened Bytes
  import opened Varint
  import opened Integers
  import opened Messages
  import opened Encode
  import opened Decode

  lemma DropAppend(s: seq<byte>, t: seq<byte>, n: nat)
    requires n <= |s|
    ensures (s + t)[n..] == s[n..] + t
    ensures (s + t)[..n] == s[..n]
  {}

  lemma LenDelimLocal(s: seq<byte>, t: seq<byte>)
    requires LenDelim(s).Got?
    ensures LenDelim(s + t) == LenDelim(s)
  {
    hide DecodeVarint32;
    DecodeVarint32Local(s, t);
    var n := DecodeVarint32(s).used;
    DropAppend(s, t, n);
    DropAppend(s[n..], t, DecodeVarint32(s).value);
  }

  lemma SkipFieldLocal(wireType: nat, s: seq<byte>, t: seq<byte>)
    requires SkipField(wireType, s).Got?
    ensures SkipField(wireType, s + t) == SkipField(wireType, s)
  {
    hide LenDelim, RunLength;
    if wireType == WT_VARINT { RunLengthLocal(s, t); }
    if wireType == WT_STRING { LenDelimLocal(s, t); }
  }

  lemma DecodeBlobLocal(f: Field, s: seq<byte>, t: seq<byte>)
    requires DecodeBlob(f, s).Got?
    ensures DecodeBlob(f, s + t) == DecodeBlob(f, s)
  {
    hide DecodeVarint32;
    DecodeVarint32Local(s, t);
    var n := DecodeVarint32(s).used;
    var size := DecodeVarint32(s).value;
    DropAppend(s, t, n);
    if size <= |s[n..]| { DropAppend(s[n..], t, size); }
  }

  lemma DecodeScalarLocal(f: Field, s: seq<byte>, t: seq<byte>)
    requires DecodeScalar(f, s).Got?
    ensures DecodeScalar(f, s + t) == DecodeScalar(f, s)
  {
    hide DecodeVarint, DecodeVarint32, DecodeBlob, FromWire, FixedValue;
    match f.ltype
    case BoolType => DecodeVarint32Local(s, t);
    case VarintType(_) => DecodeVarintLocal(s, t);
    case Fixed32Type => DropAppend(s, t, 4);
    case Fixed64Type => DropAppend(s, t, 8);
    case _ => DecodeBlobLocal(f, s, t);
  }

  lemma DecodeValueLocal(f: Field, s: seq<byte>, t: seq<byte>, x: Slot)
    requires DecodeValue(f, s, x).Got?
    ensures DecodeValue(f, s + t, x) == DecodeValue(f, s, x)
  {
    hide DecodeScalar, DecodeNoinit, LenDelim;
    if f.ltype.SubmessageType? { LenDelimLocal(s, t); } else { DecodeScalarLocal(f, s, t); }
  }

  lemma DecodeSlotLocal(f: Field, wireType: nat, s: seq<byte>, t: seq<byte>, x: Slot, size: nat)
    requires DecodeSlot(f, wireType, s, x, size).Got?
    ensures DecodeSlot(f, wireType, s + t, x, size) == DecodeSlot(f, wireType, s, x, size)
  {
    hide DecodeValue, DecodePacked, LenDelim;
    if f.htype.Repeated? || f.htype.FixedCount? {
      if wireType == WT_STRING && Packable(f.ltype) {
        LenDelimLocal(s, t);
      } else {
        DecodeValueLocal(f, s, t, Unset);
      }
    } else {
      DecodeValueLocal(f, s, t, x);
    }
  }

  lemma DecodeBodyLocal(mt: MsgType, tag: nat, wireType: nat, s: seq<byte>, t: seq<byte>, st: DState)
    requires DecodeBody(mt, tag, wireType, s, st).Got?
    ensures DecodeBody(mt, tag, wireType, s + t, st) == DecodeBody(mt, tag, wireType, s, st)
  {
    hide DecodeSlot, BeginField, SkipField, DecodeVarint32, FindField;
    var i := FindField(mt.fields, tag);
    if i < |mt.fields| {
      var st1 := BeginField(mt, i, st).value;
      DecodeSlotLocal(mt.fields[i], wireType, s, t, GetSlot(st1.slots, mt.fields[i].slot), st1.fixedSize);
    } else if mt.fields == [] && tag == 0 {
      DecodeVarint32Local(s, t);
    } else {
      SkipFieldLocal(wireType, s, t);
    }
  }

  lemma DecodeRecordLocal(mt: MsgType, s: seq<byte>, t: seq<byte>, st: DState)
    requires DecodeRecord(mt, s, st).Got?
    ensures DecodeRecord(mt, s + t, st) == DecodeRecord(mt, s, st)
  {
    hide DecodeBody, DecodeVarint32;
    DecodeVarint32Local(s, t);
    var raw, n := DecodeVarint32(s).value, DecodeVarint32(s).used;
    DropAppend(s, t, n);
    if raw != 0 { DecodeBodyLocal(mt, raw / 8, raw % 8, s[n..], t, st); }
  }

  /** Decoding `a + b`, where `a` ends at a record boundary, continues with `b` from the state that
      `a` left. */
  lemma {:induction false} DecodeConcat(mt: MsgType, a: seq<byte>, b: seq<byte>, st: DState)
    requires DecodeLoop(mt, a, st).Got? && !DecodeLoop(mt, a, st).value.terminated
    ensures DecodeLoop(mt, a + b, st) == DecodeLoop(mt, b, DecodeLoop(mt, a, st).value.st).After(|a|)
    decreases |a|
  {
    hide DecodeRecord;
    if a == [] {
      assert a + b == b;
    } else {
      DecodeRecordLocal(mt, a, b, st);
      var n := DecodeRecord(mt, a, st).used;
      DropAppend(a, b, n);
      DecodeConcat(mt, a[n..], b, DecodeRecord(mt, a, st).value.st);
    }
  }

  /** A message cut at a terminator ignores whatever follows it. */
  lemma {:induction false} TerminatedIgnoresRest(mt: MsgType, a: seq<byte>, b: seq<byte>, st: DState)
    requires DecodeLoop(mt, a, st).Got? && DecodeLoop(mt, a, st).value.terminated
    ensures DecodeLoop(mt, a + b, st) == DecodeLoop(mt, a, st)
    decreases |a|
  {
    hide DecodeRecord;
    DecodeRecordLocal(mt, a, b, st);
    var p := DecodeRecord(mt, a, st);
    DropAppend(a, b, p.used);
    if p.value.Continue? { TerminatedIgnoresRest(mt, a[p.used..], b, p.value.st); }
  }

  /** What one complete record does to the loop. */
  lemma RecordStep(mt: MsgType, r: seq<byte>, st: DState, st': DState)
    requires DecodeRecord(mt, r, st) == Got(Continue(st'), |r|)
    ensures DecodeLoop(mt, r, st) == Got(Run(st', false), |r|)
  {
    hide DecodeRecord;
    assert r[|r|..] == [];
    assert DecodeLoop(mt, [], st') == Got(Run(st', false), 0);
  }

  // ---- Unknown fields -------------------------------------------------------------------------

  /** One record whose tag the message type does not list and whose body can be skipped. */
  ghost predicate UnknownRecord(mt: MsgType, u: seq<byte>) {
    && DecodeVarint32(u).Got?
    && var raw, n := DecodeVarint32(u).value, DecodeVarint32(u).used;
       && raw != 0
       && (mt.fields == [] ==> raw / 8 != 0)
       && (forall i | 0 <= i < |mt.fields| :: mt.fields[i].tag != raw / 8)
       && SkipField(raw % 8, u[n..]) == Got((), |u| - n)
  }

  lemma UnknownStep(mt: MsgType, u: seq<byte>, st: DState)
    ensures UnknownRecord(mt, u) ==> DecodeLoop(mt, u, st) == Got(Run(st, false), |u|)
  {
    hide DecodeVarint32, SkipField, FindField, DecodeSlot;
    if UnknownRecord(mt, u) {
      var raw, n := DecodeVarint32(u).value, DecodeVarint32(u).used;
      assert FindField(mt.fields, raw / 8) == |mt.fields|;
      assert DecodeBody(mt, raw / 8, raw % 8, u[n..], st) == Got(st, |u| - n);
      RecordStep(mt, u, st, st);
    }
  }

  /** The records of `a` end where the next record may start. */
  predicate AtBoundary(mt: MsgType, a: seq<byte>, m: seq<Slot>) {
    var p := DecodeLoop(mt, a, Start(m));
    p.Got? && !p.value.terminated
  }

  /** Inserting an unknown record at a record boundary changes neither success nor the message. */
  lemma UnknownFieldsAreTransparent(mt: MsgType, a: seq<byte>, u: seq<byte>, b: seq<byte>, m: seq<Slot>)
    ensures UnknownRecord(mt, u) && AtBoundary(mt, a, m) ==>
              (var p, q := DecodeNoinit(mt, a + u + b, m), DecodeNoinit(mt, a + b, m);
               && (p.Got? <==> q.Got?)
               && (q.Got? ==> p == Got(q.value, q.used + |u|)))
  {
    hide DecodeLoop, Finished, UnknownRecord;
    if UnknownRecord(mt, u) && AtBoundary(mt, a, m) {
      var st := DecodeLoop(mt, a, Start(m)).value.st;
      UnknownStep(mt, u, st);
      DecodeConcat(mt, u, b, st);
      DecodeConcat(mt, a, u + b, Start(m));
      DecodeConcat(mt, a, b, Start(m));
      assert a + u + b == a + (u + b);
    }
  }
}
