/** What `pb_encode` emits for a message, as a function. None is an encoder error that does not
    depend on the output stream. */
module Encode {
  import opened Bytes
  import opened Varint
  import opened Integers
  import opened Messages

  const WT_VARINT := 0
  const WT_64BIT := 1
  const WT_STRING := 2
  const WT_32BIT := 5

  function Cat(a: Option<seq<byte>>, b: Option<seq<byte>>): Option<seq<byte>> {
    if a.Some? && b.Some? then Some(a.value + b.value) else None
  }

  function WireType(l: LType): nat {
    match l
    case BoolType => WT_VARINT
    case VarintType(_) => WT_VARINT
    case Fixed32Type => WT_32BIT
    case Fixed64Type => WT_64BIT
    case _ => WT_STRING
  }

  function EncodeTag(wireType: nat, tag: nat): seq<byte> {
    EncodeVarint(8 * tag + wireType)
  }

  function EncodeString(s: seq<byte>): seq<byte> {
    EncodeVarint(|s|) + s
  }

  /** The bytes in front of the first NUL, as `strnlen` counts them. */
  function CString(s: seq<byte>): (r: seq<byte>)
    ensures |r| <= |s| && r == s[..|r|]
    ensures 0 !in r
    ensures |r| < |s| ==> s[|r|] == 0
  {
    if s == [] || s[0] == 0 then [] else [s[0]] + CString(s[1..])
  }

  /** The value of one field, without its tag. */
  function EncodeScalar(f: Field, v: Value): Option<seq<byte>> {
    match (f.ltype, v)
    case (BoolType, Num(n)) => Some(EncodeVarint(if n != 0 then 1 else 0))
    case (VarintType(kind), Num(n)) =>
      if ValidWidth(f.dataSize) && (kind.ZigZagged? ==> FitsSigned(n, 8)) then Some(EncodeVarint(ToWire(kind, n))) else None
    case (Fixed32Type, Num(n)) => Some(FixedBytes(CastUnsigned(n, 4), 4))
    case (Fixed64Type, Num(n)) => Some(FixedBytes(CastUnsigned(n, 8), 8))
    case (BytesType, Blob(d)) => if |d| + BYTES_HEADER <= f.dataSize then Some(EncodeString(d)) else None
    case (StringType, Blob(d)) => Some(EncodeString(CString(d)))
    case (FixedLengthBytesType, Blob(d)) => Some(EncodeString(d))
    case _ => None
  }

  function EncodeValue(f: Field, v: Value): Option<seq<byte>>
    decreases f, 0
  {
    match (f.ltype, v)
    case (SubmessageType(sub), Msg(m)) =>
      var body := EncodeFrom(sub, m, 0);
      if body.Some? then Some(EncodeString(body.value)) else None
    case _ => EncodeScalar(f, v)
  }

  function EncodeTagged(f: Field, v: Value): Option<seq<byte>>
    decreases f, 1
  {
    Cat(Some(EncodeTag(WireType(f.ltype), f.tag)), EncodeValue(f, v))
  }

  /** The payload of a packed array. */
  function EncodePacked(f: Field, items: seq<Value>): Option<seq<byte>>
    decreases f, 1, |items|
  {
    if items == [] then Some([]) else Cat(EncodeScalar(f, items[0]), EncodePacked(f, items[1..]))
  }

  /** The records of an unpacked array. */
  function EncodeUnpacked(f: Field, items: seq<Value>): Option<seq<byte>>
    decreases f, 2, |items|
  {
    if items == [] then Some([]) else Cat(EncodeTagged(f, items[0]), EncodeUnpacked(f, items[1..]))
  }

  function EncodeArray(f: Field, items: seq<Value>): Option<seq<byte>>
    decreases f, 3
  {
    if items == [] then Some([])
    else if |items| > f.arraySize then None
    else if Packable(f.ltype) then
      var body := EncodePacked(f, items);
      if body.Some? then Some(EncodeTag(WT_STRING, f.tag) + EncodeString(body.value)) else None
    else EncodeUnpacked(f, items)
  }

  /** `pb_check_proto3_default_value`: the field holds what a proto3 encoder leaves out. */
  predicate HoldsDefault(f: Field, x: Slot)
    decreases f, 1
  {
    match f.htype
    case Required => false
    case Repeated => !x.Many? || x.items == []
    case FixedCount => false
    case Oneof => !x.Chosen? || x.which == 0
    case Optional => !x.Opt? || !x.has
    case Singular => x.One? && IsZero(f, x.v)
  }

  predicate IsZero(f: Field, v: Value)
    decreases f, 0
  {
    match (f.ltype, v)
    case (BytesType, Blob(d)) => d == []
    case (StringType, Blob(d)) => d == [] || d[0] == 0
    case (FixedLengthBytesType, _) => f.dataSize == 0
    case (SubmessageType(sub), Msg(m)) => AllHoldDefault(sub, m, 0)
    case (_, Num(n)) => n == 0
    case _ => false
  }

  predicate AllHoldDefault(mt: MsgType, m: seq<Slot>, i: nat)
    requires i <= |mt.fields|
    decreases mt, |mt.fields| - i
  {
    i == |mt.fields| || (HoldsDefault(mt.fields[i], GetSlot(m, mt.fields[i].slot)) && AllHoldDefault(mt, m, i + 1))
  }

  /** `encode_basic_field`: everything emitted for one field of a struct. */
  function EncodeField(f: Field, x: Slot): Option<seq<byte>>
    decreases f, 4
  {
    match (f.htype, x)
    case (Required, One(v)) => EncodeTagged(f, v)
    case (Singular, One(v)) => if IsZero(f, v) then Some([]) else EncodeTagged(f, v)
    case (Optional, Opt(has, v)) => if has then EncodeTagged(f, v) else Some([])
    case (Repeated, Many(items)) => EncodeArray(f, items)
    case (FixedCount, Many(items)) => EncodeArray(f, items)
    case (Oneof, Chosen(which, v)) => if which == f.tag then EncodeTagged(f, v) else Some([])
    case (Oneof, Unset) => Some([])
    case _ => None
  }

  /** Everything emitted for the fields from index `i` on, in descriptor order. */
  function EncodeFrom(mt: MsgType, m: seq<Slot>, i: nat): Option<seq<byte>>
    requires i <= |mt.fields|
    decreases mt, |mt.fields| - i
  {
    if i == |mt.fields| then Some([])
    else Cat(EncodeField(mt.fields[i], GetSlot(m, mt.fields[i].slot)), EncodeFrom(mt, m, i + 1))
  }

  function EncodeMessage(mt: MsgType, m: seq<Slot>): Option<seq<byte>> {
    EncodeFrom(mt, m, 0)
  }
}
