/** `pb_decode` as a function from byte strings to messages: the record loop, field decoders,
    packed arrays, fixed-count bookkeeping and the closing required-field check. */
module Decode {
  import opened Bytes
  import opened Varint
  import opened Integers
  import opened Messages
  import opened Encode

  // ---- Reading primitives ---------------------------------------------------------------

  function ReadBytes(s: seq<byte>, n: nat): (p: Parse<seq<byte>>)
    ensures p.Got? ==> p.used == n <= |s| && p.value == s[..n]
  {
    if n <= |s| then Got(s[..n], n) else Fail
  }

  /** A length prefix and the payload it announces. */
  function LenDelim(s: seq<byte>): (p: Parse<seq<byte>>)
    ensures p.Got? ==> |p.value| < p.used <= |s|
  {
    match DecodeVarint32(s)
    case Fail => Fail
    case Got(size, n) => ReadBytes(s[n..], size).After(n)
  }

  function SkipVarint(s: seq<byte>): (p: Parse<()>)
    ensures p.Got? ==> p.used <= |s|
  {
    if RunLength(s) == 0 then Fail else Got((), RunLength(s))
  }

  /** `pb_skip_field`. */
  function SkipField(wireType: nat, s: seq<byte>): (p: Parse<()>)
    ensures p.Got? ==> p.used <= |s|
  {
    if wireType == WT_VARINT then SkipVarint(s)
    else if wireType == WT_64BIT then (if |s| >= 8 then Got((), 8) else Fail)
    else if wireType == WT_STRING then (match LenDelim(s) case Fail => Fail case Got(_, n) => Got((), n))
    else if wireType == WT_32BIT then (if |s| >= 4 then Got((), 4) else Fail)
    else Fail
  }

  // ---- Field values -----------------------------------------------------------------------

  function DecodeInteger(kind: IntKind, width: nat, s: seq<byte>): (p: Parse<Value>)
    ensures p.Got? ==> 1 <= p.used <= |s|
  {
    match DecodeVarint(s)
    case Fail => Fail
    case Got(v, n) =>
      if ValidWidth(width) && FromWire(kind, v, width).Some? then Got(Num(FromWire(kind, v, width).value), n) else Fail
  }

  function DecodeFixed(s: seq<byte>, n: nat): (p: Parse<Value>)
    ensures p.Got? ==> p.used == n <= |s|
  {
    if n <= |s| then Got(Num(FixedValue(s[..n])), n) else Fail
  }

  /** Bytes and strings: the size read first, then checked against the field, then the data. */
  function DecodeBlob(f: Field, s: seq<byte>): (p: Parse<Value>)
    ensures p.Got? ==> 1 <= p.used <= |s|
  {
    match DecodeVarint32(s)
    case Fail => Fail
    case Got(size, n) =>
      if f.ltype.BytesType? && size + BYTES_HEADER > f.dataSize then Fail
      else if f.ltype.StringType? && (size + 1 == TWO32 || size + 1 > f.dataSize) then Fail
      else if f.ltype.FixedLengthBytesType? && size == 0 then Got(Blob(Repeat(0, f.dataSize)), n)
      else if f.ltype.FixedLengthBytesType? && size != f.dataSize then Fail
      else match ReadBytes(s[n..], size)
           case Fail => Fail
           case Got(d, k) => Got(Blob(d), k + n)
  }

  function DecodeScalar(f: Field, s: seq<byte>): (p: Parse<Value>)
    ensures p.Got? ==> 1 <= p.used <= |s|
  {
    match f.ltype
    case BoolType =>
      (match DecodeVarint32(s)
       case Fail => Fail
       case Got(v, n) => Got(Num(if v != 0 then 1 else 0), n))
    case VarintType(kind) => DecodeInteger(kind, f.dataSize, s)
    case Fixed32Type => DecodeFixed(s, 4)
    case Fixed64Type => DecodeFixed(s, 8)
    case SubmessageType(_) => Fail
    case _ => DecodeBlob(f, s)
  }

  // ---- Decoder state ------------------------------------------------------------------------

  /** `seen` is the set behind the required-field bitmap; `fixedField` and `fixedSize` track the
      fixed-count array being received. */
  datatype DState = DState(slots: seq<Slot>, seen: set<nat>, fixedField: Option<nat>, fixedSize: nat)

  datatype Run = Run(st: DState, terminated: bool)

  datatype Step = Stop | Continue(st: DState)

  function Start(m: seq<Slot>): DState {
    DState(m, {}, None, 0)
  }

  /** Index of the field with this tag, or the number of fields. */
  function FindField(fs: seq<Field>, tag: nat): (i: nat)
    ensures i <= |fs|
    ensures i < |fs| ==> fs[i].tag == tag
    ensures forall j | 0 <= j < i :: fs[j].tag != tag
  {
    if fs == [] || fs[0].tag == tag then 0
    else
      var i := FindField(fs[1..], tag);
      assert forall j | 1 <= j < i + 1 :: fs[j] == fs[1..][j - 1];
      i + 1
  }

  function RequiredBefore(fs: seq<Field>, i: nat): (n: nat)
    requires i <= |fs|
    ensures n <= i
  {
    if i == 0 then 0 else RequiredBefore(fs, i - 1) + (if fs[i - 1].htype.Required? then 1 else 0)
  }

  /** The number of required fields whose presence is tracked. */
  function TrackedRequired(fs: seq<Field>): (n: nat) {
    var n := RequiredBefore(fs, |fs|);
    if n > MAX_REQUIRED_FIELDS then MAX_REQUIRED_FIELDS else n
  }

  predicate FixedComplete(mt: MsgType, st: DState) {
    st.fixedField.Some? && st.fixedField.value < |mt.fields| ==>
      st.fixedSize == mt.fields[st.fixedField.value].arraySize
  }

  /** The checks after the record loop. */
  predicate Finished(mt: MsgType, st: DState) {
    FixedComplete(mt, st) && forall r | 0 <= r < TrackedRequired(mt.fields) :: r in st.seen
  }

  /** Writing element `k` of an array that may still be growing. */
  function StoreItem(items: seq<Value>, k: nat, v: Value): seq<Value> {
    if k < |items| then items[k := v] else items + [v]
  }

  /** The struct a submessage field's decoder starts from. */
  function StartOf(f: Field, x: Slot): seq<Slot>
    requires f.ltype.SubmessageType?
  {
    match x
    case One(Msg(m)) => m
    case Opt(_, Msg(m)) => m
    case Chosen(which, Msg(m)) => if which == f.tag then m else Defaults(f.ltype.sub)
    case _ => Defaults(f.ltype.sub)
  }

  /** The slot after one more decoded value. */
  function WithValue(f: Field, x: Slot, v: Value): Slot {
    match f.htype
    case Optional => Opt(true, v)
    case Oneof => Chosen(f.tag, v)
    case _ => One(v)
  }

  /** Bookkeeping done before the field itself is decoded; None for a fixed-count array that was
      interrupted before it was complete. */
  function BeginField(mt: MsgType, i: nat, st: DState): Option<DState>
    requires i < |mt.fields|
  {
    var f := mt.fields[i];
    if f.htype.FixedCount? && st.fixedField != Some(i) then
      if FixedComplete(mt, st) then Some(st.(fixedField := Some(i), fixedSize := 0)) else None
    else if f.htype.Required? && RequiredBefore(mt.fields, i) < MAX_REQUIRED_FIELDS then
      Some(st.(seen := st.seen + {RequiredBefore(mt.fields, i)}))
    else Some(st)
  }

  // ---- The decoder ----------------------------------------------------------------------------

  function DecodeValue(f: Field, s: seq<byte>, x: Slot): (p: Parse<Value>)
    ensures p.Got? ==> 1 <= p.used <= |s|
    decreases |s|, 0
  {
    if f.ltype.SubmessageType? then
      match LenDelim(s)
      case Fail => Fail
      case Got(payload, n) =>
        match DecodeNoinit(f.ltype.sub, payload, StartOf(f, x))
        case Fail => Fail
        case Got(m, _) => Got(Msg(m), n)
    else DecodeScalar(f, s)
  }

  /** The elements of one packed record; None when one is malformed or the array overflows. */
  function DecodePacked(f: Field, s: seq<byte>, items: seq<Value>, count: nat): Option<(seq<Value>, nat)>
    decreases |s|
  {
    if s == [] then Some((items, count))
    else if count >= f.arraySize then None
    else match DecodeScalar(f, s)
         case Fail => None
         case Got(v, n) => DecodePacked(f, s[n..], StoreItem(items, count, v), count + 1)
  }

  function DecodeItems(f: Field, wireType: nat, s: seq<byte>, items: seq<Value>, count: nat)
    : (p: Parse<(seq<Value>, nat)>)
    ensures p.Got? ==> 1 <= p.used <= |s|
    decreases |s|, 1
  {
    if wireType == WT_STRING && Packable(f.ltype) then
      match LenDelim(s)
      case Fail => Fail
      case Got(payload, n) =>
        match DecodePacked(f, payload, items, count)
        case None => Fail
        case Some(r) => Got(r, n)
    else if count >= f.arraySize then Fail
    else match DecodeValue(f, s, Unset)
         case Fail => Fail
         case Got(v, n) => Got((StoreItem(items, count, v), count + 1), n)
  }

  function ItemsOf(x: Slot): seq<Value> {
    if x.Many? then x.items else []
  }

  /** `decode_static_field` on one slot, with the fixed-count position. */
  function DecodeSlot(f: Field, wireType: nat, s: seq<byte>, x: Slot, fixedSize: nat): (p: Parse<(Slot, nat)>)
    ensures p.Got? ==> 1 <= p.used <= |s|
    decreases |s|, 2
  {
    if f.htype.Repeated? || f.htype.FixedCount? then
      match DecodeItems(f, wireType, s, ItemsOf(x), if f.htype.Repeated? then |ItemsOf(x)| else fixedSize)
      case Fail => Fail
      case Got((items, count), n) => Got((Many(items), if f.htype.Repeated? then fixedSize else count), n)
    else
      match DecodeValue(f, s, x)
      case Fail => Fail
      case Got(v, n) => Got((WithValue(f, x, v), fixedSize), n)
  }

  /** The body of one record, after its tag. */
  function DecodeBody(mt: MsgType, tag: nat, wireType: nat, s: seq<byte>, st: DState): (p: Parse<DState>)
    ensures p.Got? ==> p.used <= |s|
    decreases |s|, 3
  {
    var i := FindField(mt.fields, tag);
    if i < |mt.fields| then
      var f := mt.fields[i];
      match BeginField(mt, i, st)
      case None => Fail
      case Some(st1) =>
        match DecodeSlot(f, wireType, s, GetSlot(st1.slots, f.slot), st1.fixedSize)
        case Fail => Fail
        case Got((x, size), n) => Got(st1.(slots := PutSlot(st1.slots, f.slot, x), fixedSize := size), n)
    else if mt.fields == [] && tag == 0 then
      // In an empty message type the terminator entry matches tag 0 and is decoded as a bool.
      match DecodeVarint32(s)
      case Fail => Fail
      case Got(_, n) => Got(st, n)
    else
      match SkipField(wireType, s)
      case Fail => Fail
      case Got(_, n) => Got(st, n)
  }

  /** One iteration of the record loop. A zero tag ends the message. */
  function DecodeRecord(mt: MsgType, s: seq<byte>, st: DState): (p: Parse<Step>)
    ensures p.Got? ==> 1 <= p.used <= |s|
    decreases |s|, 4
  {
    match DecodeVarint32(s)
    case Fail => Fail
    case Got(raw, n) =>
      if raw == 0 then Got(Stop, n)
      else
        match DecodeBody(mt, raw / 8, raw % 8, s[n..], st)
        case Fail => Fail
        case Got(st', k) => Got(Continue(st'), k + n)
  }

  function DecodeLoop(mt: MsgType, s: seq<byte>, st: DState): (p: Parse<Run>)
    ensures p.Got? ==> p.used <= |s|
    ensures p.Got? && !p.value.terminated ==> p.used == |s|
    decreases |s|, 5
  {
    if s == [] then Got(Run(st, false), 0)
    else
      match DecodeRecord(mt, s, st)
      case Fail => Fail
      case Got(Stop, n) => Got(Run(st, true), n)
      case Got(Continue(st'), n) => DecodeLoop(mt, s[n..], st').After(n)
  }

  /** `pb_decode_noinit`: decode onto the message `m`. */
  function DecodeNoinit(mt: MsgType, s: seq<byte>, m: seq<Slot>): (p: Parse<seq<Slot>>)
    ensures p.Got? ==> p.used <= |s|
    decreases |s|, 6
  {
    match DecodeLoop(mt, s, Start(m))
    case Fail => Fail
    case Got(run, n) => if Finished(mt, run.st) then Got(run.st.slots, n) else Fail
  }

  /** `pb_decode`: decode onto the default message. */
  function DecodeMessage(mt: MsgType, s: seq<byte>): Parse<seq<Slot>> {
    DecodeNoinit(mt, s, Defaults(mt))
  }
}
