/** Field descriptors and message values of the nanopb codec (static allocation,
    32-bit `pb_size_t`). A descriptor is a tree, as a statically allocated struct is. */
module Messages {
  import opened Bytes
  import opened Integers

  /** `offsetof(pb_bytes_array_t, bytes)` with a 32-bit size in front. */
  const BYTES_HEADER := 4
  const MAX_REQUIRED_FIELDS := 64
  const PB_SIZE_MAX := TWO32 - 1

  datatype LType =
    | BoolType
    | VarintType(kind: IntKind)
    | Fixed32Type
    | Fixed64Type
    | BytesType
    | StringType
    | SubmessageType(sub: MsgType)
    | FixedLengthBytesType

  /** Repetition rules. `Optional` has a `has_` flag, `Singular` is the proto3 form without one;
      `Repeated` has a `_count`, `FixedCount` is the fixed-size array without one. */
  datatype HType = Required | Optional | Singular | Repeated | FixedCount | Oneof

  /** `slot` is the struct member the field lives in; the members of one union share a slot.
      `dataOffset` is relative to the end of the previous field, PB_SIZE_MAX inside a union;
      `sizeOffset` is where the field's count, `has_` flag or `which_` stands, relative to its data;
      `extension` marks the extension pseudo-field, `initial` is the default value pointer. */
  datatype Field = Field(tag: nat, ltype: LType, htype: HType, dataOffset: nat, sizeOffset: int, dataSize: nat,
                         arraySize: nat, slot: nat, extension: bool, initial: Option<Value>)

  datatype MsgType = MsgType(fields: seq<Field>, slots: nat)

  /** Strings are the bytes in front of the terminator the decoder wrote. */
  datatype Value = Num(n: int) | Blob(data: seq<byte>) | Msg(members: seq<Slot>)

  datatype Slot =
    | One(v: Value)
    | Opt(has: bool, v: Value)
    | Many(items: seq<Value>)
    | Unset
    | Chosen(which: nat, v: Value)

  predicate Packable(l: LType) {
    l.BoolType? || l.VarintType? || l.Fixed32Type? || l.Fixed64Type?
  }

  function Repeat<T>(x: T, n: nat): (s: seq<T>)
    ensures |s| == n && forall i :: 0 <= i < n ==> s[i] == x
  {
    seq(n, _ => x)
  }

  function GetSlot(m: seq<Slot>, k: nat): Slot {
    if k < |m| then m[k] else Unset
  }

  function PutSlot(m: seq<Slot>, k: nat, x: Slot): (r: seq<Slot>)
    ensures |r| == |m|
    ensures k < |m| ==> GetSlot(r, k) == x
    ensures forall j: nat :: j != k ==> GetSlot(r, j) == GetSlot(m, j)
  {
    if k < |m| then m[k := x] else m
  }

  // ---- Default values ----------------------------------------------------------------

  /** The field's data after `memset` to zero. */
  function ZeroValue(f: Field): Value
    decreases f, 0
  {
    match f.ltype
    case BytesType => Blob([])
    case StringType => Blob([])
    case FixedLengthBytesType => Blob(Repeat(0, f.dataSize))
    case SubmessageType(sub) => Msg(Defaults(sub))
    case _ => Num(0)
  }

  function DefaultValue(f: Field): Value
    decreases f, 1
  {
    if f.ltype.SubmessageType? || f.initial.None? then ZeroValue(f) else f.initial.value
  }

  function DefaultSlot(f: Field): Slot
    decreases f, 2
  {
    match f.htype
    case Required => One(DefaultValue(f))
    case Singular => One(DefaultValue(f))
    case Optional => Opt(false, DefaultValue(f))
    case Repeated => Many([])
    case FixedCount => Many(Repeat(ZeroValue(f), f.arraySize))
    case Oneof => Unset
  }

  /** The struct after the first `i` fields have been set to their defaults. */
  function DefaultsUpTo(mt: MsgType, base: seq<Slot>, i: nat): (m: seq<Slot>)
    requires i <= |mt.fields|
    ensures |m| == |base|
    decreases mt, i
  {
    if i == 0 then base
    else
      var f := mt.fields[i - 1];
      PutSlot(DefaultsUpTo(mt, base, i - 1), f.slot, DefaultSlot(f))
  }

  function Defaults(mt: MsgType): (m: seq<Slot>)
    ensures |m| == mt.slots
    decreases mt, |mt.fields| + 1
  {
    DefaultsUpTo(mt, Repeat(Unset, mt.slots), |mt.fields|)
  }

  // ---- Well-formed descriptors and values ----------------------------------------------

  ghost predicate ValidType(mt: MsgType)
    decreases mt
  {
    && (forall i | 0 <= i < |mt.fields| :: ValidField(mt.fields[i]) && mt.fields[i].slot < mt.slots)
    && DistinctTags(mt.fields)
    && SlotsShared(mt.fields)
    && (forall k | 0 <= k < mt.slots :: SlotUsed(mt.fields, k))
  }

  ghost predicate SlotUsed(fs: seq<Field>, k: nat) {
    exists i | 0 <= i < |fs| :: fs[i].slot == k
  }

  ghost predicate DistinctTags(fs: seq<Field>) {
    forall i, j | 0 <= i < j < |fs| :: fs[i].tag != fs[j].tag
  }

  /** Only members of a union share their slot. */
  ghost predicate SlotsShared(fs: seq<Field>) {
    forall i, j | 0 <= i < j < |fs| && fs[i].slot == fs[j].slot :: fs[i].htype.Oneof? && fs[j].htype.Oneof?
  }

  ghost predicate ValidField(f: Field)
    decreases f
  {
    && 1 <= f.tag < 0x2000_0000
    && !f.extension
    && 1 <= f.arraySize < TWO32
    && ValidData(f)
    && (f.ltype.SubmessageType? ==> ValidType(f.ltype.sub))
    && (f.initial.Some? ==> !f.ltype.SubmessageType? && !f.htype.Singular? && ValidScalar(f, f.initial.value))
  }

  ghost predicate ValidData(f: Field) {
    && 1 <= f.dataSize < TWO32
    && (f.ltype.VarintType? ==> ValidWidth(f.dataSize))
    && (f.ltype.BytesType? ==> f.dataSize >= BYTES_HEADER)
  }

  /** Values a non-message field of this descriptor can hold. */
  ghost predicate ValidScalar(f: Field, v: Value)
    requires ValidData(f)
  {
    match f.ltype
    case BoolType => v == Num(0) || v == Num(1)
    case VarintType(kind) => v.Num? && Fits(kind, v.n, f.dataSize)
    case Fixed32Type => v.Num? && 0 <= v.n < TWO32
    case Fixed64Type => v.Num? && 0 <= v.n < TWO64
    case BytesType => v.Blob? && |v.data| + BYTES_HEADER <= f.dataSize
    case StringType => v.Blob? && |v.data| < f.dataSize
    case FixedLengthBytesType => v.Blob? && |v.data| == f.dataSize
    case SubmessageType(_) => false
  }

  ghost predicate ValidValue(f: Field, v: Value)
    requires ValidField(f)
    decreases f, 0
  {
    if f.ltype.SubmessageType? then v.Msg? && ValidMessage(f.ltype.sub, v.members) else ValidScalar(f, v)
  }

  ghost predicate ValidSlot(f: Field, x: Slot)
    requires ValidField(f)
    decreases f, 2
  {
    match f.htype
    case Required => x.One? && ValidValue(f, x.v)
    case Singular => x.One? && ValidValue(f, x.v)
    case Optional => x.Opt? && ValidValue(f, x.v)
    case Repeated => x.Many? && |x.items| <= f.arraySize && ValidItems(f, x.items)
    case FixedCount => x.Many? && |x.items| == f.arraySize && ValidItems(f, x.items)
    case Oneof => x.Unset? || (x.Chosen? && x.which != 0 && (x.which == f.tag ==> ValidValue(f, x.v)))
  }

  ghost predicate ValidItems(f: Field, items: seq<Value>)
    requires ValidField(f)
    decreases f, 1
  {
    forall k | 0 <= k < |items| :: ValidValue(f, items[k])
  }

  ghost predicate ValidMessage(mt: MsgType, m: seq<Slot>)
    requires ValidType(mt)
    decreases mt
  {
    |m| == mt.slots && forall i | 0 <= i < |mt.fields| :: ValidSlot(mt.fields[i], GetSlot(m, mt.fields[i].slot))
  }
}
