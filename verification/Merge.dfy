/** What decoding an encoded message onto an existing one means: present scalars overwritten,
    repeated fields appended, submessages merged, oneofs replaced or merged. */
module Merge {
  import opened Messages
  import opened Encode
  import opened Decode

  /** What a reader can get back of a scalar: a string stops at its first NUL. */
  function Normal(f: Field, v: Value): Value {
    if f.ltype.StringType? && v.Blob? then Blob(CString(v.data)) else v
  }

  function NormalItems(f: Field, items: seq<Value>): (r: seq<Value>)
    ensures |r| == |items|
  {
    if items == [] then [] else [Normal(f, items[0])] + NormalItems(f, items[1..])
  }

  /** Value `v` decoded into a field whose slot held `was`. */
  function MergeValue(f: Field, was: Slot, v: Value): Value
    decreases f, 0
  {
    if f.ltype.SubmessageType? && v.Msg? then Msg(MergeMessages(f.ltype.sub, StartOf(f, was), v.members))
    else Normal(f, v)
  }

  /** Array elements never build on what the array held before. */
  function FreshItems(f: Field, items: seq<Value>): (r: seq<Value>)
    ensures |r| == |items|
    decreases f, 1, |items|
  {
    if items == [] then [] else [MergeValue(f, Unset, items[0])] + FreshItems(f, items[1..])
  }

  function MergeSlot(f: Field, was: Slot, now: Slot): Slot
    decreases f, 2
  {
    if !Emits(f, now) then was
    else match now
      case One(v) => One(MergeValue(f, was, v))
      case Opt(_, v) => Opt(true, MergeValue(f, was, v))
      case Chosen(_, v) => Chosen(f.tag, MergeValue(f, was, v))
      case Many(items) =>
        if f.htype.Repeated? then Many(ItemsOf(was) + FreshItems(f, items)) else Many(FreshItems(f, items))
      case Unset => was
  }

  /** The encoder emits at least one record for the field. */
  predicate Emits(f: Field, x: Slot) {
    match f.htype
    case Required => x.One?
    case Singular => x.One? && !IsZero(f, x.v)
    case Optional => x.Opt? && x.has
    case Repeated => x.Many? && x.items != []
    case FixedCount => x.Many? && x.items != []
    case Oneof => x.Chosen? && x.which == f.tag
  }

  /** `m1` after the first `i` fields of `m2` have been merged into it. */
  function MergeUpTo(mt: MsgType, m1: seq<Slot>, m2: seq<Slot>, i: nat): (m: seq<Slot>)
    requires i <= |mt.fields|
    ensures |m| == |m1|
    decreases mt, i
  {
    if i == 0 then m1
    else
      var f, prev := mt.fields[i - 1], MergeUpTo(mt, m1, m2, i - 1);
      PutSlot(prev, f.slot, MergeSlot(f, GetSlot(prev, f.slot), GetSlot(m2, f.slot)))
  }

  function MergeMessages(mt: MsgType, m1: seq<Slot>, m2: seq<Slot>): (m: seq<Slot>)
    ensures |m| == |m1|
    decreases mt, |mt.fields| + 1
  {
    MergeUpTo(mt, m1, m2, |mt.fields|)
  }

  /** The arrays of both messages fit together, at every depth where they are merged. */
  ghost predicate MergeFits(mt: MsgType, m1: seq<Slot>, m2: seq<Slot>)
    decreases mt
  {
    forall i | 0 <= i < |mt.fields| ::
      SlotFits(mt.fields[i], GetSlot(m1, mt.fields[i].slot), GetSlot(m2, mt.fields[i].slot))
  }

  ghost predicate SlotFits(f: Field, was: Slot, now: Slot)
    decreases f
  {
    Emits(f, now) ==>
      if now.Many? then f.htype.Repeated? ==> |ItemsOf(was)| + |now.items| <= f.arraySize
      else f.ltype.SubmessageType? && !now.Unset? && now.v.Msg? ==>
             MergeFits(f.ltype.sub, StartOf(f, was), now.v.members)
  }

  // ---- Where a merge leaves each slot ------------------------------------------------------

  lemma SameSlot(mt: MsgType, i: nat, j: nat)
    requires ValidType(mt) && i < |mt.fields| && j < |mt.fields| && i != j
    requires mt.fields[i].slot == mt.fields[j].slot
    ensures mt.fields[i].htype.Oneof? && mt.fields[j].htype.Oneof?
    ensures mt.fields[i].tag != mt.fields[j].tag
  {}

  /** Fields before `i` leave the slot of an emitting field `i` as it was. */
  lemma {:induction false} PrefixUntouched(mt: MsgType, m1: seq<Slot>, m2: seq<Slot>, i: nat, j: nat)
    requires ValidType(mt) && j <= i < |mt.fields|
    requires Emits(mt.fields[i], GetSlot(m2, mt.fields[i].slot))
    ensures GetSlot(MergeUpTo(mt, m1, m2, j), mt.fields[i].slot) == GetSlot(m1, mt.fields[i].slot)
    decreases j
  {
    hide ValidField, SlotUsed, MergeValue, IsZero;
    if j > 0 {
      PrefixUntouched(mt, m1, m2, i, j - 1);
      if mt.fields[j - 1].slot == mt.fields[i].slot { SameSlot(mt, i, j - 1); }
    }
  }

  /** Fields from `i + 1` on leave the slot of field `i` alone unless they share a union with it
      and are the chosen member themselves. */
  lemma {:induction false} SuffixUntouched(mt: MsgType, m1: seq<Slot>, m2: seq<Slot>, i: nat, j: nat)
    requires ValidType(mt) && i < j <= |mt.fields|
    requires Emits(mt.fields[i], GetSlot(m2, mt.fields[i].slot)) || !mt.fields[i].htype.Oneof?
    ensures GetSlot(MergeUpTo(mt, m1, m2, j), mt.fields[i].slot)
         == GetSlot(MergeUpTo(mt, m1, m2, i + 1), mt.fields[i].slot)
    decreases j
  {
    hide ValidField, SlotUsed, MergeValue, IsZero;
    if j > i + 1 {
      SuffixUntouched(mt, m1, m2, i, j - 1);
      if mt.fields[j - 1].slot == mt.fields[i].slot { SameSlot(mt, i, j - 1); }
    }
  }

  /** Slot by slot, the merged message is the old slot with what the new message emits for it. */
  lemma MergedSlot(mt: MsgType, m1: seq<Slot>, m2: seq<Slot>, i: nat)
    requires ValidType(mt) && i < |mt.fields| && |m1| == mt.slots
    requires Emits(mt.fields[i], GetSlot(m2, mt.fields[i].slot)) || !mt.fields[i].htype.Oneof?
    ensures GetSlot(MergeMessages(mt, m1, m2), mt.fields[i].slot)
         == MergeSlot(mt.fields[i], GetSlot(m1, mt.fields[i].slot), GetSlot(m2, mt.fields[i].slot))
  {
    hide MergeSlot, SlotUsed, ValidField;
    var f := mt.fields[i];
    SuffixUntouched(mt, m1, m2, i, |mt.fields|);
    if Emits(f, GetSlot(m2, f.slot)) {
      PrefixUntouched(mt, m1, m2, i, i);
    } else {
      PlainPrefix(mt, m1, m2, i, i);
    }
  }

  lemma {:induction false} PlainPrefix(mt: MsgType, m1: seq<Slot>, m2: seq<Slot>, i: nat, j: nat)
    requires ValidType(mt) && j <= i < |mt.fields| && !mt.fields[i].htype.Oneof?
    ensures GetSlot(MergeUpTo(mt, m1, m2, j), mt.fields[i].slot) == GetSlot(m1, mt.fields[i].slot)
    decreases j
  {
    hide MergeSlot, ValidField, SlotUsed;
    if j > 0 {
      PlainPrefix(mt, m1, m2, i, j - 1);
      assert mt.fields[j - 1].slot != mt.fields[i].slot;
    }
  }

  /** A union no member of which is emitted keeps what it held. */
  lemma {:induction false} SilentSlot(mt: MsgType, m1: seq<Slot>, m2: seq<Slot>, k: nat, j: nat)
    requires j <= |mt.fields|
    requires forall i | 0 <= i < |mt.fields| && mt.fields[i].slot == k :: !Emits(mt.fields[i], GetSlot(m2, k))
    ensures GetSlot(MergeUpTo(mt, m1, m2, j), k) == GetSlot(m1, k)
    decreases j
  {
    hide MergeValue, IsZero;
    if j > 0 { SilentSlot(mt, m1, m2, k, j - 1); }
  }
}
