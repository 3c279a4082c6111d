/** Submessages that arrive more than once: which struct a record is decoded onto, said field by field, and what
    the first occurrence contributes when the second leaves fields out. */
module Submessages {
  import opened Bytes
  import opened Messages
  import opened Encode
  import opened Decode
  import opened Framing
  import opened Merge
  import opened RoundTrip
  import opened Theorems
  import opened Concatenation

  /** The submessage a slot of field `f` holds: its value, unless the slot's union holds another member. */
  predicate Holds(f: Field, x: Slot, m: seq<Slot>) {
    match x
    case One(v) => (f.htype.Required? || f.htype.Singular?) && v == Msg(m)
    case Opt(_, v) => f.htype.Optional? && v == Msg(m)
    case Chosen(which, v) => f.htype.Oneof? && which == f.tag && v == Msg(m)
    case _ => false
  }

  /** A record of a submessage field whose slot holds one is decoded onto what is there. */
  lemma DecodesOntoExisting(f: Field, x: Slot, m: seq<Slot>, payload: seq<byte>, rest: seq<byte>)
    requires f.ltype.SubmessageType? && Holds(f, x, m) && |payload| < TWO32
    ensures var inner := DecodeNoinit(f.ltype.sub, payload, m);
            DecodeValue(f, EncodeString(payload) + rest, x)
            == if inner.Fail? then Fail else Got(Msg(inner.value), |EncodeString(payload)|)
  {
    hide LenDelim, EncodeString, DecodeNoinit;
    LenDelimEncoded(payload);
    LenDelimLocal(EncodeString(payload), rest);
  }

  /** A union that holds nothing or another member, and every array element, starts from the default message. */
  lemma DecodesOntoDefaults(f: Field, x: Slot, payload: seq<byte>, rest: seq<byte>)
    requires f.ltype.SubmessageType? && |payload| < TWO32
    requires x.Unset? || (x.Chosen? && x.which != f.tag)
    ensures var inner := DecodeMessage(f.ltype.sub, payload);
            DecodeValue(f, EncodeString(payload) + rest, x)
            == if inner.Fail? then Fail else Got(Msg(inner.value), |EncodeString(payload)|)
  {
    hide LenDelim, EncodeString, DecodeNoinit;
    LenDelimEncoded(payload);
    LenDelimLocal(EncodeString(payload), rest);
  }

  /** An element of an array of submessages never builds on what the array held. */
  lemma ElementsStartAfresh(f: Field, wireType: nat, payload: seq<byte>, rest: seq<byte>, items: seq<Value>, count: nat)
    requires f.ltype.SubmessageType? && |payload| < TWO32 && count < f.arraySize
    ensures var inner := DecodeMessage(f.ltype.sub, payload);
            DecodeItems(f, wireType, EncodeString(payload) + rest, items, count)
            == if inner.Fail? then Fail
               else Got((StoreItem(items, count, Msg(inner.value)), count + 1), |EncodeString(payload)|)
  {
    hide EncodeString, DecodeValue, DecodeMessage, StoreItem;
    DecodesOntoDefaults(f, Unset, payload, rest);
  }

  // ---- Merging ------------------------------------------------------------------------------------------------

  /** The second message emits nothing for the struct member in slot `k`. */
  predicate Silent(mt: MsgType, m: seq<Slot>, k: nat) {
    forall i | 0 <= i < |mt.fields| && mt.fields[i].slot == k :: !Emits(mt.fields[i], GetSlot(m, k))
  }

  /** What the second message does not mention, the merge keeps. */
  lemma MergeKeeps(mt: MsgType, m1: seq<Slot>, m2: seq<Slot>, k: nat)
    requires Silent(mt, m2, k)
    ensures GetSlot(MergeMessages(mt, m1, m2), k) == GetSlot(m1, k)
  {
    hide Emits;
    SilentSlot(mt, m1, m2, k, |mt.fields|);
  }

  /** A submessage that both messages hold is merged, not replaced. */
  lemma MergeSubmessage(mt: MsgType, m1: seq<Slot>, m2: seq<Slot>, i: nat, a: seq<Slot>, b: seq<Slot>)
    requires ValidType(mt) && i < |mt.fields| && |m1| == mt.slots && mt.fields[i].ltype.SubmessageType?
    requires Holds(mt.fields[i], GetSlot(m1, mt.fields[i].slot), a)
    requires Holds(mt.fields[i], GetSlot(m2, mt.fields[i].slot), b) && Emits(mt.fields[i], GetSlot(m2, mt.fields[i].slot))
    ensures Holds(mt.fields[i], GetSlot(MergeMessages(mt, m1, m2), mt.fields[i].slot), MergeMessages(mt.fields[i].ltype.sub, a, b))
  {
    hide ValidType, IsZero;
    MergedSlot(mt, m1, m2, i);
    hide MergeMessages;
  }

  /** Decoding two encodings in a row, when it succeeds: a submessage that both carry holds, in every struct
      member the second does not mention, what the first put there; at every depth, because the submessages
      in it are merged in the same way. */
  lemma SecondCopyMerges(mt: MsgType, m1: seq<Slot>, m2: seq<Slot>, i: nat, a: seq<Slot>, b: seq<Slot>, k: nat)
    requires ValidType(mt) && ValidMessage(mt, m1) && ValidMessage(mt, m2) && CanonicalMessage(mt, m1)
    requires EncodeMessage(mt, m1).Some? && Delimited(mt, m1)
    requires EncodeMessage(mt, m2).Some? && Delimited(mt, m2)
    requires DecodeMessage(mt, EncodeMessage(mt, m1).value + EncodeMessage(mt, m2).value).Got?
    requires i < |mt.fields| && mt.fields[i].ltype.SubmessageType?
    requires Holds(mt.fields[i], GetSlot(m1, mt.fields[i].slot), a)
    requires Holds(mt.fields[i], GetSlot(m2, mt.fields[i].slot), b) && Emits(mt.fields[i], GetSlot(m2, mt.fields[i].slot))
    requires Silent(mt.fields[i].ltype.sub, b, k)
    ensures var r := DecodeMessage(mt, EncodeMessage(mt, m1).value + EncodeMessage(mt, m2).value).value;
            var merged := MergeMessages(mt.fields[i].ltype.sub, a, b);
            Holds(mt.fields[i], GetSlot(r, mt.fields[i].slot), merged) && GetSlot(merged, k) == GetSlot(a, k)
  {
    MessageSize(mt, m1);
    hide ValidType, ValidMessage, CanonicalMessage, Delimited, EncodeFrom, DecodeNoinit, MergeMessages, MergeFits, Silent;
    hide SoleFixedCount, Emits, Holds;
    MergeOnConcatenation(mt, m1, m2);
    MergeSubmessage(mt, m1, m2, i, a, b);
    MergeKeeps(mt.fields[i].ltype.sub, a, b, k);
  }

  lemma MessageSize(mt: MsgType, m: seq<Slot>)
    requires ValidType(mt) && ValidMessage(mt, m)
    ensures |m| == mt.slots
  {}
}
