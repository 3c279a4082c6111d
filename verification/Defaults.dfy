/** The default message: valid, and an empty base that any valid message merges onto. */
module DefaultMessages {
  import opened Messages
  import opened Encode
  import opened Decode
  import opened Merge

  /** Whatever the struct held before, each field ends up at its own default. */
  lemma {:induction false} DefaultsUpToAt(mt: MsgType, base: seq<Slot>, i: nat, j: nat)
    requires ValidType(mt) && |base| == mt.slots && i < j <= |mt.fields|
    ensures GetSlot(DefaultsUpTo(mt, base, j), mt.fields[i].slot) == DefaultSlot(mt.fields[i])
    decreases j
  {
    hide ValidField, SlotUsed, ZeroValue;
    if j > i + 1 {
      DefaultsUpToAt(mt, base, i, j - 1);
      if mt.fields[j - 1].slot == mt.fields[i].slot { SameSlot(mt, i, j - 1); }
    }
  }

  lemma DefaultsAt(mt: MsgType, i: nat)
    requires ValidType(mt) && i < |mt.fields|
    ensures GetSlot(Defaults(mt), mt.fields[i].slot) == DefaultSlot(mt.fields[i])
  {
    DefaultsUpToAt(mt, Repeat(Unset, mt.slots), i, |mt.fields|);
  }

  lemma ZeroScalarValid(f: Field)
    requires ValidField(f) && !f.ltype.SubmessageType?
    ensures ValidScalar(f, ZeroValue(f))
  {}

  lemma {:induction false} ZeroValueValid(f: Field)
    requires ValidField(f)
    ensures ValidValue(f, ZeroValue(f)) && ValidValue(f, DefaultValue(f))
    decreases f, 0
  {
    if f.ltype.SubmessageType? { DefaultsValid(f.ltype.sub); } else { ZeroScalarValid(f); }
  }

  lemma DefaultSlotValid(f: Field)
    requires ValidField(f)
    ensures ValidSlot(f, DefaultSlot(f))
    decreases f, 1
  {
    hide ValidScalar, ValidType, ZeroValue, DefaultValue;
    ZeroValueValid(f);
  }

  lemma {:induction false} DefaultsValid(mt: MsgType)
    requires ValidType(mt)
    ensures ValidMessage(mt, Defaults(mt))
    decreases mt
  {
    hide DefaultSlot, ValidSlot;
    forall i | 0 <= i < |mt.fields|
      ensures ValidSlot(mt.fields[i], GetSlot(Defaults(mt), mt.fields[i].slot))
    {
      DefaultSlotValid(mt.fields[i]);
      DefaultsAt(mt, i);
    }
  }

  /** A submessage decoded into a valid slot starts from a valid message. */
  lemma StartValid(f: Field, was: Slot)
    requires ValidField(f) && f.ltype.SubmessageType? && ValidSlot(f, was)
    ensures ValidMessage(f.ltype.sub, StartOf(f, was))
  {
    hide ValidType, ValidMessage, Defaults;
    DefaultsValid(f.ltype.sub);
  }

  lemma DefaultSlotFits(f: Field, now: Slot)
    requires ValidField(f) && ValidSlot(f, now)
    ensures SlotFits(f, DefaultSlot(f), now)
    decreases f
  {
    hide ValidType, ValidMessage, ValidScalar, Defaults, IsZero;
    if Emits(f, now) && !now.Many? && f.ltype.SubmessageType? {
      assert ZeroValue(f) == Msg(Defaults(f.ltype.sub));
      assert StartOf(f, DefaultSlot(f)) == Defaults(f.ltype.sub);
      DefaultsFit(f.ltype.sub, now.v.members);
    }
  }

  /** Every valid message fits onto the default one. */
  lemma {:induction false} DefaultsFit(mt: MsgType, m: seq<Slot>)
    requires ValidType(mt) && ValidMessage(mt, m)
    ensures MergeFits(mt, Defaults(mt), m)
    decreases mt
  {
    hide DefaultSlot, ValidSlot, SlotFits;
    forall i | 0 <= i < |mt.fields|
      ensures SlotFits(mt.fields[i], GetSlot(Defaults(mt), mt.fields[i].slot), GetSlot(m, mt.fields[i].slot))
    {
      DefaultSlotFits(mt.fields[i], GetSlot(m, mt.fields[i].slot));
      DefaultsAt(mt, i);
    }
  }
}
