/** What every successful decode guarantees, whatever the bytes: a valid message, and every tracked
    required field present on the wire. */
module Soundness {
  import opened Bytes
  import opened Varint
  import opened Integers
  import opened Messages
  import opened Encode
  import opened Decode
  import opened Merge
  import opened DefaultMessages
  import opened RoundTrip

  // ---- Decoded values are valid ------------------------------------------------------------------

  lemma FixedSound(s: seq<byte>, n: nat)
    requires DecodeFixed(s, n).Got?
    ensures DecodeFixed(s, n).value.Num? && 0 <= DecodeFixed(s, n).value.n < Pow256(n)
  {
    FixedBound(s[..n]);
  }

  lemma ScalarSound(f: Field, s: seq<byte>)
    requires ValidData(f) && DecodeScalar(f, s).Got?
    ensures ValidScalar(f, DecodeScalar(f, s).value)
  {
    hide DecodeVarint, DecodeVarint32, FixedValue, FromWire;
    Pow256Widths();
    match f.ltype
    case Fixed32Type => FixedSound(s, 4);
    case Fixed64Type => FixedSound(s, 8);
    case _ =>
  }

  lemma {:induction false} ValueSound(f: Field, s: seq<byte>, x: Slot)
    requires ValidField(f) && StartsValid(f, x) && DecodeValue(f, s, x).Got?
    ensures ValidValue(f, DecodeValue(f, s, x).value)
    decreases |s|, 0
  {
    hide DecodeScalar, LenDelim, DecodeNoinit, StartOf, ValidScalar, ValidMessage, ValidType;
    if f.ltype.SubmessageType? {
      DecodeSound(f.ltype.sub, LenDelim(s).value, StartOf(f, x));
    } else {
      assert ValidData(f);
      ScalarSound(f, s);
    }
  }

  lemma {:induction false} PackedSound(f: Field, s: seq<byte>, items: seq<Value>, count: nat)
    requires ValidField(f) && !f.ltype.SubmessageType? && ValidItems(f, items)
    requires count <= |items| && DecodePacked(f, s, items, count).Some?
    ensures var r := DecodePacked(f, s, items, count).value;
            && ValidItems(f, r.0) && r.1 <= |r.0|
            && (count == |items| && |items| <= f.arraySize ==> r.1 == |r.0| <= f.arraySize)
            && (|items| == f.arraySize ==> |r.0| == f.arraySize)
    decreases |s|
  {
    hide DecodeScalar, ValidScalar;
    if s != [] {
      assert ValidData(f);
      ScalarSound(f, s);
      var p := DecodeScalar(f, s);
      PackedSound(f, s[p.used..], StoreItem(items, count, p.value), count + 1);
    }
  }

  lemma {:induction false} ItemsSound(f: Field, wireType: nat, s: seq<byte>, items: seq<Value>, count: nat)
    requires ValidField(f) && ValidItems(f, items) && count <= |items|
    requires DecodeItems(f, wireType, s, items, count).Got?
    ensures var r := DecodeItems(f, wireType, s, items, count).value;
            && ValidItems(f, r.0) && r.1 <= |r.0|
            && (count == |items| && |items| <= f.arraySize ==> r.1 == |r.0| <= f.arraySize)
            && (|items| == f.arraySize ==> |r.0| == f.arraySize)
    decreases |s|, 1
  {
    hide LenDelim, DecodePacked, DecodeValue, ValidValue, ValidType, Defaults, ValidMessage;
    if wireType == WT_STRING && Packable(f.ltype) {
      PackedSound(f, LenDelim(s).value, items, count);
    } else {
      if f.ltype.SubmessageType? { DefaultsValid(f.ltype.sub); }
      ValueSound(f, s, Unset);
    }
  }

  lemma {:induction false} SlotSound(f: Field, wireType: nat, s: seq<byte>, x: Slot, size: nat)
    requires ValidField(f) && ValidSlot(f, x)
    requires f.htype.FixedCount? ==> size <= |ItemsOf(x)|
    requires DecodeSlot(f, wireType, s, x, size).Got?
    ensures ValidSlot(f, DecodeSlot(f, wireType, s, x, size).value.0)
    ensures var r := DecodeSlot(f, wireType, s, x, size).value;
            if f.htype.FixedCount? then r.1 <= |ItemsOf(r.0)| else r.1 == size
    ensures var y := DecodeSlot(f, wireType, s, x, size).value.0;
            f.htype.Oneof? ==> y.Chosen? && y.which == f.tag
    decreases |s|, 2
  {
    hide DecodeValue, DecodeItems, ValidValue, ValidItems, ValidType;
    if f.htype.Repeated? || f.htype.FixedCount? {
      ItemsSound(f, wireType, s, x.items, if f.htype.Repeated? then |x.items| else size);
    } else {
      if f.ltype.SubmessageType? { StartValid(f, x); }
      ValueSound(f, s, x);
    }
  }

  /** What the record loop keeps: a valid message and a fixed-count position inside its array. */
  ghost predicate ValidState(mt: MsgType, st: DState)
    requires ValidType(mt)
  {
    && ValidMessage(mt, st.slots)
    && (st.fixedField.Some? ==>
          && st.fixedField.value < |mt.fields|
          && mt.fields[st.fixedField.value].htype.FixedCount?
          && st.fixedSize <= mt.fields[st.fixedField.value].arraySize)
  }

  /** Replacing the slot of field `i` by a valid one keeps the message valid. */
  lemma PutSlotValid(mt: MsgType, m: seq<Slot>, i: nat, x: Slot)
    requires ValidType(mt) && ValidMessage(mt, m) && i < |mt.fields| && ValidField(mt.fields[i])
    requires ValidSlot(mt.fields[i], x)
    requires mt.fields[i].htype.Oneof? ==> x.Chosen? && x.which == mt.fields[i].tag
    ensures ValidMessage(mt, PutSlot(m, mt.fields[i].slot, x))
  {
    var r := PutSlot(m, mt.fields[i].slot, x);
    forall j | 0 <= j < |mt.fields| ensures ValidSlot(mt.fields[j], GetSlot(r, mt.fields[j].slot)) {
      assert ValidSlot(mt.fields[j], GetSlot(m, mt.fields[j].slot));
      hide ValidField, SlotUsed, ValidValue, ValidItems;
      if j != i && mt.fields[j].slot == mt.fields[i].slot {
        SameSlot(mt, i, j);
      }
    }
  }

  lemma {:induction false} BodySound(mt: MsgType, tag: nat, wireType: nat, s: seq<byte>, st: DState)
    requires ValidType(mt) && ValidState(mt, st)
    requires DecodeBody(mt, tag, wireType, s, st).Got?
    ensures ValidState(mt, DecodeBody(mt, tag, wireType, s, st).value)
    decreases |s|, 3
  {
    var i := FindField(mt.fields, tag);
    if i < |mt.fields| {
      var f := mt.fields[i];
      SlotBound(mt, i);
      assert ValidSlot(f, GetSlot(st.slots, f.slot));
      hide ValidType, ValidField, ValidMessage, DecodeSlot, FindField, RequiredBefore, SkipField, DecodeVarint32;
      var st1 := BeginField(mt, i, st).value;
      SlotSound(f, wireType, s, GetSlot(st.slots, f.slot), st1.fixedSize);
      var r := DecodeSlot(f, wireType, s, GetSlot(st.slots, f.slot), st1.fixedSize).value;
      PutSlotValid(mt, st.slots, i, r.0);
    }
  }

  lemma {:induction false} LoopSound(mt: MsgType, s: seq<byte>, st: DState)
    requires ValidType(mt) && ValidState(mt, st) && DecodeLoop(mt, s, st).Got?
    ensures ValidState(mt, DecodeLoop(mt, s, st).value.st)
    decreases |s|, 4
  {
    hide ValidType, ValidState, DecodeBody, DecodeVarint32;
    if s != [] {
      var raw, n := DecodeVarint32(s).value, DecodeVarint32(s).used;
      if raw != 0 {
        BodySound(mt, raw / 8, raw % 8, s[n..], st);
        var p := DecodeRecord(mt, s, st);
        LoopSound(mt, s[p.used..], p.value.st);
      }
    }
  }

  /** Any bytes whatever: if decoding onto a valid message succeeds, the result is valid, so every
      count is within its array and every number fits its field. */
  lemma {:induction false} DecodeSound(mt: MsgType, s: seq<byte>, m: seq<Slot>)
    requires ValidType(mt) && ValidMessage(mt, m) && DecodeNoinit(mt, s, m).Got?
    ensures ValidMessage(mt, DecodeNoinit(mt, s, m).value)
    decreases |s|, 5
  {
    hide ValidType, ValidMessage, DecodeLoop, Finished;
    LoopSound(mt, s, Start(m));
  }

  // ---- Required fields ------------------------------------------------------------------------------

  /** The tags of the records the decoder reads from `s`. */
  function WireTags(mt: MsgType, s: seq<byte>, st: DState): set<nat>
    decreases |s|
  {
    if s == [] then {}
    else
      match DecodeRecord(mt, s, st)
      case Fail => {}
      case Got(Stop, _) => {}
      case Got(Continue(st'), n) => {DecodeVarint32(s).value / 8} + WireTags(mt, s[n..], st')
  }

  lemma {:induction false} RequiredBeforeGrows(fs: seq<Field>, i: nat, j: nat)
    requires i < j <= |fs| && fs[i].htype.Required?
    ensures RequiredBefore(fs, i) < RequiredBefore(fs, j)
    decreases j
  {
    if j > i + 1 { RequiredBeforeGrows(fs, i, j - 1); }
  }

  /** A record marks exactly the required field its tag belongs to. */
  lemma BodyMarks(mt: MsgType, tag: nat, wireType: nat, s: seq<byte>, st: DState, i: nat)
    requires ValidType(mt) && i < |mt.fields| && mt.fields[i].htype.Required?
    requires RequiredBefore(mt.fields, i) < MAX_REQUIRED_FIELDS
    requires DecodeBody(mt, tag, wireType, s, st).Got?
    ensures RequiredBefore(mt.fields, i) in DecodeBody(mt, tag, wireType, s, st).value.seen
       <==> RequiredBefore(mt.fields, i) in st.seen || tag == mt.fields[i].tag
  {
    var j := FindField(mt.fields, tag);
    FindOwn(mt, i);
    hide ValidType, FindField, DecodeSlot, SkipField, DecodeVarint32, RequiredBefore;
    if j < |mt.fields| && mt.fields[j].htype.Required? && j != i {
      if j < i { RequiredBeforeGrows(mt.fields, j, i); } else { RequiredBeforeGrows(mt.fields, i, j); }
    }
  }

  lemma {:induction false} SeenIffOnWire(mt: MsgType, s: seq<byte>, st: DState, i: nat)
    requires ValidType(mt) && i < |mt.fields| && mt.fields[i].htype.Required?
    requires RequiredBefore(mt.fields, i) < MAX_REQUIRED_FIELDS
    requires DecodeLoop(mt, s, st).Got?
    ensures RequiredBefore(mt.fields, i) in DecodeLoop(mt, s, st).value.st.seen
       <==> RequiredBefore(mt.fields, i) in st.seen || mt.fields[i].tag in WireTags(mt, s, st)
    decreases |s|
  {
    hide ValidType, DecodeBody, DecodeVarint32, RequiredBefore;
    if s != [] {
      var raw, n := DecodeVarint32(s).value, DecodeVarint32(s).used;
      if raw != 0 {
        BodyMarks(mt, raw / 8, raw % 8, s[n..], st, i);
        var p := DecodeRecord(mt, s, st);
        SeenIffOnWire(mt, s[p.used..], p.value.st, i);
      }
    }
  }

  /** The `r`-th required field. */
  lemma {:induction false} RequiredAt(fs: seq<Field>, n: nat, r: nat) returns (i: nat)
    requires n <= |fs| && r < RequiredBefore(fs, n)
    ensures i < n && fs[i].htype.Required? && RequiredBefore(fs, i) == r
  {
    if r < RequiredBefore(fs, n - 1) { i := RequiredAt(fs, n - 1, r); } else { i := n - 1; }
  }

  /** Field `i` is required and among the first 64 required fields. */
  predicate Tracked(mt: MsgType, i: nat) {
    i < |mt.fields| && mt.fields[i].htype.Required? && RequiredBefore(mt.fields, i) < MAX_REQUIRED_FIELDS
  }

  ghost predicate AllTrackedOnWire(mt: MsgType, tags: set<nat>) {
    forall i: nat | Tracked(mt, i) :: mt.fields[i].tag in tags
  }

  lemma AllSeenIffOnWire(mt: MsgType, s: seq<byte>, st: DState)
    requires ValidType(mt) && DecodeLoop(mt, s, st).Got? && st.seen == {}
    ensures (forall r | 0 <= r < TrackedRequired(mt.fields) :: r in DecodeLoop(mt, s, st).value.st.seen)
       <==> AllTrackedOnWire(mt, WireTags(mt, s, st))
  {
    hide ValidType, DecodeLoop, WireTags, RequiredBefore;
    var seen, tags := DecodeLoop(mt, s, st).value.st.seen, WireTags(mt, s, st);
    if AllTrackedOnWire(mt, tags) {
      forall r | 0 <= r < TrackedRequired(mt.fields) ensures r in seen {
        var i := RequiredAt(mt.fields, |mt.fields|, r);
        assert Tracked(mt, i);
        SeenIffOnWire(mt, s, st, i);
      }
    } else {
      var i: nat :| Tracked(mt, i) && mt.fields[i].tag !in tags;
      SeenIffOnWire(mt, s, st, i);
      RequiredBeforeGrows(mt.fields, i, |mt.fields|);
      assert RequiredBefore(mt.fields, i) < TrackedRequired(mt.fields);
    }
  }

  /** Decoding succeeds exactly when the records decode, the last fixed-count array is complete and
      each of the first 64 required fields was on the wire. */
  lemma RequiredFieldsEnforced(mt: MsgType, s: seq<byte>, m: seq<Slot>)
    requires ValidType(mt)
    ensures DecodeNoinit(mt, s, m).Got?
       <==> (&& DecodeLoop(mt, s, Start(m)).Got?
             && FixedComplete(mt, DecodeLoop(mt, s, Start(m)).value.st)
             && AllTrackedOnWire(mt, WireTags(mt, s, Start(m))))
  {
    hide ValidType, DecodeLoop, WireTags, FixedComplete, AllTrackedOnWire, TrackedRequired;
    if DecodeLoop(mt, s, Start(m)).Got? { AllSeenIffOnWire(mt, s, Start(m)); }
  }
}
