/** The memory output stream of pb_encode.c, its sizing form, and the writers of basic values. */
module OutputStreams {
  import opened Bytes
  import opened Varint
  import opened Integers
  import opened Encode

  // ---- Stream states --------------------------------------------------------------------------

  /** A sizing stream has no callback: it only counts. */
  datatype OState = OState(sizing: bool, at: nat, written: nat, maxSize: nat, bytes: seq<byte>)

  /** Sizes of memory buffers are `size_t` values, of 64 bits. */
  const SIZE_LIMIT := TWO64

  predicate Ready(st: OState) {
    !st.sizing ==> st.written <= st.maxSize < SIZE_LIMIT && st.at + (st.maxSize - st.written) <= |st.bytes|
  }

  /** There is room for `n` more bytes. */
  predicate Room(st: OState, n: nat) {
    st.sizing || st.written + n <= st.maxSize
  }

  /** The bytes of `s` with `e` written over them at `at`. */
  function Splice(s: seq<byte>, at: nat, e: seq<byte>): seq<byte>
    requires at + |e| <= |s|
  {
    s[..at] + e + s[at + |e|..]
  }

  lemma SpliceIs(s: seq<byte>, at: nat, e: seq<byte>, t: seq<byte>)
    requires at + |e| <= |s| == |t|
    requires forall j | 0 <= j < |s| :: t[j] == if at <= j < at + |e| then e[j - at] else s[j]
    ensures t == Splice(s, at, e)
  {}

  /** The state once `e` has been emitted: counted, and placed at the write position. */
  function Plus(st: OState, e: seq<byte>): (r: OState)
    requires Ready(st) && Room(st, |e|)
    ensures Ready(r)
  {
    if st.sizing then st.(written := st.written + |e|)
    else OState(false, st.at + |e|, st.written + |e|, st.maxSize, Splice(st.bytes, st.at, e))
  }

  /** Whatever was emitted between the two states stayed inside the space the stream was given. */
  ghost predicate Confined(st: OState, now: OState)
    requires Ready(st)
  {
    && Ready(now)
    && now.sizing == st.sizing && now.maxSize == st.maxSize && now.written >= st.written && |now.bytes| == |st.bytes|
    && (st.sizing ==> now.at == st.at && now.bytes == st.bytes)
    && (!st.sizing ==> InsideOnly(st, now))
  }

  ghost predicate InsideOnly(st: OState, now: OState)
    requires Ready(st) && Ready(now) && !st.sizing && |now.bytes| == |st.bytes|
  {
    var end := st.at + (st.maxSize - st.written);
    && now.at - st.at == now.written - st.written
    && now.bytes[..st.at] == st.bytes[..st.at]
    && now.bytes[end..] == st.bytes[end..]
  }

  /** The contract of every writer of the encoding `e`: it succeeds exactly when there is an encoding
      and room for it, then emits exactly those bytes, and touches nothing else even when it fails. */
  ghost predicate Outcome(st: OState, e: Option<seq<byte>>, ok: bool, now: OState)
    requires Ready(st)
  {
    && (ok <==> e.Some? && Room(st, |e.value|))
    && (ok ==> now == Plus(st, e.value))
    && Confined(st, now)
  }

  lemma PlusConfined(st: OState, e: seq<byte>)
    requires Ready(st) && Room(st, |e|)
    ensures Confined(st, Plus(st, e))
  {}

  lemma PlusNothing(st: OState)
    requires Ready(st)
    ensures Plus(st, []) == st
  {
    if !st.sizing { assert Splice(st.bytes, st.at, []) == st.bytes; }
  }

  /** Emitting two strings in turn emits their concatenation. */
  lemma PlusPlus(st: OState, a: seq<byte>, b: seq<byte>)
    requires Ready(st) && Room(st, |a + b|)
    ensures Room(st, |a|) && Room(Plus(st, a), |b|)
    ensures Plus(Plus(st, a), b) == Plus(st, a + b)
  {
    if !st.sizing { SpliceTwice(st.bytes, st.at, a, b); }
  }

  lemma SpliceTwice(s: seq<byte>, at: nat, a: seq<byte>, b: seq<byte>)
    requires at + |a| + |b| <= |s|
    ensures Splice(Splice(s, at, a), at + |a|, b) == Splice(s, at, a + b)
  {
    var t := Splice(s, at, a);
    assert t[..at + |a|] == s[..at] + a;
    assert t[at + |a| + |b|..] == s[at + |a| + |b|..];
  }

  lemma ConfinedTrans(st: OState, mid: OState, now: OState)
    requires Ready(st) && Confined(st, mid) && Confined(mid, now)
    ensures Confined(st, now)
  {
    if !st.sizing { InsideTrans(st, mid, now); }
  }

  lemma InsideTrans(st: OState, mid: OState, now: OState)
    requires Ready(st) && Ready(mid) && Ready(now) && !st.sizing && !mid.sizing
    requires |st.bytes| == |mid.bytes| == |now.bytes| && st.maxSize == mid.maxSize
    requires st.written <= mid.written <= now.written
    requires InsideOnly(st, mid) && InsideOnly(mid, now)
    ensures InsideOnly(st, now)
  {
    assert now.bytes[..st.at] == now.bytes[..mid.at][..st.at];
  }

  /** Two writers in sequence; the second ran because the first succeeded. */
  lemma OutcomeThen(st: OState, a: Option<seq<byte>>, mid: OState, b: Option<seq<byte>>, ok: bool, now: OState)
    requires Ready(st) && Outcome(st, a, true, mid) && Outcome(mid, b, ok, now)
    ensures Outcome(st, Cat(a, b), ok, now)
  {
    ConfinedTrans(st, mid, now);
    if b.Some? && Room(st, |a.value + b.value|) { PlusPlus(st, a.value, b.value); }
    hide Confined;
  }

  /** When the first writer fails nothing more can be emitted. */
  lemma OutcomeFails(st: OState, a: Option<seq<byte>>, now: OState, b: Option<seq<byte>>)
    requires Ready(st) && Outcome(st, a, false, now)
    ensures Outcome(st, Cat(a, b), false, now)
  {
    hide Confined;
  }

  lemma NothingEmitted(st: OState)
    requires Ready(st)
    ensures Outcome(st, Some([]), true, st)
  {
    PlusNothing(st);
    PlusConfined(st, []);
  }

  lemma NoEncoding(st: OState)
    requires Ready(st)
    ensures Outcome(st, None, false, st)
  {}

  // ---- Fixed-width bytes --------------------------------------------------------------------------

  /** `(pb_byte_t)((val >> 8 * k) & 0xFF)`. */
  function ByteOf(v: nat, k: nat): byte {
    v / Pow256(k) % 256
  }

  lemma {:induction false} FixedBytesAt(v: nat, n: nat, k: nat)
    requires k < n
    ensures |FixedBytes(v, n)| == n && FixedBytes(v, n)[k] == ByteOf(v, k)
  {
    if k > 0 {
      FixedBytesAt(v / 256, n - 1, k - 1);
      DivDiv(v, Pow256(k - 1));
    }
  }

  lemma DivDiv(v: nat, p: nat)
    requires p >= 1
    ensures v / 256 / p == v / (256 * p)
  {
    var q, r := v / 256 / p, v / 256 % p;
    assert v == 256 * (p * q + r) + v % 256;
    Regroup(p, q, r, v % 256);
    QuotientUnique(v, 256 * p, q, 256 * r + v % 256);
  }

  lemma Regroup(p: nat, q: nat, r: nat, b: nat)
    ensures 256 * (p * q + r) + b == 256 * p * q + (256 * r + b)
  {}

  /** `(value & 0x7F) | 0x80`. */
  function Continued(v: nat): byte {
    v % 0x80 + 0x80
  }

  /** "Unset top bit on last byte". */
  function Terminated(buffer: seq<byte>): seq<byte>
    requires |buffer| > 0
  {
    buffer[..|buffer| - 1] + [buffer[|buffer| - 1] % 0x80]
  }

  /** `buffer` holds the septets in front of `v`, each still with its continuation bit. */
  ghost predicate Filled(value: nat, buffer: seq<byte>, v: nat) {
    if v > 0 then EncodeVarint(value) == buffer + EncodeVarint(v)
    else |buffer| > 0 && EncodeVarint(value) == Terminated(buffer)
  }

  lemma FilledStep(value: nat, buffer: seq<byte>, v: nat)
    requires Filled(value, buffer, v) && v > 0
    ensures Filled(value, buffer + [Continued(v)], v / 0x80)
    ensures |buffer| < |EncodeVarint(value)|
  {
    var next := buffer + [Continued(v)];
    if v < 128 {
      assert next[..|buffer|] == buffer;
      assert Continued(v) % 0x80 == v;
    } else {
      assert buffer + EncodeVarint(v) == next + EncodeVarint(v / 0x80);
    }
  }

  lemma FilledLast(value: nat, buffer: seq<byte>)
    requires Filled(value, buffer, 0)
    ensures |buffer| > 0 && EncodeVarint(value) == Terminated(buffer)
  {}

  /** The loop of `pb_encode_varint`. A 64-bit value never needs more than the ten bytes of its buffer. */
  method VarintBytes(value: nat) returns (buffer: seq<byte>)
    requires value > 0x7F
    ensures buffer == EncodeVarint(value)
  {
    if value < TWO64 { EncodeAtMostTen(value); }
    buffer := [];
    var v: nat := value;
    assert Filled(value, buffer, v);
    hide Filled, EncodeVarint, Continued, Terminated;
    while v > 0
      invariant Filled(value, buffer, v)
    {
      FilledStep(value, buffer, v);
      assert value < TWO64 ==> |buffer| < 10;
      buffer := buffer + [Continued(v)];
      v := v / 0x80;
    }
    FilledLast(value, buffer);
    buffer := Terminated(buffer);
  }

  // ---- The stream -----------------------------------------------------------------------------------

  class OStream {
    const sizing: bool
    const buf: array<byte>
    var at: nat
    var maxSize: nat
    var bytesWritten: nat

    ghost function State(): OState
      reads this, buf
    {
      OState(sizing, at, bytesWritten, maxSize, buf[..])
    }

    ghost predicate Valid()
      reads this, buf
    {
      Ready(State())
    }

    /** `pb_ostream_from_buffer`. */
    constructor (buf: array<byte>, size: nat)
      requires size <= buf.Length && size < SIZE_LIMIT
      ensures Valid() && this.buf == buf && !sizing && at == 0 && bytesWritten == 0 && maxSize == size
    {
      this.buf := buf;
      sizing := false;
      at := 0;
      maxSize := size;
      bytesWritten := 0;
    }

    /** `PB_OSTREAM_SIZING`. */
    constructor Sizing()
      ensures Valid() && sizing && fresh(buf) && at == 0 && bytesWritten == 0 && maxSize == 0
    {
      buf := new byte[0];
      sizing := true;
      at := 0;
      maxSize := 0;
      bytesWritten := 0;
    }

    /** The substream a submessage is written through, limited to the size announced for it. */
    constructor Sub(parent: OStream, size: nat)
      requires parent.Valid() && !parent.sizing && parent.bytesWritten + size <= parent.maxSize
      ensures Valid() && State() == OState(false, parent.at, 0, size, parent.buf[..]) && buf == parent.buf
    {
      buf := parent.buf;
      sizing := false;
      at := parent.at;
      maxSize := size;
      bytesWritten := 0;
    }

    /** `buf_write`. */
    method BufWrite(data: seq<byte>)
      requires !sizing && at + |data| <= buf.Length
      modifies this`at, buf
      ensures at == old(at) + |data|
      ensures buf[..] == Splice(old(buf[..]), old(at), data)
    {
      var dest := at;
      ghost var was := buf[..];
      at := at + |data|;
      var i := 0;
      while i < |data|
        invariant i <= |data| && at == dest + |data|
        invariant forall j | 0 <= j < buf.Length :: buf[j] == if dest <= j < dest + i then data[j - dest] else was[j]
      {
        buf[dest + i] := data[i];
        i := i + 1;
      }
      SpliceIs(was, dest, data, buf[..]);
    }

    /** `pb_write`. */
    method Write(data: seq<byte>) returns (ok: bool)
      requires Valid()
      modifies this, buf
      ensures Valid() && Outcome(old(State()), Some(data), ok, State())
    {
      PlusNothing(State());
      if Room(State(), |data|) { PlusConfined(State(), data); }
      if |data| > 0 && !sizing {
        // No object has more bytes than a `size_t` can count; the sum of two counts wraps.
        var sum := (bytesWritten + |data|) % SIZE_LIMIT;
        if |data| >= SIZE_LIMIT || sum < bytesWritten || sum > maxSize { return false; }
        BufWrite(data);
      }
      bytesWritten := bytesWritten + |data|;
      ok := true;
    }

    /** `pb_write` of a null buffer: the sizing shortcut of the composite encoders. */
    method Count(count: nat) returns (ok: bool)
      requires Valid() && sizing
      modifies this`bytesWritten
      ensures ok && State() == old(State()).(written := old(bytesWritten) + count)
    {
      bytesWritten := bytesWritten + count;
      ok := true;
    }

    /** `pb_encode_varint`. */
    method WriteVarint(value: nat) returns (ok: bool)
      requires Valid()
      modifies this, buf
      ensures Valid() && Outcome(old(State()), Some(EncodeVarint(value)), ok, State())
    {
      hide Outcome;
      if value <= 0x7F {
        var single: byte := value;
        ok := Write([single]);
      } else {
        var buffer := VarintBytes(value);
        ok := Write(buffer);
      }
    }

    /** `pb_encode_svarint`. */
    method WriteSvarint(value: int) returns (ok: bool)
      requires Valid() && FitsSigned(value, 8)
      modifies this, buf
      ensures Valid() && Outcome(old(State()), Some(EncodeVarint(ZigZag(value))), ok, State())
    {
      hide Outcome;
      var shifted := CastUnsigned(value, 8) * 2 % TWO64;
      var zigzagged: nat;
      if value < 0 {
        zigzagged := TWO64 - 1 - shifted;
      } else {
        zigzagged := shifted;
      }
      ok := WriteVarint(zigzagged);
    }

    /** `pb_encode_fixed32` and `pb_encode_fixed64`. */
    method WriteFixed(v: nat, n: nat) returns (ok: bool)
      requires Valid() && (n == 4 || n == 8)
      modifies this, buf
      ensures Valid() && Outcome(old(State()), Some(FixedBytes(v, n)), ok, State())
    {
      hide Outcome, ByteOf, FixedBytes;
      var bytes := [ByteOf(v, 0), ByteOf(v, 1), ByteOf(v, 2), ByteOf(v, 3)];
      if n == 8 {
        bytes := bytes + [ByteOf(v, 4), ByteOf(v, 5), ByteOf(v, 6), ByteOf(v, 7)];
      }
      forall k | 0 <= k < n ensures bytes[k] == FixedBytes(v, n)[k] { FixedBytesAt(v, n, k); }
      assert bytes == FixedBytes(v, n);
      ok := Write(bytes);
    }

    /** `pb_encode_tag`. */
    method WriteTag(wireType: nat, tag: nat) returns (ok: bool)
      requires Valid() && wireType < 8
      modifies this, buf
      ensures Valid() && Outcome(old(State()), Some(EncodeTag(wireType, tag)), ok, State())
    {
      ok := WriteVarint(8 * tag + wireType);
    }

    /** `pb_encode_string`. */
    method WriteString(data: seq<byte>) returns (ok: bool)
      requires Valid()
      modifies this, buf
      ensures Valid() && Outcome(old(State()), Some(EncodeString(data)), ok, State())
    {
      ghost var st := State();
      ok := WriteVarint(|data|);
      ghost var mid := State();
      assert EncodeString(data) == EncodeVarint(|data|) + data;
      hide Outcome;
      if !ok {
        OutcomeFails(st, Some(EncodeVarint(|data|)), mid, Some(data));
        return;
      }
      ok := Write(data);
      OutcomeThen(st, Some(EncodeVarint(|data|)), mid, Some(data), ok, State());
    }
  }
}
