/** The memory input stream of pb_decode.c and the readers built on it, each proved against the
    function over byte strings that says what it reads. */
module InputStreams {
  import opened Bytes
  import opened Varint
  import opened Encode
  import opened Decode
  import opened RequiredBitmap

  // ---- Accumulating seven bits at a time --------------------------------------------------------

  lemma {:induction false} Pow2Monotone(a: nat, b: nat)
    requires a <= b
    ensures Pow2(a) <= Pow2(b)
  {
    if a < b { Pow2Monotone(a, b - 1); }
  }

  lemma Pow2SixtyThree()
    ensures Pow2(63) == TWO63
  {
    Pow2Of32();
    Pow2Add(32, 31);
    assert Pow2(32) == 2 * Pow2(31);
  }

  lemma TopByte(g: nat, c: nat)
    requires g < TWO63 && c < 128
    ensures c * TWO63 % TWO64 == c % 2 * TWO63
    ensures (g + TWO63 * c) % TWO64 == g + c % 2 * TWO63
  {
    TopBits(c);
    assert g + TWO63 * c == g + c % 2 * TWO63 + TWO64 * (c / 2);
  }

  lemma TopBits(c: nat)
    ensures c * TWO63 == c % 2 * TWO63 + TWO64 * (c / 2)
  {
    assert c == 2 * (c / 2) + c % 2;
  }

  lemma ModSmall(x: nat)
    requires x < TWO64
    ensures x % TWO64 == x
  {}

  lemma LowByte(k: nat, g: nat, c: nat, p: nat)
    requires k <= 8 && p == Pow2(7 * k) && g < p && c < 128
    ensures c * p == p * c
    ensures g + p * c < TWO63
  {
    Pow2Monotone(7 * k, 56);
    Pow2SixtyThree();
    Pow2Septet(56);
    hide Pow2;
    MulComm(c, p);
    MulGrows(p, c, 127);
  }

  lemma AccumulateLow(pre: seq<byte>, b: byte)
    requires |pre| <= 8
    ensures BitOr(Groups(pre) % TWO64, b % 128 * Pow2(7 * |pre|) % TWO64) == Groups(pre + [b]) % TWO64
  {
    hide BitOr, Groups, Pow2;
    var k, g, p := |pre|, Groups(pre), Pow2(7 * |pre|);
    GroupsBound(pre);
    GroupsAppendByte(pre, b);
    Pow2Monotone(7 * k, 63);
    Pow2SixtyThree();
    LowByte(k, g, b % 128, p);
    ModSmall(g + p * (b % 128));
    ModSmall(b % 128 * p);
    ModSmall(g);
    BitOrDisjoint(g, b % 128, 7 * k);
  }

  lemma AccumulateTop(pre: seq<byte>, b: byte)
    requires |pre| == 9
    ensures BitOr(Groups(pre) % TWO64, b % 128 * Pow2(63) % TWO64) == Groups(pre + [b]) % TWO64
  {
    hide BitOr, Groups, Pow2;
    GroupsBound(pre);
    GroupsAppendByte(pre, b);
    Pow2SixtyThree();
    TopByte(Groups(pre), b % 128);
    BitOrDisjoint(Groups(pre), b % 128 % 2, 63);
  }

  /** One step of the 64-bit decoder: or-ing in the next seven bits extends the value read. */
  lemma Accumulate64(pre: seq<byte>, b: byte)
    requires |pre| <= 9
    ensures BitOr(Groups(pre) % TWO64, b % 128 * Pow2(7 * |pre|) % TWO64) == Groups(pre + [b]) % TWO64
  {
    hide BitOr, Groups, Pow2;
    if |pre| <= 8 { AccumulateLow(pre, b); } else { AccumulateTop(pre, b); }
  }

  lemma {:induction false} RunLengthAt(s: seq<byte>, n: nat)
    requires 0 < n <= |s| && s[n - 1] < 128
    requires forall i | 0 <= i < n - 1 :: s[i] >= 128
    ensures RunLength(s) == n
  {
    if n > 1 {
      assert forall i | 0 <= i < n - 2 :: s[1..][i] == s[i + 1];
      RunLengthAt(s[1..], n - 1);
    }
  }

  lemma {:induction false} RunLengthBeyond(s: seq<byte>, n: nat)
    requires n <= |s| && forall i | 0 <= i < n :: s[i] >= 128
    ensures RunLength(s) == 0 || RunLength(s) > n
  {
    if n > 0 {
      assert forall i | 0 <= i < n - 1 :: s[1..][i] == s[i + 1];
      RunLengthBeyond(s[1..], n - 1);
    }
  }

  lemma SliceOfSlice(a: seq<byte>, i: nat, len: nat, n: nat, k: nat)
    requires i + len <= |a| && n + k <= len
    ensures a[i..i + len][n..][..k] == a[i + n..i + n + k]
  {}

  /** The 64-bit decoder's loop after `k` bytes of `s`. */
  ghost predicate Partial64(s: seq<byte>, k: nat, result: nat) {
    k <= |s| && result == Groups(s[..k]) % TWO64 && forall i | 0 <= i < k :: s[i] >= 128
  }

  lemma Partial64Step(s: seq<byte>, k: nat, result: nat)
    requires Partial64(s, k, result) && k < |s| && k <= 9
    ensures var r := BitOr(result, s[k] % 128 * Pow2(7 * k) % TWO64);
            && (s[k] >= 128 ==> Partial64(s, k + 1, r))
            && (s[k] < 128 ==> DecodeVarint(s) == Got(r, k + 1))
  {
    hide Groups, BitOr, Pow2, RunLength;
    assert s[..k + 1] == s[..k] + [s[k]];
    Accumulate64(s[..k], s[k]);
    if s[k] < 128 { RunLengthAt(s, k + 1); }
  }

  lemma Partial64Stuck(s: seq<byte>, k: nat, result: nat)
    requires Partial64(s, k, result) && (k == |s| || k == 10)
    ensures DecodeVarint(s).Fail?
  {
    hide Groups;
    RunLengthBeyond(s, k);
  }

  lemma Partial64Zero(s: seq<byte>)
    ensures Partial64(s, 0, 0)
  {}

  /** The 32-bit decoder's loop after `k` bytes of `s`. */
  ghost predicate Partial32(s: seq<byte>, k: nat, bitpos: nat, result: nat) {
    k <= |s| && result < TWO32 && DecodeVarint32(s) == Tail32(s[k..], bitpos, result).After(k)
  }

  lemma Partial32Step(s: seq<byte>, k: nat, bitpos: nat, result: nat)
    requires Partial32(s, k, bitpos, result)
    ensures k == |s| ==> DecodeVarint32(s).Fail?
    ensures k < |s| && Overflows(s[k], bitpos, result) ==> DecodeVarint32(s).Fail?
    ensures k < |s| && !Overflows(s[k], bitpos, result) ==>
              var r := Accumulate(result, s[k], bitpos);
              var bitpos' := (bitpos + 7) % 256;
              && (s[k] >= 128 ==> Partial32(s, k + 1, bitpos', r))
              && (s[k] < 128 ==> DecodeVarint32(s) == if bitpos' == 35 && s[k] % 128 / 16 != 0 then Fail else Got(r, k + 1))
  {
    hide DecodeVarint32, Accumulate, Overflows;
    if k < |s| { assert s[k..][1..] == s[k + 1..]; }
  }

  lemma Partial32Start(s: seq<byte>)
    requires s != [] && s[0] >= 128
    ensures Partial32(s, 1, 7, s[0] % 128)
  {}

  class IStream {
    const buf: array<byte>
    var pos: nat
    var bytesLeft: nat

    ghost predicate Valid()
      reads this
    {
      pos + bytesLeft <= buf.Length
    }

    /** The bytes the stream will still deliver. */
    ghost function Rest(): (s: seq<byte>)
      reads this, buf
      requires Valid()
      ensures |s| == bytesLeft
    {
      buf[pos..pos + bytesLeft]
    }

    /** The stream stands `k` bytes into `s`, which it will read to the end. */
    ghost predicate At(s: seq<byte>, k: nat): (r: bool)
      reads this, buf
      ensures r ==> Valid() && k <= |s| && bytesLeft == |s| - k && Rest() == s[k..]
    {
      Valid() && k <= |s| && Rest() == s[k..]
    }

    /** Standing at the same place again, counted from a start `n` bytes further back. */
    lemma Moved(s: seq<byte>, k: nat, n: nat)
      requires Valid() && k + n <= |s| && Rest() == s[k..][n..]
      ensures At(s, k + n)
    {
      assert s[k..][n..] == s[k + n..];
    }

    /** Exactly `n` bytes were consumed; position plus remaining bytes stays constant. */
    twostate predicate Advanced(n: nat)
      reads this
    {
      && pos == old(pos) + n
      && bytesLeft + n == old(bytesLeft)
    }

    /** Succeed or fail, a reader never moves past the end it was given. */
    twostate predicate Within()
      reads this
    {
      pos + bytesLeft <= old(pos + bytesLeft)
    }

    /** `pb_istream_from_buffer`. */
    constructor (buf: array<byte>, size: nat)
      requires size <= buf.Length
      ensures Valid() && this.buf == buf && pos == 0 && bytesLeft == size
    {
      this.buf := buf;
      pos := 0;
      bytesLeft := size;
    }

    /** The copy made by `pb_make_string_substream`. */
    constructor Sub(parent: IStream, size: nat)
      requires parent.Valid() && size <= parent.bytesLeft
      ensures Valid() && buf == parent.buf && pos == parent.pos && bytesLeft == size
    {
      buf := parent.buf;
      pos := parent.pos;
      bytesLeft := size;
    }

    /** `pb_read` into a caller's buffer. */
    method Read(count: nat) returns (ok: bool, data: seq<byte>)
      requires Valid()
      modifies this
      ensures Valid() && Within()
      ensures ok <==> count <= old(bytesLeft)
      ensures ok ==> Advanced(count) && data == old(Rest())[..count]
    {
      data := [];
      if count == 0 { return true, data; }
      if bytesLeft < count { return false, data; }
      var i := 0;
      while i < count
        invariant i <= count && Valid() && pos == old(pos) && bytesLeft == old(bytesLeft)
        invariant data == buf[pos..pos + i]
      {
        data := data + [buf[pos + i]];
        i := i + 1;
      }
      pos := pos + count;
      bytesLeft := bytesLeft - count;
      ok := true;
    }

    /** `pb_read` with a null buffer: skip. */
    method Skip(count: nat) returns (ok: bool)
      requires Valid()
      modifies this
      ensures Valid() && Within()
      ensures ok <==> count <= old(bytesLeft)
      ensures ok ==> Advanced(count)
    {
      if count == 0 { return true; }
      if bytesLeft < count { return false; }
      pos := pos + count;
      bytesLeft := bytesLeft - count;
      ok := true;
    }

    method ReadByte() returns (ok: bool, b: byte)
      requires Valid()
      modifies this
      ensures Valid() && Within()
      ensures ok <==> old(bytesLeft) > 0
      ensures ok ==> Advanced(1) && b == old(Rest())[0] && Rest() == old(Rest())[1..]
      ensures !ok ==> unchanged(this)
    {
      if bytesLeft == 0 { return false, 0; }
      b := buf[pos];
      pos := pos + 1;
      bytesLeft := bytesLeft - 1;
      ok := true;
    }

    /** `pb_decode_varint`. */
    method ReadVarint() returns (ok: bool, value: nat)
      requires Valid()
      modifies this
      ensures Valid() && Within()
      ensures ok <==> DecodeVarint(old(Rest())).Got?
      ensures ok ==> DecodeVarint(old(Rest())).value == value && Advanced(DecodeVarint(old(Rest())).used)
    {
      hide Partial64, DecodeVarint, BitOr, Pow2;
      ghost var s := Rest();
      var bitpos: nat, result: nat := 0, 0;
      ghost var k := 0;
      Partial64Zero(s);
      while true
        invariant Valid() && k <= 10 && k <= |s| && bitpos == 7 * k && Advanced(k)
        invariant Rest() == s[k..]
        invariant Partial64(s, k, result)
        decreases 10 - k
      {
        if bitpos >= 64 {
          Partial64Stuck(s, k, result);
          return false, 0;
        }
        var more, b := ReadByte();
        if !more {
          Partial64Stuck(s, k, result);
          return false, 0;
        }
        Partial64Step(s, k, result);
        result := BitOr(result, b % 128 * Pow2(bitpos) % TWO64);
        bitpos := (bitpos + 7) % 256;
        k := k + 1;
        if b < 128 {
          return true, result;
        }
      }
    }

    /** `pb_decode_varint32_eof`. `eof` reports that there was nothing to read at all. */
    method ReadVarint32() returns (ok: bool, value: nat, eof: bool)
      requires Valid()
      modifies this
      ensures Valid() && Within()
      ensures ok <==> DecodeVarint32(old(Rest())).Got?
      ensures ok ==> DecodeVarint32(old(Rest())).value == value && Advanced(DecodeVarint32(old(Rest())).used)
      ensures eof <==> old(bytesLeft) == 0
    {
      hide BitOr, Pow2, Tail32;
      ghost var s := Rest();
      var more, b := ReadByte();
      if !more { return false, 0, true; }
      if b < 128 { return true, b, false; }
      Partial32Start(s);
      hide Partial32, DecodeVarint32;
      var bitpos: nat, result: nat := 7, b % 128;
      ghost var k := 1;
      while true
        invariant Valid() && 1 <= k <= |s| && Advanced(k)
        invariant Rest() == s[k..] && result < TWO32
        invariant Partial32(s, k, bitpos, result)
        decreases bytesLeft
      {
        Partial32Step(s, k, bitpos, result);
        more, b := ReadByte();
        if !more { return false, 0, false; }
        if bitpos >= 32 {
          var signExtension := if bitpos < 63 then 0xFF else 0x01;
          if b % 128 != 0 && (result / TWO31 == 0 || b != signExtension) {
            return false, 0, false;
          }
        } else {
          result := BitOr(result, b % 128 * Pow2(bitpos)) % TWO32;
        }
        bitpos := (bitpos + 7) % 256;
        k := k + 1;
        if b < 128 {
          if bitpos == 35 && b % 128 / 16 != 0 {
            return false, 0, false;
          }
          return true, result, false;
        }
      }
    }

    /** `pb_skip_varint`. */
    method SkipVarintBytes() returns (ok: bool)
      requires Valid()
      modifies this
      ensures Valid() && Within()
      ensures ok <==> SkipVarint(old(Rest())).Got?
      ensures ok ==> Advanced(SkipVarint(old(Rest())).used)
    {
      ghost var s := Rest();
      ghost var k := 0;
      while true
        invariant Valid() && k <= |s| && Advanced(k) && Rest() == s[k..]
        invariant forall i | 0 <= i < k :: s[i] >= 128
        decreases bytesLeft
      {
        var more, b := ReadByte();
        if !more {
          RunLengthBeyond(s, k);
          return false;
        }
        assert b == s[k];
        k := k + 1;
        if b < 128 {
          RunLengthAt(s, k);
          return true;
        }
      }
    }

    /** `pb_make_string_substream`: the parent's count moves past the payload at once, its position
        only when the substream is closed. */
    method MakeSubstream() returns (ok: bool, sub: IStream)
      requires Valid()
      modifies this
      ensures Valid() && Within()
      ensures ok <==> LenDelim(old(Rest())).Got?
      ensures ok ==> fresh(sub) && sub.Valid() && sub.buf == buf
      ensures ok ==> var p := LenDelim(old(Rest()));
                && sub.Rest() == p.value
                && pos == old(pos) + p.used - |p.value| && sub.pos == pos
                && bytesLeft + p.used == old(bytesLeft)
    {
      hide DecodeVarint32;
      ghost var s := Rest();
      sub := this;
      var got, size, eof := ReadVarint32();
      if !got || bytesLeft < size { return false, sub; }
      sub := new IStream.Sub(this, size);
      bytesLeft := bytesLeft - size;
      SliceOfSlice(buf[..], old(pos), |s|, DecodeVarint32(s).used, size);
      ok := true;
    }

    /** `pb_close_string_substream`: whatever the nested decoder left is skipped, so the parent ends
        up exactly past the payload. */
    method CloseSubstream(sub: IStream) returns (ok: bool)
      requires Valid() && sub.Valid() && sub != this && sub.buf == buf
      requires sub.pos + sub.bytesLeft + bytesLeft <= buf.Length
      modifies this, sub
      ensures Valid() && ok
      ensures pos == old(sub.pos + sub.bytesLeft) && bytesLeft == old(bytesLeft)
    {
      if sub.bytesLeft != 0 {
        var skipped := sub.Skip(sub.bytesLeft);
        if !skipped { return false; }
      }
      pos := sub.pos;
      ok := true;
    }

    /** `pb_skip_string`. */
    method SkipString() returns (ok: bool)
      requires Valid()
      modifies this
      ensures Valid() && Within()
      ensures ok <==> LenDelim(old(Rest())).Got?
      ensures ok ==> Advanced(LenDelim(old(Rest())).used)
    {
      var got, size, eof := ReadVarint32();
      if !got { return false; }
      ok := Skip(size);
    }

    /** `pb_skip_field`. */
    method SkipBody(wireType: nat) returns (ok: bool)
      requires Valid()
      modifies this
      ensures Valid() && Within()
      ensures ok <==> SkipField(wireType, old(Rest())).Got?
      ensures ok ==> Advanced(SkipField(wireType, old(Rest())).used)
    {
      if wireType == WT_VARINT { ok := SkipVarintBytes(); }
      else if wireType == WT_64BIT { ok := Skip(8); }
      else if wireType == WT_STRING { ok := SkipString(); }
      else if wireType == WT_32BIT { ok := Skip(4); }
      else { ok := false; }
    }

    /** `pb_decode_tag`: a zero tag reports end of message. */
    method ReadTag() returns (ok: bool, wireType: nat, tag: nat, eof: bool)
      requires Valid()
      modifies this
      ensures Valid() && Within()
      ensures var p := DecodeVarint32(old(Rest()));
              && (ok <==> p.Got? && p.value != 0)
              && (ok ==> Advanced(p.used) && tag == p.value / 8 && wireType == p.value % 8)
              && (!ok ==> (eof <==> old(bytesLeft) == 0 || p.Got?))
              && (p.Got? ==> Advanced(p.used))
    {
      wireType, tag := 0, 0;
      var temp;
      ok, temp, eof := ReadVarint32();
      if !ok { return; }
      if temp == 0 { return false, 0, 0, true; }
      tag := temp / 8;
      wireType := temp % 8;
    }
  }
}
