/** Base 128 varints: the encoder, the 64-bit decoder and the 32-bit decoder with its
    sign-extension tolerance, as functions over byte strings. */
module Varint {
  import opened Bytes

  // ---- Encoding ------------------------------------------------------------------

  function EncodeVarint(v: nat): (s: seq<byte>)
    ensures |s| >= 1
    decreases v
  {
    if v < 128 then [v] else [v % 128 + 128] + EncodeVarint(v / 128)
  }

  /** Length of the first varint in `s`, its terminator byte included; 0 if none ends in `s`. */
  function RunLength(s: seq<byte>): (n: nat)
    ensures n <= |s|
  {
    if s == [] then 0
    else if s[0] < 128 then 1
    else
      var r := RunLength(s[1..]);
      if r == 0 then 0 else r + 1
  }

  /** The number whose little-endian base-128 digits are the low seven bits of each byte. */
  function Groups(s: seq<byte>): nat {
    if s == [] then 0 else s[0] % 128 + 128 * Groups(s[1..])
  }

  // ---- The 64-bit decoder --------------------------------------------------------

  function DecodeVarint(s: seq<byte>): (p: Parse<nat>)
    ensures p.Got? ==> 1 <= p.used <= |s| && p.value < TWO64
  {
    var n := RunLength(s);
    if 1 <= n <= 10 then Got(Groups(s[..n]) % TWO64, n) else Fail
  }

  // ---- The 32-bit decoder --------------------------------------------------------

  function SignExtension(bitpos: nat): byte {
    if bitpos < 63 then 0xFF else 0x01
  }

  /** `result |= (uint32_t)(byte & 0x7F) << bitpos`, done only while `bitpos` is below 32. */
  function Accumulate(result: nat, b: byte, bitpos: nat): (r: nat)
    requires result < TWO32
    ensures r < TWO32
  {
    if bitpos >= 32 then result else BitOr(result, b % 128 * Pow2(bitpos)) % TWO32
  }

  predicate Overflows(b: byte, bitpos: nat, result: nat) {
    bitpos >= 32 && b % 128 != 0 && (result / TWO31 == 0 || b != SignExtension(bitpos))
  }

  /** The bytes after the first one. `bitpos` is an 8-bit counter and wraps as one. */
  function Tail32(s: seq<byte>, bitpos: nat, result: nat): (p: Parse<nat>)
    requires result < TWO32
    ensures p.Got? ==> 1 <= p.used <= |s| && p.value < TWO32
    decreases |s|
  {
    if s == [] then Fail
    else
      var b := s[0];
      if Overflows(b, bitpos, result) then Fail
      else
        var result' := Accumulate(result, b, bitpos);
        var bitpos' := (bitpos + 7) % 256;
        if b >= 128 then Tail32(s[1..], bitpos', result').After(1)
        else if bitpos' == 35 && b % 128 / 16 != 0 then Fail
        else Got(result', 1)
  }

  function DecodeVarint32(s: seq<byte>): (p: Parse<nat>)
    ensures p.Got? ==> 1 <= p.used <= |s| && p.value < TWO32
  {
    if s == [] then Fail
    else if s[0] < 128 then Got(s[0], 1)
    else Tail32(s[1..], 7, s[0] % 128).After(1)
  }

  // ---- Both decoders read only what they consume ----------------------------------

  lemma {:induction false} RunLengthLocal(s: seq<byte>, t: seq<byte>)
    requires RunLength(s) > 0
    ensures RunLength(s + t) == RunLength(s)
  {
    assert (s + t)[0] == s[0];
    if s[0] >= 128 {
      assert (s + t)[1..] == s[1..] + t;
      RunLengthLocal(s[1..], t);
    }
  }

  lemma DecodeVarintLocal(s: seq<byte>, t: seq<byte>)
    requires DecodeVarint(s).Got?
    ensures DecodeVarint(s + t) == DecodeVarint(s)
  {
    RunLengthLocal(s, t);
    var n := RunLength(s);
    assert (s + t)[..n] == s[..n];
  }

  lemma {:induction false} Tail32Local(s: seq<byte>, t: seq<byte>, bitpos: nat, result: nat)
    requires result < TWO32
    requires Tail32(s, bitpos, result).Got?
    ensures Tail32(s + t, bitpos, result) == Tail32(s, bitpos, result)
    decreases |s|
  {
    assert (s + t)[0] == s[0];
    assert (s + t)[1..] == s[1..] + t;
    var b := s[0];
    if b >= 128 {
      Tail32Local(s[1..], t, (bitpos + 7) % 256, Accumulate(result, b, bitpos));
    }
  }

  lemma DecodeVarint32Local(s: seq<byte>, t: seq<byte>)
    requires DecodeVarint32(s).Got?
    ensures DecodeVarint32(s + t) == DecodeVarint32(s)
  {
    assert (s + t)[0] == s[0];
    assert (s + t)[1..] == s[1..] + t;
    if s[0] >= 128 { Tail32Local(s[1..], t, 7, s[0] % 128); }
  }

  // ---- Encoding and decoding are inverse ------------------------------------------

  function Pow128(n: nat): (r: nat)
    ensures r >= 1
  {
    if n == 0 then 1 else 128 * Pow128(n - 1)
  }

  lemma Pow128Ten(v: nat)
    requires v < TWO64
    ensures v < Pow128(10)
  {
    assert Pow128(10) == 128 * 128 * 128 * 128 * 128 * Pow128(5);
    assert Pow128(5) == 128 * 128 * 128 * 128 * 128;
  }

  lemma EncodeStep(v: nat)
    ensures v < 128 ==> EncodeVarint(v) == [v]
    ensures v >= 128 ==> EncodeVarint(v)[0] == v % 128 + 128 && EncodeVarint(v)[1..] == EncodeVarint(v / 128)
  {}

  lemma {:induction false} EncodeShape(v: nat)
    ensures RunLength(EncodeVarint(v)) == |EncodeVarint(v)|
    ensures Groups(EncodeVarint(v)) == v
    decreases v
  {
    var s := EncodeVarint(v);
    if v < 128 {
      assert s[1..] == [];
    } else {
      EncodeShape(v / 128);
      assert s[1..] == EncodeVarint(v / 128);
    }
  }

  lemma {:induction false} EncodeLength(v: nat, k: nat)
    requires k >= 1 && v < Pow128(k)
    ensures |EncodeVarint(v)| <= k
    decreases k
  {
    assert Pow128(k) == 128 * Pow128(k - 1);
    if v >= 128 { EncodeLength(v / 128, k - 1); }
  }

  lemma EncodeAtMostTen(v: nat)
    requires v < TWO64
    ensures 1 <= |EncodeVarint(v)| <= 10
  {
    Pow128Ten(v);
    EncodeLength(v, 10);
  }

  /** No terminated byte string with the same value is shorter than the encoder's. */
  lemma {:induction false} EncodeIsMinimal(v: nat, s: seq<byte>)
    requires s != [] && Groups(s) == v
    ensures |EncodeVarint(v)| <= |s|
    decreases |s|
  {
    assert Groups(s) == s[0] % 128 + 128 * Groups(s[1..]);
    if v >= 128 { EncodeIsMinimal(v / 128, s[1..]); }
  }

  /** A varint decodes back to its value, taking exactly its own bytes whatever follows. */
  lemma VarintRoundTrip(v: nat, rest: seq<byte>)
    requires v < TWO64
    ensures DecodeVarint(EncodeVarint(v) + rest) == Got(v, |EncodeVarint(v)|)
  {
    var s := EncodeVarint(v);
    EncodeShape(v);
    EncodeAtMostTen(v);
    assert s[..|s|] == s;
    assert DecodeVarint(s) == Got(v, |s|);
    DecodeVarintLocal(s, rest);
  }

  // ---- The two decoders agree -----------------------------------------------------

  lemma {:induction false} Tail32Run(s: seq<byte>, bitpos: nat, result: nat)
    requires result < TWO32 && Tail32(s, bitpos, result).Got?
    ensures Tail32(s, bitpos, result).used == RunLength(s)
    decreases |s|
  {
    if s[0] >= 128 { Tail32Run(s[1..], (bitpos + 7) % 256, Accumulate(result, s[0], bitpos)); }
  }

  lemma Pow2One()
    ensures Pow2(0) == 1
  {}

  lemma Distribute(h: nat, x: nat, p: nat, g: nat)
    ensures h + 128 * (x + p * g) == (h + 128 * x) + 128 * p * g
  {}

  lemma {:induction false} GroupsAppend(pre: seq<byte>, t: seq<byte>)
    ensures Groups(pre + t) == Groups(pre) + Pow2(7 * |pre|) * Groups(t)
  {
    if pre == [] {
      Pow2One();
      assert pre + t == t;
    } else {
      hide Pow2;
      assert (pre + t)[0] == pre[0] && (pre + t)[1..] == pre[1..] + t;
      GroupsAppend(pre[1..], t);
      Pow2Septet(7 * |pre| - 7);
      Distribute(pre[0] % 128, Groups(pre[1..]), Pow2(7 * |pre| - 7), Groups(t));
    }
  }

  lemma {:induction false} GroupsBound(pre: seq<byte>)
    ensures Groups(pre) < Pow2(7 * |pre|)
  {
    if pre != [] {
      GroupsBound(pre[1..]);
      Pow2Septet(7 * |pre| - 7);
    }
  }

  lemma Pow2At28()
    ensures Pow2(7) == 128 && Pow2(14) == 0x4000 && Pow2(21) == 0x20_0000
    ensures Pow2(28) == 0x1000_0000 && Pow2(35) == 8 * TWO32
  {
    Pow2Septet(0);
    Pow2Septet(7);
    Pow2Septet(14);
    Pow2Septet(21);
    Pow2Septet(28);
  }

  lemma ScaledBounds(k: nat, r: nat, c: nat, p: nat, t: nat)
    requires 1 <= k <= 4 && p == Pow2(7 * k) && r < p && c < 128 && t == r + p * c
    ensures r < TWO32 && t < 8 * TWO32
    ensures k < 4 ==> t < TWO32
    ensures k == 4 ==> (c < 16 <==> t < TWO32)
  {
    Pow2At28();
    hide Pow2;
    if k == 1 { assert p == 128; } else if k == 2 { assert p == 0x4000; }
    else if k == 3 { assert p == 0x20_0000; } else { assert p == 0x1000_0000; }
  }

  lemma MulComm(a: nat, b: nat)
    ensures a * b == b * a
  {}

  lemma GroupsAppendByte(pre: seq<byte>, b: byte)
    ensures Groups(pre + [b]) == Groups(pre) + Pow2(7 * |pre|) * (b % 128)
  {
    assert Groups([b]) == b % 128;
    hide Groups, Pow2;
    GroupsAppend(pre, [b]);
  }

  lemma AccumulateBounds(pre: seq<byte>, b: byte)
    requires 1 <= |pre| <= 4
    ensures Groups(pre) < TWO32 && Groups(pre + [b]) < 8 * TWO32
    ensures |pre| < 4 ==> Groups(pre + [b]) < TWO32
    ensures |pre| == 4 ==> (b % 128 < 16 <==> Groups(pre + [b]) < TWO32)
  {
    hide Groups, Pow2;
    GroupsBound(pre);
    GroupsAppendByte(pre, b);
    ScaledBounds(|pre|, Groups(pre), b % 128, Pow2(7 * |pre|), Groups(pre + [b]));
  }

  /** Below bit 32 a byte's seven bits are added to the value of the bytes before it. */
  lemma AccumulateStep(pre: seq<byte>, b: byte)
    requires 1 <= |pre| <= 4
    ensures Groups(pre) < TWO32
    ensures Accumulate(Groups(pre), b, 7 * |pre|) == Groups(pre + [b]) % TWO32
  {
    hide Groups, Pow2, BitOr;
    AccumulateBounds(pre, b);
    GroupsBound(pre);
    GroupsAppendByte(pre, b);
    BitOrDisjoint(Groups(pre), b % 128, 7 * |pre|);
    MulComm(b % 128, Pow2(7 * |pre|));
  }

  /** One byte of the 32-bit decoder while it still accumulates. */
  lemma Tail32Step(pre: seq<byte>, s: seq<byte>)
    requires 1 <= |pre| <= 4 && s != []
    ensures Groups(pre) < TWO32
    ensures |pre| < 4 ==> Groups(pre + [s[0]]) < TWO32
    ensures Tail32(s, 7 * |pre|, Groups(pre))
         == var sum := Groups(pre + [s[0]]);
            if s[0] >= 128 then Tail32(s[1..], 7 * (|pre| + 1), sum % TWO32).After(1)
            else if sum >= TWO32 then Fail
            else Got(sum, 1)
  {
    hide Groups, Accumulate, Pow2;
    AccumulateBounds(pre, s[0]);
    AccumulateStep(pre, s[0]);
    assert (7 * |pre| + 7) % 256 == 7 * (|pre| + 1);
  }

  lemma {:induction false} Tail32HighValue(s: seq<byte>, k: nat, r: nat)
    requires 5 <= k <= 9 && r < TWO32
    requires Tail32(s, 7 * k, r).Got? && k + Tail32(s, 7 * k, r).used <= 10
    ensures Tail32(s, 7 * k, r).value == r
    decreases |s|
  {
    assert (7 * k + 7) % 256 == 7 * (k + 1);
    if s[0] >= 128 { Tail32HighValue(s[1..], k + 1, r); }
  }

  /** Bytes past the fifth do not change the value modulo 2^32. */
  lemma FiveBytesDecide(pre: seq<byte>, t: seq<byte>)
    requires |pre| == 5
    ensures Groups(pre + t) % TWO32 == Groups(pre) % TWO32
  {
    hide Groups, Pow2;
    GroupsAppend(pre, t);
    Pow2At28();
  }

  lemma {:induction false} Tail32Value(pre: seq<byte>, s: seq<byte>)
    requires 1 <= |pre| <= 4 && Groups(pre) < TWO32
    requires Tail32(s, 7 * |pre|, Groups(pre)).Got?
    requires |pre| + Tail32(s, 7 * |pre|, Groups(pre)).used <= 10
    ensures Tail32(s, 7 * |pre|, Groups(pre)).value
         == Groups(pre + s[..Tail32(s, 7 * |pre|, Groups(pre)).used]) % TWO32
    decreases 5 - |pre|
  {
    hide Tail32, Groups;
    var n := Tail32(s, 7 * |pre|, Groups(pre)).used;
    Tail32Step(pre, s);
    var pre' := pre + [s[0]];
    if s[0] < 128 {
      assert pre + s[..1] == pre';
    } else {
      assert pre + s[..n] == pre' + s[1..][..n - 1];
      if |pre| < 4 {
        Tail32Value(pre', s[1..]);
      } else {
        Tail32HighValue(s[1..], 5, Groups(pre') % TWO32);
        FiveBytesDecide(pre', s[1..][..n - 1]);
      }
    }
  }

  lemma DecodersAgreeLong(s: seq<byte>)
    requires DecodeVarint32(s).Got? && s[0] >= 128
    ensures DecodeVarint32(s).used == RunLength(s)
    ensures RunLength(s) <= 10 ==> DecodeVarint32(s).value == Groups(s[..RunLength(s)]) % TWO32
  {
    assert Groups([s[0]]) == s[0] % 128;
    Tail32Run(s[1..], 7, s[0] % 128);
    hide Tail32, Groups;
    var n := DecodeVarint32(s).used;
    if n <= 10 {
      Tail32Value([s[0]], s[1..]);
      assert [s[0]] + s[1..][..n - 1] == s[..n];
    }
  }

  lemma ModMod(x: nat)
    ensures x % TWO64 % TWO32 == x % TWO32
  {}

  /** Whenever the 32-bit decoder succeeds within ten bytes, the 64-bit decoder succeeds on the
      same bytes and the two values agree modulo 2^32. */
  lemma DecodersAgree(s: seq<byte>)
    requires DecodeVarint32(s).Got? && DecodeVarint32(s).used <= 10
    ensures DecodeVarint(s).Got?
    ensures DecodeVarint(s).used == DecodeVarint32(s).used
    ensures DecodeVarint32(s).value == DecodeVarint(s).value % TWO32
  {
    if s[0] < 128 {
      assert s[..1] == [s[0]];
      assert Groups([s[0]]) == s[0];
    } else {
      DecodersAgreeLong(s);
      ModMod(Groups(s[..RunLength(s)]));
    }
  }

  // ---- Which canonical encodings the 32-bit decoder accepts -------------------------

  /** The decoder's verdict on the groups of a canonical varint from the one at bit `7k` up,
      where `negative` says that bit 31 of the value is set. */
  predicate Tolerated(w: nat, k: nat, negative: bool)
    decreases w
  {
    if w < 128 then w == 0 || (negative && k >= 9 && w == 1)
    else (w % 128 == 0 || (negative && k < 9 && w % 128 == 127)) && Tolerated(w / 128, k + 1, negative)
  }

  lemma {:induction false} Tail32High(w: nat, k: nat, r: nat)
    requires 5 <= k <= 9 && r < TWO32 && w < Pow128(10 - k)
    ensures Tail32(EncodeVarint(w), 7 * k, r)
         == if Tolerated(w, k, r >= TWO31) then Got(r, |EncodeVarint(w)|) else Fail
    decreases w
  {
    hide Pow2, BitOr, EncodeVarint, Pow128;
    Pow128Step(10 - k);
    EncodeStep(w);
    assert (7 * k + 7) % 256 == 7 * (k + 1);
    if w >= 128 { Tail32High(w / 128, k + 1, r); }
  }

  lemma Pow128Step(n: nat)
    requires n > 0
    ensures Pow128(n) == 128 * Pow128(n - 1)
    ensures n == 1 ==> Pow128(n) == 128
  {}

  /** The fifth byte and everything after it. */
  lemma Tail32Fifth(v: nat, pre: seq<byte>, w: nat)
    requires |pre| == 5 && 0 < w < Pow128(5)
    requires Groups(pre + EncodeVarint(w)) == v
    ensures Tail32(EncodeVarint(w), 35, Groups(pre) % TWO32)
         == if Accepted32(v) then Got(v % TWO32, |EncodeVarint(w)|) else Fail
  {
    hide Tail32, Groups, Tolerated, Pow2, Pow128;
    var sum := Groups(pre);
    Tail32High(w, 5, sum % TWO32);
    GroupsAppend(pre, EncodeVarint(w));
    GroupsBound(pre);
    Pow2At28();
    EncodeShape(w);
    BoundaryAt35(v, sum, w);
  }

  /** Bytes 1 to 4 are accumulated without complaint, except that a fifth and last byte must
      fit in four bits. `pre` holds the bytes read so far and `w` what is left of the value. */
  lemma {:induction false} Tail32Low(v: nat, pre: seq<byte>, w: nat)
    requires 1 <= |pre| <= 4 && Groups(pre) < TWO32
    requires Groups(pre + EncodeVarint(w)) == v && w < Pow128(10 - |pre|) && w > 0
    ensures Tail32(EncodeVarint(w), 7 * |pre|, Groups(pre))
         == if Accepted32(v) then Got(v % TWO32, |EncodeVarint(w)|) else Fail
    decreases 5 - |pre|
  {
    hide Tail32, Groups, Tolerated, Pow2, Pow128, EncodeVarint, Accepted32;
    EncodeStep(w);
    Pow128Step(10 - |pre|);
    var s := EncodeVarint(w);
    Tail32Step(pre, s);
    var pre' := pre + [s[0]];
    if w < 128 {
      AccumulateBounds(pre, s[0]);
      LowValueAccepted(v);
    } else {
      assert pre + s == pre' + s[1..];
      if |pre| < 4 { Tail32Low(v, pre', w / 128); } else { Tail32Fifth(v, pre', w / 128); }
    }
  }

  lemma LowValueAccepted(v: nat)
    requires v < 8 * TWO32
    ensures Accepted32(v) <==> v < TWO32
  {
    hide Tolerated;
    assert v / (8 * TWO32) == 0;
  }

  lemma BoundaryAt35(v: nat, sum: nat, w: nat)
    requires v == sum + 8 * TWO32 * w && sum < 8 * TWO32
    ensures v / (8 * TWO32) == w
    ensures v % TWO32 == sum % TWO32
    ensures (sum % TWO32 >= TWO31) == (v / TWO31 % 2 == 1)
  {
    BoundaryQuotient(sum, w);
    BoundaryAt31(sum, w);
    TopBit(sum);
    DropMultiple(sum, 8 * w);
  }

  lemma DropMultiple(r: nat, q: nat)
    ensures (r + TWO32 * q) % TWO32 == r % TWO32
  {}

  lemma BoundaryQuotient(sum: nat, w: nat)
    requires sum < 8 * TWO32
    ensures (sum + 8 * TWO32 * w) / (8 * TWO32) == w
  {}

  lemma BoundaryAt31(sum: nat, w: nat)
    ensures (sum + 8 * TWO32 * w) / TWO31 == sum / TWO31 + 16 * w
  {}

  lemma TopBit(sum: nat)
    ensures (sum % TWO32 >= TWO31) == (sum / TWO31 % 2 == 1)
  {}

  /** The values whose canonical encoding the 32-bit decoder takes. */
  predicate Accepted32(v: nat) {
    v < TWO32 || (v >= 8 * TWO32 && Tolerated(v / (8 * TWO32), 5, v / TWO31 % 2 == 1))
  }

  /** The 32-bit decoder on the canonical encoding of any 64-bit value, whatever follows it. */
  lemma Varint32OnCanonical(v: nat, rest: seq<byte>)
    requires v < TWO64
    ensures Accepted32(v) ==> DecodeVarint32(EncodeVarint(v) + rest) == Got(v % TWO32, |EncodeVarint(v)|)
    ensures !Accepted32(v) ==> DecodeVarint32(EncodeVarint(v) + rest).Fail?
  {
    hide Tail32, Tolerated, Pow128, RunLength;
    var s := EncodeVarint(v);
    assert Groups([s[0]]) == v % 128;
    EncodeShape(v);
    if v >= 128 {
      Pow128Ten(v);
      Pow128Step(10);
      assert s[1..] == EncodeVarint(v / 128);
      assert [s[0]] + s[1..] == s;
      Tail32Low(v, [s[0]], v / 128);
    }
    if Accepted32(v) {
      DecodeVarint32Local(s, rest);
    } else {
      RunLengthTail(s);
      Tail32FailLocal(s[1..], rest, 7, v % 128);
      assert (s + rest)[0] == s[0];
      assert (s + rest)[1..] == s[1..] + rest;
    }
  }

  lemma RunLengthTail(s: seq<byte>)
    requires RunLength(s) > 0 && s[0] >= 128
    ensures RunLength(s[1..]) > 0
  {}

  /** A failure inside a complete varint stays a failure whatever follows. */
  lemma {:induction false} Tail32FailLocal(s: seq<byte>, t: seq<byte>, bitpos: nat, result: nat)
    requires result < TWO32 && RunLength(s) > 0
    requires Tail32(s, bitpos, result).Fail?
    ensures Tail32(s + t, bitpos, result).Fail?
    decreases |s|
  {
    assert (s + t)[0] == s[0];
    assert (s + t)[1..] == s[1..] + t;
    var b := s[0];
    if b >= 128 && !Overflows(b, bitpos, result) {
      Tail32FailLocal(s[1..], t, (bitpos + 7) % 256, Accumulate(result, b, bitpos));
    }
  }

  /** A value below 2^32 round-trips through the 32-bit decoder. */
  lemma Varint32RoundTrip(v: nat, rest: seq<byte>)
    requires v < TWO32
    ensures DecodeVarint32(EncodeVarint(v) + rest) == Got(v, |EncodeVarint(v)|)
  {
    hide Tail32, Tolerated, EncodeVarint;
    Varint32OnCanonical(v, rest);
  }

  lemma ToleratedOnes(w: nat, k: nat)
    requires 5 <= k <= 9 && w + 1 == 2 * Pow128(9 - k)
    ensures Tolerated(w, k, true)
    decreases 9 - k
  {
    if k < 9 {
      assert Pow128(9 - k) == 128 * Pow128(8 - k);
      ToleratedOnes(w / 128, k + 1);
    }
  }

  lemma {:induction false} NotTolerated(w: nat, k: nat, negative: bool)
    requires 5 <= k <= 9 && 0 < w < Pow128(9 - k)
    ensures !Tolerated(w, k, negative)
    decreases w
  {
    if k < 9 { assert Pow128(9 - k) == 128 * Pow128(8 - k); }
    if w >= 128 { NotTolerated(w / 128, k + 1, negative); }
  }

  /** Every sign-extended negative 32-bit value is accepted; every value from 2^32 up to 2^63 is
      rejected. */
  lemma Accepted32Ranges(v: nat)
    requires v < TWO64
    ensures v >= TWO64 - TWO31 ==> Accepted32(v)
    ensures TWO32 <= v < TWO63 ==> !Accepted32(v)
  {
    var w := v / (8 * TWO32);
    assert Pow128(4) == 0x1000_0000;
    if v >= TWO64 - TWO31 {
      assert w + 1 == 2 * Pow128(4);
      ToleratedOnes(w, 5);
    } else if 8 * TWO32 <= v < TWO63 {
      NotTolerated(w, 5, v / TWO31 % 2 == 1);
    }
  }
}
