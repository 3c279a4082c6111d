/** Integer fields of every signedness and width, zigzag, and fixed-width little-endian values. */
module Integers {
  import opened Bytes

  // ---- C integer widths ------------------------------------------------------------

  predicate ValidWidth(width: nat) {
    width == 1 || width == 2 || width == 4 || width == 8
  }

  /** Number of values of an integer of `width` bytes. */
  function Span(width: nat): (r: nat)
    requires ValidWidth(width)
    ensures r >= 256
  {
    if width == 1 then 0x100 else if width == 2 then 0x1_0000 else if width == 4 then TWO32 else TWO64
  }

  predicate FitsUnsigned(n: int, width: nat)
    requires ValidWidth(width)
  {
    0 <= n < Span(width)
  }

  predicate FitsSigned(n: int, width: nat)
    requires ValidWidth(width)
  {
    -(Span(width) / 2) <= n < Span(width) / 2
  }

  /** A C cast to the unsigned type of `width` bytes. */
  function CastUnsigned(n: int, width: nat): (r: nat)
    requires ValidWidth(width)
    ensures FitsUnsigned(r, width)
  {
    n % Span(width)
  }

  /** A C cast to the signed (two's complement) type of `width` bytes. */
  function CastSigned(n: int, width: nat): (r: int)
    requires ValidWidth(width)
    ensures FitsSigned(r, width)
  {
    var u := CastUnsigned(n, width);
    if u < Span(width) / 2 then u else u - Span(width)
  }

  lemma CastsKeepFitting(n: int, width: nat)
    requires ValidWidth(width)
    ensures FitsUnsigned(n, width) <==> CastUnsigned(n, width) == n
    ensures FitsSigned(n, width) <==> CastSigned(n, width) == n
  {}

  // ---- Zigzag ----------------------------------------------------------------------

  /** `pb_encode_svarint`: shift left in 64 bits, complement when negative. */
  function ZigZag(n: int): (r: nat)
    requires FitsSigned(n, 8)
    ensures r < TWO64
  {
    var shifted := CastUnsigned(n, 8) * 2 % TWO64;
    if n < 0 then TWO64 - 1 - shifted else shifted
  }

  /** `pb_decode_svarint`: shift right, complement when the low bit was set. */
  function UnZigZag(v: nat): (r: int)
    requires v < TWO64
    ensures FitsSigned(r, 8)
  {
    if v % 2 == 1 then CastSigned(TWO64 - 1 - v / 2, 8) else CastSigned(v / 2, 8)
  }

  lemma ZigZagValue(n: int)
    requires FitsSigned(n, 8)
    ensures ZigZag(n) == if n < 0 then -2 * n - 1 else 2 * n
  {}

  lemma UnZigZagValue(v: nat)
    requires v < TWO64
    ensures UnZigZag(v) == if v % 2 == 1 then -(v / 2) - 1 else v / 2
  {}

  /** Zigzag is a bijection between the signed and the unsigned 64-bit integers. */
  lemma ZigZagBijection(n: int, v: nat)
    requires FitsSigned(n, 8) && v < TWO64
    ensures UnZigZag(ZigZag(n)) == n
    ensures ZigZag(UnZigZag(v)) == v
  {
    hide ZigZag, UnZigZag;
    ZigZagValue(n);
    UnZigZagValue(ZigZag(n));
    UnZigZagValue(v);
    ZigZagValue(UnZigZag(v));
  }

  // ---- Varint fields -----------------------------------------------------------------

  datatype IntKind = Signed | Unsigned | ZigZagged

  predicate Fits(kind: IntKind, n: int, width: nat)
    requires ValidWidth(width)
  {
    if kind.Unsigned? then FitsUnsigned(n, width) else FitsSigned(n, width)
  }

  /** The 64-bit value a field's encoder hands to the varint encoder. */
  function ToWire(kind: IntKind, n: int): (v: nat)
    requires kind.ZigZagged? ==> FitsSigned(n, 8)
    ensures v < TWO64
  {
    if kind.ZigZagged? then ZigZag(n) else CastUnsigned(n, 8)
  }

  /** What a field's decoder stores for a 64-bit wire value; None for "integer too large". */
  function FromWire(kind: IntKind, v: nat, width: nat): (r: Option<int>)
    requires v < TWO64 && ValidWidth(width)
    ensures r.Some? ==> Fits(kind, r.value, width)
  {
    match kind
    case Signed =>
      var svalue := if width == 8 then CastSigned(v, 8) else CastSigned(v, 4);
      var clamped := CastSigned(svalue, width);
      if clamped == svalue then Some(clamped) else None
    case Unsigned =>
      var clamped := CastUnsigned(v, width);
      if clamped == v then Some(clamped) else None
    case ZigZagged =>
      var value := UnZigZag(v);
      var clamped := CastSigned(value, width);
      if clamped == value then Some(clamped) else None
  }

  lemma SignedRoundTrip(n: int, width: nat)
    requires ValidWidth(width) && FitsSigned(n, width)
    ensures FromWire(Signed, ToWire(Signed, n), width) == Some(n)
  {
    CastsKeepFitting(n, width);
    if width == 8 {
      assert CastSigned(CastUnsigned(n, 8), 8) == n;
    } else {
      assert FitsSigned(n, 4);
      assert CastUnsigned(n, 8) % TWO32 == n % TWO32;
      CastsKeepFitting(n, 4);
      assert CastSigned(CastUnsigned(n, 8), 4) == n;
    }
  }

  /** Every value that fits its field survives encoding and decoding, whatever its width. */
  lemma WireRoundTrip(kind: IntKind, n: int, width: nat)
    requires ValidWidth(width) && Fits(kind, n, width)
    ensures kind.ZigZagged? ==> FitsSigned(n, 8)
    ensures FromWire(kind, ToWire(kind, n), width) == Some(n)
  {
    match kind
    case Signed => SignedRoundTrip(n, width);
    case Unsigned => assert CastUnsigned(n, 8) == n; CastsKeepFitting(n, width);
    case ZigZagged => ZigZagBijection(n, 0); CastsKeepFitting(n, width);
  }

  /** The unsigned and zigzag decoders reject exactly the wire values whose number does not fit
      the field; the signed decoder first reduces to 32 bits unless the field has 64. */
  lemma RejectsExactlyMisfits(v: nat, width: nat)
    requires v < TWO64 && ValidWidth(width)
    ensures FromWire(Unsigned, v, width).Some? <==> FitsUnsigned(v, width)
    ensures FromWire(ZigZagged, v, width).Some? <==> FitsSigned(UnZigZag(v), width)
    ensures FromWire(Signed, v, width).Some?
       <==> FitsSigned(CastSigned(v, if width == 8 then 8 else 4), width)
  {
    hide UnZigZag, CastSigned, CastUnsigned, Span;
    CastsKeepFitting(v, width);
    CastsKeepFitting(UnZigZag(v), width);
    CastsKeepFitting(CastSigned(v, if width == 8 then 8 else 4), width);
  }

  // ---- Fixed-width fields -------------------------------------------------------------

  function FixedBytes(v: nat, n: nat): (s: seq<byte>)
    ensures |s| == n
  {
    if n == 0 then [] else [v % 256] + FixedBytes(v / 256, n - 1)
  }

  function FixedValue(s: seq<byte>): nat {
    if s == [] then 0 else s[0] + 256 * FixedValue(s[1..])
  }

  function Pow256(n: nat): (r: nat)
    ensures r >= 1
  {
    if n == 0 then 1 else 256 * Pow256(n - 1)
  }

  lemma {:induction false} FixedRoundTrip(v: nat, n: nat)
    requires v < Pow256(n)
    ensures FixedValue(FixedBytes(v, n)) == v
  {
    if n > 0 {
      FixedRoundTrip(v / 256, n - 1);
      assert FixedBytes(v, n)[1..] == FixedBytes(v / 256, n - 1);
    }
  }

  lemma {:induction false} FixedBound(s: seq<byte>)
    ensures FixedValue(s) < Pow256(|s|)
    ensures FixedBytes(FixedValue(s), |s|) == s
  {
    if s != [] {
      FixedBound(s[1..]);
      assert FixedValue(s) / 256 == FixedValue(s[1..]);
      assert s == [s[0]] + s[1..];
    }
  }

  lemma Pow256Widths()
    ensures Pow256(4) == TWO32 && Pow256(8) == TWO64
  {
    assert Pow256(4) == 256 * (256 * (256 * 256));
    assert Pow256(8) == 256 * (256 * (256 * (256 * Pow256(4))));
  }
}
