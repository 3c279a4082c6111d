/** The required-field bitmap of `pb_decode_noinit`: two 32-bit words standing for a set, and the
    whole-word and remainder-mask test at the end. */
module RequiredBitmap {
  import opened Bytes
  import opened Messages

  predicate BitAt(w: nat, k: nat)
    decreases k
  {
    if k == 0 then w % 2 == 1 else BitAt(w / 2, k - 1)
  }

  lemma {:induction false} BitOfOr(a: nat, b: nat, k: nat)
    ensures BitAt(BitOr(a, b), k) <==> BitAt(a, k) || BitAt(b, k)
  {
    if a == 0 && b == 0 {
      BitOfZero(k);
    } else if k > 0 {
      BitOfOr(a / 2, b / 2, k - 1);
    }
  }

  lemma {:induction false} BitOfZero(k: nat)
    ensures !BitAt(0, k)
  {
    if k > 0 { BitOfZero(k - 1); }
  }

  lemma {:induction false} BitOfPower(k: nat, j: nat)
    ensures BitAt(Pow2(k), j) <==> j == k
  {
    if k > 0 && j > 0 {
      BitOfPower(k - 1, j - 1);
    } else if j > 0 {
      BitOfZero(j - 1);
    }
  }

  lemma {:induction false} OrBound(a: nat, b: nat, n: nat)
    requires a < Pow2(n) && b < Pow2(n)
    ensures BitOr(a, b) < Pow2(n)
  {
    if n > 0 && a + b > 0 { OrBound(a / 2, b / 2, n - 1); }
  }

  ghost predicate LowBitsSet(w: nat, n: nat) {
    forall k: nat | k < n :: BitAt(w, k)
  }

  lemma LowBitsStep(w: nat, n: nat)
    requires n > 0
    ensures LowBitsSet(w, n) <==> w % 2 == 1 && LowBitsSet(w / 2, n - 1)
  {
    if LowBitsSet(w, n) {
      assert BitAt(w, 0);
      forall k: nat | k < n - 1 ensures BitAt(w / 2, k) { assert BitAt(w, k + 1); }
    } else if w % 2 == 1 {
      var k: nat :| k < n && !BitAt(w, k);
      assert !BitAt(w / 2, k - 1);
    }
  }

  /** The all-ones word of `n` bits is the one with every bit below `n` set and none above. */
  lemma {:induction false} FullWord(w: nat, n: nat)
    ensures w == Pow2(n) - 1 <==> LowBitsSet(w, n) && w < Pow2(n)
  {
    hide BitAt;
    if n > 0 {
      FullWord(w / 2, n - 1);
      LowBitsStep(w, n);
    }
  }

  /** A word without bits at or above `r` is below 2^r. */
  lemma {:induction false} NoHighBits(w: nat, r: nat, n: nat)
    requires r <= n && w < Pow2(n)
    requires forall k | r <= k < n :: !BitAt(w, k)
    ensures w < Pow2(r)
    decreases n
  {
    if r > 0 {
      forall k | r - 1 <= k < n - 1 ensures !BitAt(w / 2, k) { assert !BitAt(w, k + 1); }
      NoHighBits(w / 2, r - 1, n - 1);
    } else {
      AllZero(w, n);
    }
  }

  lemma {:induction false} AllZero(w: nat, n: nat)
    requires w < Pow2(n) && forall k | 0 <= k < n :: !BitAt(w, k)
    ensures w == 0
  {
    if n > 0 {
      forall k | 0 <= k < n - 1 ensures !BitAt(w / 2, k) { assert !BitAt(w, k + 1); }
      AllZero(w / 2, n - 1);
      assert !BitAt(w, 0);
    }
  }

  /** `allbits >> (32 - r)` is the mask of the lowest `r` bits. */
  lemma {:induction false} ShiftedOnes(r: nat)
    requires r <= 32
    ensures (Pow2(32) - 1) / Pow2(32 - r) == Pow2(r) - 1
  {
    Pow2Add(32 - r, r);
    assert 32 - r + r == 32;
    Quotient(Pow2(32 - r), Pow2(r));
  }

  lemma Quotient(d: nat, q: nat)
    requires d >= 1 && q >= 1
    ensures (d * q - 1) / d == q - 1
  {
    assert d * q - 1 == d * (q - 1) + (d - 1);
    QuotientUnique(d * q - 1, d, q - 1, d - 1);
  }

  lemma Pow2Of32()
    ensures Pow2(32) == TWO32
  {
    assert Pow2(4) == 16;
    Pow2Septet(4);
    Pow2Septet(11);
    Pow2Septet(18);
    Pow2Septet(25);
  }

  class SeenFields {
    const words: array<nat>

    ghost predicate Valid()
      reads this, words
    {
      words.Length == 2 && words[0] < Pow2(32) && words[1] < Pow2(32)
    }

    /** Required field number `r` has been seen. */
    ghost predicate Has(r: nat)
      requires Valid() && r < MAX_REQUIRED_FIELDS
      reads this, words
    {
      BitAt(words[r / 32], r % 32)
    }

    constructor ()
      ensures Valid() && fresh(words)
      ensures forall r: nat | r < MAX_REQUIRED_FIELDS :: !Has(r)
    {
      words := new nat[2](_ => 0);
      new;
      forall k: nat ensures !BitAt(0, k) { BitOfZero(k); }
    }

    method Mark(r: nat)
      requires Valid() && r < MAX_REQUIRED_FIELDS
      modifies words
      ensures Valid()
      ensures forall j: nat | j < MAX_REQUIRED_FIELDS :: Has(j) <==> old(Has(j)) || j == r
    {
      hide BitAt, Pow2, BitOr;
      var w, k := r / 32, r % 32;
      PowerBelow(k);
      OrBound(words[w], Pow2(k), 32);
      ghost var was := words[w];
      words[w] := BitOr(words[w], Pow2(k));
      forall j: nat | j < 32 ensures BitAt(words[w], j) <==> BitAt(was, j) || j == k {
        BitOfOr(was, Pow2(k), j);
        BitOfPower(k, j);
      }
    }

    /** The check at the end of decoding: whole words first, then the remaining bits. It decides
        whether every one of the first `count` required fields was seen. */
    method AllSeen(count: nat) returns (ok: bool)
      requires Valid() && count <= MAX_REQUIRED_FIELDS
      requires forall r: nat | count <= r < MAX_REQUIRED_FIELDS :: !Has(r)
      ensures ok <==> forall r: nat | r < count :: Has(r)
    {
      hide BitAt, Pow2;
      var i := 0;
      while i < count / 32
        invariant i <= count / 32
        invariant forall r: nat | r < 32 * i :: Has(r)
      {
        var full := words[i] == Pow2(32) - 1;
        WordFull(i);
        if !full { return false; }
        i := i + 1;
      }
      if count % 32 != 0 {
        var full := words[i] == (Pow2(32) - 1) / Pow2(32 - count % 32);
        ShiftedOnes(count % 32);
        WordTail(i, count % 32);
        if !full { return false; }
      }
      return true;
    }

    lemma WordBits(i: nat, n: nat)
      requires Valid() && i < 2 && n <= 32
      ensures LowBitsSet(words[i], n) <==> forall r: nat | 32 * i <= r < 32 * i + n :: Has(r)
    {
      hide BitAt, Pow2;
      if forall r: nat | 32 * i <= r < 32 * i + n :: Has(r) {
        forall k: nat | k < n ensures BitAt(words[i], k) { assert Has(32 * i + k); }
      } else {
        var r: nat :| 32 * i <= r < 32 * i + n && !Has(r);
        assert !BitAt(words[i], r - 32 * i);
      }
    }

    /** A whole word equals all ones exactly when its 32 fields were seen. */
    lemma WordFull(i: nat)
      requires Valid() && i < 2
      ensures words[i] == Pow2(32) - 1 <==> forall r: nat | 32 * i <= r < 32 * i + 32 :: Has(r)
    {
      hide BitAt, Pow2, LowBitsSet;
      WordBits(i, 32);
      FullWord(words[i], 32);
    }

    /** The last word equals the remainder mask exactly when its first `n` fields were seen. */
    lemma WordTail(i: nat, n: nat)
      requires Valid() && i < 2 && n < 32
      requires forall r: nat | 32 * i + n <= r < 32 * i + 32 :: !Has(r)
      ensures words[i] == Pow2(n) - 1 <==> forall r: nat | 32 * i <= r < 32 * i + n :: Has(r)
    {
      hide BitAt, Pow2, LowBitsSet;
      forall k | n <= k < 32 ensures !BitAt(words[i], k) { assert !Has(32 * i + k); }
      NoHighBits(words[i], n, 32);
      WordBits(i, n);
      FullWord(words[i], n);
    }
  }

  lemma {:induction false} PowerBelow(k: nat)
    requires k < 32
    ensures Pow2(k) < Pow2(32)
  {
    Pow2Add(k, 32 - k);
    assert k + (32 - k) == 32;
    Pow2Add(1, 31 - k);
    assert 1 + (31 - k) == 32 - k && Pow2(1) == 2;
    Larger(Pow2(k), Pow2(32 - k));
  }

  lemma Larger(x: nat, y: nat)
    requires x >= 1 && y >= 2
    ensures x < x * y
  {}
}
