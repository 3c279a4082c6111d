/** Bytes, parse results and the bit arithmetic shared by the wire codec. */
module Bytes {

  type byte = x: int | 0 <= x < 256

  const TWO31 := 0x8000_0000
  const TWO32 := 0x1_0000_0000
  const TWO63 := 0x8000_0000_0000_0000
  const TWO64 := 0x1_0000_0000_0000_0000

  datatype Option<+T> = None | Some(value: T)

  /** What reading from the front of a byte string yields: a value and how many bytes it took. */
  datatype Parse<+T> = Fail | Got(value: T, used: nat) {
    /** The same result for a parse that had already consumed `n` bytes. */
    function After(n: nat): Parse<T> {
      match this
      case Fail => Fail
      case Got(v, u) => Got(v, u + n)
    }
  }

  function Pow2(n: nat): (r: nat)
    ensures r >= 1
  {
    if n == 0 then 1 else 2 * Pow2(n - 1)
  }

  lemma Double(x: nat, y: nat)
    ensures 2 * (x * y) == 2 * x * y
  {}

  lemma {:induction false} Pow2Add(a: nat, b: nat)
    ensures Pow2(a + b) == Pow2(a) * Pow2(b)
  {
    if a > 0 {
      Pow2Add(a - 1, b);
      assert a + b - 1 == a - 1 + b;
      Double(Pow2(a - 1), Pow2(b));
    }
  }

  lemma Pow2Septet(a: nat)
    ensures Pow2(a + 7) == 128 * Pow2(a)
  {
    assert Pow2(a + 7) == 2 * Pow2(a + 6) == 4 * Pow2(a + 5) == 8 * Pow2(a + 4);
    assert Pow2(a + 4) == 2 * Pow2(a + 3) == 4 * Pow2(a + 2) == 8 * Pow2(a + 1);
  }

  /** The C operator `|` on unsigned integers. */
  function BitOr(a: nat, b: nat): (r: nat)
    decreases a + b
  {
    if a == 0 && b == 0 then 0
    else (if a % 2 == 1 || b % 2 == 1 then 1 else 0) + 2 * BitOr(a / 2, b / 2)
  }

  lemma {:induction false} BitOrZero(b: nat)
    ensures BitOr(0, b) == b
  {
    if b > 0 { BitOrZero(b / 2); }
  }

  /** Or-ing in bits above all bits already present is addition. */
  lemma {:induction false} BitOrDisjoint(a: nat, c: nat, k: nat)
    requires a < Pow2(k)
    ensures BitOr(a, c * Pow2(k)) == a + c * Pow2(k)
  {
    if k == 0 {
      BitOrZero(c);
    } else {
      var h := c * Pow2(k - 1);
      assert c * Pow2(k) == 2 * h;
      BitOrDisjoint(a / 2, c, k - 1);
      if a == 0 && h == 0 { }
    }
  }

  // ---- Division ----------------------------------------------------------------------

  lemma MulGrows(d: nat, a: int, b: int)
    requires a <= b
    ensures d * a <= d * b
  {}

  lemma QuotientUnique(x: nat, d: nat, q: nat, r: nat)
    requires r < d && x == d * q + r
    ensures x / d == q
  {
    var k := x / d;
    assert d * (k + 1) == d * k + d && d * (q + 1) == d * q + d;
    if k < q { MulGrows(d, k + 1, q); }
    if k > q { MulGrows(d, q + 1, k); }
  }
}
