/**
 * Fixed-width integers of the Rust source and the bit operations on them.
 *
 * Words, bytes and register values are unbounded integers restricted to
 * their width; bitwise AND and OR are defined on naturals one bit at a
 * time, so division and remainder by powers of two carry the shifts.
 */
module Bits {

  /** Rust `u8`. */
  type U8 = x: int | 0 <= x < 0x100
  /** Rust `u16`. */
  type U16 = x: int | 0 <= x < 0x1_0000
  /** Rust `i8`. */
  type I8 = x: int | -0x80 <= x < 0x80
  /** Rust `i16`. */
  type I16 = x: int | -0x8000 <= x < 0x8000

  function Pow2(n: nat): (r: nat)
    ensures r >= 1
  {
    if n == 0 then 1 else 2 * Pow2(n - 1)
  }

  /** The powers of two the word layout uses. */
  lemma Pow2Values()
    ensures Pow2(1) == 2 && Pow2(2) == 4 && Pow2(3) == 8 && Pow2(4) == 16 && Pow2(5) == 32
    ensures Pow2(8) == 0x100 && Pow2(11) == 0x800 && Pow2(16) == 0x1_0000
  {
  }

  lemma {:induction false} Pow2Add(a: nat, b: nat)
    ensures Pow2(a + b) == Pow2(a) * Pow2(b)
  {
    if a > 0 {
      Pow2Add(a - 1, b);
      assert Pow2(a + b) == 2 * Pow2(a - 1 + b);
    }
  }

  lemma {:induction false} Pow2Monotone(a: nat, b: nat)
    requires a <= b
    ensures Pow2(a) <= Pow2(b)
  {
    if a < b {
      Pow2Monotone(a, b - 1);
    }
  }

  // ------------------------------------------------------------------
  // Division and remainder facts, stated once for symbolic divisors
  // ------------------------------------------------------------------

  lemma MulAtLeast(x: int, d: int)
    requires d > 0 && x >= 1
    ensures x * d >= d
  {
  }

  lemma MulGap(q: int, q': int, d: int)
    requires q' < q && d > 0
    ensures q' * d + d <= q * d
  {
    MulAtLeast(q - q', d);
    assert (q - q') * d == q * d - q' * d;
  }

  lemma MulAssoc(a: int, b: int, c: int)
    ensures a * (b * c) == (a * b) * c
  {
  }

  lemma DivModSplit(a: int, d: int)
    requires d > 0
    ensures a == (a / d) * d + a % d && 0 <= a % d < d
  {
  }

  /** Quotient and remainder are the unique q, m with a == q * d + m and 0 <= m < d. */
  lemma DivModOf(a: int, d: int, q: int, m: int)
    requires d > 0 && 0 <= m < d && a == q * d + m
    ensures a / d == q && a % d == m
  {
    var q' := a / d;
    DivModSplit(a, d);
    if q' < q {
      MulGap(q, q', d);
    } else if q' > q {
      MulGap(q', q, d);
    }
  }

  /** A value below the divisor is its own remainder. */
  lemma ModBelow(x: int, d: int)
    requires 0 <= x < d
    ensures x % d == x
  {
    DivModOf(x, d, 0, x);
  }

  /** A multiple of d leaves no remainder. */
  lemma MulModZero(q: int, d: int)
    requires d > 0
    ensures (q * d) % d == 0
  {
    DivModOf(q * d, d, q, 0);
  }

  /** Halving first and then dividing by 2^k is dividing by 2^(k+1). */
  lemma DivHalfThenPow2(a: nat, k: nat)
    ensures (a / 2) / Pow2(k) == a / Pow2(k + 1)
  {
    var p := Pow2(k);
    var h := a / 2;
    DivModSplit(a, 2);
    DivModSplit(h, p);
    var q, r := h / p, h % p;
    assert a == q * (2 * p) + (2 * r + a % 2);
    DivModOf(a, 2 * p, q, 2 * r + a % 2);
  }

  /** The remainder modulo 2P, built from the remainder of the half modulo P and the low bit. */
  lemma ModDouble(a: nat, p: nat)
    requires p >= 1
    ensures a % (2 * p) == 2 * ((a / 2) % p) + a % 2
  {
    var h := a / 2;
    DivModSplit(a, 2);
    DivModSplit(h, p);
    var q, r := h / p, h % p;
    assert a == q * (2 * p) + (2 * r + a % 2);
    DivModOf(a, 2 * p, q, 2 * r + a % 2);
  }

  // ------------------------------------------------------------------
  // Bitwise AND and OR on naturals
  // ------------------------------------------------------------------

  /** Bitwise AND (`&`), bit by bit from the least significant bit. */
  function And(a: nat, b: nat): (r: nat)
    ensures r <= a && r <= b
    decreases a
  {
    if a == 0 || b == 0 then 0
    else 2 * And(a / 2, b / 2) + (if a % 2 == 1 && b % 2 == 1 then 1 else 0)
  }

  /** Bitwise OR (`|`), bit by bit from the least significant bit. */
  function Or(a: nat, b: nat): (r: nat)
    decreases a + b
  {
    if a == 0 then b
    else if b == 0 then a
    else 2 * Or(a / 2, b / 2) + (if a % 2 == 1 || b % 2 == 1 then 1 else 0)
  }

  /** ANDing with 2^s - 1 (s one-bits) keeps the low s bits. */
  lemma AndLowOnes(a: nat, s: nat)
    ensures And(a, Pow2(s) - 1) == a % Pow2(s)
  {
    AndOnesLowBits(a, s);
    LowBitsMod(a, s);
  }

  /** The low s bits of a, gathered bit by bit. */
  function LowBits(a: nat, s: nat): nat {
    if s == 0 || a == 0 then 0 else 2 * LowBits(a / 2, s - 1) + a % 2
  }

  lemma {:induction false} AndOnesLowBits(a: nat, s: nat)
    ensures And(a, Pow2(s) - 1) == LowBits(a, s)
    decreases s
  {
    if s > 0 && a > 0 {
      AndOnesLowBits(a / 2, s - 1);
      AndOnesLowBitsStep(a, s);
    } else if s == 0 {
      assert Pow2(0) - 1 == 0;
    }
  }

  lemma AndOnesLowBitsStep(a: nat, s: nat)
    requires s > 0 && a > 0
    requires And(a / 2, Pow2(s - 1) - 1) == LowBits(a / 2, s - 1)
    ensures And(a, Pow2(s) - 1) == LowBits(a, s)
  {
    AndOnesStep(a, s);
  }

  lemma {:induction false} LowBitsMod(a: nat, s: nat)
    ensures LowBits(a, s) == a % Pow2(s)
  {
    if s > 0 && a > 0 {
      var p := Pow2(s - 1);
      assert Pow2(s) == 2 * p;
      LowBitsMod(a / 2, s - 1);
      ModDouble(a, p);
    } else if s > 0 {
      DivModOf(0, Pow2(s), 0, 0);
    }
  }

  /** One more one-bit in the mask keeps one more low bit of a. */
  lemma AndOnesStep(a: nat, s: nat)
    requires a > 0 && s > 0
    ensures And(a, Pow2(s) - 1) == 2 * And(a / 2, Pow2(s - 1) - 1) + a % 2
  {
    var p := Pow2(s - 1);
    assert Pow2(s) - 1 == 2 * p - 1;
    AndOddMask(a, p);
  }

  /** ANDing with an odd mask 2p - 1: the low bit is kept and the rest is the AND of the halves. */
  lemma AndOddMask(a: nat, p: nat)
    requires a > 0 && p >= 1
    ensures And(a, 2 * p - 1) == 2 * And(a / 2, p - 1) + a % 2
  {
    DivModOf(2 * p - 1, 2, p - 1, 1);
  }

  /** ANDing with an even mask 2y: the low bit is dropped and the rest is the AND of the halves. */
  lemma AndEven(a: nat, y: nat)
    ensures And(a, 2 * y) == 2 * And(a / 2, y)
  {
    if a > 0 && y > 0 {
      DivModOf(2 * y, 2, y, 0);
    }
  }

  /** Shift left by k (`<<` without truncation). */
  function Shl(x: nat, k: nat): (r: nat)
  {
    if k == 0 then x else 2 * Shl(x, k - 1)
  }

  /** Logical shift right by k (`>>` on an unsigned value). */
  function Shr(x: nat, k: nat): (r: nat)
  {
    if k == 0 then x else Shr(x / 2, k - 1)
  }

  lemma {:induction false} ShlIsMul(x: nat, k: nat)
    ensures Shl(x, k) == x * Pow2(k)
  {
    if k > 0 {
      ShlIsMul(x, k - 1);
      MulAssoc(x, 2, Pow2(k - 1));
    }
  }

  lemma {:induction false} ShrIsDiv(x: nat, k: nat)
    ensures Shr(x, k) == x / Pow2(k)
  {
    if k > 0 {
      ShrIsDiv(x / 2, k - 1);
      DivHalfThenPow2(x, k - 1);
    }
  }

  /** Shifting right undoes shifting left. */
  lemma {:induction false} ShrShl(x: nat, k: nat)
    ensures Shr(Shl(x, k), k) == x
  {
    if k > 0 {
      ShrShl(x, k - 1);
      ShrHalf(Shl(x, k - 1), k - 1);
    }
  }

  lemma ShrHalf(y: nat, j: nat)
    ensures Shr(2 * y, j + 1) == Shr(y, j)
  {
    assert (2 * y) / 2 == y;
  }

  /** ANDing with a mask shifted left by k is the AND of the shifted-down value, shifted back. */
  lemma {:induction false} AndShifted(a: nat, m: nat, k: nat)
    ensures And(a, Shl(m, k)) == Shl(And(Shr(a, k), m), k)
  {
    if k > 0 {
      AndEven(a, Shl(m, k - 1));
      AndShifted(a / 2, m, k - 1);
    }
  }

  /** A mask of `size` one-bits shifted left by `lo` selects bits lo .. lo+size-1. */
  lemma SelectField(a: nat, size: nat, lo: nat)
    ensures Shr(And(a, Shl(Pow2(size) - 1, lo)), lo) == Shr(a, lo) % Pow2(size)
  {
    AndShifted(a, Pow2(size) - 1, lo);
    AndLowOnes(Shr(a, lo), size);
    ShrShl(And(Shr(a, lo), Pow2(size) - 1), lo);
  }

  /** OR of a value with no low k bits and a value below 2^k is their sum. */
  lemma {:induction false} OrDisjoint(a: nat, b: nat, k: nat)
    requires a % Pow2(k) == 0 && b < Pow2(k)
    ensures Or(a, b) == a + b
  {
    if k > 0 && a > 0 && b > 0 {
      var p := Pow2(k - 1);
      var j := a / (2 * p);
      DivModSplit(a, 2 * p);
      assert a == (j * p) * 2;
      DivModOf(a, 2, j * p, 0);
      DivModOf(j * p, p, j, 0);
      DivModSplit(b, 2);
      OrDisjoint(a / 2, b / 2, k - 1);
    }
  }

  /** OR never leaves the width of its operands. */
  lemma {:induction false} OrBound(a: nat, b: nat, w: nat)
    requires a < Pow2(w) && b < Pow2(w)
    ensures Or(a, b) < Pow2(w)
  {
    if w > 0 && a > 0 && b > 0 {
      OrBound(a / 2, b / 2, w - 1);
    }
  }

  // ------------------------------------------------------------------
  // Two's complement reinterpretation (`as i16`, `as u16`, `as u8`)
  // ------------------------------------------------------------------

  /** `w as i16` for a `u16` w. */
  function ToSigned(w: U16): (v: I16)
    ensures v % 0x1_0000 == w
  {
    if w < 0x8000 then w else w - 0x1_0000
  }

  /** `v as u16` for an `i16` v. */
  function ToUnsigned(v: I16): (w: U16)
    ensures ToSigned(w) == v
  {
    if v < 0 then v + 0x1_0000 else v
  }

  /** `v as u8` for an `i8` v. */
  function ByteOf(v: I8): (b: U8)
    ensures b % 0x100 == v % 0x100
    ensures v >= 0 ==> b == v
  {
    if v < 0 then v + 0x100 else v
  }
}
