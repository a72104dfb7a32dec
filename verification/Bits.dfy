/** Bits of numbers, and the machine's operations on 32-bit words written out as arithmetic. */
module Bits {
  const WORD := 0x1_0000_0000

  type u32 = n: int | 0 <= n < 0x1_0000_0000

  // ------------------------------------------------------------ bits

  /** Bit i, the lowest being bit 0. */
  function Bit(x: nat, i: nat): nat {
    if i == 0 then x % 2 else Bit(x / 2, i - 1)
  }

  function Pow2(n: nat): (p: nat)
    ensures p > 0
  {
    if n == 0 then 1 else 2 * Pow2(n - 1)
  }

  function Xor(a: nat, b: nat): nat
    decreases a + b
  {
    if a == 0 && b == 0 then 0 else 2 * Xor(a / 2, b / 2) + (a % 2 + b % 2) % 2
  }

  function Or(a: nat, b: nat): nat
    decreases a + b
  {
    if a == 0 && b == 0 then 0 else 2 * Or(a / 2, b / 2) + if a % 2 + b % 2 > 0 then 1 else 0
  }

  function Shr(x: nat, n: nat): nat {
    if n == 0 then x else Shr(x / 2, n - 1)
  }

  lemma {:induction false} XorBit(a: nat, b: nat, i: nat)
    ensures Bit(Xor(a, b), i) == (Bit(a, i) + Bit(b, i)) % 2
    decreases i
  {
    if a == 0 && b == 0 {
      ZeroBit(i);
    } else if i > 0 {
      XorBit(a / 2, b / 2, i - 1);
    }
  }

  lemma {:induction false} ZeroBit(i: nat)
    ensures Bit(0, i) == 0
  {
    if i > 0 { ZeroBit(i - 1); }
  }

  lemma {:induction false} ShrBit(x: nat, n: nat, i: nat)
    ensures Bit(Shr(x, n), i) == Bit(x, i + n)
    decreases n
  {
    if n > 0 { ShrBit(x / 2, n - 1, i); }
  }

  lemma {:induction false} HighBit(x: nat, n: nat, i: nat)
    requires x < Pow2(n) && i >= n
    ensures Bit(x, i) == 0
    decreases n
  {
    if n == 0 { ZeroBit(i); } else { HighBit(x / 2, n - 1, i - 1); }
  }

  lemma {:induction false} XorBelow(a: nat, b: nat, n: nat)
    requires a < Pow2(n) && b < Pow2(n)
    ensures Xor(a, b) < Pow2(n)
    decreases n
  {
    if n > 0 { XorBelow(a / 2, b / 2, n - 1); }
  }

  lemma {:induction false} ShrBelow(x: nat, n: nat)
    ensures Shr(x, n) <= x
    decreases n
  {
    if n > 0 { ShrBelow(x / 2, n - 1); }
  }

  /** A word is determined by its bits. */
  lemma {:induction false} SameBits(a: nat, b: nat, n: nat)
    requires a < Pow2(n) && b < Pow2(n) && forall i | 0 <= i < n :: Bit(a, i) == Bit(b, i)
    ensures a == b
    decreases n
  {
    if n > 0 {
      assert Bit(a, 0) == Bit(b, 0);
      forall i | 0 <= i < n - 1 ensures Bit(a / 2, i) == Bit(b / 2, i) {
        assert Bit(a, i + 1) == Bit(b, i + 1);
      }
      SameBits(a / 2, b / 2, n - 1);
    }
  }

  lemma WordSize()
    ensures Pow2(32) == WORD
  {
    Pow2Adds(8, 8);
    Pow2Adds(16, 16);
    assert Pow2(8) == 256;
  }

  lemma {:induction false} Pow2Adds(m: nat, n: nat)
    ensures Pow2(m + n) == Pow2(m) * Pow2(n)
    decreases m
  {
    if m > 0 { Pow2Adds(m - 1, n); }
  }

  lemma {:induction false} XorAbove(a: nat, b: nat, n: nat)
    requires b < Pow2(n)
    ensures Xor(a * Pow2(n), b) == a * Pow2(n) + b
    decreases n
  {
    if n == 0 {
      XorZero(a);
    } else {
      Halved(a, n);
      XorAbove(a, b / 2, n - 1);
      XorZero(0);
    }
  }

  lemma {:induction false} OrAbove(a: nat, b: nat, n: nat)
    requires a < Pow2(n)
    ensures Or(a, b * Pow2(n)) == a + b * Pow2(n)
    decreases n
  {
    if n == 0 {
      OrZero(b);
    } else {
      Halved(b, n);
      OrAbove(a / 2, b, n - 1);
      OrZero(0);
    }
  }

  lemma {:induction false} XorZero(a: nat)
    ensures Xor(a, 0) == a && Xor(0, a) == a
  {
    if a > 0 { XorZero(a / 2); }
  }

  lemma {:induction false} OrZero(a: nat)
    ensures Or(0, a) == a
  {
    if a > 0 { OrZero(a / 2); }
  }

  lemma Halved(a: nat, n: nat)
    requires n > 0
    ensures a * Pow2(n) == 2 * (a * Pow2(n - 1))
  {
  }

  lemma {:induction false} BitIsBit(a: nat, i: nat)
    ensures Bit(a, i) <= 1
  {
    if i > 0 { BitIsBit(a / 2, i - 1); }
  }

  lemma BytePowers()
    ensures Pow2(8) == 0x100 && Pow2(16) == 0x1_0000 && Pow2(24) == 0x100_0000
  {
    Pow2Adds(8, 8);
    Pow2Adds(16, 8);
    assert Pow2(8) == 0x100;
  }

  // ------------------------------------------------------------ the machine's operations

  /** Multiplication wraps around. */
  function Times(a: u32, b: u32): u32 {
    a * b % WORD
  }

  function XorWord(a: u32, b: u32): u32 {
    WordSize();
    XorBelow(a, b, 32);
    Xor(a, b)
  }

  function ShrWord(a: u32, n: nat): u32 {
    ShrBelow(a, n);
    Shr(a, n)
  }

  lemma XorIs(a: u32, b: u32)
    ensures XorWord(a, b) == Xor(a, b)
  {
  }

  // ------------------------------------------------------------ digit by digit

  function Differ(x: nat, y: nat): nat {
    if x == y then 0 else 1
  }

  lemma XorLowBit(p: nat, x: nat, q: nat, y: nat)
    requires x < 2 && y < 2
    ensures Xor(2 * p + x, 2 * q + y) == 2 * Xor(p, q) + Differ(x, y)
  {
    XorZero(0);
  }

  /** Words are xor-ed digit by digit, digits bit by bit. */
  lemma XorDigits(a: nat, a3: nat, a2: nat, a1: nat, a0: nat, b: nat, b3: nat, b2: nat, b1: nat, b0: nat)
    requires a3 < 2 && a2 < 2 && a1 < 2 && a0 < 2 && b3 < 2 && b2 < 2 && b1 < 2 && b0 < 2
    ensures Xor(16 * a + 8 * a3 + 4 * a2 + 2 * a1 + a0, 16 * b + 8 * b3 + 4 * b2 + 2 * b1 + b0) ==
      16 * Xor(a, b) + 8 * Differ(a3, b3) + 4 * Differ(a2, b2) + 2 * Differ(a1, b1) + Differ(a0, b0)
  {
    hide Xor, Differ;
    XorLowBit(a, a3, b, b3);
    XorLowBit(2 * a + a3, a2, 2 * b + b3, b2);
    XorLowBit(4 * a + 2 * a3 + a2, a1, 4 * b + 2 * b3 + b2, b1);
    XorLowBit(8 * a + 4 * a3 + 2 * a2 + a1, a0, 8 * b + 4 * b3 + 2 * b2 + b1, b0);
  }

  lemma {:induction false} ShrTwice(x: nat, m: nat, n: nat)
    ensures Shr(x, m + n) == Shr(Shr(x, m), n)
    decreases m
  {
    if m > 0 { ShrTwice(x / 2, m - 1, n); }
  }

  lemma PairShift(x: nat)
    ensures Shr(x, 2) == x / 4
  {
    assert Shr(x, 2) == Shr(x / 2, 1) == Shr(x / 2 / 2, 0);
  }

  lemma ByteShift(x: nat)
    ensures Shr(x, 8) == x / 256
  {
    hide Shr;
    PairShift(x);
    PairShift(x / 4);
    PairShift(x / 16);
    PairShift(x / 64);
    ShrTwice(x, 2, 6);
    ShrTwice(x / 4, 2, 4);
    ShrTwice(x / 16, 2, 2);
  }
}
