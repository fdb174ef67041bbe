/** Unsigned machine words as natural numbers: a right shift by k is division by
    2^k and a mask of the k low bits is the remainder by 2^k, so single bits are
    reached by halving. */
module Bits {

  type Word = w: int | 0 <= w < 0x1_0000_0000
  type Byte = b: int | 0 <= b < 0x100

  /** Bit k of w, the test `(w & (1 << k)) != 0`. */
  predicate Bit(w: nat, k: nat)
    decreases k
  {
    if k == 0 then w % 2 == 1 else Bit(w / 2, k - 1)
  }

  /** `w >> k`. */
  function Shift(w: nat, k: nat): nat
    decreases k
  {
    if k == 0 then w else Shift(w / 2, k - 1)
  }

  /** `w | (1 << k)`. */
  function SetBit(w: nat, k: nat): nat
    decreases k
  {
    if k == 0 then w - w % 2 + 1 else 2 * SetBit(w / 2, k - 1) + w % 2
  }

  /** `w & ~(1 << k)`. */
  function ClearBit(w: nat, k: nat): nat
    decreases k
  {
    if k == 0 then w - w % 2 else 2 * ClearBit(w / 2, k - 1) + w % 2
  }

  /** Bits 15:8 of w, `(w & 0xff00) >> 8`. */
  function SecondByte(w: nat): Byte {
    (w / 256) % 256
  }

  function Pow2(n: nat): (p: nat)
    ensures p > 0
  {
    if n == 0 then 1 else 2 * Pow2(n - 1)
  }

  lemma {:induction false} ShiftReads(w: nat, k: nat, j: nat)
    ensures Bit(Shift(w, k), j) == Bit(w, k + j)
    decreases k
  {
    if k > 0 {
      ShiftReads(w / 2, k - 1, j);
    }
  }

  lemma {:induction false} SetBitReads(w: nat, k: nat, j: nat)
    ensures Bit(SetBit(w, k), j) <==> j == k || Bit(w, j)
    decreases k
  {
    if k > 0 && j > 0 {
      SetBitReads(w / 2, k - 1, j - 1);
    }
  }

  lemma {:induction false} ClearBitReads(w: nat, k: nat, j: nat)
    ensures Bit(ClearBit(w, k), j) <==> j != k && Bit(w, j)
    decreases k
  {
    if k > 0 && j > 0 {
      ClearBitReads(w / 2, k - 1, j - 1);
    }
  }

  /** Setting or clearing one of the n low bits stays below 2^n. */
  lemma {:induction false} StaysBelow(w: nat, k: nat, n: nat)
    requires k < n && w < Pow2(n)
    ensures SetBit(w, k) < Pow2(n) && ClearBit(w, k) < Pow2(n)
    decreases k
  {
    if k > 0 {
      StaysBelow(w / 2, k - 1, n - 1);
    }
  }

  lemma Pow2Of32()
    ensures Pow2(32) == 0x1_0000_0000
  {
    assert Pow2(8) == 0x100 && Pow2(16) == 0x1_0000 && Pow2(24) == 0x100_0000;
  }

  /** The same operations on a 32-bit register. */
  function SetWordBit(w: Word, k: nat): Word
    requires k < 32
  {
    Pow2Of32(); StaysBelow(w, k, 32);
    SetBit(w, k)
  }

  function ClearWordBit(w: Word, k: nat): Word
    requires k < 32
  {
    Pow2Of32(); StaysBelow(w, k, 32);
    ClearBit(w, k)
  }
}
