/** Bit by bit: what remainders, bytes and single-bit tests read of a word. */
module WordBits {
  import opened Bits
  import opened Division

  /** A remainder by 2^n keeps the n low bits. */
  lemma {:induction false} LowBits(x: nat, n: nat, b: nat)
    requires b < n
    ensures Bit(x % Pow2(n), b) == Bit(x, b)
    decreases n
  {
    SplitLowBit(x, Pow2(n - 1));
    if b > 0 {
      LowBits(x / 2, n - 1, b - 1);
    }
  }

  lemma {:induction false} NoBitsAbove(x: nat, n: nat, b: nat)
    requires x < Pow2(n) && n <= b
    ensures !Bit(x, b)
    decreases b
  {
    if b > 0 {
      if n > 0 {
        NoBitsAbove(x / 2, n - 1, b - 1);
      } else {
        NoBitsAbove(x / 2, 0, b - 1);
      }
    }
  }

  /** The second byte of a word is its bits 15 to 8, whatever the other bits are. */
  lemma SecondByteReads(w: nat, k: nat)
    ensures Bit(SecondByte(w), k) <==> k < 8 && Bit(w, 8 + k)
  {
    assert Pow2(8) == 256;
    EightHalves(w);
    if k < 8 {
      LowBits(w / 256, 8, k);
      ShiftReads(w, 8, k);
    } else {
      NoBitsAbove(SecondByte(w), 8, k);
    }
  }

  lemma EightHalves(w: nat)
    ensures Shift(w, 8) == w / 256
  {
    assert Shift(w, 8) == Shift(w / 16, 4) by {
      assert Shift(w, 8) == Shift(w / 2 / 2 / 2 / 2, 4);
    }
  }

  /** Bits 15 to 8 of w are those of b. */
  predicate Carries(w: nat, b: Byte) {
    forall k | 0 <= k < 8 :: Bit(b, k) <==> Bit(w, 8 + k)
  }

  lemma {:induction false} SameWhenBitsAre(x: nat, y: nat, n: nat)
    requires x < Pow2(n) && y < Pow2(n)
    requires forall k | 0 <= k < n :: Bit(x, k) <==> Bit(y, k)
    ensures x == y
  {
    if n > 0 {
      assert Bit(x, 0) <==> Bit(y, 0);
      forall k | 0 <= k < n - 1
        ensures Bit(x / 2, k) <==> Bit(y / 2, k)
      {
        assert Bit(x, k + 1) <==> Bit(y, k + 1);
      }
      SameWhenBitsAre(x / 2, y / 2, n - 1);
    }
  }

  lemma CarriedByte(w: nat, b: Byte)
    ensures Carries(w, b) <==> SecondByte(w) == b
  {
    hide Bit, SecondByte;
    forall k: nat
      ensures Bit(SecondByte(w), k) <==> k < 8 && Bit(w, 8 + k)
    {
      SecondByteReads(w, k);
    }
    assert Pow2(8) == 256;
    if Carries(w, b) {
      SameWhenBitsAre(SecondByte(w), b, 8);
    }
  }
}
