/** The fields of the ADC's registers, one word at a time. */
module AdcWords {
  import opened Words

  /** The channel numbers c for which `1 << c` is defined on a 32-bit int. */
  type Channel = c: bv32 | c <= 30

  /** A 16-bit value. */
  type Stub = v: bv32 | v <= 0xFFFF

  function Down(w: bv32, chan: Channel): bv32 {
    w >> chan
  }

  // ---- Channel bits -----------------------------------------------------------------

  function ChanBit(w: bv32, chan: Channel): bv32 {
    Down(And(w, Mask(chan)), chan)
  }

  function WithoutChanBit(w: bv32, chan: Channel): bv32 {
    AndNot(w, Mask(chan))
  }

  function WithChanBit(w: bv32, chan: Channel): bv32 {
    Or(AndNot(w, Mask(chan)), Mask(chan))
  }

  lemma MaskComesDown(c: Channel)
    ensures Down(Mask(c), c) == 1 && Down(0, c) == 0
  {
  }

  /** Setting or clearing the bits of m leaves those of a disjoint n alone. */
  lemma SetLeavesDisjoint(w: bv32, m: bv32, n: bv32)
    requires And(m, n) == 0
    ensures And(Or(AndNot(w, m), m), n) == And(w, n)
  {
    DisjointBits(w, m, n);
  }

  lemma ClearLeavesDisjoint(w: bv32, m: bv32, n: bv32)
    requires And(m, n) == 0
    ensures And(AndNot(w, m), n) == And(w, n)
  {
    DisjointBits(w, m, n);
  }

  lemma DisjointBits(w: bv32, m: bv32, n: bv32)
    requires m & n == 0
    ensures ((w & !m) | m) & n == w & n && (w & !m) & n == w & n
  {
  }

  lemma OwnBits(w: bv32, m: bv32)
    ensures And(Or(AndNot(w, m), m), m) == m && And(AndNot(w, m), m) == 0
  {
  }

  lemma ChanBitReadsBack(w: bv32, a: Channel, c: Channel)
    ensures ChanBit(WithChanBit(w, a), c) == if a == c then 1 else ChanBit(w, c)
    ensures ChanBit(WithoutChanBit(w, a), c) == if a == c then 0 else ChanBit(w, c)
  {
    hide Mask, Down, And, Or, AndNot;
    if a == c {
      OwnBits(w, Mask(a));
      MaskComesDown(a);
    } else {
      MasksDisjoint(a, c);
      SetLeavesDisjoint(w, Mask(a), Mask(c));
      ClearLeavesDisjoint(w, Mask(a), Mask(c));
    }
  }

  // ---- 10-bit fields ----------------------------------------------------------------

  function Low10(v: bv32): bv32 {
    And(v, 0x3ff)
  }

  function High10(w: bv32): bv32 {
    And(Down16(w), 0x3ff)
  }

  function WithLow10(w: bv32, v: bv32): bv32 {
    Or(AndNot(w, 0x3ff), v)
  }

  function WithHigh10(w: bv32, v: bv32): bv32 {
    Or(AndNot(w, 0x3ff << 16), Up16(v))
  }

  lemma LowReadsBack(w: bv32, v: bv32)
    ensures Low10(WithLow10(w, v)) == Low10(v)
  {
  }

  lemma LowLeavesHigh(w: bv32, v: Stub)
    ensures High10(WithLow10(w, v)) == High10(w)
  {
  }

  lemma HighReadsBack(w: bv32, v: bv32)
    ensures High10(WithHigh10(w, v)) == Low10(v)
  {
  }

  lemma HighLeavesLow(w: bv32, v: bv32)
    ensures Low10(WithHigh10(w, v)) == Low10(w)
  {
  }

  lemma ZeroReads(c: Channel)
    ensures ChanBit(0, c) == 0 && Low10(0) == 0 && High10(0) == 0
  {
  }

  /** Bits above the low field: writing v gains those of v and loses none, so they stay
      as they were exactly when v brings nothing new. */
  lemma AboveLow(w: bv32, v: bv32)
    ensures AndNot(WithLow10(w, v), 0x3ff) == Or(AndNot(w, 0x3ff), AndNot(v, 0x3ff))
  {
    hide AndNot, Or;
    ClearDistributes(AndNot(w, 0x3ff), v, 0x3ff);
    ClearTwice(w, 0x3ff);
  }

  lemma AboveLowUnchanged(w: bv32, v: bv32)
    ensures AndNot(WithLow10(w, v), 0x3ff) == AndNot(w, 0x3ff) <==> AndNot(AndNot(v, 0x3ff), w) == 0
  {
    hide AndNot, Or;
    AboveLow(w, v);
    UnionAddsNothing(AndNot(w, 0x3ff), AndNot(v, 0x3ff));
    SameRemainder(w, v, 0x3ff);
  }

  lemma SameRemainder(w: bv32, v: bv32, m: bv32)
    ensures AndNot(AndNot(v, m), AndNot(w, m)) == AndNot(AndNot(v, m), w)
  {
  }
}
