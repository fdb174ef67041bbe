/** The original ADC driver's clock register macro: as it expands, with the argument
    after `~` not in parentheses, and as intended. */
module AdcClockMacro {
  import opened Words

  type UChar = v: bv32 | v <= 0xFF

  /** The argument is `(0x01 << 16) + 0x3ff`, so the mask is `~(0x01 << 16) + 0x3ff`. */
  function ExpandedMask(): bv32 {
    !(0x01 << 16) + 0x3ff
  }

  function IntendedMask(): bv32 {
    !((0x01 << 16) + 0x3ff)
  }

  /** The value or-ed in: the divisor, and the inverse byte above it. */
  function ClockData(divisor: UChar, inverse: UChar): bv32 {
    Or(divisor, Up16(inverse))
  }

  function ClockExpanded(w: bv32, data: bv32): bv32 {
    Or(And(w, ExpandedMask()), data)
  }

  function ClockIntended(w: bv32, data: bv32): bv32 {
    Or(And(w, IntendedMask()), data)
  }

  /** Old bits 16:1 that data does not have. */
  function Lost(w: bv32, data: bv32): bv32 {
    AndNot(And(w, 0x1_fffe), data)
  }

  lemma MasksInParts()
    ensures ExpandedMask() == Or(0xfffe_0000, 0x1_03fe) && IntendedMask() == Or(0xfffe_0000, 0xfc00)
  {
  }

  lemma LostInParts(w: bv32, data: bv32)
    requires Lost(w, data) == 0
    ensures AndNot(And(w, 0x1_03fe), data) == 0 && AndNot(And(w, 0xfc00), data) == 0
  {
  }

  lemma KeepsPart(w: bv32, a: bv32, b: bv32, data: bv32)
    requires AndNot(And(w, b), data) == 0
    ensures Or(And(w, Or(a, b)), data) == Or(And(w, a), data)
  {
    hide And, Or, AndNot;
    AndCommutes(w, Or(a, b));
    AndCommutes(w, a);
    AndCommutes(w, b);
    AndDistributes(a, b, w);
    OrAssociates(And(w, a), And(w, b), data);
    OrCommutes(And(w, b), data);
    UnionAddsNothing(data, And(w, b));
  }

  lemma AgreeIfNothingLost(w: bv32, data: bv32)
    requires Lost(w, data) == 0
    ensures ClockExpanded(w, data) == ClockIntended(w, data)
  {
    hide And, Or, AndNot, Lost, ExpandedMask, IntendedMask;
    MasksInParts();
    LostInParts(w, data);
    KeepsPart(w, 0xfffe_0000, 0x1_03fe, data);
    KeepsPart(w, 0xfffe_0000, 0xfc00, data);
  }

  lemma NothingLostIfAgree(w: bv32, data: bv32)
    requires ClockExpanded(w, data) == ClockIntended(w, data)
    ensures Lost(w, data) == 0
  {
  }

  /** For a divisor and an inverse byte, nothing is lost exactly when the old divisor
      bits 9:1 are among the new ones, bits 15:10 are clear, and the old inverse bit is
      among the new ones. */
  lemma LostByFields(w: bv32, divisor: UChar, inverse: UChar)
    ensures Lost(w, ClockData(divisor, inverse)) == 0
       <==> (w & 0x3fe & !(divisor as bv32) == 0 && w & 0xfc00 == 0 && w & 0x1_0000 & !(Up16(inverse)) == 0)
  {
  }

  /** set_adc_clock as expanded writes what was intended exactly in that case. */
  lemma ClockFormsAgree(w: bv32, divisor: UChar, inverse: UChar)
    ensures var data := ClockData(divisor, inverse);
            (ClockExpanded(w, data) == ClockIntended(w, data)
             <==> w & 0x3fe & !(divisor as bv32) == 0 && w & 0xfc00 == 0 && w & 0x1_0000 & !(Up16(inverse)) == 0)
  {
    hide ClockData, ClockExpanded, ClockIntended, Lost, Up16;
    var data := ClockData(divisor, inverse);
    LostByFields(w, divisor, inverse);
    if Lost(w, data) == 0 {
      AgreeIfNothingLost(w, data);
    }
    if ClockExpanded(w, data) == ClockIntended(w, data) {
      NothingLostIfAgree(w, data);
    }
  }

  // ---- One write, field by field ----------------------------------------------------

  /** As expanded, one write adds to the divisor bits 9:1 and to bits 31:16, replaces
      bit 0, and clears bits 15:10. */
  lemma ExpandedAddsDivisor(w: bv32, divisor: UChar, inverse: UChar)
    ensures And(ClockExpanded(w, ClockData(divisor, inverse)), 0x3fe) == Or(And(w, 0x3fe), And(divisor, 0x3fe))
  {
  }

  lemma ExpandedAddsInverse(w: bv32, divisor: UChar, inverse: UChar)
    ensures And(ClockExpanded(w, ClockData(divisor, inverse)), 0xffff_0000) == Or(And(w, 0xffff_0000), Up16(inverse))
  {
    hide And, Or, ClockData, ExpandedMask, Up16;
    var data := ClockData(divisor, inverse);
    AndDistributes(And(w, ExpandedMask()), data, 0xffff_0000);
    AndAssociates(w, ExpandedMask(), 0xffff_0000);
    UpperHalves(divisor, inverse);
  }

  lemma UpperHalves(divisor: UChar, inverse: UChar)
    ensures And(ExpandedMask(), 0xffff_0000) == 0xffff_0000
    ensures And(ClockData(divisor, inverse), 0xffff_0000) == Up16(inverse)
  {
  }

  lemma ExpandedReplacesBit0(w: bv32, divisor: UChar, inverse: UChar)
    ensures And(ClockExpanded(w, ClockData(divisor, inverse)), 1) == And(divisor, 1)
  {
  }

  lemma ExpandedClearsRest(w: bv32, divisor: UChar, inverse: UChar)
    ensures And(ClockExpanded(w, ClockData(divisor, inverse)), 0xfc00) == 0
  {
  }

  /** Intended, a write replaces the whole divisor. */
  lemma IntendedReplacesDivisor(w: bv32, divisor: UChar, inverse: UChar)
    ensures And(ClockIntended(w, ClockData(divisor, inverse)), 0x3ff) == divisor
  {
  }

  lemma UpDistributes(x: bv32, y: bv32)
    ensures Up16(Or(x, y)) == Or(Up16(x), Up16(y))
  {
  }

  /** Over the divisor 0x40 that the initialisation leaves, setting 0x20 yields 0x60. */
  lemma ClockKeepsOldDivisor()
    ensures ClockExpanded(0x40, ClockData(0x20, 0)) == 0x60
    ensures ClockIntended(0x40, ClockData(0x20, 0)) == 0x20
  {
  }
}
