/** The original ADC driver against its rewrite: where the two agree and where not. */
module AdcRewrite {
  import opened Words
  import opened AdcWords
  import opened AdcRegisters
  import opened AdcClockMacro
  import opened AdcHeader
  import Original = AdcOriginal
  import Tdd = AdcTdd

  // ---- The clock --------------------------------------------------------------------

  lemma ByteIsLow(divisor: UChar)
    ensures Low10(divisor) == divisor
  {
  }

  lemma ExpandedDivisor(w: bv32, divisor: UChar, inverse: UChar)
    ensures And(ClockExpanded(w, ClockData(divisor, inverse)), 0x3ff) == Or(divisor, And(w, 0x3fe))
  {
  }

  /** After the same clock write the rewrite's divisor is the one that the original's macro
      was meant to set; it is the one that it does set exactly if the old divisor had no
      bit in 9:1 that the new one lacks. */
  lemma ClocksAgree(regs: Registers, w: bv32, divisor: UChar, inverse: UChar)
    ensures var data, d := ClockData(divisor, inverse), Tdd.ClockDivisor(Tdd.SetClock(regs, divisor));
            && d == And(ClockIntended(w, data), 0x3ff)
            && (d == And(ClockExpanded(w, data), 0x3ff) <==> AndNot(And(w, 0x3fe), divisor) == 0)
  {
    hide And, Or, AndNot, Low10, WithLow10, ClockIntended, ClockExpanded, ClockData;
    LowReadsBack(regs(Tdd.CLOCK_CONTROL), divisor);
    ByteIsLow(divisor);
    IntendedReplacesDivisor(w, divisor, inverse);
    ExpandedDivisor(w, divisor, inverse);
    UnionAddsNothing(divisor, And(w, 0x3fe));
  }

  // ---- The data registers -----------------------------------------------------------

  /** Channel by channel the original reads the register that the rewrite reads in its
      block, which is the header's except for channel 13. */
  lemma DataRegistersAgree(c: Channel)
    ensures Original.DataAddress(c) == 0x1E6E9000 + Tdd.DataOffset(c)
    ensures c <= 13 ==> (Original.DataAddress(c) == 0x1E6E9000 + HeaderDataOffset(c) <==> c != 13)
  {
    if c <= 13 {
      HeaderDataAgrees(c);
    }
  }

  // ---- Measurements -----------------------------------------------------------------

  /** The data registers hold the same in both drivers' blocks. */
  ghost predicate SameData(o: Registers, t: Registers) {
    forall c: Channel :: o(Original.DataAddress(c)) == t(Tdd.DataOffset(c))
  }

  lemma SamplesAgree(o: Registers, t: Registers, c: Channel)
    requires SameData(o, t)
    ensures Original.Raw(o, c) == Tdd.Sample(t, c) as int
  {
    hide And, Down16, Original.DataAddress, Tdd.DataOffset;
  }

  /** The original reports a number for every channel; the rewrite yields -1 for one that
      is off. For a channel that is on, the original reports the rewrite's measurement
      shifted by the compensation; without compensation they agree exactly if it is on. */
  lemma OffChannelsDiffer(o: Registers, t: Registers, c: Channel, sensed: Original.RawSample)
    requires SameData(o, t)
    ensures var report, measured := Original.Report(Original.Raw(o, c), Original.Compensation(sensed)),
                Tdd.Measure(t, c);
            && 0 <= report
            && (Tdd.ChanStatus(t, c) == 0 ==> measured == 0xFFFF_FFFF)
            && (Tdd.ChanStatus(t, c) != 0 ==>
                  && measured as int < 0x400
                  && report == Original.Report(measured as int, Original.Compensation(sensed)))
            && (Original.Report(Original.Raw(o, c), 0) == measured as int <==> Tdd.ChanStatus(t, c) != 0)
  {
    hide Original.Raw, Tdd.Sample, Tdd.ChanStatus;
    SamplesAgree(o, t, c);
  }
}
