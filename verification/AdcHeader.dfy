/** The register layout that the ADC header names, next to the one that the rewritten
    driver uses. */
module AdcHeader {
  import opened Words
  import opened AdcWords
  import opened AdcRegisters
  import opened AdcTdd

  /** The channels of the header, 0 to 13. */
  type HeaderChannel = c: bv32 | c <= 13

  /** ADC_DATA_0_1 to ADC_DATA_13: channels 12 and 13 have a register each. */
  function HeaderDataOffset(c: HeaderChannel): bv32 {
    if c == 13 then 0x2C else 0x10 + 4 * (c / 2)
  }

  /** Bit 16 + c, from ADC_CHANNEL_ENABLE. */
  function HeaderEnable(c: HeaderChannel): bv32 {
    Mask(16 + c)
  }

  /** The driver reads the header's register for every channel but 13, which it takes from
      the upper half of channel 12's. */
  lemma HeaderDataAgrees(c: HeaderChannel)
    ensures DataOffset(c) == HeaderDataOffset(c) <==> c != 13
    ensures DataOffset(13) == HeaderDataOffset(12) == 0x28
  {
  }

  /** Even channels are the low 10 bits of their register, odd ones bits 25:16; so channel
      13 is the upper half of 0x28. */
  lemma SampleHalves(regs: Registers, c: HeaderChannel)
    ensures Sample(regs, c) == (if c % 2 == 0 then regs(DataOffset(c)) & 0x3ff else (regs(DataOffset(c)) >> 16) & 0x3ff)
    ensures Sample(regs, 12) == regs(0x28) & 0x3ff && Sample(regs, 13) == (regs(0x28) >> 16) & 0x3ff
  {
  }

  /** Which register each operation writes, and that it writes no other. */
  lemma RegistersWritten(regs: Registers, c: HeaderChannel, v: bv32, sample: Stub, offset: bv32)
    ensures SetClock(regs, v)(offset) == if offset == 0x0C then WithLow10(regs(0x0C), v) else regs(offset)
    ensures offset != 0x00 ==> EnableChan(regs, c, v)(offset) == regs(offset)
    ensures offset != 0x10 + 4 * (c / 2) ==> WriteSample(regs, c, sample)(offset) == regs(offset)
    ensures ClockDivisor(regs) == regs(0x0C) & 0x3ff
  {
    hide WithLow10, WithHigh10, WithChanBit, WithoutChanBit;
  }

  /** Switching a channel leaves every other bit of the control register as it was. */
  lemma OnlyItsBit(regs: Registers, c: HeaderChannel, v: bv32, k: BitIndex)
    requires k != c
    ensures And(EnableChan(regs, c, v)(0x00), Mask(k)) == And(regs(0x00), Mask(k))
  {
    hide And, Or, AndNot, Mask;
    MasksDisjoint(c, k);
    SetLeavesDisjoint(regs(0x00), Mask(c), Mask(k));
    ClearLeavesDisjoint(regs(0x00), Mask(c), Mask(k));
  }

  /** The unused bits of a data register: a sample for the upper half adds its upper bits to
      them and clears none. */
  lemma AboveHigh(w: bv32, v: bv32)
    ensures AndNot(WithHigh10(w, v), 0x3ff << 16) == Or(AndNot(w, 0x3ff << 16), AndNot(Up16(v), 0x3ff << 16))
  {
    hide AndNot, Or, Up16;
    ClearDistributes(AndNot(w, 0x3ff << 16), Up16(v), 0x3ff << 16);
    ClearTwice(w, 0x3ff << 16);
  }

  lemma LowMask(c: HeaderChannel)
    ensures And(Mask(c), 0xffff_0000) == 0
  {
  }

  lemma EnableIsHigh(c: HeaderChannel)
    ensures And(0xffff_0000, HeaderEnable(c)) == HeaderEnable(c)
  {
  }

  /** Switching a channel on or off never changes a bit that the header calls a channel
      enable. */
  lemma HeaderEnablesKept(regs: Registers, c: HeaderChannel, v: bv32)
    ensures var before, after := regs(ENGINE_CONTROL), EnableChan(regs, c, v)(ENGINE_CONTROL);
            And(after, 0xffff_0000) == And(before, 0xffff_0000)
  {
    hide And, Or, AndNot, Mask;
    LowMask(c);
    SetLeavesDisjoint(regs(ENGINE_CONTROL), Mask(c), 0xffff_0000);
    ClearLeavesDisjoint(regs(ENGINE_CONTROL), Mask(c), 0xffff_0000);
  }

  /** So the header's enable bit of a channel is as asked for exactly if it was before. */
  lemma HeaderEnableAsAsked(regs: Registers, c: HeaderChannel, v: bv32)
    ensures var before, after := regs(ENGINE_CONTROL), EnableChan(regs, c, v)(ENGINE_CONTROL);
            ((And(after, HeaderEnable(c)) != 0 <==> v == 1) <==> (And(before, HeaderEnable(c)) != 0 <==> v == 1))
  {
    hide And, HeaderEnable, EnableChan;
    var before, after := regs(ENGINE_CONTROL), EnableChan(regs, c, v)(ENGINE_CONTROL);
    HeaderEnablesKept(regs, c, v);
    EnableIsHigh(c);
    AndAssociates(before, 0xffff_0000, HeaderEnable(c));
    AndAssociates(after, 0xffff_0000, HeaderEnable(c));
  }

  lemma FirstMask()
    ensures Mask(0) == 1
  {
  }

  lemma OtherMask(c: HeaderChannel)
    requires c != 0
    ensures And(Mask(c), 1) == 0
  {
  }

  /** What changes instead for channel 0 is bit 0, which the header calls ENGINE_ENABLE:
      switching off channel 0 stops the engine, and no other channel touches it. */
  lemma ChannelZeroIsEngine(regs: Registers, c: HeaderChannel, v: bv32)
    ensures var before, after := regs(ENGINE_CONTROL), EnableChan(regs, c, v)(ENGINE_CONTROL);
            And(after, 1) == if c != 0 then And(before, 1) else if v == 1 then 1 else 0
  {
    hide And, Or, AndNot, Mask;
    var w := regs(ENGINE_CONTROL);
    if c == 0 {
      FirstMask();
      OwnBits(w, 1);
    } else {
      OtherMask(c);
      SetLeavesDisjoint(w, Mask(c), 1);
      ClearLeavesDisjoint(w, Mask(c), 1);
    }
  }

  /** On cleared registers, switching on channel 1 sets a bit of the operation mode and
      leaves the header's enable bit of channel 1 off. */
  lemma ChannelOneSetsMode()
    ensures EnableChan(Zeroed(), 1, 1)(ENGINE_CONTROL) == 1 << 1
    ensures And(EnableChan(Zeroed(), 1, 1)(ENGINE_CONTROL), HeaderEnable(1)) == 0
  {
    hide And;
    var w := EnableChan(Zeroed(), 1, 1)(ENGINE_CONTROL);
    assert w == 2;
    assert And(2, HeaderEnable(1)) == 0 by {
      ModeBitIsNoEnable();
    }
  }

  lemma ModeBitIsNoEnable()
    ensures And(2, HeaderEnable(1)) == 0
  {
  }
}
