/** The original ADC driver's enable and disable macros on single words: as they expand,
    with the argument after `~` not in parentheses, and as intended. */
module AdcChannelMacro {
  import opened Words

  /** The channels with an enable bit, bit 16 + c of the engine control register. */
  type EngineChannel = c: bv32 | c < 16

  // ---- Channel enable bits ----------------------------------------------------------

  function ChannelMask(c: EngineChannel): bv32 {
    Mask(16 + c)
  }

  /** `~0x01 << (16 + c)`. */
  function KeptAbove(c: EngineChannel): bv32 {
    !0x01 << (16 + c)
  }

  function Below(c: EngineChannel): bv32 {
    ChannelMask(c) - 1
  }

  predicate On(w: bv32, c: EngineChannel) {
    And(w, ChannelMask(c)) != 0
  }

  function Enable(w: bv32, c: EngineChannel): bv32 {
    Or(w, ChannelMask(c))
  }

  function DisableExpanded(w: bv32, c: EngineChannel): bv32 {
    And(w, KeptAbove(c))
  }

  function DisableIntended(w: bv32, c: EngineChannel): bv32 {
    AndNot(w, ChannelMask(c))
  }

  lemma MaskNotZero(c: EngineChannel)
    ensures ChannelMask(c) != 0 && And(ChannelMask(c), ChannelMask(c)) == ChannelMask(c)
  {
  }

  lemma KeptIsAbove(c: EngineChannel, k: EngineChannel)
    ensures And(KeptAbove(c), ChannelMask(k)) == if k > c then ChannelMask(k) else 0
  {
  }

  lemma KeptBelowDisjoint(c: EngineChannel)
    ensures And(KeptAbove(c), Below(c)) == 0
  {
  }

  lemma KeptWithoutEngine(c: EngineChannel)
    ensures And(KeptAbove(c), 0xffff) == 0
  {
  }

  lemma AllButMask(w: bv32, c: EngineChannel)
    ensures AndNot(w, ChannelMask(c)) == Or(And(w, KeptAbove(c)), And(w, Below(c)))
  {
  }

  lemma EnableBit(w: bv32, c: EngineChannel, k: EngineChannel)
    ensures On(Enable(w, c), k) <==> k == c || On(w, k)
  {
    hide And, Or, Mask;
    AndDistributes(w, ChannelMask(c), ChannelMask(k));
    ZeroLaws(And(w, ChannelMask(k)));
    if c == k {
      MaskNotZero(c);
      OrIsZero(And(w, ChannelMask(k)), ChannelMask(c));
    } else {
      MasksDisjoint(16 + c, 16 + k);
    }
  }

  /** Enabling a channel leaves every other bit as it was. */
  lemma EnableSetsOneBit(w: bv32, c: EngineChannel)
    ensures AndNot(Enable(w, c), ChannelMask(c)) == AndNot(w, ChannelMask(c))
    ensures ChannelMask(0) == 0x1_0000 && ChannelMask(15) == 0x8000_0000
  {
    hide Or, AndNot, Mask;
    ClearDistributes(w, ChannelMask(c), ChannelMask(c));
    ClearAll(ChannelMask(c));
    ZeroLaws(AndNot(w, ChannelMask(c)));
    EndMasks();
  }

  lemma EndMasks()
    ensures Mask(16) == 0x1_0000 && Mask(31) == 0x8000_0000
  {
  }

  /** As expanded, disabling c switches off every channel up to c. */
  lemma DisableExpandedBit(w: bv32, c: EngineChannel, k: EngineChannel)
    ensures On(DisableExpanded(w, c), k) <==> k > c && On(w, k)
  {
    hide And, ChannelMask, KeptAbove;
    AndAssociates(w, KeptAbove(c), ChannelMask(k));
    KeptIsAbove(c, k);
    ZeroLaws(w);
  }

  lemma DisableIntendedBit(w: bv32, c: EngineChannel, k: EngineChannel)
    ensures On(DisableIntended(w, c), k) <==> k != c && On(w, k)
  {
    hide And, AndNot, Mask;
    ClearedBit(w, ChannelMask(c), ChannelMask(k));
    if c == k {
      MaskNotZero(c);
      ClearedOwn(w, ChannelMask(c));
    } else {
      MasksDisjoint(16 + c, 16 + k);
    }
  }

  lemma ClearedBit(w: bv32, m: bv32, n: bv32)
    ensures And(m, n) == 0 ==> And(AndNot(w, m), n) == And(w, n)
  {
  }

  lemma ClearedOwn(w: bv32, m: bv32)
    ensures And(AndNot(w, m), m) == 0
  {
  }

  /** It also clears the engine enable and mode bits below the channel bits. */
  lemma DisableExpandedStopsEngine(w: bv32, c: EngineChannel)
    ensures And(DisableExpanded(w, c), 0xffff) == 0
  {
    hide And, KeptAbove;
    AndAssociates(w, KeptAbove(c), 0xffff);
    KeptWithoutEngine(c);
    ZeroLaws(w);
  }

  /** The two forms agree exactly when no bit below the channel's is set. */
  lemma DisableFormsAgree(w: bv32, c: EngineChannel)
    ensures DisableExpanded(w, c) == DisableIntended(w, c) <==> And(w, Below(c)) == 0
  {
    hide And, Or, AndNot, KeptAbove, Below, ChannelMask;
    AllButMask(w, c);
    KeptBelowDisjoint(c);
    DisjointUnion(w, KeptAbove(c), Below(c));
  }

  lemma DisjointUnion(w: bv32, m: bv32, n: bv32)
    requires And(m, n) == 0
    ensures And(w, m) == Or(And(w, m), And(w, n)) <==> And(w, n) == 0
  {
  }

  /** With channels 3 and 5 on and the engine running, disabling 5 also switches off 3. */
  lemma DisableTakesLowerChannel()
    ensures var w := Enable(Enable(0xf, 3), 5);
            On(w, 3) && !On(DisableExpanded(w, 5), 3) && On(DisableIntended(w, 5), 3)
  {
    hide On, Enable, DisableExpanded, DisableIntended;
    var w := Enable(0xf, 3);
    EnableBit(0xf, 3, 3);
    EnableBit(w, 5, 3);
    DisableExpandedBit(Enable(w, 5), 5, 3);
    DisableIntendedBit(Enable(w, 5), 5, 3);
  }
}
