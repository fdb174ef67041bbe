/** Sequences of clock writes and of channel enables and disables in the original ADC
    driver, with the register macro as it expands and as it was meant. */
module AdcOriginalRuns {
  import opened Words
  import opened AdcClockMacro
  import opened AdcChannelMacro

  // ---- Clock writes -----------------------------------------------------------------

  datatype ClockWrite = ClockWrite(divisor: UChar, inverse: UChar)

  function ClockAfter(w: bv32, writes: seq<ClockWrite>): bv32 {
    if writes == [] then w
    else
      var last := writes[|writes| - 1];
      ClockExpanded(ClockAfter(w, writes[..|writes| - 1]), ClockData(last.divisor, last.inverse))
  }

  function AllDivisors(writes: seq<ClockWrite>): bv32 {
    if writes == [] then 0 else Or(AllDivisors(writes[..|writes| - 1]), writes[|writes| - 1].divisor)
  }

  function AllInverses(writes: seq<ClockWrite>): bv32 {
    if writes == [] then 0 else Or(AllInverses(writes[..|writes| - 1]), writes[|writes| - 1].inverse)
  }

  /** The divisor bits 9:1 and the bits 31:16 collect everything ever written. */
  lemma {:induction false} ClockAccumulates(w: bv32, writes: seq<ClockWrite>)
    ensures And(ClockAfter(w, writes), 0x3fe) == Or(And(w, 0x3fe), And(AllDivisors(writes), 0x3fe))
    ensures And(ClockAfter(w, writes), 0xffff_0000) == Or(And(w, 0xffff_0000), Up16(AllInverses(writes)))
  {
    hide And, Or, Up16, ClockExpanded, ClockData;
    if writes == [] {
      ZeroFields(w);
    } else {
      var before, last := writes[..|writes| - 1], writes[|writes| - 1];
      ClockAccumulates(w, before);
      ExpandedAddsDivisor(ClockAfter(w, before), last.divisor, last.inverse);
      ExpandedAddsInverse(ClockAfter(w, before), last.divisor, last.inverse);
      OrAssociates(And(w, 0x3fe), And(AllDivisors(before), 0x3fe), And(last.divisor, 0x3fe));
      AndDistributes(AllDivisors(before), last.divisor, 0x3fe);
      OrAssociates(And(w, 0xffff_0000), Up16(AllInverses(before)), Up16(last.inverse));
      UpDistributes(AllInverses(before), last.inverse);
    }
  }

  lemma ZeroFields(w: bv32)
    ensures Or(And(w, 0x3fe), And(0, 0x3fe)) == And(w, 0x3fe)
    ensures Or(And(w, 0xffff_0000), Up16(0)) == And(w, 0xffff_0000)
  {
  }

  /** After at least one write, bit 0 is that of the last divisor and bits 15:10 are
      clear. With ClockAccumulates this determines the whole register. */
  lemma ClockRest(w: bv32, writes: seq<ClockWrite>)
    requires writes != []
    ensures And(ClockAfter(w, writes), 1) == And(writes[|writes| - 1].divisor, 1)
    ensures And(ClockAfter(w, writes), 0xfc00) == 0
  {
    hide And, ClockExpanded, ClockData;
    var before, last := writes[..|writes| - 1], writes[|writes| - 1];
    ExpandedReplacesBit0(ClockAfter(w, before), last.divisor, last.inverse);
    ExpandedClearsRest(ClockAfter(w, before), last.divisor, last.inverse);
  }

  // ---- Enabling and disabling channels ----------------------------------------------

  datatype Switch = TurnOn(channel: EngineChannel) | TurnOff(channel: EngineChannel)

  function EngineAfter(w: bv32, run: seq<Switch>): bv32 {
    if run == [] then w
    else
      var before := EngineAfter(w, run[..|run| - 1]);
      match run[|run| - 1]
      case TurnOn(c) => Enable(before, c)
      case TurnOff(c) => DisableExpanded(before, c)
  }

  function IntendedAfter(w: bv32, run: seq<Switch>): bv32 {
    if run == [] then w
    else
      var before := IntendedAfter(w, run[..|run| - 1]);
      match run[|run| - 1]
      case TurnOn(c) => Enable(before, c)
      case TurnOff(c) => DisableIntended(before, c)
  }

  /** From step i on, no channel from k upwards is turned off. */
  predicate NoneFrom(run: seq<Switch>, i: nat, k: EngineChannel) {
    forall j | i <= j < |run| :: !(run[j].TurnOff? && run[j].channel >= k)
  }

  /** From step i on, channel k itself is not turned off. */
  predicate NotItself(run: seq<Switch>, i: nat, k: EngineChannel) {
    forall j | i <= j < |run| :: run[j] != TurnOff(k)
  }

  /** As expanded: channel k is on after a run exactly when some enable of k is later
      than every disable of any channel k or above, or it was on and there is none. */
  lemma {:induction false} ExpandedRun(w: bv32, run: seq<Switch>, k: EngineChannel)
    ensures On(EngineAfter(w, run), k)
       <==> ((exists i: nat | i < |run| :: run[i] == TurnOn(k) && NoneFrom(run, i, k))
             || (On(w, k) && NoneFrom(run, 0, k)))
  {
    hide On, Enable, DisableExpanded;
    if run != [] {
      var before, last := run[..|run| - 1], run[|run| - 1];
      ExpandedRun(w, before, k);
      EnableBit(EngineAfter(w, before), last.channel, k);
      DisableExpandedBit(EngineAfter(w, before), last.channel, k);
      forall i: nat | i <= |before|
        ensures NoneFrom(run, i, k) <==> NoneFrom(before, i, k) && !(last.TurnOff? && last.channel >= k)
      {
        NoneFromAppend(before, last, i, k);
        assert run == before + [last];
      }
      assert forall i: nat | i < |before| :: run[i] == before[i];
      if last == TurnOn(k) {
        assert run[|run| - 1] == TurnOn(k) && NoneFrom(run, |run| - 1, k);
      }
    }
  }

  lemma NoneFromAppend(run: seq<Switch>, x: Switch, i: nat, k: EngineChannel)
    requires i <= |run|
    ensures NoneFrom(run + [x], i, k) <==> NoneFrom(run, i, k) && !(x.TurnOff? && x.channel >= k)
  {
    var all := run + [x];
    assert all[|run|] == x;
    assert forall j | i <= j < |run| :: all[j] == run[j];
  }

  /** As intended: channel k is on exactly when some enable of k is later than every
      disable of k itself, or it was on and there is none - a map from channels to
      on and off. */
  lemma {:induction false} IntendedRun(w: bv32, run: seq<Switch>, k: EngineChannel)
    ensures On(IntendedAfter(w, run), k)
       <==> ((exists i: nat | i < |run| :: run[i] == TurnOn(k) && NotItself(run, i, k))
             || (On(w, k) && NotItself(run, 0, k)))
  {
    hide On, Enable, DisableIntended;
    if run != [] {
      var before, last := run[..|run| - 1], run[|run| - 1];
      IntendedRun(w, before, k);
      EnableBit(IntendedAfter(w, before), last.channel, k);
      DisableIntendedBit(IntendedAfter(w, before), last.channel, k);
      forall i: nat | i <= |before|
        ensures NotItself(run, i, k) <==> NotItself(before, i, k) && last != TurnOff(k)
      {
        NotItselfAppend(before, last, i, k);
        assert run == before + [last];
      }
      assert forall i: nat | i < |before| :: run[i] == before[i];
      if last == TurnOn(k) {
        assert run[|run| - 1] == TurnOn(k) && NotItself(run, |run| - 1, k);
      }
    }
  }

  lemma NotItselfAppend(run: seq<Switch>, x: Switch, i: nat, k: EngineChannel)
    requires i <= |run|
    ensures NotItself(run + [x], i, k) <==> NotItself(run, i, k) && x != TurnOff(k)
  {
    var all := run + [x];
    assert all[|run|] == x;
    assert forall j | i <= j < |run| :: all[j] == run[j];
  }

  /** The macro's defect never leaves a channel on that should be off. */
  lemma DefectOnlyTurnsOff(w: bv32, run: seq<Switch>, k: EngineChannel)
    ensures On(EngineAfter(w, run), k) ==> On(IntendedAfter(w, run), k)
  {
    hide On;
    ExpandedRun(w, run, k);
    IntendedRun(w, run, k);
    forall i: nat | NoneFrom(run, i, k)
      ensures NotItself(run, i, k)
    {
    }
  }
}
