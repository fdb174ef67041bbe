/** The packed registers behave like a plain record, over every run. */
module AdcTddRuns {
  import opened Words
  import opened AdcWords
  import opened AdcRegisters
  import opened AdcTdd

  datatype Plain = Plain(enabled: set<Channel>, divisor: bv32, samples: Channel -> bv32)

  datatype Step =
    | DoSetClock(divisor: bv32)
    | DoEnable(chan: Channel, value: bv32)
    | DoMeasure(chan: Channel)
    | DoSample(chan: Channel, sample: Stub)

  function Packed(regs: Registers, step: Step): Registers {
    match step
    case DoSetClock(d) => SetClock(regs, d)
    case DoEnable(c, v) => EnableChan(regs, c, v)
    case DoMeasure(c) => regs
    case DoSample(c, v) => WriteSample(regs, c, v)
  }

  function Abstract(p: Plain, step: Step): Plain {
    match step
    case DoSetClock(d) => p.(divisor := Low10(d))
    case DoEnable(c, v) => p.(enabled := if v == 1 then p.enabled + {c} else p.enabled - {c})
    case DoMeasure(c) => p
    case DoSample(c, v) => p.(samples := (x: Channel) => if x == c then Low10(v) else p.samples(x))
  }

  /** The registers hold exactly the record. */
  ghost predicate Simulates(regs: Registers, p: Plain) {
    && ClockDivisor(regs) == p.divisor
    && forall c: Channel ::
         && ChanStatus(regs, c) == (if c in p.enabled then 1 else 0)
         && Sample(regs, c) == p.samples(c)
  }

  // ---- Steps ------------------------------------------------------------------------

  /** Data registers differ from the control registers, and two channels share one only
      if they use different halves of it. */
  lemma Offsets(a: Channel, c: Channel)
    ensures DataOffset(a) != ENGINE_CONTROL && DataOffset(a) != CLOCK_CONTROL
    ensures DataOffset(a) == DataOffset(c) && IsOdd(a) == IsOdd(c) ==> a == c
  {
  }

  /** A sample written reads back, and no other channel's sample changes. */
  lemma SampleReadsBack(regs: Registers, a: Channel, v: Stub, c: Channel)
    ensures Sample(WriteSample(regs, a, v), c) == if c == a then Low10(v) else Sample(regs, c)
  {
    hide High10, Low10, WithHigh10, WithLow10, DataOffset, IsOdd;
    var w := regs(DataOffset(a));
    LowReadsBack(w, v);
    LowLeavesHigh(w, v);
    HighReadsBack(w, v);
    HighLeavesLow(w, v);
    Offsets(a, c);
  }

  lemma EnableReadsBack(regs: Registers, a: Channel, enable: bv32, c: Channel)
    ensures ChanStatus(EnableChan(regs, a, enable), c)
         == if c != a then ChanStatus(regs, c) else if enable == 1 then 1 else 0
  {
    hide ChanBit, WithChanBit, WithoutChanBit;
    ChanBitReadsBack(regs(ENGINE_CONTROL), a, c);
  }

  /** What a step leaves alone. */
  lemma StepFrame(regs: Registers, step: Step, c: Channel)
    ensures !step.DoEnable? ==> ChanStatus(Packed(regs, step), c) == ChanStatus(regs, c)
    ensures !step.DoSample? ==> Sample(Packed(regs, step), c) == Sample(regs, c)
    ensures !step.DoSetClock? ==> ClockDivisor(Packed(regs, step)) == ClockDivisor(regs)
  {
    hide ChanBit, WithChanBit, WithoutChanBit, High10, Low10, WithHigh10, WithLow10, DataOffset, IsOdd;
    Offsets(c, c);
    if step.DoSample? {
      Offsets(step.chan, c);
    }
  }

  lemma StepSimulates(regs: Registers, p: Plain, step: Step)
    requires Simulates(regs, p)
    ensures Simulates(Packed(regs, step), Abstract(p, step))
  {
    hide ChanStatus, EnableChan, Sample, WriteSample, WithLow10, Low10;
    var r, q := Packed(regs, step), Abstract(p, step);
    StepFrame(regs, step, 0);
    if step.DoSetClock? {
      LowReadsBack(regs(CLOCK_CONTROL), step.divisor);
    }
    forall c: Channel
      ensures ChanStatus(r, c) == (if c in q.enabled then 1 else 0) && Sample(r, c) == q.samples(c)
    {
      StepFrame(regs, step, c);
      if step.DoEnable? {
        EnableReadsBack(regs, step.chan, step.value, c);
      } else if step.DoSample? {
        SampleReadsBack(regs, step.chan, step.sample, c);
      }
    }
  }

  // ---- Runs -------------------------------------------------------------------------

  function RunPacked(regs: Registers, steps: seq<Step>): Registers {
    if steps == [] then regs else Packed(RunPacked(regs, steps[..|steps| - 1]), steps[|steps| - 1])
  }

  function RunAbstract(p: Plain, steps: seq<Step>): Plain {
    if steps == [] then p else Abstract(RunAbstract(p, steps[..|steps| - 1]), steps[|steps| - 1])
  }

  lemma {:induction false} RunSimulates(regs: Registers, p: Plain, steps: seq<Step>)
    requires Simulates(regs, p)
    ensures Simulates(RunPacked(regs, steps), RunAbstract(p, steps))
  {
    if steps != [] {
      RunSimulates(regs, p, steps[..|steps| - 1]);
      StepSimulates(RunPacked(regs, steps[..|steps| - 1]), RunAbstract(p, steps[..|steps| - 1]), steps[|steps| - 1]);
    }
  }

  /** What the zeroed block stands for after adc_init. */
  const FRESH := Plain({}, 0x40, (c: Channel) => 0)

  lemma FreshIsSimulated()
    ensures Simulates(SetClock(Zeroed(), 0x40), FRESH)
  {
    var r := SetClock(Zeroed(), 0x40);
    forall c: Channel
      ensures ChanStatus(r, c) == 0 && Sample(r, c) == 0
    {
      hide ChanBit, High10, Low10, WithLow10, DataOffset, IsOdd;
      Offsets(c, c);
      ZeroReads(c);
    }
  }

  // ---- What the history of a channel determines -------------------------------------

  /** The last enable step of c used the value 1. */
  predicate On(steps: seq<Step>, c: Channel) {
    exists i ::
      && 0 <= i < |steps| && steps[i] == DoEnable(c, 1)
      && forall j | i < j < |steps| :: !(steps[j].DoEnable? && steps[j].chan == c)
  }

  /** v is the last sample delivered for c; 0 if there was none. */
  predicate IsLastSample(steps: seq<Step>, c: Channel, v: bv32) {
    || (v == 0 && forall j | 0 <= j < |steps| :: !(steps[j].DoSample? && steps[j].chan == c))
    || exists i ::
         && 0 <= i < |steps| && steps[i].DoSample? && steps[i].chan == c && v == steps[i].sample
         && forall j | i < j < |steps| :: !(steps[j].DoSample? && steps[j].chan == c)
  }

  lemma OnAppend(steps: seq<Step>, last: Step, c: Channel)
    ensures On(steps + [last], c) <==> if last.DoEnable? && last.chan == c then last.value == 1 else On(steps, c)
  {
    var all := steps + [last];
    assert all[|steps|] == last;
    assert forall j | 0 <= j < |steps| :: all[j] == steps[j];
    if On(steps, c) && !(last.DoEnable? && last.chan == c) {
      var i :| 0 <= i < |steps| && steps[i] == DoEnable(c, 1)
               && forall j | i < j < |steps| :: !(steps[j].DoEnable? && steps[j].chan == c);
      assert all[i] == DoEnable(c, 1);
    }
  }

  lemma {:induction false} EnabledIsOn(steps: seq<Step>, c: Channel)
    ensures c in RunAbstract(FRESH, steps).enabled <==> On(steps, c)
  {
    if steps != [] {
      hide On;
      var before, last := steps[..|steps| - 1], steps[|steps| - 1];
      EnabledIsOn(before, c);
      OnAppend(before, last, c);
      assert steps == before + [last];
    } else {
      assert !On([], c);
    }
  }

  lemma LastSampleAppend(steps: seq<Step>, last: Step, c: Channel, v: bv32)
    requires IsLastSample(steps + [last], c, v)
    ensures if last.DoSample? && last.chan == c then v == last.sample else IsLastSample(steps, c, v)
  {
    var all := steps + [last];
    assert all[|steps|] == last;
    assert forall j | 0 <= j < |steps| :: all[j] == steps[j];
  }

  lemma {:induction false} SampleIsLast(steps: seq<Step>, c: Channel, v: bv32)
    requires IsLastSample(steps, c, v)
    ensures RunAbstract(FRESH, steps).samples(c) == Low10(v)
  {
    if steps == [] {
      NoSampleIsZero(v, c);
    } else {
      hide Low10, IsLastSample;
      var before, last := steps[..|steps| - 1], steps[|steps| - 1];
      assert steps == before + [last];
      LastSampleAppend(before, last, c, v);
      if !(last.DoSample? && last.chan == c) {
        SampleIsLast(before, c, v);
      }
    }
  }

  lemma NoSampleIsZero(v: bv32, c: Channel)
    requires IsLastSample([], c, v)
    ensures Low10(v) == 0
  {
  }

  /** For every run of clock, enable, measure and sample steps on a fresh driver: the
      ioctl for channel c yields the low 10 bits of the last sample delivered for c if
      the last enable step of c used the value 1, and -1 otherwise; nothing done to
      another channel or to the clock matters. */
  lemma MeasureAfterRun(steps: seq<Step>, c: Channel, v: bv32)
    requires IsLastSample(steps, c, v)
    ensures Measure(RunPacked(SetClock(Zeroed(), 0x40), steps), c)
         == if On(steps, c) then Low10(v) else MINUS_ONE
  {
    FreshIsSimulated();
    RunSimulates(SetClock(Zeroed(), 0x40), FRESH, steps);
    EnabledIsOn(steps, c);
    SampleIsLast(steps, c, v);
  }

  /** The divisor read back is the low 10 bits of the last one set, or 0x40. */
  lemma {:induction false} DivisorAfterRun(steps: seq<Step>, i: int)
    requires -1 <= i < |steps| && (i >= 0 ==> steps[i].DoSetClock?)
    requires forall j | i < j < |steps| :: !steps[j].DoSetClock?
    ensures ClockDivisor(RunPacked(SetClock(Zeroed(), 0x40), steps))
         == if i < 0 then 0x40 else Low10(steps[i].divisor)
  {
    FreshIsSimulated();
    RunSimulates(SetClock(Zeroed(), 0x40), FRESH, steps);
    AbstractDivisor(steps, i);
  }

  lemma {:induction false} AbstractDivisor(steps: seq<Step>, i: int)
    requires -1 <= i < |steps| && (i >= 0 ==> steps[i].DoSetClock?)
    requires forall j | i < j < |steps| :: !steps[j].DoSetClock?
    ensures RunAbstract(FRESH, steps).divisor == if i < 0 then 0x40 else Low10(steps[i].divisor)
    decreases |steps|
  {
    if i < |steps| - 1 {
      AbstractDivisor(steps[..|steps| - 1], i);
    }
  }

  /** A divisor wider than 10 bits is not cut off: its upper bits are added to the rest
      of the clock register, which stays as it was exactly when it had them already. */
  lemma WideDivisorLeaks(regs: Registers, d: bv32)
    ensures var before, after := regs(CLOCK_CONTROL), SetClock(regs, d)(CLOCK_CONTROL);
            && AndNot(after, 0x3ff) == Or(AndNot(before, 0x3ff), AndNot(d, 0x3ff))
            && (AndNot(after, 0x3ff) == AndNot(before, 0x3ff) <==> AndNot(AndNot(d, 0x3ff), before) == 0)
  {
    hide AndNot, Or;
    hide WithLow10;
    AboveLow(regs(CLOCK_CONTROL), d);
    AboveLowUnchanged(regs(CLOCK_CONTROL), d);
  }

  /** After the divisor 0x40 of adc_init, the divisor 0x400 sets bit 10 and reads back as 0. */
  lemma WideDivisorSetsBit10()
    ensures var regs := SetClock(SetClock(Zeroed(), 0x40), 0x400);
            regs(CLOCK_CONTROL) == 0x400 && ClockDivisor(regs) == 0
  {
    var first := SetClock(Zeroed(), 0x40);
    assert first(CLOCK_CONTROL) == 0x40;
  }
}
