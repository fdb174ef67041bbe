/** Between calls no command is left unanswered, on any bus. */
module I2cSettled {
  import opened Bits
  import opened I2cHardware
  import opened I2cDriver
  import opened I2cTranscript
  import opened I2cTheorems
  import opened I2cSlaveLoop
  import opened I2cSession
  import opened I2cIsolation

  /** No controller waits for the status of its last command to be cleared. */
  predicate Settled(h: History) {
    forall b | 0 <= b < BUSES :: !Awaiting(Log(h, Window(b)))
  }

  /** A run of finished exchanges on one window leaves every window settled. */
  lemma SettledBy(d: Driver, d1: Driver, t: seq<Exchange>)
    requires Settled(d.history) && IsWindow(d1.busBase) && Confined(At(d, d1), d1)
    requires Log(d1.history, d1.busBase) == Log(d.history, d1.busBase) + t
    requires forall k | 0 <= k < |t| :: Finished(t[k], t[k].cmd)
    ensures Settled(d1.history)
  {
    hide Watch, Log, Confined;
    forall b | 0 <= b < BUSES
      ensures !Awaiting(Log(d1.history, Window(b)))
    {
      if Window(b) != d1.busBase {
        ConfinedIsSilent(At(d, d1), d1, b);
      } else if t == [] {
        assert Log(d.history, d1.busBase) + t == Log(d.history, d1.busBase);
      } else {
        assert Last(Log(d1.history, d1.busBase)) == Last(t);
      }
    }
  }

  lemma SettledByPlan(d: Driver, d1: Driver, plan: seq<Command>, hard: nat, ret: int)
    requires Settled(d.history) && IsWindow(d1.busBase) && Confined(At(d, d1), d1)
    requires CarriedOut(d, d1, plan, hard, ret)
    ensures Settled(d1.history)
  {
    hide Watch, Log, Confined, Settled, Finished, DisrReads, Polls;
    var t := Recorded(d, d1);
    forall k | 0 <= k < |t|
      ensures Finished(t[k], t[k].cmd)
    {
      CommandOfFinished(t[k], plan[k]);
    }
    SettledBy(d, d1, t);
  }

  lemma CommandOfFinished(x: Exchange, c: Command)
    requires Finished(x, c)
    ensures x.cmd == c
  {
  }

  lemma ReadSettles(e: Env, d: Driver, chip: Byte, addr: nat, alen: nat, buffer: seq<Byte>, len: nat, mode: Mode)
    requires Valid(d) && Settled(d.history) && len <= |buffer|
    ensures Settled(I2cRead(e, d, chip, addr, alen, buffer, len, mode).0.history)
  {
    hide Settled, Confined, CarriedOut, Recorded, Stored, RealInit, ReadTransfer, Polls, ReadPlan;
    var (d1, ret, _) := I2cRead(e, d, chip, addr, alen, buffer, len, mode);
    ReadTranscript(e, d, chip, addr, alen, buffer, len, mode);
    I2cReadConfined(e, d, chip, addr, alen, buffer, len, mode);
    SettledByPlan(d, d1, InitPlan(d) + ReadPlan(chip, addr, alen, len, mode), |InitPlan(d)| + alen + 2, ret);
  }

  lemma WriteSettles(e: Env, d: Driver, chip: Byte, addr: nat, alen: nat, data: seq<Byte>, mode: Mode)
    requires Valid(d) && Settled(d.history)
    ensures Settled(I2cWrite(e, d, chip, addr, alen, data, mode).0.history)
  {
    hide Settled, Confined, CarriedOut, Recorded, RealInit, WriteTransfer, Polls, WritePlan;
    var (d1, ret) := I2cWrite(e, d, chip, addr, alen, data, mode);
    WriteTranscript(e, d, chip, addr, alen, data, mode);
    I2cWriteConfined(e, d, chip, addr, alen, data, mode);
    SettledByPlan(d, d1, InitPlan(d) + WritePlan(chip, addr, alen, data, mode), |InitPlan(d)| + alen + 1, ret);
  }

  lemma ProbeSettles(e: Env, d: Driver, chip: Byte)
    requires d.OnBus() && Settled(d.history)
    ensures Settled(Probe(e, d, chip).0.history)
  {
    hide Settled, Inside, CarriedOut, Recorded, RealInit, SendStart, Polls, ProbePlan;
    var (d1, ret) := Probe(e, d, chip);
    ProbeTranscript(e, d, chip);
    ProbeConfined(e, d, chip);
    SettledByPlan(d.(initPending := true), d1, [Configure] + ProbePlan(chip), 1, ret);
  }

  lemma RealInitSettles(e: Env, d: Driver)
    requires d.OnBus() && Settled(d.history)
    ensures Settled(RealInit(e, d).history)
  {
    hide Settled, Confined, RealInit, Finished, DisrReads, Polls, Watch;
    var x := RealInitView(e, d);
    CommandOfFinished(x, Configure);
    RealInitConfined(e, d);
    assert [x][0].cmd == Configure;
    SettledBy(d, RealInit(e, d), [x]);
  }

  lemma SlaveSettles(e: Env, d: Driver, rounds: nat)
    requires d.OnBus() && Settled(d.history)
    ensures Settled(SlaveLoop(e, RealInit(e, d), rounds).0.history)
  {
    hide Settled, Confined, RealInit, SlaveLoop, Script, Outcomes, Finished, DisrReads, Polls, Watch;
    var d0 := RealInit(e, d);
    RealInitSettles(e, d);
    RealInitRuns(e, d);
    var t := RoundsView(e, d0, rounds);
    SlaveLoopConfined(e, d0, rounds);
    SettledBy(d0, SlaveLoop(e, d0, rounds).0, t);
  }

  lemma RealInitRuns(e: Env, d: Driver)
    requires d.OnBus()
    ensures Running(RealInit(e, d))
  {
    hide RealInit;
  }

  lemma CallSettles(e: Env, d: Driver, call: Call)
    requires MayCall(d, call) && Sound(d) && Settled(d.history)
    ensures Settled(Execute(e, d, call).0.history)
  {
    hide Settled, RealInit, SlaveLoop, I2cRead, I2cWrite, Probe;
    match call
    case CallProbe(chip) => ProbeSettles(e, d, chip);
    case CallRead(chip, addr, alen, buffer, mode) =>
      ReadSettles(e, d, chip, addr, alen, buffer, |buffer|, mode);
    case CallWrite(chip, addr, alen, data, mode) => WriteSettles(e, d, chip, addr, alen, data, mode);
    case CallSlave(bus, rounds) => SlaveSettles(e, d.(busNum := bus), rounds);
    case CallMaster(bus, before) =>
      ReadSettles(e, d.(busNum := bus), 0x10, 0x30, 1, [before], 1, Masterm);
  }

  /** After any legal run no window waits for an answer, and the driver uses a real one. */
  lemma {:induction false} RunsAreSettled(e: Env, calls: seq<Call>)
    requires Legal(calls)
    ensures Sound(Run(e, calls)) && Settled(Run(e, calls).history)
    decreases |calls|
  {
    hide Settled, Execute, Sound;
    if calls == [] {
      LoadedIsSettled();
    } else {
      var before := calls[..|calls| - 1];
      RunsAreSettled(e, before);
      CallUsesWindow(e, Run(e, before), Last(calls));
      CallSettles(e, Run(e, before), Last(calls));
      RunsOnWindow(e, calls);
    }
  }

  lemma LoadedIsSettled()
    ensures Sound(LOADED) && Settled(LOADED.history)
  {
  }

  lemma RunsOnWindow(e: Env, calls: seq<Call>)
    requires Legal(calls) && calls != [] && IsWindow(Run(e, calls).busBase)
    ensures Sound(Run(e, calls))
  {
  }
}
