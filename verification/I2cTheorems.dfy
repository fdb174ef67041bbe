/** The transfers end to end, for every environment and every state of the driver:
    command order, stop, return value, buffer and polling. */
module I2cTheorems {
  import opened Bits
  import opened I2cHardware
  import opened I2cDriver
  import opened I2cTranscript

  /** The exchanges added to the log of the window that d1 uses. */
  function Recorded(d: Driver, d1: Driver): seq<Exchange> {
    var before, after := Log(d.history, d1.busBase), Log(d1.history, d1.busBase);
    if before <= after then after[|before|..] else []
  }

  function InitPlan(d: Driver): seq<Command> {
    if d.initPending then [Configure] else []
  }

  /** d1 differs from d by one run of plan: the log grows by a run in which a failure
      among the first `hard` commands is final, the result is 0 exactly when the whole
      plan was issued and went well, and DISR was read as often as the log says. */
  predicate CarriedOut(d: Driver, d1: Driver, plan: seq<Command>, hard: nat, ret: int) {
    var t := Recorded(d, d1);
    && Log(d1.history, d1.busBase) == Log(d.history, d1.busBase) + t
    && Conducted(t, plan, hard)
    && ret == (if Succeeded(t, plan) then 0 else 1)
    && DisrReads(d1.history) == DisrReads(d.history) + Polls(t)
  }

  lemma InitView(e: Env, d: Driver) returns (t: seq<Exchange>)
    requires Valid(d)
    ensures var d1 := InitIfPending(e, d);
            && Running(d1)
            && Extends(d.(busBase := d1.busBase, initPending := false), d1, t)
            && Conducted(t, InitPlan(d), |InitPlan(d)|) && Succeeded(t, InitPlan(d)) && Polls(t) == 0
  {
    hide Watch, DisrReads, RealInit;
    t := [];
    if d.initPending {
      var x := RealInitView(e, d);
      t := [x];
      assert t[..|t| - 1] == [];
      assert x.cmd == Configure;
      assert Polls(t) == x.polls && Ok(x);
    }
  }

  lemma RecordedIs(d: Driver, d1: Driver, t: seq<Exchange>)
    requires View(d1).log == View(d.(busBase := d1.busBase, initPending := false)).log + t
    ensures Recorded(d, d1) == t && Log(d1.history, d1.busBase) == Log(d.history, d1.busBase) + t
  {
    hide Watch;
  }

  /** An initialisation in front of a transfer prefixes its plan. */
  lemma AfterInit(d: Driver, d1: Driver, d2: Driver, t: seq<Exchange>, u: seq<Exchange>,
                  plan: seq<Command>, hard: nat, ret: int)
    requires Extends(d.(busBase := d1.busBase, initPending := false), d1, t)
    requires Conducted(t, InitPlan(d), |InitPlan(d)|) && Succeeded(t, InitPlan(d)) && Polls(t) == 0
    requires Extends(d1, d2, u) && Conducted(u, plan, hard)
    requires ret == if Succeeded(u, plan) then 0 else 1
    ensures CarriedOut(d, d2, InitPlan(d) + plan, |InitPlan(d)| + hard, ret)
    ensures Recorded(d, d2) == t + u && |t| == |InitPlan(d)| && Polls(t + u) == Polls(u)
  {
    hide Watch, DisrReads, Conducted, Succeeded, Polls, Recorded, Log;
    ExtendsTwice(d.(busBase := d1.busBase, initPending := false), d1, d2, t, u);
    RecordedIs(d, d2, t + u);
    ConductedThen(t, InitPlan(d), u, plan, hard);
    PollsAppend(t, u);
  }

  lemma {:induction false} PollsAtMost(t: seq<Exchange>)
    requires forall k | 0 <= k < |t| :: t[k].polls <= POLL_LIMIT
    ensures Polls(t) <= POLL_LIMIT * |t|
  {
    if t != [] {
      PollsAtMost(t[..|t| - 1]);
    }
  }

  lemma PollsOfPlan(t: seq<Exchange>, plan: seq<Command>, hard: nat)
    requires plan != [] && Last(plan) == Stop && Conducted(t, plan, hard)
    ensures Polls(t) <= POLL_LIMIT * (|plan| - 1)
  {
    if |t| == |plan| {
      PollsAtMost(t[..|t| - 1]);
    } else {
      PollsAtMost(t);
      assert |t| <= |plan| - 1;
    }
  }

  /** i2c_read: it follows its plan, stopping early only at a failed start or address
      byte; it returns 0 exactly when every start, address byte and receive reported
      success; receives that fail leave their byte of the buffer alone, and nothing
      else in the buffer changes. */
  lemma ReadTranscript(e: Env, d: Driver, chip: Byte, addr: nat, alen: nat, buffer: seq<Byte>, len: nat, mode: Mode)
    requires Valid(d) && len <= |buffer|
    ensures var (d1, ret, b) := I2cRead(e, d, chip, addr, alen, buffer, len, mode);
            var hard := |InitPlan(d)| + alen + 2;
            var t := Recorded(d, d1);
            && CarriedOut(d, d1, InitPlan(d) + ReadPlan(chip, addr, alen, len, mode), hard, ret)
            && Stored(b, buffer, t[Min(|t|, hard)..])
            && Polls(t) <= POLL_LIMIT * (2 + alen + len)
  {
    hide Watch, DisrReads, InitIfPending, ReadTransfer, Extends, Conducted, Succeeded, Stored, Polls;
    var d0 := InitIfPending(e, d);
    var t := InitView(e, d);
    var u := ReadTransferView(e, d0, chip, addr, alen, buffer, len, mode);
    var (d1, ret, b) := ReadTransfer(e, d0, chip, addr, alen, buffer, len, mode);
    AfterInit(d, d0, d1, t, u, ReadPlan(chip, addr, alen, len, mode), alen + 2, ret);
    PollsOfPlan(u, ReadPlan(chip, addr, alen, len, mode), alen + 2);
    assert (t + u)[Min(|t + u|, |t| + alen + 2)..] == u[Min(|u|, alen + 2)..];
  }

  /** i2c_write: the same with data bytes in place of the second half. */
  lemma WriteTranscript(e: Env, d: Driver, chip: Byte, addr: nat, alen: nat, data: seq<Byte>, mode: Mode)
    requires Valid(d)
    ensures var (d1, ret) := I2cWrite(e, d, chip, addr, alen, data, mode);
            && CarriedOut(d, d1, InitPlan(d) + WritePlan(chip, addr, alen, data, mode), |InitPlan(d)| + alen + 1, ret)
            && Polls(Recorded(d, d1)) <= POLL_LIMIT * (1 + alen + |data|)
  {
    hide Watch, DisrReads, InitIfPending, WriteTransfer, Extends, Conducted, Succeeded, Polls;
    var d0 := InitIfPending(e, d);
    var t := InitView(e, d);
    var u := WriteTransferView(e, d0, chip, addr, alen, data, mode);
    var (d1, ret) := WriteTransfer(e, d0, chip, addr, alen, data, mode);
    AfterInit(d, d0, d1, t, u, WritePlan(chip, addr, alen, data, mode), alen + 1, ret);
    PollsOfPlan(u, WritePlan(chip, addr, alen, data, mode), alen + 1);
  }

  function ProbePlan(chip: Byte): seq<Command> {
    [StartCommand(chip, 0), Stop]
  }

  lemma ProbeView(e: Env, d: Driver, chip: Byte) returns (t: seq<Exchange>)
    requires Running(d)
    ensures var (d1, failed) := SendStart(e, d, chip, 0);
            && Extends(d, SendStop(d1), t) && Conducted(t, ProbePlan(chip), 0)
            && failed == (if Succeeded(t, ProbePlan(chip)) then 0 else 1)
  {
    hide Watch, DisrReads, SendStart, SendStop, Ok, Finished, Polls;
    var x := SendStartView(e, d, chip, 0);
    var (d1, failed) := SendStart(e, d, chip, 0);
    var s := SendStopView(d1);
    ExtendsTwice(d, d1, SendStop(d1), [x], [s]);
    SoftAppend([x], [StartCommand(chip, 0)], s, Stop);
    StopIsOk(s);
    assert ProbePlan(chip) == [StartCommand(chip, 0)] + [Stop];
    t := [x] + [s];
  }

  /** i2c_probe always initialises and always stops; it returns 0 exactly when the
      device answered its address. */
  lemma ProbeTranscript(e: Env, d: Driver, chip: Byte)
    requires d.OnBus()
    ensures var (d1, ret) := Probe(e, d, chip);
            && CarriedOut(d.(initPending := true), d1, [Configure] + ProbePlan(chip), 1, ret)
            && Polls(Recorded(d, d1)) <= POLL_LIMIT
  {
    hide Watch, DisrReads, RealInit, SendStart, SendStop, Extends, Conducted, Succeeded, Polls;
    var pending := d.(initPending := true);
    var t := InitView(e, pending);
    InitIgnoresPending(e, d);
    var d0 := RealInit(e, d);
    var u := ProbeView(e, d0, chip);
    var (d1, failed) := SendStart(e, d0, chip, 0);
    AfterInit(pending, d0, SendStop(d1), t, u, ProbePlan(chip), 0, failed);
    PollsOfPlan(u, ProbePlan(chip), 0);
  }

  lemma InitIgnoresPending(e: Env, d: Driver)
    requires d.OnBus()
    ensures RealInit(e, d.(initPending := true)) == RealInit(e, d)
  {
  }

  /** In any run of a plan whose only stop is its last command and lies behind the hard
      part, a stop is issued exactly when every hard command succeeded, and then
      nothing of the plan is missing. */
  lemma StopExactlyAfterHardPart(t: seq<Exchange>, plan: seq<Command>, hard: nat)
    requires Conducted(t, plan, hard) && hard < |plan|
    requires StopIsLast(plan)
    ensures Stopped(t) <==> hard <= |t| && AllOk(t[..hard])
    ensures Stopped(t) ==> |t| == |plan|
  {
    if Stopped(t) {
      var k :| 0 <= k < |t| && t[k].cmd.Stop?;
      assert Finished(t[k], plan[k]);
      assert |t| == |plan|;
    }
    if |t| == hard {
      assert t[..hard] == t;
    }
    if hard <= |t| && AllOk(t[..hard]) {
      assert Finished(t[|t| - 1], plan[|t| - 1]);
    }
  }

  predicate StopIsLast(plan: seq<Command>) {
    forall k | 0 <= k < |plan| :: plan[k].Stop? <==> k == |plan| - 1
  }

  lemma PlansStopLast(d: Driver, chip: Byte, addr: nat, alen: nat, data: seq<Byte>, len: nat, mode: Mode)
    ensures StopIsLast(InitPlan(d) + ReadPlan(chip, addr, alen, len, mode))
    ensures StopIsLast(InitPlan(d) + WritePlan(chip, addr, alen, data, mode))
  {
    var ap, dp, rp := AddressPlan(addr, alen, mode), DataPlan(data, mode), ReceivePlan(len, mode);
    assert forall k | 0 <= k < alen :: !ap[k].Stop?;
    assert forall k | 0 <= k < |data| :: !dp[k].Stop?;
    assert forall k | 0 <= k < len :: rp[k] == RxCommand(k == len - 1, mode);
  }

  predicate Stopped(t: seq<Exchange>) {
    exists k | 0 <= k < |t| :: t[k].cmd.Stop?
  }

  /** A read stops the bus exactly when both starts and all address bytes succeeded, a
      write exactly when its start and address bytes did; whenever the stop is issued,
      so was every data command before it. */
  lemma StopIssued(e: Env, d: Driver, chip: Byte, addr: nat, alen: nat, buffer: seq<Byte>, len: nat, mode: Mode)
    requires Valid(d) && len <= |buffer|
    ensures var t := Recorded(d, I2cRead(e, d, chip, addr, alen, buffer, len, mode).0);
            var hard := |InitPlan(d)| + alen + 2;
            && (Stopped(t) <==> hard <= |t| && AllOk(t[..hard]))
            && (Stopped(t) ==> |t| == hard + len + 1)
    ensures var t := Recorded(d, I2cWrite(e, d, chip, addr, alen, buffer[..len], mode).0);
            var hard := |InitPlan(d)| + alen + 1;
            && (Stopped(t) <==> hard <= |t| && AllOk(t[..hard]))
            && (Stopped(t) ==> |t| == hard + len + 1)
  {
    hide Watch, DisrReads, I2cRead, I2cWrite, AllOk, Conducted, Polls, Recorded, Stored;
    PlansStopLast(d, chip, addr, alen, buffer[..len], len, mode);
    ReadTranscript(e, d, chip, addr, alen, buffer, len, mode);
    StopExactlyAfterHardPart(Recorded(d, I2cRead(e, d, chip, addr, alen, buffer, len, mode).0),
                             InitPlan(d) + ReadPlan(chip, addr, alen, len, mode), |InitPlan(d)| + alen + 2);
    WriteTranscript(e, d, chip, addr, alen, buffer[..len], mode);
    StopExactlyAfterHardPart(Recorded(d, I2cWrite(e, d, chip, addr, alen, buffer[..len], mode).0),
                             InitPlan(d) + WritePlan(chip, addr, alen, buffer[..len], mode), |InitPlan(d)| + alen + 1);
  }
}
