/** Whole sessions - any legal run of probes, reads, writes and shell commands - on a board
    of memory devices, against the same session on plain byte arrays. */
module I2cArraySession {
  import opened Bits
  import opened I2cHardware
  import opened I2cDriver
  import opened I2cTranscript
  import opened I2cTheorems
  import opened I2cSession
  import opened I2cSettled
  import opened I2cMemorySlave
  import opened I2cBoard
  import opened I2cRoundTrip

  // ---- The arrays -------------------------------------------------------------------

  const UNSET := -1

  /** The bus whose registers are in use, the bus that is polled, and one array for each
      bus that carries a device. */
  datatype Machine = Machine(window: int, chosen: int, mems: map<int, seq<Byte>>) {
    function Initialised(): Machine {
      this.(window := chosen)
    }

    function Ready(): Machine {
      if window == UNSET then Initialised() else this
    }

    function Choose(bus: int): Machine {
      this.(chosen := bus)
    }
  }

  /** The bus in use is the chosen one, and a device with this address is on it. */
  predicate Finds(devs: map<int, Device>, m: Machine, chip: Byte) {
    m.window == m.chosen && m.chosen in devs && Addresses(chip, devs[m.chosen])
  }

  /** A transfer that finds a device is a master's and stays within it. */
  predicate Proper(devs: map<int, Device>, m: Machine, call: Call) {
    match call
    case CallRead(chip, addr, alen, buffer, mode) =>
      Finds(devs, m.Ready(), chip) ==> mode == Masterm && Fits(devs[m.chosen], addr, alen, |buffer|)
    case CallWrite(chip, addr, alen, data, mode) =>
      Finds(devs, m.Ready(), chip) ==> mode == Masterm && Fits(devs[m.chosen], addr, alen, |data|)
    case CallMaster(bus, _) =>
      Finds(devs, m.Choose(bus).Ready(), 0x10) ==> devs[bus].alen == 1
    case _ => true
  }

  predicate Sized(devs: map<int, Device>, m: Machine) {
    m.mems.Keys == devs.Keys && forall b | b in devs :: |m.mems[b]| == Pow256(devs[b].alen)
  }

  /** What a call means on arrays: a transfer succeeds exactly if it finds a device, and
      then it moves bytes between the caller's buffer and that device's array. Bytes from
      the first locked cell on are dropped, with the same result. */
  function OnArrays(devs: map<int, Device>, m: Machine, call: Call): (r: (Machine, Outcome))
    requires Sized(devs, m) && Proper(devs, m, call)
    ensures Sized(devs, r.0)
  {
    match call
    case CallProbe(chip) =>
      (m.Initialised(), Outcome(if Finds(devs, m.Initialised(), chip) then 0 else 1, []))
    case CallRead(chip, addr, _, buffer, _) =>
      var m1 := m.Ready();
      if Finds(devs, m1, chip) then (m1, Outcome(0, m.mems[m.chosen][addr..addr + |buffer|]))
      else (m1, Outcome(1, buffer))
    case CallWrite(chip, addr, _, data, _) =>
      var m1 := m.Ready();
      if Finds(devs, m1, chip) then
        var taken := Taken(devs[m.chosen], addr, data);
        (m1.(mems := m.mems[m.chosen := Overwrite(m.mems[m.chosen], addr, taken)]), Outcome(0, data))
      else (m1, Outcome(1, data))
    case CallSlave(bus, _) => (m.Choose(bus).Initialised(), Outcome(0, []))
    case CallMaster(bus, _) =>
      var m1 := m.Choose(bus).Ready();
      OneByteFits();
      (m1, Outcome(0, [if Finds(devs, m1, 0x10) then m.mems[bus][0x30] else 0xFF]))
  }

  lemma OneByteFits()
    ensures Pow256(1) == 256
  {
    assert Pow256(0) == 1;
  }

  /** Every call is proper where it comes. */
  predicate AllProper(devs: map<int, Device>, m: Machine, calls: seq<Call>)
    requires Sized(devs, m)
    decreases |calls|, 0
  {
    calls == []
    || (AllProper(devs, m, calls[..|calls| - 1])
        && Proper(devs, ArraySession(devs, m, calls[..|calls| - 1]).0, Last(calls)))
  }

  function ArraySession(devs: map<int, Device>, m: Machine, calls: seq<Call>): (r: (Machine, seq<Outcome>))
    requires Sized(devs, m) && AllProper(devs, m, calls)
    ensures Sized(devs, r.0) && |r.1| == |calls|
    decreases |calls|, 1
  {
    if calls == [] then (m, [])
    else
      var (before, outcomes) := ArraySession(devs, m, calls[..|calls| - 1]);
      var (after, outcome) := OnArrays(devs, before, Last(calls));
      (after, outcomes + [outcome])
  }

  /** Nothing chosen, nothing initialised, the arrays as the devices hold them. */
  function PoweredOn(devs: map<int, Device>): (m: Machine)
    requires Fitted(devs)
    ensures Sized(devs, m)
  {
    Machine(UNSET, -1, map b | b in devs :: devs[b].initial)
  }

  // ---- The driver refines it --------------------------------------------------------

  /** Every answer of dev comes in time. */
  ghost predicate Prompt(dev: Device) {
    forall seen: seq<Command> :: Timely(dev, seen)
  }

  ghost predicate AllPrompt(devs: map<int, Device>) {
    forall b | b in devs :: Prompt(devs[b])
  }

  lemma PromptIsTimely(dev: Device, seen: seq<Command>, plan: seq<Command>)
    requires Prompt(dev)
    ensures AllTimely(dev, seen, plan)
  {
    hide Timely;
  }

  /** Driver and board are in the state that m describes. */
  predicate Refines(devs: map<int, Device>, d: Driver, m: Machine)
    requires Fitted(devs)
  {
    && d.busNum == m.chosen
    && (d.initPending <==> m.window == UNSET)
    && (!d.initPending ==> 0 <= m.window < BUSES && d.busBase == Window(m.window))
    && Memories(devs, d.history) == m.mems
  }

  lemma HitsIffFinds(devs: map<int, Device>, d: Driver, m: Machine, chip: Byte)
    requires Fitted(devs) && d.OnBus() && Refines(devs, d, m)
    ensures Hits(devs, d, chip) <==> Finds(devs, m.Ready(), chip)
  {
    hide Memories, Addresses;
    WindowsDiffer(m.window, d.busNum);
  }

  lemma ReadRefines(e: Env, devs: map<int, Device>, d: Driver, m: Machine, call: Call)
    requires OnBoard(e, devs) && AllPrompt(devs) && Settled(d.history) && MayCall(d, call) && call.CallRead?
    requires Sized(devs, m) && Refines(devs, d, m) && Proper(devs, m, call)
    ensures var (d1, outcome) := Execute(e, d, call);
            var (m1, expected) := OnArrays(devs, m, call);
            Refines(devs, d1, m1) && outcome == expected
  {
    hide Memories, Settled, Attached, Hits, Addresses, RealInit, ReadTransfer, InTime, Prompt;
    var CallRead(chip, addr, alen, buffer, mode) := call;
    HitsIffFinds(devs, d, m, chip);
    if Hits(devs, d, chip) {
      ReadDelivers(e, devs, d, chip, addr, alen, buffer, |buffer|);
      HitIsTimely(devs, d, chip, ReadPlan(chip, addr, alen, |buffer|, Masterm));
      assert buffer[|buffer|..] == [];
    } else {
      MissedI2cRead(e, devs, d, chip, addr, alen, buffer, |buffer|, mode);
    }
  }

  lemma HitIsTimely(devs: map<int, Device>, d: Driver, chip: Byte, plan: seq<Command>)
    requires AllPrompt(devs) && Hits(devs, d, chip)
    ensures InTime(devs[d.busNum], d, plan)
  {
    hide AllTimely, Prompt;
    PromptIsTimely(devs[d.busNum], Seen(devs[d.busNum], d.history) + InitPlan(d), plan);
  }

  lemma MissedI2cRead(e: Env, devs: map<int, Device>, d: Driver, chip: Byte, addr: nat, alen: nat, buffer: seq<Byte>,
                      len: nat, mode: Mode)
    requires OnBoard(e, devs) && Valid(d) && Settled(d.history) && !Hits(devs, d, chip) && len <= |buffer|
    ensures var (d1, ret, b) := I2cRead(e, d, chip, addr, alen, buffer, len, mode);
            ret == 1 && b == buffer && Memories(devs, d1.history) == Memories(devs, d.history)
  {
    hide Memories, Settled, Attached, RealInit, ReadTransfer;
    InitOnBoard(e, devs, d);
    MissedRead(e, devs, InitIfPending(e, d), chip, addr, alen, buffer, len, mode);
  }

  lemma MissedI2cWrite(e: Env, devs: map<int, Device>, d: Driver, chip: Byte, addr: nat, alen: nat, data: seq<Byte>,
                       mode: Mode)
    requires OnBoard(e, devs) && Valid(d) && Settled(d.history) && !Hits(devs, d, chip)
    ensures var (d1, ret) := I2cWrite(e, d, chip, addr, alen, data, mode);
            ret == 1 && Memories(devs, d1.history) == Memories(devs, d.history)
  {
    hide Memories, Settled, Attached, RealInit, WriteTransfer;
    InitOnBoard(e, devs, d);
    MissedWrite(e, devs, InitIfPending(e, d), chip, addr, alen, data, mode);
  }

  lemma WriteRefines(e: Env, devs: map<int, Device>, d: Driver, m: Machine, call: Call)
    requires OnBoard(e, devs) && AllPrompt(devs) && Settled(d.history) && MayCall(d, call) && call.CallWrite?
    requires Sized(devs, m) && Refines(devs, d, m) && Proper(devs, m, call)
    ensures var (d1, outcome) := Execute(e, d, call);
            var (m1, expected) := OnArrays(devs, m, call);
            Refines(devs, d1, m1) && outcome == expected
  {
    hide Memories, Settled, Attached, Hits, Addresses, RealInit, WriteTransfer, InTime, Prompt;
    var CallWrite(chip, addr, alen, data, mode) := call;
    HitsIffFinds(devs, d, m, chip);
    if Hits(devs, d, chip) {
      BoardWrite(e, devs, d, chip, addr, alen, data);
      HitIsTimely(devs, d, chip, WritePlan(chip, addr, alen, data, Masterm));
      HitIsTimely(devs, d, chip, Header(chip, addr, alen));
    } else {
      MissedI2cWrite(e, devs, d, chip, addr, alen, data, mode);
    }
  }

  lemma ProbeRefines(e: Env, devs: map<int, Device>, d: Driver, m: Machine, chip: Byte)
    requires OnBoard(e, devs) && AllPrompt(devs) && Settled(d.history) && d.OnBus()
    requires Sized(devs, m) && Refines(devs, d, m)
    ensures var (d1, outcome) := Execute(e, d, CallProbe(chip));
            var (m1, expected) := OnArrays(devs, m, CallProbe(chip));
            Refines(devs, d1, m1) && outcome == expected
  {
    hide Memories, Settled, Attached, Addresses, RealInit, SendStart, AllTimely, Prompt;
    BoardProbe(e, devs, d, chip);
    if d.busNum in devs {
      PromptIsTimely(devs[d.busNum], Seen(devs[d.busNum], d.history), [Configure] + ProbePlan(chip));
    }
  }

  lemma SlaveRefines(e: Env, devs: map<int, Device>, d: Driver, m: Machine, bus: int, rounds: nat)
    requires OnBoard(e, devs) && Settled(d.history) && 0 <= bus < BUSES
    requires Sized(devs, m) && Refines(devs, d, m)
    ensures var (d1, outcome) := Execute(e, d, CallSlave(bus, rounds));
            var (m1, expected) := OnArrays(devs, m, CallSlave(bus, rounds));
            Refines(devs, d1, m1) && outcome == expected
  {
    hide Memories, Settled, Attached, RealInit, SlaveLoop;
    BoardSlave(e, devs, d.(busNum := bus), rounds);
  }

  /** The master command is a read of one cell. */
  lemma MasterRefines(e: Env, devs: map<int, Device>, d: Driver, m: Machine, bus: int, before: Byte)
    requires OnBoard(e, devs) && AllPrompt(devs) && Settled(d.history) && 0 <= bus < BUSES
    requires Sized(devs, m) && Refines(devs, d, m) && Proper(devs, m, CallMaster(bus, before))
    ensures var (d1, outcome) := Execute(e, d, CallMaster(bus, before));
            var (m1, expected) := OnArrays(devs, m, CallMaster(bus, before));
            Refines(devs, d1, m1) && outcome == expected
  {
    hide Memories, Settled, Attached, Addresses, I2cRead, Prompt;
    OneByteFits();
    ReadRefines(e, devs, d.(busNum := bus), m.Choose(bus), CallRead(0x10, 0x30, 1, [before], Masterm));
  }

  lemma CallRefines(e: Env, devs: map<int, Device>, d: Driver, m: Machine, call: Call)
    requires OnBoard(e, devs) && AllPrompt(devs) && Settled(d.history) && MayCall(d, call)
    requires Sized(devs, m) && Refines(devs, d, m) && Proper(devs, m, call)
    ensures var (d1, outcome) := Execute(e, d, call);
            var (m1, expected) := OnArrays(devs, m, call);
            Refines(devs, d1, m1) && outcome == expected
  {
    hide Memories, Settled, Attached, Execute, OnArrays, Refines, Prompt;
    match call
    case CallProbe(chip) => ProbeRefines(e, devs, d, m, chip);
    case CallRead(_, _, _, _, _) => ReadRefines(e, devs, d, m, call);
    case CallWrite(_, _, _, _, _) => WriteRefines(e, devs, d, m, call);
    case CallSlave(bus, rounds) => SlaveRefines(e, devs, d, m, bus, rounds);
    case CallMaster(bus, before) => MasterRefines(e, devs, d, m, bus, before);
  }

  lemma PoweredOnRefines(devs: map<int, Device>)
    requires Fitted(devs)
    ensures Refines(devs, LOADED, PoweredOn(devs))
  {
    forall b | b in devs
      ensures SlaveAt(devs[b], []).mem == devs[b].initial
    {
      assert Seen(devs[b], []) == [];
    }
    assert LOADED.history == [];
  }

  /** Every legal session of calls on a board of prompt memory devices, from power-on, has
      the results and leaves the contents of the same session on byte arrays. */
  lemma {:induction false} SessionIsArray(e: Env, devs: map<int, Device>, calls: seq<Call>)
    requires OnBoard(e, devs) && AllPrompt(devs)
    requires Legal(calls) && AllProper(devs, PoweredOn(devs), calls)
    ensures var (m, expected) := ArraySession(devs, PoweredOn(devs), calls);
            && Results(e, calls) == expected
            && Memories(devs, Run(e, calls).history) == m.mems
            && Refines(devs, Run(e, calls), m)
    decreases |calls|
  {
    hide Memories, Settled, Attached, Execute, OnArrays, Proper, Prompt;
    if calls == [] {
      PoweredOnRefines(devs);
    } else {
      var before := calls[..|calls| - 1];
      SessionIsArray(e, devs, before);
      RunsAreSettled(e, before);
      CallRefines(e, devs, Run(e, before), ArraySession(devs, PoweredOn(devs), before).0, Last(calls));
    }
  }

  /** Once the chosen bus is not the one that was initialised last, call i, no transfer
      succeeds any more, whatever the board carries: it returns 1, and no buffer and no
      memory changes. */
  lemma StaleTransfersFail(e: Env, devs: map<int, Device>, calls: seq<Call>, i: nat, chip: Byte, addr: nat, alen: nat,
                           buffer: seq<Byte>, len: nat, mode: Mode)
    requires OnBoard(e, devs) && Legal(calls) && i < |calls| && Initialises(calls, i) && len <= |buffer|
    requires forall j | i < j < |calls| :: !Initialises(calls, j)
    requires Chosen(calls[..i + 1]) != Chosen(calls)
    ensures var d := Run(e, calls);
            var (r, failed, b) := I2cRead(e, d, chip, addr, alen, buffer, len, mode);
            var (w, failed') := I2cWrite(e, d, chip, addr, alen, buffer[..len], mode);
            && failed == 1 && failed' == 1 && b == buffer
            && Memories(devs, r.history) == Memories(devs, w.history) == Memories(devs, d.history)
  {
    hide Memories, Settled, Attached, I2cRead, I2cWrite, Addresses;
    WindowOfLastInit(e, calls, i);
    RunsAreSettled(e, calls);
    MissedI2cRead(e, devs, Run(e, calls), chip, addr, alen, buffer, len, mode);
    MissedI2cWrite(e, devs, Run(e, calls), chip, addr, alen, buffer[..len], mode);
  }
}
