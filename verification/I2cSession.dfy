/** Which window the driver talks to after any run of shell and API calls. */
module I2cSession {
  import opened Bits
  import opened I2cHardware
  import opened I2cDriver
  import opened I2cTranscript

  datatype Call =
    | CallProbe(chip: Byte)
    | CallRead(chip: Byte, addr: nat, alen: nat, buffer: seq<Byte>, mode: Mode)
    | CallWrite(chip: Byte, addr: nat, alen: nat, data: seq<Byte>, mode: Mode)
    | CallSlave(bus: int, rounds: nat)
    | CallMaster(bus: int, before: Byte)

  /** The bus number in force after the calls: -1 until a command chooses one. */
  function Chosen(calls: seq<Call>): int {
    if calls == [] then -1
    else if Last(calls).CallSlave? || Last(calls).CallMaster? then Last(calls).bus
    else Chosen(calls[..|calls| - 1])
  }

  /** Commands name existing buses, and nothing is called before a bus is chosen. */
  predicate Legal(calls: seq<Call>) {
    calls == [] || (Legal(calls[..|calls| - 1]) && 0 <= Chosen(calls) < BUSES)
  }

  /** A command names an existing bus, everything else needs one to be chosen. */
  predicate MayCall(d: Driver, call: Call) {
    if call.CallSlave? || call.CallMaster? then 0 <= call.bus < BUSES else d.OnBus()
  }

  /** What a call gives back: the return value, and what is then in the caller's buffer
      or printed as the register. */
  datatype Outcome = Outcome(ret: int, bytes: seq<Byte>)

  function Execute(e: Env, d: Driver, call: Call): (r: (Driver, Outcome))
    requires MayCall(d, call)
    ensures !r.0.initPending
    ensures r.0.busNum == if call.CallSlave? || call.CallMaster? then call.bus else d.busNum
  {
    match call
    case CallProbe(chip) =>
      var (d1, ret) := Probe(e, d, chip);
      (d1, Outcome(ret, []))
    case CallRead(chip, addr, alen, buffer, mode) =>
      var (d1, ret, b) := I2cRead(e, d, chip, addr, alen, buffer, |buffer|, mode);
      (d1, Outcome(ret, b))
    case CallWrite(chip, addr, alen, data, mode) =>
      var (d1, ret) := I2cWrite(e, d, chip, addr, alen, data, mode);
      (d1, Outcome(ret, data))
    case CallSlave(bus, rounds) =>
      (SlaveLoop(e, RealInit(e, d.(busNum := bus)), rounds).0, Outcome(0, []))
    case CallMaster(bus, before) =>
      var (d1, failed, b) := I2cRead(e, d.(busNum := bus), 0x10, 0x30, 1, [before], 1, Masterm);
      (d1, Outcome(0, [if failed != 0 then 0xFF else b[0]]))
  }

  const LOADED := Driver(true, 0, -1, [])

  function Run(e: Env, calls: seq<Call>): (d: Driver)
    requires Legal(calls)
    ensures d.busNum == Chosen(calls) && (d.initPending <==> calls == [])
  {
    if calls == [] then LOADED
    else Execute(e, Run(e, calls[..|calls| - 1]), Last(calls)).0
  }

  /** What each of the calls gave back. */
  function Results(e: Env, calls: seq<Call>): (r: seq<Outcome>)
    requires Legal(calls)
    ensures |r| == |calls|
  {
    if calls == [] then []
    else
      var before := calls[..|calls| - 1];
      Results(e, before) + [Execute(e, Run(e, before), Last(calls)).1]
  }

  /** Call i runs real_i2c_init: the first call of all, every probe, every slave command. */
  predicate Initialises(calls: seq<Call>, i: nat)
    requires i < |calls|
  {
    i == 0 || calls[i].CallProbe? || calls[i].CallSlave?
  }

  lemma WindowsDiffer(a: int, b: int)
    ensures Window(a) == Window(b) && 0 <= a < BUSES && 0 <= b < BUSES ==> a == b
  {
  }

  /** After any legal run the register window is that of the bus that was current at
      the last initialisation, call i. It is the window of the bus whose interrupt bit
      is polled exactly when the bus number is still (or again) the same. */
  lemma {:induction false} WindowOfLastInit(e: Env, calls: seq<Call>, i: nat)
    requires Legal(calls) && i < |calls| && Initialises(calls, i)
    requires forall j | i < j < |calls| :: !Initialises(calls, j)
    ensures var d := Run(e, calls);
            && d.busBase == Window(Chosen(calls[..i + 1]))
            && (d.busBase == Window(d.busNum) <==> Chosen(calls[..i + 1]) == Chosen(calls))
            && Valid(d)
    decreases |calls|
  {
    hide SendStart, SendStop, ReadTransfer, WriteTransfer, SlaveLoop, RealInit;
    LegalPrefix(calls, i);
    var before := calls[..|calls| - 1];
    var d := Run(e, before);
    assert Run(e, calls) == Execute(e, d, Last(calls)).0;
    if i == |calls| - 1 {
      assert calls[..i + 1] == calls;
      assert Run(e, calls).busBase == Window(Chosen(calls));
    } else {
      assert before[..i + 1] == calls[..i + 1];
      forall j | i < j < |before|
        ensures !Initialises(before, j)
      {
        assert !Initialises(calls, j);
      }
      assert Initialises(before, i);
      WindowOfLastInit(e, before, i);
      assert !Initialises(calls, |calls| - 1);
    }
    WindowsDiffer(Chosen(calls[..i + 1]), Chosen(calls));
  }

  lemma {:induction false} LegalPrefix(calls: seq<Call>, i: nat)
    requires Legal(calls) && i < |calls|
    ensures Legal(calls[..i + 1]) && 0 <= Chosen(calls[..i + 1]) < BUSES
    decreases |calls|
  {
    if i + 1 == |calls| {
      assert calls[..i + 1] == calls;
    } else {
      LegalPrefix(calls[..|calls| - 1], i);
      assert calls[..|calls| - 1][..i + 1] == calls[..i + 1];
    }
  }

  /** `master 0` and then `master 1`: the second still uses the registers of bus 0 while
      it polls the bit of bus 1. */
  lemma SecondMasterIsStale(e: Env)
    ensures var calls := [CallMaster(0, 0), CallMaster(1, 0)];
            Legal(calls) && Run(e, calls).busBase == Window(0) && Run(e, calls).busNum == 1
  {
    var calls := [CallMaster(0, 0), CallMaster(1, 0)];
    var first := [CallMaster(0, 0)];
    assert calls[..|calls| - 1] == calls[..1] == first;
    assert Last(first) == CallMaster(0, 0) && Last(calls) == CallMaster(1, 0);
    assert Chosen(first) == 0 && Chosen(calls) == 1;
    assert first[..|first| - 1] == [] && Legal([]);
    assert Legal(first);
    WindowOfLastInit(e, calls, 0);
  }
}
