/** Sessions run on the driver itself: the calls of I2cSession, performed by the class. */
module I2cShell {
  import opened Bits
  import opened I2cHardware
  import opened I2cDriver
  import opened I2cController
  import opened I2cSession

  /** The address is a 32-bit word and has at most 4 bytes. */
  predicate InRange(call: Call) {
    call.CallRead? || call.CallWrite? ==> call.alen <= 4 && call.addr < 0x1_0000_0000
  }

  lemma ReceiveIgnoresBuffer(e: Env, d: Driver, x: Byte, y: Byte, last: bool, mode: Mode)
    requires d.OnBus()
    ensures var (d1, ret, b) := ReceiveByte(e, d, x, last, mode);
            var (d2, ret', b') := ReceiveByte(e, d, y, last, mode);
            d1 == d2 && ret == ret' && (ret == 0 ==> b == b')
  {
    hide InterruptStatus;
  }

  /** What the buffer of the master command held before has no effect. */
  lemma MasterIgnoresBuffer(e: Env, d: Driver, bus: int, x: Byte, y: Byte)
    requires 0 <= bus < BUSES
    ensures Execute(e, d, CallMaster(bus, x)) == Execute(e, d, CallMaster(bus, y))
  {
    hide Select, SendStart, ReceiveByte, RealInit, SendStop;
    var d0 := InitIfPending(e, d.(busNum := bus));
    var d1 := Select(e, d0, 0x10, 0x30, 1, Masterm).0;
    var d2 := SendStart(e, d1, 0x10, 1).0;
    ReceiveIgnoresBuffer(e, d2, x, y, true, Masterm);
    OneReceive(e, d2, x);
    OneReceive(e, d2, y);
  }

  lemma OneReceive(e: Env, d: Driver, x: Byte)
    requires d.OnBus()
    ensures var (d1, ret, b) := ReceiveByte(e, d, x, true, Masterm);
            ReceiveData(e, d, [x], 1, 1, Masterm) == (d1, if ret != 0 then 1 else 0, [b])
  {
    hide ReceiveByte;
    assert ReceiveData(e, d, [x], 1, 0, Masterm) == (d, 0, [x]);
    var b := ReceiveByte(e, d, x, true, Masterm).2;
    assert [x][0 := b] == [b];
  }

  /** One call. */
  method Perform(a: AstI2c, call: Call) returns (outcome: Outcome)
    requires MayCall(a.State(), call) && InRange(call)
    modifies a
    ensures (a.State(), outcome) == Execute(a.env, old(a.State()), call)
  {
    hide Probe, I2cRead, I2cWrite, SlaveLoop, RealInit;
    match call
    case CallProbe(chip) =>
      var ret := a.Probe(chip);
      outcome := Outcome(ret, []);
    case CallRead(chip, addr, alen, buffer, mode) =>
      var bytes := new Byte[|buffer|](i requires 0 <= i < |buffer| => buffer[i]);
      assert bytes[..] == buffer;
      var ret := a.I2cRead(chip, addr, alen, bytes, |buffer|, mode);
      outcome := Outcome(ret, bytes[..]);
    case CallWrite(chip, addr, alen, data, mode) =>
      var bytes := new Byte[|data|](i requires 0 <= i < |data| => data[i]);
      assert bytes[..|data|] == data;
      var ret := a.I2cWrite(chip, addr, alen, bytes, |data|, mode);
      outcome := Outcome(ret, data);
    case CallSlave(bus, rounds) =>
      var ret := a.DoSlaveRw(2, bus, rounds);
      outcome := Outcome(ret, []);
    case CallMaster(bus, before) =>
      ghost var d := a.State();
      var ret, reg := a.DoMasterRw(2, bus);
      outcome := Outcome(ret, [reg]);
      ghost var was: Byte :|
        var (d1, failed, read) := I2cDriver.I2cRead(a.env, d.(busNum := bus), 0x10, 0x30, 1, [was], 1, Masterm);
        a.State() == d1 && reg == (if failed != 0 then 0xFF else read[0]);
      MasterIgnoresBuffer(a.env, d, bus, was, before);
  }

  /** A whole session from power-on. */
  method Session(env: Env, calls: seq<Call>) returns (a: AstI2c, results: seq<Outcome>)
    requires Legal(calls) && forall k | 0 <= k < |calls| :: InRange(calls[k])
    ensures fresh(a) && a.env == env
    ensures a.State() == Run(env, calls) && results == Results(env, calls)
  {
    hide Execute;
    a := new AstI2c(env);
    results := [];
    var i := 0;
    while i < |calls|
      invariant 0 <= i <= |calls| && fresh(a) && a.env == env
      invariant Legal(calls[..i]) && a.State() == Run(env, calls[..i]) && results == Results(env, calls[..i])
    {
      LegalPrefix(calls, i);
      var before, next := calls[..i], calls[..i + 1];
      assert next[..|next| - 1] == before && Last(next) == calls[i];
      MayCallNext(env, next);
      var outcome := Perform(a, calls[i]);
      results := results + [outcome];
      i := i + 1;
    }
    assert calls[..i] == calls;
  }

  lemma MayCallNext(e: Env, calls: seq<Call>)
    requires Legal(calls) && calls != []
    ensures MayCall(Run(e, calls[..|calls| - 1]), Last(calls))
  {
  }
}
