/** Work on one bus touches that bus's registers only, so devices on the other buses
    see no command of it. */
module I2cIsolation {
  import opened Bits
  import opened I2cHardware
  import opened I2cDriver
  import opened I2cTranscript
  import opened I2cSession

  /** Accesses that work on one bus may make: the window at base, reads of DISR, and the
      system control registers below all windows. */
  predicate Inside(a: Access, base: int) {
    base <= a.addr <= base + DMSR + 3 || (a.Read? && a.addr == DISR) || a.addr < AST_I2C_REG_BASE
  }

  /** d1 has done everything d has, and after that only such accesses. */
  predicate Confined(d: Driver, d1: Driver) {
    && d.history <= d1.history
    && forall k | |d.history| <= k < |d1.history| :: Inside(d1.history[k], d.busBase)
  }

  lemma ConfinedTwice(d: Driver, d1: Driver, d2: Driver)
    requires Confined(d, d1) && Confined(d1, d2) && d1.busBase == d.busBase
    ensures Confined(d, d2)
  {
  }

  lemma {:induction false} PollConfined(e: Env, d: Driver, n: nat)
    requires d.OnBus()
    ensures Confined(d, Poll(e, d, n).0)
    decreases n
  {
    hide Bit;
    if n > 0 {
      var d1 := d.Get(e, DISR);
      PollConfined(e, d1, n - 1);
      ConfinedTwice(d, d1, Poll(e, d1, n - 1).0);
    }
  }

  lemma InterruptConfined(e: Env, d: Driver)
    requires d.OnBus()
    ensures Confined(d, InterruptStatus(e, d).0)
  {
    hide Poll;
    PollConfined(e, d, POLL_LIMIT);
  }

  lemma StartConfined(e: Env, d: Driver, chip: Byte, readWrite: Byte)
    requires d.OnBus()
    ensures Confined(d, SendStart(e, d, chip, readWrite).0)
  {
    hide InterruptStatus, Bit;
    var d1 := d.Put(d.busBase + TRBB, 2 * chip + readWrite % 2).Put(d.busBase + CSR, 0x03);
    InterruptConfined(e, d1);
    ConfinedTwice(d, d1, InterruptStatus(e, d1).0);
  }

  lemma SendConfined(e: Env, d: Driver, byte: Byte, mode: Mode)
    requires d.OnBus()
    ensures Confined(d, SendByte(e, d, byte, mode).0)
  {
    hide InterruptStatus, Bit;
    var d1 := d.Put(d.busBase + TRBB, byte).Put(d.busBase + CSR, if mode == Slavem then 4 else 2);
    InterruptConfined(e, d1);
    ConfinedTwice(d, d1, InterruptStatus(e, d1).0);
  }

  lemma ReceiveConfined(e: Env, d: Driver, byte: Byte, last: bool, mode: Mode)
    requires d.OnBus()
    ensures Confined(d, ReceiveByte(e, d, byte, last, mode).0)
  {
    hide InterruptStatus, Bit, SecondByte;
    var csr := (if mode == Masterm then 0x08 else 0) + (if last then 0x10 else 0);
    var d1 := d.Put(d.busBase + CSR, csr);
    InterruptConfined(e, d1);
    ConfinedTwice(d, d1, InterruptStatus(e, d1).0);
  }

  lemma {:induction false} AddressConfined(e: Env, d: Driver, addr: nat, alen: nat, i: nat, mode: Mode)
    requires d.OnBus() && i <= alen
    ensures Confined(d, SendAddress(e, d, addr, alen, i, mode).0)
    decreases i
  {
    hide SendByte;
    if i > 0 {
      AddressConfined(e, d, addr, alen, i - 1, mode);
      var d1 := SendAddress(e, d, addr, alen, i - 1, mode).0;
      SendConfined(e, d1, AddressByte(addr, alen, i - 1), mode);
      ConfinedTwice(d, d1, SendByte(e, d1, AddressByte(addr, alen, i - 1), mode).0);
    }
  }

  lemma {:induction false} DataConfined(e: Env, d: Driver, data: seq<Byte>, i: nat, mode: Mode)
    requires d.OnBus() && i <= |data|
    ensures Confined(d, SendData(e, d, data, i, mode).0)
    decreases i
  {
    hide SendByte;
    if i > 0 {
      DataConfined(e, d, data, i - 1, mode);
      var d1 := SendData(e, d, data, i - 1, mode).0;
      SendConfined(e, d1, data[i - 1], mode);
      ConfinedTwice(d, d1, SendByte(e, d1, data[i - 1], mode).0);
    }
  }

  lemma {:induction false} FetchConfined(e: Env, d: Driver, buffer: seq<Byte>, len: nat, i: nat, mode: Mode)
    requires d.OnBus() && i <= len <= |buffer|
    ensures Confined(d, ReceiveData(e, d, buffer, len, i, mode).0)
    decreases i
  {
    hide ReceiveByte;
    if i > 0 {
      FetchConfined(e, d, buffer, len, i - 1, mode);
      var (d1, _, b) := ReceiveData(e, d, buffer, len, i - 1, mode);
      ReceiveConfined(e, d1, b[i - 1], i - 1 >= len - 1, mode);
      ConfinedTwice(d, d1, ReceiveByte(e, d1, b[i - 1], i - 1 >= len - 1, mode).0);
    }
  }

  lemma SelectConfined(e: Env, d: Driver, chip: Byte, addr: nat, alen: nat, mode: Mode)
    requires d.OnBus()
    ensures Confined(d, Select(e, d, chip, addr, alen, mode).0)
  {
    hide SendStart, SendAddress;
    StartConfined(e, d, chip, 0);
    var d1 := SendStart(e, d, chip, 0).0;
    AddressConfined(e, d1, addr, alen, alen, mode);
    ConfinedTwice(d, d1, SendAddress(e, d1, addr, alen, alen, mode).0);
  }

  lemma ReadConfined(e: Env, d: Driver, chip: Byte, addr: nat, alen: nat, buffer: seq<Byte>, len: nat, mode: Mode)
    requires d.OnBus() && len <= |buffer|
    ensures Confined(d, ReadTransfer(e, d, chip, addr, alen, buffer, len, mode).0)
  {
    hide Select, SendStart, ReceiveData;
    SelectConfined(e, d, chip, addr, alen, mode);
    var d1 := Select(e, d, chip, addr, alen, mode).0;
    StartConfined(e, d1, chip, 1);
    var d2 := SendStart(e, d1, chip, 1).0;
    ConfinedTwice(d, d1, d2);
    FetchConfined(e, d2, buffer, len, len, mode);
    ConfinedTwice(d, d2, ReceiveData(e, d2, buffer, len, len, mode).0);
  }

  lemma WriteConfined(e: Env, d: Driver, chip: Byte, addr: nat, alen: nat, data: seq<Byte>, mode: Mode)
    requires d.OnBus()
    ensures Confined(d, WriteTransfer(e, d, chip, addr, alen, data, mode).0)
  {
    hide Select, SendData;
    SelectConfined(e, d, chip, addr, alen, mode);
    var d1 := Select(e, d, chip, addr, alen, mode).0;
    DataConfined(e, d1, data, |data|, mode);
    ConfinedTwice(d, d1, SendData(e, d1, data, |data|, mode).0);
  }

  // ---- Initialisation and calls ------------------------------------------------------

  /** d with the window that d1 uses. */
  function At(d: Driver, d1: Driver): Driver {
    d.(busBase := d1.busBase)
  }

  lemma RealInitConfined(e: Env, d: Driver)
    requires d.OnBus()
    ensures Confined(At(d, RealInit(e, d)), RealInit(e, d))
  {
    hide PinWord, Bits.ClearWordBit;
    var d0 := d.(busBase := Window(d.busNum));
    var d1 := EnablePins(e, d0);
    var d2 := ReleaseReset(e, d1);
    assert Confined(d0, d1);
    assert Confined(d1, d2);
    assert Confined(d2, SetUpWindow(d2));
    ConfinedTwice(d0, d1, d2);
    ConfinedTwice(d0, d2, SetUpWindow(d2));
  }

  lemma InitConfined(e: Env, d: Driver)
    requires d.OnBus()
    ensures Confined(At(d, InitIfPending(e, d)), InitIfPending(e, d))
  {
    hide RealInit;
    if d.initPending {
      RealInitConfined(e, d);
    }
  }

  lemma ProbeConfined(e: Env, d: Driver, chip: Byte)
    requires d.OnBus()
    ensures Confined(At(d, RealInit(e, d)), Probe(e, d, chip).0)
  {
    hide RealInit, SendStart;
    RealInitConfined(e, d);
    var d0 := RealInit(e, d);
    StartConfined(e, d0, chip, 0);
    var d1 := SendStart(e, d0, chip, 0).0;
    ConfinedTwice(At(d, d0), d0, d1);
    ConfinedTwice(At(d, d0), d1, SendStop(d1));
  }

  lemma {:induction false} SlaveLoopConfined(e: Env, d: Driver, rounds: nat)
    requires d.OnBus()
    ensures Confined(d, SlaveLoop(e, d, rounds).0)
    decreases rounds
  {
    hide ReceiveByte, SendByte;
    if rounds > 0 {
      SlaveLoopConfined(e, d, rounds - 1);
      var (d1, byte) := SlaveLoop(e, d, rounds - 1);
      ReceiveConfined(e, d1, byte, byte == 0x21, Slavem);
      var (d2, _, b) := ReceiveByte(e, d1, byte, byte == 0x21, Slavem);
      ConfinedTwice(d, d1, d2);
      if b == 0x21 {
        SendConfined(e, d2, 0x00, Slavem);
        var d3 := SendByte(e, d2, 0x00, Slavem).0;
        SendConfined(e, d3, 0x55, Slavem);
        ConfinedTwice(d, d2, d3);
        ConfinedTwice(d, d3, SendByte(e, d3, 0x55, Slavem).0);
      }
    }
  }

  lemma I2cReadConfined(e: Env, d: Driver, chip: Byte, addr: nat, alen: nat, buffer: seq<Byte>, len: nat, mode: Mode)
    requires d.OnBus() && len <= |buffer|
    ensures var d1 := I2cRead(e, d, chip, addr, alen, buffer, len, mode).0;
            Confined(At(d, d1), d1)
  {
    hide InitIfPending, ReadTransfer;
    InitConfined(e, d);
    var d0 := InitIfPending(e, d);
    ReadConfined(e, d0, chip, addr, alen, buffer, len, mode);
    ConfinedTwice(At(d, d0), d0, ReadTransfer(e, d0, chip, addr, alen, buffer, len, mode).0);
  }

  lemma I2cWriteConfined(e: Env, d: Driver, chip: Byte, addr: nat, alen: nat, data: seq<Byte>, mode: Mode)
    requires d.OnBus()
    ensures var d1 := I2cWrite(e, d, chip, addr, alen, data, mode).0;
            Confined(At(d, d1), d1)
  {
    hide InitIfPending, WriteTransfer;
    InitConfined(e, d);
    var d0 := InitIfPending(e, d);
    WriteConfined(e, d0, chip, addr, alen, data, mode);
    ConfinedTwice(At(d, d0), d0, WriteTransfer(e, d0, chip, addr, alen, data, mode).0);
  }

  lemma CallConfined(e: Env, d: Driver, call: Call)
    requires MayCall(d, call)
    ensures var d1 := Execute(e, d, call).0;
            Confined(At(d, d1), d1)
  {
    hide RealInit, SlaveLoop, I2cRead, I2cWrite, Probe;
    match call
    case CallProbe(chip) => ProbeConfined(e, d, chip);
    case CallRead(chip, addr, alen, buffer, mode) =>
      I2cReadConfined(e, d, chip, addr, alen, buffer, |buffer|, mode);
    case CallWrite(chip, addr, alen, data, mode) => I2cWriteConfined(e, d, chip, addr, alen, data, mode);
    case CallSlave(bus, rounds) =>
      var d0 := d.(busNum := bus);
      RealInitConfined(e, d0);
      SlaveLoopConfined(e, RealInit(e, d0), rounds);
      ConfinedTwice(At(d0, RealInit(e, d0)), RealInit(e, d0), SlaveLoop(e, RealInit(e, d0), rounds).0);
    case CallMaster(bus, before) =>
      I2cReadConfined(e, d.(busNum := bus), 0x10, 0x30, 1, [before], 1, Masterm);
  }

  // ---- The view from another bus ----------------------------------------------------

  /** Accesses that no monitor of the window at base takes for a command or a clear. */
  predicate Silent(a: Access, base: int) {
    a.Write? ==> a.addr != base + CSR && a.addr != base + CATCR1 && a.addr != base + ISR
  }

  /** Two histories of the same commands, of which the last is answered in both or in
      neither. */
  predicate SameFrom(h: History, h1: History, base: int) {
    && Commands(Log(h1, base)) == Commands(Log(h, base))
    && (Awaiting(Log(h1, base)) <==> Awaiting(Log(h, base)))
  }

  lemma {:induction false} SilentSuffix(h: History, h1: History, base: int)
    requires h <= h1 && forall k | |h| <= k < |h1| :: Silent(h1[k], base)
    ensures SameFrom(h, h1, base)
    decreases |h1|
  {
    hide Awaiting, Observe;
    if |h1| > |h| {
      SilentSuffix(h, h1[..|h1| - 1], base);
      OneSilentAccess(Watch(h1[..|h1| - 1], base), h1[|h1| - 1], base);
    } else {
      assert h1 == h;
    }
  }

  lemma OneSilentAccess(m: Monitor, a: Access, base: int)
    requires Silent(a, base)
    ensures Commands(Observe(m, a, base).log) == Commands(m.log)
    ensures Awaiting(Observe(m, a, base).log) <==> Awaiting(m.log)
  {
    hide SecondByte, Decode;
  }

  lemma ConfinedIsSilent(d: Driver, d1: Driver, m: int)
    requires Confined(d, d1) && IsWindow(d.busBase) && 0 <= m < BUSES && d.busBase != Window(m)
    ensures SameFrom(d.history, d1.history, Window(m))
  {
    hide Watch, Log;
    forall k | |d.history| <= k < |d1.history|
      ensures Silent(d1.history[k], Window(m))
    {
      assert Inside(d1.history[k], d.busBase);
    }
    SilentSuffix(d.history, d1.history, Window(m));
  }

  /** Whatever one call does - initialise, read, write, probe, serve as a slave - shows no
      command on the window of any bus but the one it uses. */
  lemma OtherBusesSeeNothing(e: Env, d: Driver, call: Call, m: int)
    requires MayCall(d, call) && Sound(d)
    requires 0 <= m < BUSES && Execute(e, d, call).0.busBase != Window(m)
    ensures SameFrom(d.history, Execute(e, d, call).0.history, Window(m))
  {
    hide Watch, Log, Confined, SameFrom, RealInit, SlaveLoop, ReadTransfer, WriteTransfer, SendStart;
    var d1 := Execute(e, d, call).0;
    CallConfined(e, d, call);
    CallUsesWindow(e, d, call);
    ConfinedIsSilent(At(d, d1), d1, m);
  }

  /** A call initialises for the bus in force, or goes on with the window it finds. */
  lemma CallUsesWindow(e: Env, d: Driver, call: Call)
    requires MayCall(d, call)
    ensures var d1 := Execute(e, d, call).0;
            d1.busBase == if d.initPending || call.CallProbe? || call.CallSlave? then Window(d1.busNum) else d.busBase
    ensures Sound(d) ==> IsWindow(Execute(e, d, call).0.busBase)
  {
    hide RealInit, SlaveLoop, ReadTransfer, WriteTransfer, SendStart;
  }
}
