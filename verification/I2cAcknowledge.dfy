/** What a write that returns 0 says about the bytes that were sent: they were answered,
    not that they were acknowledged. */
module I2cAcknowledge {
  import opened Bits
  import opened I2cHardware
  import opened I2cDriver
  import opened I2cTranscript
  import opened I2cTheorems
  import opened I2cAddress
  import opened I2cPolling
  import opened I2cSettled
  import opened I2cMemorySlave
  import opened I2cBoard

  predicate IsByte(c: Command) {
    c.MasterTx? || c.SlaveTx?
  }

  /** A start or byte was sent with bit 0, the acknowledge, reported. */
  predicate Acked(x: Exchange) {
    x.cmd.Start? || IsByte(x.cmd) ==> Bit(x.status, 0)
  }

  /** A byte was sent and bit 1, the refusal, reported without bit 0. */
  predicate Refused(x: Exchange) {
    IsByte(x.cmd) && Bit(x.status, 1) && !Bit(x.status, 0)
  }

  predicate AllAcked(t: seq<Exchange>) {
    forall k | 0 <= k < |t| :: Acked(t[k])
  }

  predicate NoneRefused(t: seq<Exchange>) {
    forall k | 0 <= k < |t| :: !Refused(t[k])
  }

  // ---- Every environment ------------------------------------------------------------

  lemma OkMeansAnswered(x: Exchange)
    ensures Ok(x) && !Refused(x) ==> Acked(x)
    ensures Acked(x) ==> !Refused(x)
    ensures Acked(x) && !IsReceive(x.cmd) ==> Ok(x)
  {
    hide Bit;
  }

  lemma AckedIfNoneRefused(t: seq<Exchange>)
    ensures AllOk(t) && NoneRefused(t) ==> AllAcked(t)
    ensures AllAcked(t) ==> NoneRefused(t)
    ensures AllAcked(t) && (forall k | 0 <= k < |t| :: !IsReceive(t[k].cmd)) ==> AllOk(t)
  {
    hide Ok, Acked, Refused, IsReceive;
    forall k | 0 <= k < |t|
      ensures Ok(t[k]) && !Refused(t[k]) ==> Acked(t[k])
      ensures Acked(t[k]) ==> !Refused(t[k])
      ensures Acked(t[k]) && !IsReceive(t[k].cmd) ==> Ok(t[k])
    {
      OkMeansAnswered(t[k]);
    }
  }

  lemma WritesDoNotReceive(d: Driver, chip: Byte, addr: nat, alen: nat, data: seq<Byte>, mode: Mode)
    ensures var plan := InitPlan(d) + WritePlan(chip, addr, alen, data, mode);
            forall k | 0 <= k < |plan| :: !IsReceive(plan[k])
  {
  }

  /** For every environment: everything was sent and acknowledged exactly when the write
      returns 0 and no byte was refused. The return value alone does not tell. */
  lemma WriteAcknowledged(e: Env, d: Driver, chip: Byte, addr: nat, alen: nat, data: seq<Byte>, mode: Mode)
    requires Valid(d)
    ensures var (d1, ret) := I2cWrite(e, d, chip, addr, alen, data, mode);
            var t, plan := Recorded(d, d1), InitPlan(d) + WritePlan(chip, addr, alen, data, mode);
            && (|t| == |plan| && AllAcked(t) <==> ret == 0 && NoneRefused(t))
            && (ret == 0 ==> (AllAcked(t) <==> NoneRefused(t)))
  {
    hide Watch, DisrReads, I2cWrite, AllOk, AllAcked, NoneRefused, Ok, Polls, Recorded, IsReceive, WritePlan;
    WriteTranscript(e, d, chip, addr, alen, data, mode);
    var t := Recorded(d, I2cWrite(e, d, chip, addr, alen, data, mode).0);
    WritesDoNotReceive(d, chip, addr, alen, data, mode);
    forall k | 0 <= k < |t|
      ensures !IsReceive(t[k].cmd)
    {
      assert t[k].cmd == (InitPlan(d) + WritePlan(chip, addr, alen, data, mode))[k];
    }
    AckedIfNoneRefused(t);
  }

  /** The same for the starts and address bytes of a read. */
  lemma ReadAcknowledged(e: Env, d: Driver, chip: Byte, addr: nat, alen: nat, buffer: seq<Byte>, len: nat, mode: Mode)
    requires Valid(d) && len <= |buffer|
    ensures var (d1, ret, _) := I2cRead(e, d, chip, addr, alen, buffer, len, mode);
            var t, plan := Recorded(d, d1), InitPlan(d) + ReadPlan(chip, addr, alen, len, mode);
            && (Succeeded(t, plan) && AllAcked(t) <==> ret == 0 && NoneRefused(t))
            && (ret == 0 ==> (AllAcked(t) <==> NoneRefused(t)))
  {
    hide Watch, DisrReads, I2cRead, AllOk, AllAcked, NoneRefused, Ok, Polls, Recorded, IsReceive, ReadPlan, Stored;
    ReadTranscript(e, d, chip, addr, alen, buffer, len, mode);
    AckedIfNoneRefused(Recorded(d, I2cRead(e, d, chip, addr, alen, buffer, len, mode).0));
  }

  // ---- An input ---------------------------------------------------------------------

  /** A controller on bus 0 that answers at once: it reports an acknowledged start, and a
      refused byte. */
  function RefusingEnv(): Env {
    (h: History, addr: int) =>
      var log := Log(h, Window(0));
      if addr == DISR then 1
      else if addr == Window(0) + ISR then if log != [] && Last(log).cmd.Start? then 1 else 2
      else 0
  }

  lemma AnsweredAtOnce(d: Driver, log: seq<Exchange>, c: Command)
    requires d.busBase == Window(0) && d.busNum == 0 && View(d).log == log + [Issued(c)]
    ensures var (d1, status) := InterruptStatus(RefusingEnv(), d);
            && status == (if c.Start? then 1 else 2)
            && exists x: Exchange :: x.cmd == c && x.status == status && View(d1).log == log + [x]
  {
    hide Watch, DisrReads, InterruptStatus, Poll;
    var e := RefusingEnv();
    assert e(d.history, DISR) == 1 && Bit(1, 0);
    assert IdleAfter(e, d.history, 0) == d.history;
    var polled := IdleAfter(e, d.history, 1);
    assert polled == d.history + [Read(DISR, 1)];
    WatchAppend(d.history, Read(DISR, 1), Window(0));
    assert Last(Log(polled, Window(0))).cmd == c;
    FirstHitDecides(e, d, 0);
    InterruptView(e, d, log, c);
  }

  lemma StartAnswered(d: Driver)
    requires d.busBase == Window(0) && d.busNum == 0
    ensures var (d1, failed) := SendStart(RefusingEnv(), d, 0x50, 0);
            failed == 0 && exists x: Exchange :: View(d1).log == View(d).log + [x]
  {
    hide Watch, DisrReads, InterruptStatus, RefusingEnv;
    var d1 := d.Put(d.busBase + TRBB, 0xA0);
    PutView(d, d.busBase + TRBB, 0xA0);
    PutView(d1, d.busBase + CSR, 3);
    CommandWords(View(d1).latch);
    AnsweredAtOnce(d1.Put(d.busBase + CSR, 3), View(d).log, Start(0xA0));
    assert Bit(1, 0);
  }

  lemma ByteRefused(d: Driver)
    requires d.busBase == Window(0) && d.busNum == 0
    ensures var (d1, failed) := SendByte(RefusingEnv(), d, 0xAB, Masterm);
            && failed == 0
            && exists x: Exchange :: x.cmd == MasterTx(0xAB) && x.status == 2 && View(d1).log == View(d).log + [x]
  {
    hide Watch, DisrReads, InterruptStatus, RefusingEnv;
    var d1 := d.Put(d.busBase + TRBB, 0xAB);
    PutView(d, d.busBase + TRBB, 0xAB);
    PutView(d1, d.busBase + CSR, 2);
    CommandWords(View(d1).latch);
    AnsweredAtOnce(d1.Put(d.busBase + CSR, 2), View(d).log, MasterTx(0xAB));
    assert Bit(2, 1);
  }

  /** Writing one byte to such a bus: the byte is refused and i2c_write returns 0. */
  lemma RefusedByteReportsSuccess()
    ensures var d := Driver(false, Window(0), 0, []);
            var (d1, ret) := I2cWrite(RefusingEnv(), d, 0x50, 0, 0, [0xAB], Masterm);
            var log := Log(d1.history, Window(0));
            && ret == 0
            && |log| == 3 && log[1].cmd == MasterTx(0xAB) && log[1].status == 2 && Refused(log[1])
  {
    hide Watch, DisrReads, Polls, SendStart, SendByte, RefusingEnv, SendStop;
    var e, d := RefusingEnv(), Driver(false, Window(0), 0, []);
    StartAnswered(d);
    var d1 := SendStart(e, d, 0x50, 0).0;
    ByteRefused(d1);
    var d2 := SendByte(e, d1, 0xAB, Masterm).0;
    assert SendData(e, d1, [0xAB], 0, Masterm) == (d1, 0);
    assert SendData(e, d1, [0xAB], 1, Masterm) == (d2, 0);
    var s := SendStopView(d2);
    assert View(d).log == [] by {
      EmptyHistory();
    }
    assert Bit(2, 1) && !Bit(2, 0);
  }

  lemma EmptyHistory()
    ensures Log([], Window(0)) == []
  {
  }

  // ---- A device with locked cells ---------------------------------------------------

  /** The log grew by t, in which exactly the first n exchanges are acknowledged. */
  predicate AckedUpTo(d: Driver, d1: Driver, t: seq<Exchange>, n: nat) {
    && View(d1).log == View(d).log + t
    && forall k | 0 <= k < |t| :: Acked(t[k]) <==> k < n
  }

  /** If the answer to a byte is in time, the log shows whether the device took it. */
  lemma ByteLogged(e: Env, dev: Device, d: Driver, byte: Byte) returns (x: Exchange)
    requires Tuned(e, dev, d) && Timely(dev, Seen(dev, SendByte(e, d, byte, Masterm).0.history))
    ensures var d1 := SendByte(e, d, byte, Masterm).0;
            View(d1).log == View(d).log + [x] && (Acked(x) <==> SlaveAt(dev, d1.history).acked)
  {
    hide Watch, After, InterruptStatus, Step, Poll, AnswersAt, DisrReads, Timely, Bit;
    var d1 := d.Put(d.busBase + TRBB, byte);
    PutView(d, d.busBase + TRBB, byte);
    PutView(d1, d.busBase + CSR, 2);
    CommandWords(View(d1).latch);
    var d2 := d1.Put(d.busBase + CSR, 2);
    InterruptView(e, d2, View(d).log, MasterTx(byte));
    InterruptReports(e, dev, d2, View(d).log, MasterTx(byte));
    x := Last(View(InterruptStatus(e, d2).0).log);
    IssuedStep(dev, d, d2, MasterTx(byte));
    AnsweredStep(dev, d, InterruptStatus(e, d2).0, x);
  }

  lemma StartLogged(e: Env, d: Driver, chip: Byte, readWrite: Byte) returns (x: Exchange)
    requires Running(d) && SendStart(e, d, chip, readWrite).1 == 0
    ensures View(SendStart(e, d, chip, readWrite).0).log == View(d).log + [x] && Acked(x)
  {
    hide Watch, SendStart, DisrReads, Polls;
    x := SendStartView(e, d, chip, readWrite);
  }

  lemma OneMoreAcked(d: Driver, d1: Driver, d2: Driver, t: seq<Exchange>, n: nat, x: Exchange, acked: bool)
    requires AckedUpTo(d, d1, t, n) && n <= |t| && View(d2).log == View(d1).log + [x]
    requires (Acked(x) <==> acked) && (acked ==> n == |t|)
    ensures AckedUpTo(d, d2, t + [x], if acked then n + 1 else n)
  {
    hide Watch, Acked;
    assert View(d).log + t + [x] == View(d).log + (t + [x]);
  }

  lemma {:induction false} AddressLogged(e: Env, dev: Device, d: Driver, addr: nat, i: nat) returns (t: seq<Exchange>)
    requires Tuned(e, dev, d) && i <= dev.alen && SlaveAt(dev, d.history).phase == Receiving(0)
    requires SendAddress(e, d, addr, dev.alen, i, Masterm).1 == 0
    ensures AckedUpTo(d, SendAddress(e, d, addr, dev.alen, i, Masterm).0, t, i) && |t| == i
    decreases i
  {
    hide Watch, After, SendByte, AnswersAt, Step, Fold, Pow256, Seen, Timely, AllTimely, Acked;
    t := [];
    if i > 0 {
      t := AddressLogged(e, dev, d, addr, i - 1);
      AddressReaches(e, dev, d, addr, i - 1);
      var bytes := AddressBytes(addr, dev.alen);
      var d1 := SendAddress(e, d, addr, dev.alen, i - 1, Masterm).0;
      ShiftsIn(dev, SlaveAt(dev, d1.history), bytes, i - 1);
      ByteReaches(e, dev, d1, bytes[i - 1]);
      var x := ByteLogged(e, dev, d1, bytes[i - 1]);
      OneMoreAcked(d, d1, SendByte(e, d1, bytes[i - 1], Masterm).0, t, i - 1, x, true);
      t := t + [x];
    }
  }

  lemma {:induction false} DataLogged(e: Env, dev: Device, d: Driver, a: nat, data: seq<Byte>, i: nat)
    returns (t: seq<Exchange>)
    requires Tuned(e, dev, d) && i <= |data| && a + |data| <= |dev.initial|
    requires SlaveAt(dev, d.history).phase == Receiving(dev.alen) && SlaveAt(dev, d.history).cursor == a
    requires SendData(e, d, data, i, Masterm).1 == 0
    ensures AckedUpTo(d, SendData(e, d, data, i, Masterm).0, t, Accepted(dev, a, i)) && |t| == i
    decreases i
  {
    hide Watch, After, SendByte, AnswersAt, Step, Fold, Pow256, Seen, Timely, AllTimely, Acked;
    t := [];
    if i > 0 {
      t := DataLogged(e, dev, d, a, data, i - 1);
      DataReaches(e, dev, d, a, data, i - 1);
      var d1 := SendData(e, d, data, i - 1, Masterm).0;
      ByteReaches(e, dev, d1, data[i - 1]);
      var x := ByteLogged(e, dev, d1, data[i - 1]);
      var taken := Accepted(dev, a, i) == i;
      if taken {
        StoresByte(dev, SlaveAt(dev, d1.history), data[i - 1]);
      } else {
        RefusesByte(dev, SlaveAt(dev, d1.history), data[i - 1]);
      }
      OneMoreAcked(d, d1, SendByte(e, d1, data[i - 1], Masterm).0, t, Accepted(dev, a, i - 1), x, taken);
      t := t + [x];
    }
  }

  lemma AllAckedOfBoth(t: seq<Exchange>, u: seq<Exchange>)
    ensures AllAcked(t + u) <==> AllAcked(t) && AllAcked(u)
  {
    hide Acked;
    assert forall k | 0 <= k < |t| :: (t + u)[k] == t[k];
    assert forall k | 0 <= k < |u| :: (t + u)[|t| + k] == u[k];
  }

  lemma AllAckedUpTo(d: Driver, d1: Driver, t: seq<Exchange>, n: nat)
    requires AckedUpTo(d, d1, t, n) && n <= |t|
    ensures AllAcked(t) <==> n == |t|
  {
    hide Watch, Acked;
    if n < |t| {
      assert !Acked(t[n]);
    }
  }

  /** Selecting a cell: everything is acknowledged if it succeeds. */
  lemma SelectLogged(e: Env, dev: Device, d: Driver, chip: Byte, addr: nat) returns (t: seq<Exchange>)
    requires Tuned(e, dev, d) && Select(e, d, chip, addr, dev.alen, Masterm).1 == 0
    ensures View(Select(e, d, chip, addr, dev.alen, Masterm).0).log == View(d).log + t && AllAcked(t)
  {
    hide Watch, After, SendStart, SendAddress, Acked, AllAcked, AnswersAt, Step, Seen, Timely, Pow256;
    StartReaches(e, dev, d, chip, 0);
    var d1 := SendStart(e, d, chip, 0).0;
    StartsWriting(dev, d, d1, chip);
    var x := StartLogged(e, d, chip, 0);
    var a := AddressLogged(e, dev, d1, addr, dev.alen);
    AllAckedUpTo(d1, SendAddress(e, d1, addr, dev.alen, dev.alen, Masterm).0, a, dev.alen);
    AckedAlone(x);
    AllAckedOfBoth([x], a);
    t := [x] + a;
    assert View(d).log + [x] + a == View(d).log + t;
  }

  lemma AckedAlone(x: Exchange)
    ensures AllAcked([x]) <==> Acked(x)
  {
    hide Acked;
    assert [x][0] == x;
  }

  lemma WriteLogged(e: Env, dev: Device, d: Driver, chip: Byte, addr: nat, data: seq<Byte>) returns (t: seq<Exchange>)
    requires Tuned(e, dev, d) && addr < |dev.initial| && addr + |data| <= |dev.initial|
    requires WriteTransfer(e, d, chip, addr, dev.alen, data, Masterm).1 == 0
    ensures View(WriteTransfer(e, d, chip, addr, dev.alen, data, Masterm).0).log == View(d).log + t
    ensures AllAcked(t) <==> Unlocked(dev, addr, |data|)
  {
    hide Watch, After, Select, SendData, SendStop, Acked, AllAcked, Attached, Step, Seen, AllTimely, Pow256, Accepted,
      DisrReads, Polls, Unlocked;
    SelectReaches(e, dev, d, chip, addr);
    var h := SelectLogged(e, dev, d, chip, addr);
    var d1 := Select(e, d, chip, addr, dev.alen, Masterm).0;
    var u := DataLogged(e, dev, d1, addr, data, |data|);
    var d2 := SendData(e, d1, data, |data|, Masterm).0;
    AllAckedUpTo(d1, d2, u, Accepted(dev, addr, |data|));
    AcceptedIffUnlocked(dev, addr, |data|);
    var s := SendStopView(d2);
    AckedAlone(s);
    StopIsAcked(s);
    AllAckedOfBoth(h, u);
    AllAckedOfBoth(h + u, [s]);
    t := h + u + [s];
    assert View(d).log + h + u + [s] == View(d).log + t;
  }

  lemma StopIsAcked(x: Exchange)
    requires x.cmd == Stop || x.cmd == Configure
    ensures Acked(x)
  {
  }

  /** A write that hits a device and is answered in time returns 0, whatever the device
      accepts. Everything that was sent is acknowledged - no byte is refused - exactly when
      no cell written to is locked; and if the data differ from the cells' contents, they
      are all stored exactly then. */
  lemma RefusalGoesUnnoticed(e: Env, devs: map<int, Device>, d: Driver, chip: Byte, addr: nat, alen: nat,
                             data: seq<Byte>)
    requires OnBoard(e, devs) && Valid(d) && Settled(d.history) && Hits(devs, d, chip)
    requires Fits(devs[d.busNum], addr, alen, |data|)
    requires InTime(devs[d.busNum], d, WritePlan(chip, addr, alen, data, Masterm))
    ensures var (d1, ret) := I2cWrite(e, d, chip, addr, alen, data, Masterm);
            var t, open := Recorded(d, d1), Unlocked(devs[d.busNum], addr, |data|);
            var before, after := Memories(devs, d.history)[d.busNum], Memories(devs, d1.history)[d.busNum];
            && ret == 0
            && (AllAcked(t) <==> open) && (NoneRefused(t) <==> open)
            && ((forall k | 0 <= k < |data| :: data[k] != before[addr + k])
                ==> (after[addr..addr + |data|] == data <==> open))
  {
    hide Watch, After, RealInit, WriteTransfer, Memories, AllAcked, NoneRefused, Settled, Attached, Addresses, InTime,
      WritePlan, Header, Pow256, Recorded, Unlocked, AllTimely, Accepted;
    BoardWrite(e, devs, d, chip, addr, alen, data);
    HeaderInTime(devs[d.busNum], d, chip, addr, alen, data);
    WriteAcknowledged(e, d, chip, addr, alen, data, Masterm);
    BoardWriteLogged(e, devs, d, chip, addr, alen, data);
    AcceptedIffUnlocked(devs[d.busNum], addr, |data|);
    OverwrittenIffTaken(Memories(devs, d.history)[d.busNum], addr, data, Accepted(devs[d.busNum], addr, |data|));
  }

  lemma HeaderInTime(dev: Device, d: Driver, chip: Byte, addr: nat, alen: nat, data: seq<Byte>)
    requires InTime(dev, d, WritePlan(chip, addr, alen, data, Masterm))
    ensures InTime(dev, d, Header(chip, addr, alen))
  {
    hide AllTimely, Seen, AddressPlan, DataPlan;
    TimelyWithStop(dev, Seen(dev, d.history) + InitPlan(d), Header(chip, addr, alen), DataPlan(data, Masterm));
  }

  lemma OverwrittenIffTaken(mem: seq<Byte>, addr: nat, data: seq<Byte>, n: nat)
    requires addr + |data| <= |mem| && n <= |data|
    ensures (forall k | 0 <= k < |data| :: data[k] != mem[addr + k])
            ==> (Overwrite(mem, addr, data[..n])[addr..addr + |data|] == data <==> n == |data|)
  {
    var after := Overwrite(mem, addr, data[..n])[addr..addr + |data|];
    assert after == data[..n] + mem[addr + n..addr + |data|];
    if n < |data| {
      assert after[n] == mem[addr + n];
    }
  }

  lemma BoardWriteLogged(e: Env, devs: map<int, Device>, d: Driver, chip: Byte, addr: nat, alen: nat, data: seq<Byte>)
    requires OnBoard(e, devs) && Valid(d) && Settled(d.history) && Hits(devs, d, chip)
    requires Fits(devs[d.busNum], addr, alen, |data|)
    requires I2cWrite(e, d, chip, addr, alen, data, Masterm).1 == 0
    ensures AllAcked(Recorded(d, I2cWrite(e, d, chip, addr, alen, data, Masterm).0))
       <==> Unlocked(devs[d.busNum], addr, |data|)
  {
    hide Watch, After, RealInit, WriteTransfer, AllAcked, Settled, Attached, Addresses, Pow256, Recorded, Unlocked,
      DisrReads, Polls, Finished, Ok, Memories;
    InitOnBoard(e, devs, d);
    var d0 := InitIfPending(e, d);
    var c := InitView(e, d);
    var t := WriteLogged(e, devs[d.busNum], d0, chip, addr, data);
    var d1 := WriteTransfer(e, d0, chip, addr, alen, data, Masterm).0;
    assert View(d0).log + t == View(d.(busBase := d0.busBase, initPending := false)).log + (c + t);
    RecordedIs(d, d1, c + t);
    ConfigureIsAcked(d, c);
    AllAckedOfBoth(c, t);
  }

  lemma ConfigureIsAcked(d: Driver, t: seq<Exchange>)
    requires Succeeded(t, InitPlan(d)) && Conducted(t, InitPlan(d), |InitPlan(d)|)
    ensures AllAcked(t)
  {
    hide Ok;
  }
}
