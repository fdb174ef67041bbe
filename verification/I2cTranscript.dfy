/** What a bus monitor sees of the driver, whatever the hardware answers: the order of
    the commands, where a transfer stops, one clear and a bounded number of polls per
    command, the return value and the bytes that reach the caller's buffer. */
module I2cTranscript {
  import opened Bits
  import opened Options
  import opened I2cHardware
  import opened I2cDriver

  ghost predicate IsWindow(base: int) {
    exists bus :: 0 <= bus < BUSES && base == Window(bus)
  }

  /** Once initialised, the registers in use are those of some controller. */
  ghost predicate Sound(d: Driver) {
    d.initPending || IsWindow(d.busBase)
  }

  /** A bus is chosen as well. */
  ghost predicate Valid(d: Driver) {
    d.OnBus() && Sound(d)
  }

  ghost predicate Running(d: Driver) {
    d.OnBus() && IsWindow(d.busBase)
  }

  function View(d: Driver): Monitor {
    Watch(d.history, d.busBase)
  }

  /** The exchange reports that its command went well, by the bit the driver tests. */
  predicate Ok(x: Exchange) {
    match x.cmd
    case Start(_) => Bit(x.status, 0)
    case MasterTx(_) => Bit(x.status, 0) || Bit(x.status, 1)
    case SlaveTx(_) => Bit(x.status, 0) || Bit(x.status, 1)
    case MasterRx(_) => Bit(x.status, 2)
    case SlaveRx(_) => Bit(x.status, 2)
    case Stop => true
    case Configure => true
  }

  predicate IsReceive(c: Command) {
    c.MasterRx? || c.SlaveRx?
  }

  /** Commands that are answered by an interrupt. */
  predicate IsAnswered(c: Command) {
    !c.Stop? && !c.Configure?
  }

  /** x is a finished exchange for c: an answered command is polled for at least once
      and at most POLL_LIMIT times and its status is cleared exactly once; a byte is
      fetched exactly when a receive command succeeded. */
  predicate Finished(x: Exchange, c: Command) {
    && x.cmd == c
    && (IsAnswered(c) ==> x.clears == 1 && 1 <= x.polls <= POLL_LIMIT)
    && (!IsAnswered(c) ==> x.polls == 0)
    && (c.Stop? ==> x.clears == 0)
    && (x.data.Some? <==> IsReceive(c) && Ok(x))
  }

  /** The last command still waits for its status to be cleared. */
  predicate Awaiting(log: seq<Exchange>) {
    log != [] && IsAnswered(Last(log).cmd) && Last(log).clears == 0
  }

  predicate AllOk(t: seq<Exchange>) {
    forall k | 0 <= k < |t| :: Ok(t[k])
  }

  /** t carries out plan in order. One of the first `hard` commands that fails is the
      last one issued; nothing else cuts the plan short. */
  predicate Conducted(t: seq<Exchange>, plan: seq<Command>, hard: nat) {
    && |t| <= |plan|
    && (forall k | 0 <= k < |t| :: Finished(t[k], plan[k]))
    && (forall k | 0 <= k < |t| - 1 && k < hard :: Ok(t[k]))
    && (|t| < |plan| ==> 0 < |t| <= hard && !Ok(Last(t)))
  }

  /** Everything in the plan was issued and every command succeeded. */
  predicate Succeeded(t: seq<Exchange>, plan: seq<Command>) {
    |t| == |plan| && AllOk(t)
  }

  /** Polls in a log, and DISR reads in a raw history. */
  function Polls(t: seq<Exchange>): nat {
    if t == [] then 0 else Polls(t[..|t| - 1]) + Last(t).polls
  }

  function DisrReads(h: History): nat {
    if h == [] then 0
    else DisrReads(h[..|h| - 1]) + (if Last(h).Read? && Last(h).addr == DISR then 1 else 0)
  }

  /** From d to d1 the monitor recorded exactly t, and all DISR reads belong to t. */
  predicate Extends(d: Driver, d1: Driver, t: seq<Exchange>) {
    && SameGlobals(d, d1)
    && View(d1).log == View(d).log + t
    && DisrReads(d1.history) == DisrReads(d.history) + Polls(t)
  }

  // ---- Composition ------------------------------------------------------------------

  lemma {:induction false} PollsAppend(t: seq<Exchange>, u: seq<Exchange>)
    ensures Polls(t + u) == Polls(t) + Polls(u)
    decreases |u|
  {
    if u == [] {
      assert t + u == t;
    } else {
      PollsAppend(t, u[..|u| - 1]);
      assert (t + u)[..|t + u| - 1] == t + u[..|u| - 1];
    }
  }

  lemma ExtendsTwice(d: Driver, d1: Driver, d2: Driver, t: seq<Exchange>, u: seq<Exchange>)
    requires Extends(d, d1, t) && Extends(d1, d2, u)
    ensures Extends(d, d2, t + u)
  {
    hide Watch, DisrReads, Polls;
    PollsAppend(t, u);
    assert View(d).log + t + u == View(d).log + (t + u);
  }

  lemma ConductedThen(t: seq<Exchange>, p: seq<Command>, u: seq<Exchange>, q: seq<Command>, hard: nat)
    requires Conducted(t, p, |p|) && Succeeded(t, p) && Conducted(u, q, hard)
    ensures Conducted(t + u, p + q, |p| + hard) && |t| == |p|
    ensures Succeeded(t + u, p + q) <==> Succeeded(u, q)
  {
    hide Ok, Finished;
    forall k | 0 <= k < |t + u|
      ensures Finished((t + u)[k], (p + q)[k])
      ensures k < |t + u| - 1 && k < |p| + hard ==> Ok((t + u)[k])
    {
      if k >= |t| {
        assert (t + u)[k] == u[k - |t|];
      }
    }
    assert u != [] ==> Last(t + u) == Last(u);
    AllOkOfBoth(t, u);
  }

  lemma AllOkOfBoth(t: seq<Exchange>, u: seq<Exchange>)
    ensures AllOk(t + u) <==> AllOk(t) && AllOk(u)
  {
    hide Ok;
    assert forall k | 0 <= k < |t| :: (t + u)[k] == t[k];
    assert forall k | 0 <= k < |u| :: (t + u)[|t| + k] == u[k];
  }

  lemma ConductedCutShort(t: seq<Exchange>, p: seq<Command>, q: seq<Command>, hard: nat)
    requires Conducted(t, p, |p|) && !Succeeded(t, p)
    ensures Conducted(t, p + q, |p| + hard) && !Succeeded(t, p + q) && |t| <= |p|
  {
    if |t| == |p| {
      var k :| 0 <= k < |t| && !Ok(t[k]);
      assert k == |t| - 1;
    }
  }

  // ---- One command ------------------------------------------------------------------

  lemma DisrReadsAppend(h: History, a: Access)
    ensures DisrReads(h + [a]) == DisrReads(h) + (if a.Read? && a.addr == DISR then 1 else 0)
  {
    assert (h + [a])[..|h + [a]| - 1] == h;
  }

  lemma PutView(d: Driver, addr: int, v: Word)
    ensures View(d.Put(addr, v)) == Observe(View(d), Write(addr, v), d.busBase)
    ensures DisrReads(d.Put(addr, v).history) == DisrReads(d.history)
  {
    WatchAppend(d.history, Write(addr, v), d.busBase);
    DisrReadsAppend(d.history, Write(addr, v));
  }

  lemma GetView(e: Env, d: Driver, addr: int)
    ensures View(d.Get(e, addr)) == Observe(View(d), Read(addr, e(d.history, addr)), d.busBase)
    ensures DisrReads(d.Get(e, addr).history) == DisrReads(d.history) + (if addr == DISR then 1 else 0)
  {
    WatchAppend(d.history, Read(addr, e(d.history, addr)), d.busBase);
    DisrReadsAppend(d.history, Read(addr, e(d.history, addr)));
  }

  /** The monitor after k polls and an interrupt status that was read. */
  function Polled(m: Monitor, k: nat, status: Word): Monitor
    requires m.log != []
  {
    var x := Last(m.log);
    m.(log := Amend(m.log, x.(polls := x.polls + k, status := status)))
  }

  /** Polling amends only the last exchange: it counts the polls and records the
      status, which stays what it was when no poll shows the bus's bit. */
  lemma {:induction false} PollView(e: Env, d: Driver, n: nat)
    requires Running(d) && View(d).log != [] && Last(View(d).log).status == 0
    ensures var (d1, status) := Poll(e, d, n);
            var k := DisrReads(d1.history) - DisrReads(d.history);
            && (if n > 0 then 1 else 0) <= k <= n
            && View(d1) == Polled(View(d), k, status)
    decreases n
  {
    hide Watch, DisrReads, Bit;
    if n > 0 {
      var d1 := d.Get(e, DISR);
      GetView(e, d, DISR);
      assert View(d1) == Polled(View(d), 1, 0);
      if Bit(e(d.history, DISR), d.busNum) {
        GetView(e, d1, d.busBase + ISR);
      } else {
        PollView(e, d1, n - 1);
      }
    }
  }

  /** From the issue of cmd to the return of i2c_interrupt_status. */
  lemma InterruptView(e: Env, d: Driver, log: seq<Exchange>, cmd: Command)
    requires Running(d) && View(d).log == log + [Issued(cmd)]
    ensures var (d1, status) := InterruptStatus(e, d);
            var k := DisrReads(d1.history) - DisrReads(d.history);
            && 1 <= k <= POLL_LIMIT
            && View(d1) == Monitor(View(d).latch, log + [Exchange(cmd, k, status, 1, None)])
  {
    hide Watch, DisrReads, Bit, Poll;
    PollView(e, d, POLL_LIMIT);
    var (d1, status) := Poll(e, d, POLL_LIMIT);
    PutView(d1, d.busBase + ISR, 0xFFFFFFFF);
  }

  function StartCommand(chip: Byte, readWrite: Byte): Command {
    Start((2 * chip + readWrite % 2) % 256)
  }

  function TxCommand(byte: Byte, mode: Mode): Command {
    if mode == Slavem then SlaveTx(byte) else MasterTx(byte)
  }

  function RxCommand(last: bool, mode: Mode): Command {
    if mode == Slavem then SlaveRx(last) else MasterRx(last)
  }

  /** One finished exchange for cmd was added, and ret says whether it went well. */
  predicate Added(d: Driver, d1: Driver, x: Exchange, cmd: Command, ret: int) {
    && Extends(d, d1, [x])
    && x.cmd == cmd && Finished(x, cmd)
    && (ret == 0 || ret == 1)
    && (ret == 0 <==> Ok(x))
    && (ret == 0 <==> Succeeded([x], [cmd]))
  }

  lemma SendStartView(e: Env, d: Driver, chip: Byte, readWrite: Byte) returns (x: Exchange)
    requires Running(d)
    ensures var (d1, ret) := SendStart(e, d, chip, readWrite);
            Added(d, d1, x, StartCommand(chip, readWrite), ret)
  {
    hide Watch, DisrReads, Bit, InterruptStatus, Decode;
    var d1 := d.Put(d.busBase + TRBB, 2 * chip + readWrite % 2);
    PutView(d, d.busBase + TRBB, 2 * chip + readWrite % 2);
    PutView(d1, d.busBase + CSR, 3);
    CommandWords(View(d1).latch);
    InterruptView(e, d1.Put(d.busBase + CSR, 3), View(d).log, StartCommand(chip, readWrite));
    x := Last(View(SendStart(e, d, chip, readWrite).0).log);
    assert Polls([x]) == x.polls && x == [x][0];
  }

  lemma SendByteView(e: Env, d: Driver, byte: Byte, mode: Mode) returns (x: Exchange)
    requires Running(d)
    ensures var (d1, ret) := SendByte(e, d, byte, mode);
            Added(d, d1, x, TxCommand(byte, mode), ret)
  {
    hide Watch, DisrReads, Bit, InterruptStatus, Decode;
    var d1 := d.Put(d.busBase + TRBB, byte);
    var csr := if mode == Slavem then 4 else 2;
    PutView(d, d.busBase + TRBB, byte);
    PutView(d1, d.busBase + CSR, csr);
    CommandWords(View(d1).latch);
    InterruptView(e, d1.Put(d.busBase + CSR, csr), View(d).log, TxCommand(byte, mode));
    x := Last(View(SendByte(e, d, byte, mode).0).log);
    assert Polls([x]) == x.polls && x == [x][0];
  }

  lemma ReceiveCommandView(d: Driver, last: bool, mode: Mode)
    ensures var csr := (if mode == Masterm then 0x08 else 0) + (if last then 0x10 else 0);
            var d1 := d.Put(d.busBase + CSR, csr);
            && View(d1) == View(d).(log := View(d).log + [Issued(RxCommand(last, mode))])
            && DisrReads(d1.history) == DisrReads(d.history)
  {
    hide Watch, DisrReads, Decode;
    CommandWords(View(d).latch);
    PutView(d, d.busBase + CSR, (if mode == Masterm then 0x08 else 0) + (if last then 0x10 else 0));
  }

  lemma FetchView(e: Env, d: Driver, log: seq<Exchange>, x: Exchange)
    requires Running(d) && View(d).log == log + [x]
    ensures var d1 := d.Get(e, d.busBase + TRBB);
            && View(d1).log == log + [x.(data := Some(SecondByte(e(d.history, d.busBase + TRBB))))]
            && DisrReads(d1.history) == DisrReads(d.history)
  {
    hide Watch, DisrReads, SecondByte;
    GetView(e, d, d.busBase + TRBB);
  }

  lemma ReceiveByteView(e: Env, d: Driver, byte: Byte, last: bool, mode: Mode) returns (x: Exchange)
    requires Running(d)
    ensures var (d1, ret, stored) := ReceiveByte(e, d, byte, last, mode);
            && Added(d, d1, x, RxCommand(last, mode), ret)
            && stored == (if x.data.Some? then x.data.value else byte)
  {
    hide Watch, DisrReads, Bit, InterruptStatus, SecondByte, Decode, Observe;
    var csr := (if mode == Masterm then 0x08 else 0) + (if last then 0x10 else 0);
    ReceiveCommandView(d, last, mode);
    var d1 := d.Put(d.busBase + CSR, csr);
    InterruptView(e, d1, View(d).log, RxCommand(last, mode));
    var (d2, status) := InterruptStatus(e, d1);
    x := Exchange(RxCommand(last, mode), DisrReads(d2.history) - DisrReads(d1.history), status, 1, None);
    FetchView(e, d2, View(d).log, x);
    if Bit(status, 2) {
      x := x.(data := Some(SecondByte(e(d2.history, d2.busBase + TRBB))));
    }
    assert Polls([x]) == x.polls && x == [x][0];
  }

  lemma SendStopView(d: Driver) returns (x: Exchange)
    ensures Extends(d, SendStop(d), [x]) && Finished(x, Stop)
  {
    hide Watch, DisrReads, Decode;
    CommandWords(View(d).latch);
    PutView(d, d.busBase + CSR, 0x30);
    x := Issued(Stop);
    assert Polls([x]) == x.polls && x == [x][0];
  }

  // ---- The loops --------------------------------------------------------------------

  function AddressPlan(addr: nat, alen: nat, mode: Mode): (p: seq<Command>)
    ensures |p| == alen
  {
    seq(alen, i requires 0 <= i < alen => TxCommand(AddressByte(addr, alen, i), mode))
  }

  function DataPlan(data: seq<Byte>, mode: Mode): (p: seq<Command>)
    ensures |p| == |data|
  {
    seq(|data|, i requires 0 <= i < |data| => TxCommand(data[i], mode))
  }

  /** `last` is set on the final byte only. */
  function ReceivePlan(len: nat, mode: Mode): (p: seq<Command>)
    ensures |p| == len
  {
    seq(len, i requires 0 <= i < len => RxCommand(i == len - 1, mode))
  }

  lemma SoftAppend(t: seq<Exchange>, p: seq<Command>, x: Exchange, c: Command)
    requires Conducted(t, p, 0) && Finished(x, c)
    ensures Conducted(t + [x], p + [c], 0)
    ensures Succeeded(t + [x], p + [c]) <==> Succeeded(t, p) && Ok(x)
  {
    if AllOk(t + [x]) {
      assert forall k | 0 <= k < |t| :: t[k] == (t + [x])[k];
      assert x == (t + [x])[|t|];
    }
  }

  lemma {:induction false} SendAddressView(e: Env, d: Driver, addr: nat, alen: nat, i: nat, mode: Mode)
    returns (t: seq<Exchange>)
    requires Running(d) && i <= alen
    ensures var (d1, ret) := SendAddress(e, d, addr, alen, i, mode);
            var plan := AddressPlan(addr, alen, mode)[..i];
            && Extends(d, d1, t) && Conducted(t, plan, i)
            && (ret == 0 || ret == 1) && (ret == 0 <==> Succeeded(t, plan))
    decreases i
  {
    hide Watch, DisrReads, SendByte, Ok, Finished;
    if i == 0 {
      t := [];
    } else {
      var plan := AddressPlan(addr, alen, mode);
      assert plan[..i] == plan[..i - 1] + [plan[i - 1]];
      t := SendAddressView(e, d, addr, alen, i - 1, mode);
      var (d1, ret) := SendAddress(e, d, addr, alen, i - 1, mode);
      if ret != 0 {
        ConductedCutShort(t, plan[..i - 1], [plan[i - 1]], 1);
      } else {
        var x := SendByteView(e, d1, AddressByte(addr, alen, i - 1), mode);
        ExtendsTwice(d, d1, SendByte(e, d1, AddressByte(addr, alen, i - 1), mode).0, t, [x]);
        ConductedThen(t, plan[..i - 1], [x], [plan[i - 1]], 1);
        t := t + [x];
      }
    }
  }

  lemma {:induction false} SendDataView(e: Env, d: Driver, data: seq<Byte>, i: nat, mode: Mode)
    returns (t: seq<Exchange>)
    requires Running(d) && i <= |data|
    ensures var (d1, ret) := SendData(e, d, data, i, mode);
            var plan := DataPlan(data, mode)[..i];
            && Extends(d, d1, t) && Conducted(t, plan, 0)
            && (ret == 0 || ret == 1) && (ret == 0 <==> Succeeded(t, plan))
    decreases i
  {
    hide Watch, DisrReads, SendByte, Ok, Finished;
    if i == 0 {
      t := [];
    } else {
      var plan := DataPlan(data, mode);
      assert plan[..i] == plan[..i - 1] + [plan[i - 1]];
      t := SendDataView(e, d, data, i - 1, mode);
      var d1 := SendData(e, d, data, i - 1, mode).0;
      var x := SendByteView(e, d1, data[i - 1], mode);
      ExtendsTwice(d, d1, SendByte(e, d1, data[i - 1], mode).0, t, [x]);
      SoftAppend(t, plan[..i - 1], x, plan[i - 1]);
      t := t + [x];
    }
  }

  /** What the receive loop leaves in the buffer: the byte fetched where a receive
      succeeded, the old byte where it failed and beyond the end. */
  predicate Stored(after: seq<Byte>, before: seq<Byte>, t: seq<Exchange>) {
    && |after| == |before|
    && forall k | 0 <= k < |before| ::
         after[k] == if k < |t| && t[k].data.Some? then t[k].data.value else before[k]
  }

  lemma StoresNext(after: seq<Byte>, before: seq<Byte>, t: seq<Exchange>, x: Exchange, byte: Byte)
    requires Stored(after, before, t) && |t| < |before|
    requires byte == if x.data.Some? then x.data.value else after[|t|]
    ensures Stored(after[|t| := byte], before, t + [x])
  {
  }

  lemma {:induction false} ReceiveDataView(e: Env, d: Driver, buffer: seq<Byte>, len: nat, i: nat, mode: Mode)
    returns (t: seq<Exchange>)
    requires Running(d) && i <= len <= |buffer|
    ensures var (d1, ret, b) := ReceiveData(e, d, buffer, len, i, mode);
            var plan := ReceivePlan(len, mode)[..i];
            && Extends(d, d1, t) && Conducted(t, plan, 0) && Stored(b, buffer, t) && |t| == i
            && (ret == 0 || ret == 1) && (ret == 0 <==> Succeeded(t, plan))
    decreases i
  {
    hide Watch, DisrReads, ReceiveByte, Ok, Finished, Stored, Extends, AllOk, Polls;
    if i == 0 {
      t := [];
      NothingReceived(d, buffer);
    } else {
      var plan := ReceivePlan(len, mode);
      assert plan[..i] == plan[..i - 1] + [plan[i - 1]];
      t := ReceiveDataView(e, d, buffer, len, i - 1, mode);
      var (d1, _, b1) := ReceiveData(e, d, buffer, len, i - 1, mode);
      var x := ReceiveByteView(e, d1, b1[i - 1], i - 1 >= len - 1, mode);
      var (d2, _, byte) := ReceiveByte(e, d1, b1[i - 1], i - 1 >= len - 1, mode);
      ExtendsTwice(d, d1, d2, t, [x]);
      SoftAppend(t, plan[..i - 1], x, plan[i - 1]);
      StoresNext(b1, buffer, t, x, byte);
      t := t + [x];
    }
  }

  lemma NothingReceived(d: Driver, buffer: seq<Byte>)
    ensures Extends(d, d, []) && Stored(buffer, buffer, []) && AllOk([])
  {
    hide Watch, DisrReads;
    assert View(d).log == View(d).log + [];
  }

  // ---- Initialisation ---------------------------------------------------------------

  lemma PinsView(e: Env, d: Driver)
    requires Running(d)
    ensures var d1 := ReleaseReset(e, EnablePins(e, d));
            View(d1) == View(d) && DisrReads(d1.history) == DisrReads(d.history)
  {
    hide Watch, DisrReads, PinWord, Bits.ClearWordBit;
    var d1 := d.Put(AST_SCU_BASE, 0x1688A8A8);
    PutView(d, AST_SCU_BASE, 0x1688A8A8);
    if d.busNum >= 2 {
      GetView(e, d1, SCU_PINS);
      PutView(d1.Get(e, SCU_PINS), SCU_PINS, PinWord(e(d1.history, SCU_PINS), d.busNum));
    }
    var d2 := EnablePins(e, d);
    GetView(e, d2, SCU_RESET);
    PutView(d2.Get(e, SCU_RESET), SCU_RESET, ClearWordBit(e(d2.history, SCU_RESET), 2));
  }

  lemma SetUpView(d: Driver)
    ensures var d1 := SetUpWindow(d);
            && View(d1).log == View(d).log + [Exchange(Configure, 0, 0, 1, None)]
            && DisrReads(d1.history) == DisrReads(d.history)
  {
    hide Watch, DisrReads;
    var d1 := d.Put(d.busBase + CATCR1, 0x77777344);
    var d2 := d1.Put(d.busBase + CATCR2, 0);
    var d3 := d2.Put(d.busBase + DR, SLAVE_ADDRESS);
    var d4 := d3.Put(d.busBase + ISR, 0xFFFFFFFF);
    var d5 := d4.Put(d.busBase + FCR, 7);
    PutView(d, d.busBase + CATCR1, 0x77777344);
    PutView(d1, d.busBase + CATCR2, 0);
    PutView(d2, d.busBase + DR, SLAVE_ADDRESS);
    PutView(d3, d.busBase + ISR, 0xFFFFFFFF);
    PutView(d4, d.busBase + FCR, 7);
    PutView(d5, d.busBase + ICR, 0x2F);
  }

  /** An initialisation is one Configure exchange on the window of the current bus. */
  lemma RealInitView(e: Env, d: Driver) returns (x: Exchange)
    requires d.OnBus()
    ensures Extends(d.(busBase := Window(d.busNum), initPending := false), RealInit(e, d), [x])
    ensures Finished(x, Configure) && Running(RealInit(e, d))
  {
    hide Watch, DisrReads, EnablePins, ReleaseReset, SetUpWindow;
    var d0 := d.(busBase := Window(d.busNum));
    PinsView(e, d0);
    SetUpView(ReleaseReset(e, EnablePins(e, d0)));
    x := Exchange(Configure, 0, 0, 1, None);
    assert Polls([x]) == x.polls && x == [x][0];
  }

  // ---- Whole transfers --------------------------------------------------------------

  /** The commands of a read (section 3.1.10 of UM10204, the I2C-bus
      specification): address the device for writing,
      send the register address, address it again for reading, receive, stop. */
  function ReadPlan(chip: Byte, addr: nat, alen: nat, len: nat, mode: Mode): (p: seq<Command>)
    ensures |p| == 3 + alen + len
  {
    [StartCommand(chip, 0)] + AddressPlan(addr, alen, mode) + [StartCommand(chip, 1)]
    + (ReceivePlan(len, mode) + [Stop])
  }

  function WritePlan(chip: Byte, addr: nat, alen: nat, data: seq<Byte>, mode: Mode): (p: seq<Command>)
    ensures |p| == 2 + alen + |data|
  {
    [StartCommand(chip, 0)] + AddressPlan(addr, alen, mode) + (DataPlan(data, mode) + [Stop])
  }

  lemma SelectView(e: Env, d: Driver, chip: Byte, addr: nat, alen: nat, mode: Mode) returns (t: seq<Exchange>)
    requires Running(d)
    ensures var (d1, ret) := Select(e, d, chip, addr, alen, mode);
            var plan := [StartCommand(chip, 0)] + AddressPlan(addr, alen, mode);
            && Extends(d, d1, t) && Conducted(t, plan, 1 + alen)
            && (ret == 0 || ret == 1) && (ret == 0 <==> Succeeded(t, plan))
  {
    hide Watch, DisrReads, SendStart, SendAddress, Ok, Finished, Polls;
    var c, ap := StartCommand(chip, 0), AddressPlan(addr, alen, mode);
    assert ap == ap[..alen];
    var x := SendStartView(e, d, chip, 0);
    var (d1, failed) := SendStart(e, d, chip, 0);
    t := [x];
    if failed != 0 {
      ConductedCutShort(t, [c], ap, alen);
    } else {
      var a := SendAddressView(e, d1, addr, alen, alen, mode);
      ExtendsTwice(d, d1, SendAddress(e, d1, addr, alen, alen, mode).0, t, a);
      ConductedThen(t, [c], a, ap, alen);
      t := t + a;
    }
  }

  lemma ReadTransferView(e: Env, d: Driver, chip: Byte, addr: nat, alen: nat, buffer: seq<Byte>, len: nat, mode: Mode)
    returns (t: seq<Exchange>)
    requires Running(d) && len <= |buffer|
    ensures var (d1, ret, b) := ReadTransfer(e, d, chip, addr, alen, buffer, len, mode);
            var plan := ReadPlan(chip, addr, alen, len, mode);
            && Extends(d, d1, t) && Conducted(t, plan, alen + 2)
            && ret == (if Succeeded(t, plan) then 0 else 1)
            && Stored(b, buffer, t[Min(|t|, alen + 2)..])
  {
    hide Watch, DisrReads, Select, SendStart, ReceiveData, SendStop, Ok, Polls, AddressPlan, ReceivePlan;
    var head, c := [StartCommand(chip, 0)] + AddressPlan(addr, alen, mode), StartCommand(chip, 1);
    var tail := ReceivePlan(len, mode) + [Stop];
    assert ReadPlan(chip, addr, alen, len, mode) == head + ([c] + tail);
    t := SelectView(e, d, chip, addr, alen, mode);
    var (d1, failed1) := Select(e, d, chip, addr, alen, mode);
    if failed1 != 0 {
      ConductedCutShort(t, head, [c] + tail, 1);
      return;
    }
    var x := SendStartView(e, d1, chip, 1);
    var (d2, failed2) := SendStart(e, d1, chip, 1);
    ExtendsTwice(d, d1, d2, t, [x]);
    ConductedThen(t, head, [x], [c], 1);
    t := t + [x];
    if failed2 != 0 {
      ConductedCutShort(t, head + [c], tail, 0);
      return;
    }
    var u := ReceiveTail(e, d2, buffer, len, mode);
    ExtendsTwice(d, d2, SendStop(ReceiveData(e, d2, buffer, len, len, mode).0), t, u);
    ConductedThen(t, head + [c], u, tail, 0);
    assert (t + u)[alen + 2..] == u;
    t := t + u;
  }

  lemma ReceiveTail(e: Env, d: Driver, buffer: seq<Byte>, len: nat, mode: Mode) returns (t: seq<Exchange>)
    requires Running(d) && len <= |buffer|
    ensures var (d1, ret, b) := ReceiveData(e, d, buffer, len, len, mode);
            var plan := ReceivePlan(len, mode) + [Stop];
            && Extends(d, SendStop(d1), t) && Conducted(t, plan, 0)
            && ret == (if Succeeded(t, plan) then 0 else 1)
            && Stored(b, buffer, t)
  {
    hide Watch, DisrReads, ReceiveData, SendStop, Ok, Finished, Polls;
    var plan := ReceivePlan(len, mode);
    assert plan == plan[..len];
    t := ReceiveDataView(e, d, buffer, len, len, mode);
    var (d1, ret, b) := ReceiveData(e, d, buffer, len, len, mode);
    var s := SendStopView(d1);
    ExtendsTwice(d, d1, SendStop(d1), t, [s]);
    SoftAppend(t, plan, s, Stop);
    StopStoresNothing(b, buffer, t, s);
    t := t + [s];
  }

  lemma WriteTransferView(e: Env, d: Driver, chip: Byte, addr: nat, alen: nat, data: seq<Byte>, mode: Mode)
    returns (t: seq<Exchange>)
    requires Running(d)
    ensures var (d1, ret) := WriteTransfer(e, d, chip, addr, alen, data, mode);
            var plan := WritePlan(chip, addr, alen, data, mode);
            && Extends(d, d1, t) && Conducted(t, plan, alen + 1)
            && ret == (if Succeeded(t, plan) then 0 else 1)
  {
    hide Watch, DisrReads, Select, SendData, SendStop, Ok, Finished, Polls, AddressPlan, DataPlan;
    var head, dp := [StartCommand(chip, 0)] + AddressPlan(addr, alen, mode), DataPlan(data, mode);
    assert dp == dp[..|data|];
    t := SelectView(e, d, chip, addr, alen, mode);
    var (d1, failed) := Select(e, d, chip, addr, alen, mode);
    if failed != 0 {
      ConductedCutShort(t, head, dp + [Stop], 0);
      return;
    }
    var u := SendDataView(e, d1, data, |data|, mode);
    var d2 := SendData(e, d1, data, |data|, mode).0;
    var s := SendStopView(d2);
    StopIsOk(s);
    ExtendsTwice(d1, d2, SendStop(d2), u, [s]);
    SoftAppend(u, dp, s, Stop);
    ExtendsTwice(d, d1, SendStop(d2), t, u + [s]);
    ConductedThen(t, head, u + [s], dp + [Stop], 0);
    t := t + (u + [s]);
  }

  lemma StopIsOk(x: Exchange)
    requires Finished(x, Stop)
    ensures Ok(x)
  {
  }

  lemma StopStoresNothing(after: seq<Byte>, before: seq<Byte>, t: seq<Exchange>, x: Exchange)
    requires Stored(after, before, t) && |t| <= |before| && Finished(x, Stop)
    ensures Stored(after, before, t + [x]) && Ok(x)
  {
  }

  function Min(a: nat, b: nat): nat {
    if a < b then a else b
  }
}
