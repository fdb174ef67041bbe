/** A memory with an auto-incrementing cursor, attached to one controller, and what
    the driver's reads and writes do to it. The device sees only the commands that the
    bus monitor decodes; the driver sees only what the registers answer. */
module I2cMemorySlave {
  import opened Bits
  import opened I2cHardware
  import opened I2cDriver
  import opened I2cTranscript
  import opened I2cAddress
  import opened WordBits

  /** `own` is the 7-bit address and `alen` the number of address bytes. `delay` is the
      number of polls before the answer to the last of the commands shows; commands only
      accumulate, so any pattern of fast and slow answers is such a function. `locked`
      are the cells that cannot be written. */
  datatype Device = Device(bus: int, own: nat, alen: nat, delay: seq<Command> -> nat, locked: set<nat>,
                           initial: seq<Byte>) {
    predicate Valid() {
      0 <= bus < BUSES && own < 128 && |initial| == Pow256(alen)
    }
  }

  datatype Phase = Idle | Receiving(count: nat) | Sending

  datatype Slave = Slave(mem: seq<Byte>, phase: Phase, cursor: nat, out: Byte, acked: bool) {
    predicate Valid() {
      cursor < |mem|
    }
  }

  /** The device's reaction to one command (sections 3.1.6 and 3.1.10 of UM10204,
      the I2C-bus specification). It refuses a byte for a locked cell, and from then on
      everything until it is addressed again. */
  function Step(dev: Device, s: Slave, c: Command): (r: Slave)
    requires s.Valid()
    ensures r.Valid() && |r.mem| == |s.mem|
  {
    match c
    case Start(wire) =>
      if wire / 2 != dev.own then s.(phase := Idle, acked := false)
      else s.(phase := if wire % 2 == 0 then Receiving(0) else Sending, acked := true)
    case MasterTx(b) =>
      if !s.phase.Receiving? then s.(acked := false)
      else if s.phase.count < dev.alen then
        var shifted := if s.phase.count == 0 then b else s.cursor * 256 + b;
        s.(cursor := shifted % |s.mem|, phase := Receiving(s.phase.count + 1), acked := true)
      else if s.cursor in dev.locked then s.(phase := Idle, acked := false)
      else
        s.(mem := s.mem[s.cursor := b], cursor := (s.cursor + 1) % |s.mem|, acked := true)
    case MasterRx(last) =>
      if s.phase != Sending then s.(out := 0xFF)
      else
        s.(out := s.mem[s.cursor], cursor := (s.cursor + 1) % |s.mem|,
           phase := if last then Idle else Sending)
    case Stop => s.(phase := Idle)
    case SlaveTx(_) => s
    case SlaveRx(_) => s
    case Configure => s
  }

  function After(dev: Device, commands: seq<Command>): (s: Slave)
    requires dev.Valid()
    ensures s.Valid() && |s.mem| == |dev.initial|
  {
    if commands == [] then Slave(dev.initial, Idle, 0, 0, false)
    else Step(dev, After(dev, commands[..|commands| - 1]), Last(commands))
  }

  /** Everything the device has seen on its bus. */
  function Seen(dev: Device, h: History): seq<Command> {
    Commands(Log(h, Window(dev.bus)))
  }

  function SlaveAt(dev: Device, h: History): (s: Slave)
    requires dev.Valid()
    ensures s.Valid() && |s.mem| == |dev.initial|
  {
    After(dev, Seen(dev, h))
  }

  /** Bit 0 reports an acknowledged byte, bit 1 a refused one, bit 2 a received one. */
  predicate Reports(status: Word, s: Slave, c: Command) {
    match c
    case Start(_) => Bit(status, 0) <==> s.acked
    case MasterTx(_) => (Bit(status, 0) <==> s.acked) && (Bit(status, 1) || s.acked)
    case MasterRx(_) => Bit(status, 2)
    case _ => true
  }

  /** The device's controller shows its DISR bit. */
  predicate Raises(dev: Device, h: History) {
    var log := Log(h, Window(dev.bus));
    Awaiting(log) && Last(log).polls >= dev.delay(Commands(log))
  }

  predicate AnswersAt(e: Env, dev: Device, h: History)
    requires dev.Valid()
  {
    var base := Window(dev.bus);
    var log := Log(h, base);
    && (Bit(e(h, DISR), dev.bus) <==> Raises(dev, h))
    && (Awaiting(log) ==> Reports(e(h, base + ISR), SlaveAt(dev, h), Last(log).cmd))
    && Carries(e(h, base + TRBB), SlaveAt(dev, h).out)
  }

  /** e carries dev: its controller raises its DISR bit after the delay, reports the
      acknowledge and offers the byte sent in bits 15:8. Everything else that can be read, the bits of
      the other controllers included, is arbitrary. */
  ghost predicate Attached(e: Env, dev: Device) {
    dev.Valid() && forall h: History :: AnswersAt(e, dev, h)
  }

  // ---- Answers in time --------------------------------------------------------------

  /** The answer to the last of these commands shows before the driver gives up. */
  predicate Timely(dev: Device, seen: seq<Command>) {
    dev.delay(seen) < POLL_LIMIT
  }

  /** So do all answers to plan, if the device has seen `seen` before it. */
  predicate AllTimely(dev: Device, seen: seq<Command>, plan: seq<Command>) {
    forall k | 0 <= k < |plan| && IsAnswered(plan[k]) :: Timely(dev, seen + plan[..k + 1])
  }

  lemma TimelyThen(dev: Device, seen: seq<Command>, p: seq<Command>, q: seq<Command>)
    ensures AllTimely(dev, seen, p + q) <==> AllTimely(dev, seen, p) && AllTimely(dev, seen + p, q)
  {
    hide Timely, IsAnswered;
    forall k | 0 <= k < |p|
      ensures (p + q)[k] == p[k] && (p + q)[..k + 1] == p[..k + 1]
    {
    }
    forall k | 0 <= k < |q|
      ensures (p + q)[|p| + k] == q[k] && seen + (p + q)[..|p| + k + 1] == seen + p + q[..k + 1]
    {
    }
  }

  lemma TimelyOne(dev: Device, seen: seq<Command>, c: Command)
    ensures AllTimely(dev, seen, [c]) <==> (IsAnswered(c) ==> Timely(dev, seen + [c]))
  {
    assert [c][..0 + 1] == [c];
    if AllTimely(dev, seen, [c]) && IsAnswered([c][0]) {
      assert Timely(dev, seen + [c][..0 + 1]);
    }
  }

  /** A stop is not waited for. */
  lemma TimelyWithStop(dev: Device, seen: seq<Command>, head: seq<Command>, plan: seq<Command>)
    ensures AllTimely(dev, seen, head + (plan + [Stop]))
       <==> AllTimely(dev, seen, head) && AllTimely(dev, seen + head, plan)
  {
    hide AllTimely, Timely;
    TimelyThen(dev, seen, head, plan + [Stop]);
    TimelyThen(dev, seen + head, plan, [Stop]);
    TimelyOne(dev, seen + head + plan, Stop);
  }

  // ---- One command ------------------------------------------------------------------

  lemma CommandsAppend(dev: Device, log: seq<Exchange>, x: Exchange)
    requires dev.Valid()
    ensures Commands(log + [x]) == Commands(log) + [x.cmd]
    ensures After(dev, Commands(log + [x])) == Step(dev, After(dev, Commands(log)), x.cmd)
  {
    assert Commands(log + [x])[..|log|] == Commands(log);
  }

  lemma SameCommands(log: seq<Exchange>, log': seq<Exchange>)
    requires |log| == |log'| && forall i | 0 <= i < |log| :: log[i].cmd == log'[i].cmd
    ensures Commands(log) == Commands(log')
  {
  }

  /** The driver uses the registers of dev's controller and polls the bit it raises. */
  ghost predicate Tuned(e: Env, dev: Device, d: Driver) {
    Attached(e, dev) && Running(d) && d.busBase == Window(dev.bus) && d.busNum == dev.bus
  }

  lemma {:induction false} PollAnswered(e: Env, dev: Device, d: Driver, n: nat)
    requires Tuned(e, dev, d) && Awaiting(View(d).log)
    requires Last(View(d).log).polls <= dev.delay(Seen(dev, d.history))
    ensures var status := Poll(e, d, n).1;
            if dev.delay(Seen(dev, d.history)) < Last(View(d).log).polls + n
            then Reports(status, SlaveAt(dev, d.history), Last(View(d).log).cmd)
            else status == 0
    decreases n
  {
    hide Watch, Bit, After, Reports;
    if n > 0 {
      var d1 := d.Get(e, DISR);
      assert AnswersAt(e, dev, d.history) && AnswersAt(e, dev, d1.history);
      GetView(e, d, DISR);
      SameCommands(View(d).log, View(d1).log);
      if !Bit(e(d.history, DISR), d.busNum) {
        PollAnswered(e, dev, d1, n - 1);
      }
    }
  }

  /** Whether the answer to a command comes back in time. */
  lemma InterruptReports(e: Env, dev: Device, d: Driver, log: seq<Exchange>, c: Command)
    requires Tuned(e, dev, d) && View(d).log == log + [Issued(c)] && IsAnswered(c)
    ensures var status := InterruptStatus(e, d).1;
            if Timely(dev, Seen(dev, d.history)) then Reports(status, SlaveAt(dev, d.history), c) else status == 0
  {
    hide Watch, Bit, After, Reports, Poll;
    PollAnswered(e, dev, d, POLL_LIMIT);
  }

  /** One exchange more on the device's bus. */
  predicate Reached(dev: Device, d: Driver, d1: Driver, c: Command)
    requires dev.Valid()
  {
    && Seen(dev, d1.history) == Seen(dev, d.history) + [c]
    && SlaveAt(dev, d1.history) == Step(dev, SlaveAt(dev, d.history), c)
  }

  lemma AddedStep(dev: Device, d: Driver, d1: Driver, x: Exchange)
    requires dev.Valid() && d.busBase == Window(dev.bus) && Extends(d, d1, [x])
    ensures Reached(dev, d, d1, x.cmd)
  {
    hide Watch, After;
    CommandsAppend(dev, View(d).log, x);
  }

  lemma IssuedStep(dev: Device, d: Driver, d1: Driver, c: Command)
    requires dev.Valid() && d.busBase == Window(dev.bus) && d1.busBase == d.busBase
    requires View(d1).log == View(d).log + [Issued(c)]
    ensures Reached(dev, d, d1, c)
  {
    hide Watch, After;
    CommandsAppend(dev, View(d).log, Issued(c));
  }

  /** Between the issue of a command and its success or failure. */
  lemma StartReaches(e: Env, dev: Device, d: Driver, chip: Byte, readWrite: Byte)
    requires Tuned(e, dev, d)
    ensures var (d1, ret) := SendStart(e, d, chip, readWrite);
            && Reached(dev, d, d1, StartCommand(chip, readWrite))
            && (ret == 0 <==> Timely(dev, Seen(dev, d1.history)) && SlaveAt(dev, d1.history).acked)
  {
    hide Watch, After, InterruptStatus, Step, Poll, AnswersAt, DisrReads, Polls, Timely, Seen;
    var x := SendStartView(e, d, chip, readWrite);
    AddedStep(dev, d, SendStart(e, d, chip, readWrite).0, x);
    var d1 := d.Put(d.busBase + TRBB, 2 * chip + readWrite % 2);
    PutView(d, d.busBase + TRBB, 2 * chip + readWrite % 2);
    PutView(d1, d.busBase + CSR, 3);
    CommandWords(View(d1).latch);
    var d2 := d1.Put(d.busBase + CSR, 3);
    IssuedStep(dev, d, d2, StartCommand(chip, readWrite));
    InterruptReports(e, dev, d2, View(d).log, StartCommand(chip, readWrite));
  }

  /** A byte counts as sent as soon as its answer is in time, whether or not the device
      took it. */
  lemma ByteReaches(e: Env, dev: Device, d: Driver, byte: Byte)
    requires Tuned(e, dev, d)
    ensures var (d1, ret) := SendByte(e, d, byte, Masterm);
            && Reached(dev, d, d1, MasterTx(byte))
            && (ret == 0 <==> Timely(dev, Seen(dev, d1.history)))
  {
    hide Watch, After, InterruptStatus, Step, Poll, AnswersAt, DisrReads, Polls, Timely, Seen;
    var x := SendByteView(e, d, byte, Masterm);
    AddedStep(dev, d, SendByte(e, d, byte, Masterm).0, x);
    var d1 := d.Put(d.busBase + TRBB, byte);
    PutView(d, d.busBase + TRBB, byte);
    PutView(d1, d.busBase + CSR, 2);
    CommandWords(View(d1).latch);
    var d2 := d1.Put(d.busBase + CSR, 2);
    IssuedStep(dev, d, d2, MasterTx(byte));
    InterruptReports(e, dev, d2, View(d).log, MasterTx(byte));
  }

  lemma BufferShowsOutput(e: Env, dev: Device, d: Driver)
    requires Tuned(e, dev, d)
    ensures SecondByte(e(d.history, d.busBase + TRBB)) == SlaveAt(dev, d.history).out
  {
    hide Watch, After, SecondByte, Carries;
    assert AnswersAt(e, dev, d.history);
    CarriedByte(e(d.history, d.busBase + TRBB), SlaveAt(dev, d.history).out);
  }

  lemma ReceiveReaches(e: Env, dev: Device, d: Driver, before: Byte, last: bool)
    requires Tuned(e, dev, d)
    ensures var (d1, ret, byte) := ReceiveByte(e, d, before, last, Masterm);
            && Reached(dev, d, d1, MasterRx(last))
            && (ret == 0 <==> Timely(dev, Seen(dev, d1.history)))
            && byte == if ret == 0 then SlaveAt(dev, d1.history).out else before
  {
    hide Watch, After, InterruptStatus, Step, Poll, SecondByte, AnswersAt, DisrReads, Polls, Timely, Seen;
    var x := ReceiveByteView(e, d, before, last, Masterm);
    AddedStep(dev, d, ReceiveByte(e, d, before, last, Masterm).0, x);
    var csr: Word := 8 + (if last then 16 else 0);
    ReceiveCommandView(d, last, Masterm);
    var d1 := d.Put(d.busBase + CSR, csr);
    IssuedStep(dev, d, d1, MasterRx(last));
    InterruptReports(e, dev, d1, View(d).log, MasterRx(last));
    var (d2, status) := InterruptStatus(e, d1);
    InterruptView(e, d1, View(d).log, MasterRx(last));
    AnsweredStep(dev, d, d2, Last(View(d2).log));
    BufferShowsOutput(e, dev, d2);
  }

  lemma AnsweredStep(dev: Device, d: Driver, d1: Driver, x: Exchange)
    requires dev.Valid() && d.busBase == Window(dev.bus) && d1.busBase == d.busBase
    requires View(d1).log == View(d).log + [x]
    ensures Reached(dev, d, d1, x.cmd)
  {
    hide Watch, After;
    CommandsAppend(dev, View(d).log, x);
  }

  lemma StopReaches(dev: Device, d: Driver)
    requires dev.Valid() && d.busBase == Window(dev.bus)
    ensures Reached(dev, d, SendStop(d), Stop)
  {
    hide Watch, After, Step;
    var x := SendStopView(d);
    AddedStep(dev, d, SendStop(d), x);
  }

  // ---- The device alone -------------------------------------------------------------

  lemma Below(x: nat, m: nat)
    requires x < m
    ensures x % m == x
  {
  }

  lemma ShiftsIn(dev: Device, s: Slave, bytes: seq<Byte>, i: nat)
    requires s.Valid() && |s.mem| == Pow256(dev.alen) && |bytes| == dev.alen && i < dev.alen
    requires s.phase == Receiving(i) && (i > 0 ==> s.cursor == Fold(bytes[..i]))
    ensures Step(dev, s, MasterTx(bytes[i]))
         == s.(phase := Receiving(i + 1), cursor := Fold(bytes[..i + 1]), acked := true)
  {
    assert bytes[..i + 1][..i] == bytes[..i];
    FoldBelow(bytes[..i + 1]);
    Pow256Grows(i + 1, dev.alen);
    Below(Fold(bytes[..i + 1]), |s.mem|);
  }

  lemma StoresByte(dev: Device, s: Slave, b: Byte)
    requires s.Valid() && s.phase == Receiving(dev.alen) && s.cursor !in dev.locked
    ensures var r := Step(dev, s, MasterTx(b));
            && r.acked && r.phase == s.phase && r.mem == s.mem[s.cursor := b]
            && (s.cursor + 1 < |s.mem| ==> r.cursor == s.cursor + 1)
  {
    if s.cursor + 1 < |s.mem| {
      Below(s.cursor + 1, |s.mem|);
    }
  }

  lemma RefusesByte(dev: Device, s: Slave, b: Byte)
    requires s.Valid()
    requires s.phase == Idle || (s.phase == Receiving(dev.alen) && s.cursor in dev.locked)
    ensures Step(dev, s, MasterTx(b)) == s.(phase := Idle, acked := false)
  {
  }

  lemma SendsByte(dev: Device, s: Slave, last: bool)
    requires s.Valid() && s.phase == Sending
    ensures var r := Step(dev, s, MasterRx(last));
            && r.mem == s.mem && r.out == s.mem[s.cursor] && (!last ==> r.phase == Sending)
            && (s.cursor + 1 < |s.mem| ==> r.cursor == s.cursor + 1)
  {
    if s.cursor + 1 < |s.mem| {
      Below(s.cursor + 1, |s.mem|);
    }
  }

  // ---- Loops ------------------------------------------------------------------------

  lemma {:induction false} AddressReaches(e: Env, dev: Device, d: Driver, addr: nat, i: nat)
    requires Tuned(e, dev, d) && i <= dev.alen
    requires SlaveAt(dev, d.history).phase == Receiving(0)
    ensures var (d1, ret) := SendAddress(e, d, addr, dev.alen, i, Masterm);
            var plan, s := AddressPlan(addr, dev.alen, Masterm)[..i], SlaveAt(dev, d1.history);
            && s.mem == SlaveAt(dev, d.history).mem
            && (ret == 0 <==> AllTimely(dev, Seen(dev, d.history), plan))
            && (ret == 0 ==> Seen(dev, d1.history) == Seen(dev, d.history) + plan && s.phase == Receiving(i)
                             && (i > 0 ==> s.cursor == Fold(AddressBytes(addr, dev.alen)[..i])))
    decreases i
  {
    hide Watch, After, SendByte, AnswersAt, Step, Fold, Pow256, Seen, Timely, AllTimely;
    var plan, seen := AddressPlan(addr, dev.alen, Masterm), Seen(dev, d.history);
    if i == 0 {
      NothingIsTimely(dev, seen);
    } else {
      AddressReaches(e, dev, d, addr, i - 1);
      var bytes := AddressBytes(addr, dev.alen);
      var (d1, ret) := SendAddress(e, d, addr, dev.alen, i - 1, Masterm);
      OneMore(dev, seen, plan, i);
      if ret == 0 {
        ShiftsIn(dev, SlaveAt(dev, d1.history), bytes, i - 1);
        ByteReaches(e, dev, d1, bytes[i - 1]);
      }
    }
  }

  lemma NothingIsTimely(dev: Device, seen: seq<Command>)
    ensures AllTimely(dev, seen, []) && seen + [] == seen
  {
  }

  lemma OneMore(dev: Device, seen: seq<Command>, plan: seq<Command>, i: nat)
    requires 0 < i <= |plan| && IsAnswered(plan[i - 1])
    ensures plan[..i] == plan[..i - 1] + [plan[i - 1]]
    ensures seen + plan[..i] == seen + plan[..i - 1] + [plan[i - 1]]
    ensures AllTimely(dev, seen, plan[..i])
       <==> AllTimely(dev, seen, plan[..i - 1]) && Timely(dev, seen + plan[..i])
  {
    hide Timely, AllTimely;
    assert plan[..i] == plan[..i - 1] + [plan[i - 1]];
    TimelyThen(dev, seen, plan[..i - 1], [plan[i - 1]]);
    TimelyOne(dev, seen + plan[..i - 1], plan[i - 1]);
  }

  /** Contents after writing data at a. */
  function Overwrite(mem: seq<Byte>, a: nat, data: seq<Byte>): (r: seq<Byte>)
    requires a + |data| <= |mem|
    ensures |r| == |mem|
  {
    mem[..a] + data + mem[a + |data|..]
  }

  /** How many of n bytes written from cell a on the device takes: those in front of the
      first locked cell. */
  function Accepted(dev: Device, a: nat, n: nat): (k: nat)
    ensures k <= n && forall c | a <= c < a + k :: c !in dev.locked
    ensures k < n ==> a + k in dev.locked
  {
    if n == 0 then 0
    else
      var k := Accepted(dev, a, n - 1);
      if k == n - 1 && a + k !in dev.locked then n else k
  }

  /** None of these cells is locked. */
  predicate Unlocked(dev: Device, a: nat, n: nat) {
    forall c | a <= c < a + n :: c !in dev.locked
  }

  lemma AcceptedIffUnlocked(dev: Device, a: nat, n: nat)
    ensures Accepted(dev, a, n) == n <==> Unlocked(dev, a, n)
  {
    hide Accepted;
    var k := Accepted(dev, a, n);
  }

  /** A byte is stored even if its acknowledge comes too late. */
  lemma {:induction false} DataReaches(e: Env, dev: Device, d: Driver, a: nat, data: seq<Byte>, i: nat)
    requires Tuned(e, dev, d) && i <= |data| && a + |data| <= |dev.initial|
    requires SlaveAt(dev, d.history).phase == Receiving(dev.alen)
    requires SlaveAt(dev, d.history).cursor == a
    ensures var (d1, ret) := SendData(e, d, data, i, Masterm);
            var plan, s, taken := DataPlan(data, Masterm)[..i], SlaveAt(dev, d1.history), Accepted(dev, a, i);
            && Seen(dev, d1.history) == Seen(dev, d.history) + plan
            && (ret == 0 <==> AllTimely(dev, Seen(dev, d.history), plan))
            && s.mem == Overwrite(SlaveAt(dev, d.history).mem, a, data[..taken])
            && s.phase == (if taken == i then Receiving(dev.alen) else Idle)
            && (taken == i < |data| ==> s.cursor == a + i)
    decreases i
  {
    hide Watch, After, SendByte, AnswersAt, Step, Fold, Pow256, Seen, Timely, AllTimely;
    var mem, plan, seen := SlaveAt(dev, d.history).mem, DataPlan(data, Masterm), Seen(dev, d.history);
    if i == 0 {
      NothingIsTimely(dev, seen);
      assert Overwrite(mem, a, data[..0]) == mem;
    } else {
      DataReaches(e, dev, d, a, data, i - 1);
      var d1 := SendData(e, d, data, i - 1, Masterm).0;
      OneMore(dev, seen, plan, i);
      ByteReaches(e, dev, d1, data[i - 1]);
      if Accepted(dev, a, i) == i {
        StoresByte(dev, SlaveAt(dev, d1.history), data[i - 1]);
        OverwriteNext(mem, a, data, i);
      } else {
        RefusesByte(dev, SlaveAt(dev, d1.history), data[i - 1]);
      }
    }
  }

  lemma OverwriteNext(mem: seq<Byte>, a: nat, data: seq<Byte>, i: nat)
    requires 0 < i <= |data| && a + |data| <= |mem|
    ensures Overwrite(mem, a, data[..i - 1])[a + i - 1 := data[i - 1]] == Overwrite(mem, a, data[..i])
  {
  }

  /** The buffer after i receives: cell a + k where the answer came in time. */
  predicate Fetched(b: seq<Byte>, before: seq<Byte>, mem: seq<Byte>, a: nat, i: nat,
                    dev: Device, seen: seq<Command>, plan: seq<Command>)
    requires a + i <= |mem| && i <= |plan|
  {
    && |b| == |before|
    && forall k | 0 <= k < |b| :: b[k] == if k < i && Timely(dev, seen + plan[..k + 1]) then mem[a + k] else before[k]
  }

  lemma {:induction false} FetchReaches(e: Env, dev: Device, d: Driver, a: nat, buffer: seq<Byte>, len: nat, i: nat)
    requires Tuned(e, dev, d) && i <= len <= |buffer| && a + len <= |dev.initial|
    requires SlaveAt(dev, d.history).phase == Sending
    requires SlaveAt(dev, d.history).cursor == a
    ensures var (d1, ret, b) := ReceiveData(e, d, buffer, len, i, Masterm);
            var plan, s, mem := ReceivePlan(len, Masterm), SlaveAt(dev, d1.history), SlaveAt(dev, d.history).mem;
            && Seen(dev, d1.history) == Seen(dev, d.history) + plan[..i]
            && (ret == 0 <==> AllTimely(dev, Seen(dev, d.history), plan[..i]))
            && s.mem == mem && Fetched(b, buffer, mem, a, i, dev, Seen(dev, d.history), plan)
            && (i < len ==> s.phase == Sending && s.cursor == a + i)
    decreases i
  {
    hide Watch, After, ReceiveByte, AnswersAt, Step, Fold, Pow256, Seen, Timely, AllTimely;
    var plan, seen := ReceivePlan(len, Masterm), Seen(dev, d.history);
    if i == 0 {
      NothingIsTimely(dev, seen);
      assert plan[..0] == [];
    } else {
      assert plan[i - 1] == RxCommand(i - 1 >= len - 1, Masterm);
      FetchReaches(e, dev, d, a, buffer, len, i - 1);
      var (d1, _, b) := ReceiveData(e, d, buffer, len, i - 1, Masterm);
      OneMore(dev, seen, plan, i);
      SendsByte(dev, SlaveAt(dev, d1.history), i - 1 >= len - 1);
      ReceiveReaches(e, dev, d1, b[i - 1], i - 1 >= len - 1);
    }
  }

  // ---- Transfers --------------------------------------------------------------------

  /** The chip address is the device's: it has 7 bits, as the shift drops bit 7. */
  predicate Addresses(chip: Byte, dev: Device) {
    chip % 128 == dev.own
  }

  /** What selects the cell that a transfer begins at. */
  function Header(chip: Byte, addr: nat, alen: nat): seq<Command> {
    [StartCommand(chip, 0)] + AddressPlan(addr, alen, Masterm)
  }

  lemma SelectReaches(e: Env, dev: Device, d: Driver, chip: Byte, addr: nat)
    requires Tuned(e, dev, d) && addr < |dev.initial|
    ensures var (d1, ret) := Select(e, d, chip, addr, dev.alen, Masterm);
            var plan, s := Header(chip, addr, dev.alen), SlaveAt(dev, d1.history);
            && (ret == 0 <==> Addresses(chip, dev) && AllTimely(dev, Seen(dev, d.history), plan))
            && s.mem == SlaveAt(dev, d.history).mem
            && (ret == 0 ==> Seen(dev, d1.history) == Seen(dev, d.history) + plan
                             && s.phase == Receiving(dev.alen) && s.cursor == addr)
  {
    hide Watch, After, SendStart, SendAddress, AnswersAt, Fold, Seen, Timely, AllTimely, AddressPlan, StartCommand,
      Step, Addresses;
    var seen, c, plan := Seen(dev, d.history), StartCommand(chip, 0), AddressPlan(addr, dev.alen, Masterm);
    StartReaches(e, dev, d, chip, 0);
    var (d1, failed) := SendStart(e, d, chip, 0);
    StartsWriting(dev, d, d1, chip);
    StartIsAnswered(chip, 0);
    TimelyThen(dev, seen, [c], plan);
    TimelyOne(dev, seen, c);
    assert seen + ([c] + plan) == seen + [c] + plan;
    assert plan[..dev.alen] == plan;
    if failed == 0 {
      AddressReaches(e, dev, d1, addr, dev.alen);
      AddressesLossless(addr, addr, dev.alen);
      assert AddressBytes(addr, dev.alen)[..dev.alen] == AddressBytes(addr, dev.alen);
    }
  }

  /** A write to a device that the driver is tuned to: it returns 0 exactly when the chip
      address is the device's and every answer comes in time - whether or not the device
      took the data. Up to the first locked cell the data are stored exactly when the
      answers up to the last address byte come in time. */
  lemma WriteReaches(e: Env, dev: Device, d: Driver, chip: Byte, addr: nat, data: seq<Byte>)
    requires Tuned(e, dev, d) && addr < |dev.initial| && addr + |data| <= |dev.initial|
    ensures var (d1, ret) := WriteTransfer(e, d, chip, addr, dev.alen, data, Masterm);
            var seen, before := Seen(dev, d.history), SlaveAt(dev, d.history).mem;
            && (ret == 0 <==> Addresses(chip, dev)
                              && AllTimely(dev, seen, WritePlan(chip, addr, dev.alen, data, Masterm)))
            && SlaveAt(dev, d1.history).mem
               == if Addresses(chip, dev) && AllTimely(dev, seen, Header(chip, addr, dev.alen))
                  then Overwrite(before, addr, data[..Accepted(dev, addr, |data|)]) else before
  {
    hide Watch, After, Select, SendData, SendStop, AnswersAt, Pow256, Seen, AllTimely, Addresses, AddressPlan, DataPlan;
    var seen, head, plan := Seen(dev, d.history), Header(chip, addr, dev.alen), DataPlan(data, Masterm);
    SelectReaches(e, dev, d, chip, addr);
    var (d1, failed) := Select(e, d, chip, addr, dev.alen, Masterm);
    TimelyWithStop(dev, seen, head, plan);
    assert plan[..|data|] == plan;
    if failed == 0 {
      DataReaches(e, dev, d1, addr, data, |data|);
      StopReaches(dev, SendData(e, d1, data, |data|, Masterm).0);
    }
  }

  lemma WireParts(chip: Byte, readWrite: Byte)
    requires readWrite < 2
    ensures var c := StartCommand(chip, readWrite);
            c.Start? && c.wire / 2 == chip % 128 && c.wire % 2 == readWrite
  {
  }

  lemma StopKeepsMemory(dev: Device, s: Slave)
    requires s.Valid()
    ensures Step(dev, s, Stop).mem == s.mem
  {
  }

  /** A start for writing is acknowledged exactly by the device with this address. */
  lemma StartsWriting(dev: Device, d: Driver, d1: Driver, chip: Byte)
    requires dev.Valid() && Reached(dev, d, d1, StartCommand(chip, 0))
    ensures var s := SlaveAt(dev, d1.history);
            && (s.acked <==> Addresses(chip, dev)) && s.mem == SlaveAt(dev, d.history).mem
            && (s.acked ==> s.phase == Receiving(0))
  {
    hide Watch, After, Seen, StartCommand;
    WireParts(chip, 0);
  }

  lemma StartsReading(dev: Device, d: Driver, d1: Driver, chip: Byte)
    requires dev.Valid() && Addresses(chip, dev) && Reached(dev, d, d1, StartCommand(chip, 1))
    ensures SlaveAt(dev, d1.history) == SlaveAt(dev, d.history).(phase := Sending, acked := true)
  {
    hide Watch, After, Seen, StartCommand;
    WireParts(chip, 1);
  }

  /** The second half of a read, from the repeated start on. */
  lemma ReadTailReaches(e: Env, dev: Device, d: Driver, chip: Byte, addr: nat, buffer: seq<Byte>, len: nat)
    requires Tuned(e, dev, d) && len <= |buffer| && addr < |dev.initial| && addr + len <= |dev.initial|
    requires Addresses(chip, dev) && SlaveAt(dev, d.history).cursor == addr
    ensures var (d1, failed) := SendStart(e, d, chip, 1);
            var (d2, ret, b) := ReceiveData(e, d1, buffer, len, len, Masterm);
            var seen, mem := Seen(dev, d.history) + [StartCommand(chip, 1)], SlaveAt(dev, d.history).mem;
            && (failed == 0 <==> Timely(dev, seen))
            && (ret == 0 <==> AllTimely(dev, seen, ReceivePlan(len, Masterm)))
            && SlaveAt(dev, d1.history).mem == mem && SlaveAt(dev, SendStop(d2).history).mem == mem
            && Fetched(b, buffer, mem, addr, len, dev, seen, ReceivePlan(len, Masterm))
  {
    hide Watch, After, SendStart, ReceiveData, SendStop, AnswersAt, Pow256, Seen, AllTimely, Timely, Fetched,
      ReceivePlan, Step, StartCommand, Addresses;
    StartReaches(e, dev, d, chip, 1);
    var d1 := SendStart(e, d, chip, 1).0;
    StartsReading(dev, d, d1, chip);
    FetchReaches(e, dev, d1, addr, buffer, len, len);
    assert ReceivePlan(len, Masterm)[..len] == ReceivePlan(len, Masterm);
    var d2 := ReceiveData(e, d1, buffer, len, len, Masterm).0;
    StopReaches(dev, d2);
    StopKeepsMemory(dev, SlaveAt(dev, d2.history));
  }

  /** A read likewise: it delivers the cells whose answer came in time, and leaves the
      memory alone. */
  lemma ReadReaches(e: Env, dev: Device, d: Driver, chip: Byte, addr: nat, buffer: seq<Byte>, len: nat)
    requires Tuned(e, dev, d) && len <= |buffer| && addr < |dev.initial| && addr + len <= |dev.initial|
    ensures var (d1, ret, b) := ReadTransfer(e, d, chip, addr, dev.alen, buffer, len, Masterm);
            var seen, mem := Seen(dev, d.history), SlaveAt(dev, d.history).mem;
            var head := Header(chip, addr, dev.alen) + [StartCommand(chip, 1)];
            && (ret == 0 <==> Addresses(chip, dev)
                              && AllTimely(dev, seen, ReadPlan(chip, addr, dev.alen, len, Masterm)))
            && SlaveAt(dev, d1.history).mem == mem
            && if Addresses(chip, dev) && AllTimely(dev, seen, head)
               then Fetched(b, buffer, mem, addr, len, dev, seen + head, ReceivePlan(len, Masterm))
               else b == buffer
  {
    hide Watch, After, Select, SendStart, ReceiveData, SendStop, AnswersAt, Step, Pow256, Seen, AllTimely, Timely,
      Fetched, StartCommand, AddressPlan, ReceivePlan, Addresses;
    var seen, head, c := Seen(dev, d.history), Header(chip, addr, dev.alen), StartCommand(chip, 1);
    SelectReaches(e, dev, d, chip, addr);
    var (d1, failed) := Select(e, d, chip, addr, dev.alen, Masterm);
    TimelyThen(dev, seen, head, [c]);
    TimelyOne(dev, seen + head, c);
    StartIsAnswered(chip, 1);
    TimelyWithStop(dev, seen, head + [c], ReceivePlan(len, Masterm));
    assert seen + head + [c] == seen + (head + [c]);
    if failed == 0 {
      ReadTailReaches(e, dev, d1, chip, addr, buffer, len);
    }
  }

  lemma StartIsAnswered(chip: Byte, readWrite: Byte)
    ensures IsAnswered(StartCommand(chip, readWrite))
  {
  }
}
