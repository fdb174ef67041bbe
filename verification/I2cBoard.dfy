/** A board with any number of memory devices, at most one on each bus, and what reads,
    writes, probes and the slave loop do to all of them. */
module I2cBoard {
  import opened Bits
  import opened Options
  import opened I2cHardware
  import opened I2cDriver
  import opened I2cTranscript
  import opened I2cTheorems
  import opened I2cPolling
  import opened I2cSlaveLoop
  import opened I2cIsolation
  import opened I2cSettled
  import opened I2cMemorySlave
  import opened WordBits

  predicate Fitted(devs: map<int, Device>) {
    forall b | b in devs :: devs[b].bus == b && devs[b].Valid()
  }

  /** The controller of a bus without a device raises its bit only while a command waits
      for its answer, and reports no acknowledge of an address. */
  predicate UnconnectedAt(e: Env, b: int, h: History)
    requires 0 <= b < BUSES
  {
    var log := Log(h, Window(b));
    && (Bit(e(h, DISR), b) ==> Awaiting(log))
    && (Awaiting(log) && Last(log).cmd.Start? ==> !Bit(e(h, Window(b) + ISR), 0))
  }

  /** e carries these devices, and the other buses are unconnected. */
  ghost predicate OnBoard(e: Env, devs: map<int, Device>) {
    && Fitted(devs)
    && (forall b | b in devs :: Attached(e, devs[b]))
    && forall b, h: History | 0 <= b < BUSES && b !in devs :: UnconnectedAt(e, b, h)
  }

  function Memories(devs: map<int, Device>, h: History): (m: map<int, seq<Byte>>)
    requires Fitted(devs)
    ensures m.Keys == devs.Keys && forall b | b in devs :: |m[b]| == Pow256(devs[b].alen)
  {
    map b | b in devs :: SlaveAt(devs[b], h).mem
  }

  lemma MemoryOf(devs: map<int, Device>, h: History, b: int)
    requires Fitted(devs) && b in devs
    ensures Memories(devs, h)[b] == SlaveAt(devs[b], h).mem
  {
  }

  // ---- Who is not touched -----------------------------------------------------------

  lemma {:induction false} AfterKeeps(dev: Device, seen: seq<Command>, t: seq<Command>)
    requires dev.Valid() && forall k | 0 <= k < |t| :: !t[k].MasterTx?
    ensures After(dev, seen + t).mem == After(dev, seen).mem
    decreases |t|
  {
    if t == [] {
      assert seen + t == seen;
    } else {
      AfterKeeps(dev, seen, t[..|t| - 1]);
      assert (seen + t)[..|seen + t| - 1] == seen + t[..|t| - 1];
    }
  }

  /** Work on the window of bus n changes the memory on that bus only. */
  lemma MemoriesUpdated(devs: map<int, Device>, d: Driver, d1: Driver, n: int)
    requires Fitted(devs) && Confined(At(d, d1), d1) && n in devs && d1.busBase == Window(n)
    ensures Memories(devs, d1.history) == Memories(devs, d.history)[n := SlaveAt(devs[n], d1.history).mem]
  {
    hide Watch, Log, After, Confined, Awaiting, Pow256, Commands;
    forall b | b in devs && b != n
      ensures SlaveAt(devs[b], d1.history).mem == SlaveAt(devs[b], d.history).mem
    {
      ConfinedIsSilent(At(d, d1), d1, b);
    }
  }

  /** Commands that transmit no byte change no memory. */
  lemma MemoriesKept(devs: map<int, Device>, d: Driver, d1: Driver, t: seq<Exchange>)
    requires Fitted(devs) && Confined(At(d, d1), d1) && IsWindow(d1.busBase)
    requires Log(d1.history, d1.busBase) == Log(d.history, d1.busBase) + t
    requires forall k | 0 <= k < |t| :: !t[k].cmd.MasterTx?
    ensures Memories(devs, d1.history) == Memories(devs, d.history)
  {
    hide Watch, Log, After, Confined, Awaiting, Pow256;
    forall b | b in devs
      ensures SlaveAt(devs[b], d1.history).mem == SlaveAt(devs[b], d.history).mem
    {
      if Window(b) != d1.busBase {
        ConfinedIsSilent(At(d, d1), d1, b);
      } else {
        assert Seen(devs[b], d1.history) == Seen(devs[b], d.history) + Commands(t);
        AfterKeeps(devs[b], Seen(devs[b], d.history), Commands(t));
      }
    }
  }

  // ---- A start that nobody answers --------------------------------------------------

  lemma {:induction false} IdleKeepsAwaiting(e: Env, h: History, k: nat, base: int)
    ensures Awaiting(Log(IdleAfter(e, h, k), base)) <==> Awaiting(Log(h, base))
  {
    hide Watch, Awaiting, Observe;
    if k > 0 {
      IdleKeepsAwaiting(e, h, k - 1, base);
      var before := IdleAfter(e, h, k - 1);
      WatchAppend(before, Read(DISR, e(before, DISR)), base);
      OneSilentAccess(Watch(before, base), Read(DISR, e(before, DISR)), base);
    }
  }

  /** The polled bit stays 0 when no command waits for an answer on its bus. */
  lemma NothingShows(e: Env, devs: map<int, Device>, d: Driver)
    requires OnBoard(e, devs) && d.OnBus()
    requires !Awaiting(Log(d.history, Window(d.busNum)))
    ensures InterruptStatus(e, d).1 == 0
  {
    hide Watch, Log, Awaiting, Poll, InterruptStatus, Bit, IdleAfter, Reports, SlaveAt, Carries;
    forall j: nat | j < POLL_LIMIT
      ensures !Shows(e, d, j)
    {
      IdleKeepsAwaiting(e, d.history, j, Window(d.busNum));
      if d.busNum in devs {
        assert AnswersAt(e, devs[d.busNum], IdleAfter(e, d.history, j));
      } else {
        assert UnconnectedAt(e, d.busNum, IdleAfter(e, d.history, j));
      }
    }
    NoHitMeansZero(e, d);
  }

  /** A start sent through one bus's registers while another bus is polled. */
  lemma StartUnanswered(e: Env, devs: map<int, Device>, d: Driver, chip: Byte, readWrite: Byte)
    requires OnBoard(e, devs) && Running(d)
    requires d.busBase != Window(d.busNum) && !Awaiting(Log(d.history, Window(d.busNum)))
    ensures SendStart(e, d, chip, readWrite).1 != 0
  {
    hide Watch, Log, Awaiting, InterruptStatus, OnBoard, Commands;
    var d1 := d.Put(d.busBase + TRBB, 2 * chip + readWrite % 2).Put(d.busBase + CSR, 0x03);
    assert Confined(d, d1);
    ConfinedIsSilent(d, d1, d.busNum);
    NothingShows(e, devs, d1);
    assert !Bit(0, 0);
  }

  lemma {:induction false} PollRefused(e: Env, devs: map<int, Device>, d: Driver, n: nat)
    requires OnBoard(e, devs) && Running(d) && d.busBase == Window(d.busNum) && d.busNum !in devs
    requires Awaiting(View(d).log) && Last(View(d).log).cmd.Start?
    ensures !Bit(Poll(e, d, n).1, 0)
    decreases n
  {
    hide Watch, Bit, Attached;
    if n == 0 {
      ZeroHasNoBits(0);
    } else {
      var d1 := d.Get(e, DISR);
      GetView(e, d, DISR);
      assert UnconnectedAt(e, d.busNum, d1.history);
      if !Bit(e(d.history, DISR), d.busNum) {
        PollRefused(e, devs, d1, n - 1);
      }
    }
  }

  /** A start on a bus without a device: no answer, or a report that nobody acknowledged. */
  lemma EmptyBusRefuses(e: Env, devs: map<int, Device>, d: Driver, chip: Byte, readWrite: Byte)
    requires OnBoard(e, devs) && Running(d) && d.busBase == Window(d.busNum) && d.busNum !in devs
    ensures SendStart(e, d, chip, readWrite).1 != 0
  {
    hide Watch, Bit, Poll, OnBoard, DisrReads;
    var d1 := d.Put(d.busBase + TRBB, 2 * chip + readWrite % 2);
    PutView(d, d.busBase + TRBB, 2 * chip + readWrite % 2);
    PutView(d1, d.busBase + CSR, 3);
    CommandWords(View(d1).latch);
    PollRefused(e, devs, d1.Put(d.busBase + CSR, 3), POLL_LIMIT);
  }

  lemma {:induction false} ZeroHasNoBits(k: nat)
    ensures !Bit(0, k)
    decreases k
  {
    if k > 0 {
      ZeroHasNoBits(k - 1);
    }
  }

  /** The window that the next transfer uses belongs to the chosen bus, and a device with
      this address is there. */
  predicate Hits(devs: map<int, Device>, d: Driver, chip: Byte) {
    && (d.initPending || d.busBase == Window(d.busNum))
    && d.busNum in devs && Addresses(chip, devs[d.busNum])
  }

  lemma MissedStart(e: Env, devs: map<int, Device>, d: Driver, chip: Byte)
    requires OnBoard(e, devs) && Running(d) && Settled(d.history) && !d.initPending && !Hits(devs, d, chip)
    ensures var (d1, failed) := SendStart(e, d, chip, 0);
            failed != 0 && Memories(devs, d1.history) == Memories(devs, d.history)
  {
    hide Watch, After, SendStart, Memories, Confined, Awaiting, Attached, DisrReads, Polls, Finished, Ok, Addresses,
      Timely, Step;
    var d1 := SendStart(e, d, chip, 0).0;
    if d.busBase != Window(d.busNum) {
      StartUnanswered(e, devs, d, chip, 0);
    } else if d.busNum in devs {
      StartReaches(e, devs[d.busNum], d, chip, 0);
      StartsWriting(devs[d.busNum], d, d1, chip);
    } else {
      EmptyBusRefuses(e, devs, d, chip, 0);
    }
    var x := SendStartView(e, d, chip, 0);
    StartConfined(e, d, chip, 0);
    assert [x][0].cmd == StartCommand(chip, 0);
    assert At(d, d1) == d;
    MemoriesKept(devs, d, d1, [x]);
  }

  // ---- Initialisation ---------------------------------------------------------------

  lemma InitOnBoard(e: Env, devs: map<int, Device>, d: Driver)
    requires Fitted(devs) && Valid(d) && Settled(d.history)
    ensures var d0 := InitIfPending(e, d);
            && Running(d0) && Settled(d0.history)
            && Memories(devs, d0.history) == Memories(devs, d.history)
            && (d.busNum in devs && d0.busBase == Window(d.busNum) ==>
                  Seen(devs[d.busNum], d0.history) == Seen(devs[d.busNum], d.history) + InitPlan(d))
  {
    hide Watch, Log, After, RealInit, Memories, Confined, DisrReads, Polls, Finished, Settled;
    if d.initPending {
      RealInitOnBoard(e, devs, d);
    }
  }

  lemma RealInitOnBoard(e: Env, devs: map<int, Device>, d: Driver)
    requires Fitted(devs) && d.OnBus() && Settled(d.history)
    ensures var d0 := RealInit(e, d);
            && Running(d0) && Settled(d0.history)
            && Memories(devs, d0.history) == Memories(devs, d.history)
            && (d.busNum in devs ==>
                  Seen(devs[d.busNum], d0.history) == Seen(devs[d.busNum], d.history) + [Configure])
  {
    hide Watch, After, RealInit, Memories, Confined, DisrReads, Polls, Settled;
    RealInitRuns(e, d);
    RealInitSettles(e, d);
    RealInitConfined(e, d);
    var x := RealInitView(e, d);
    assert [x][0].cmd == Configure;
    MemoriesKept(devs, d, RealInit(e, d), [x]);
    if d.busNum in devs {
      AddedStep(devs[d.busNum], d.(busBase := Window(d.busNum), initPending := false), RealInit(e, d), x);
    }
  }

  // ---- Transfers --------------------------------------------------------------------

  /** The cells lie in the device, and the address has as many bytes as it expects. */
  predicate Fits(dev: Device, addr: nat, alen: nat, len: nat) {
    alen == dev.alen && addr < Pow256(alen) && addr + len <= Pow256(alen)
  }

  /** The part of data, written from addr on, that the device accepts. */
  function Taken(dev: Device, addr: nat, data: seq<Byte>): (t: seq<Byte>)
    ensures |t| <= |data|
  {
    data[..Accepted(dev, addr, |data|)]
  }

  /** Every answer to a plan comes in time, with an initialisation before it if one is due. */
  predicate InTime(dev: Device, d: Driver, plan: seq<Command>) {
    AllTimely(dev, Seen(dev, d.history) + InitPlan(d), plan)
  }

  /** A write on a board, from any state: it returns 0 exactly when it hits a device and
      every answer comes in time; the device's memory takes the data up to the first locked
      cell exactly when the answers up to the last address byte do; every other memory is
      left alone. */
  lemma BoardWrite(e: Env, devs: map<int, Device>, d: Driver, chip: Byte, addr: nat, alen: nat, data: seq<Byte>)
    requires OnBoard(e, devs) && Valid(d) && Settled(d.history)
    requires Hits(devs, d, chip) ==> Fits(devs[d.busNum], addr, alen, |data|)
    ensures var (d1, ret) := I2cWrite(e, d, chip, addr, alen, data, Masterm);
            var before := Memories(devs, d.history);
            && (ret == 0 <==> Hits(devs, d, chip)
                              && InTime(devs[d.busNum], d, WritePlan(chip, addr, alen, data, Masterm)))
            && Memories(devs, d1.history)
               == (if Hits(devs, d, chip) && InTime(devs[d.busNum], d, Header(chip, addr, alen))
                   then before[d.busNum := Overwrite(before[d.busNum], addr, Taken(devs[d.busNum], addr, data))]
                   else before)
            && Valid(d1) && Settled(d1.history)
  {
    hide Watch, Log, After, RealInit, Memories, Confined, Settled, SendStart, SendAddress, SendData, WriteTransfer,
      Attached, Addresses, Seen, AllTimely, WritePlan, Header, Pow256;
    WriteSettles(e, d, chip, addr, alen, data, Masterm);
    InitOnBoard(e, devs, d);
    var d0 := InitIfPending(e, d);
    I2cWriteConfined(e, d, chip, addr, alen, data, Masterm);
    if Hits(devs, d, chip) {
      WriteReaches(e, devs[d.busNum], d0, chip, addr, data);
      MemoriesUpdated(devs, d, I2cWrite(e, d, chip, addr, alen, data, Masterm).0, d.busNum);
      MemoryOf(devs, d0.history, d.busNum);
    } else {
      MissedWrite(e, devs, d0, chip, addr, alen, data, Masterm);
    }
  }

  lemma MissedWrite(e: Env, devs: map<int, Device>, d: Driver, chip: Byte, addr: nat, alen: nat, data: seq<Byte>,
                    mode: Mode)
    requires OnBoard(e, devs) && Running(d) && Settled(d.history) && !d.initPending && !Hits(devs, d, chip)
    ensures var (d1, ret) := WriteTransfer(e, d, chip, addr, alen, data, mode);
            ret == 1 && Memories(devs, d1.history) == Memories(devs, d.history)
  {
    hide Memories, SendStart, SendAddress, Settled, Attached, Hits;
    MissedStart(e, devs, d, chip);
  }

  /** A read on a board: the result likewise; the buffer takes the cells whose answer came
      in time, and no memory changes. */
  lemma BoardRead(e: Env, devs: map<int, Device>, d: Driver, chip: Byte, addr: nat, alen: nat, buffer: seq<Byte>,
                  len: nat)
    requires OnBoard(e, devs) && Valid(d) && Settled(d.history) && len <= |buffer|
    requires Hits(devs, d, chip) ==> Fits(devs[d.busNum], addr, alen, len)
    ensures var (d1, ret, b) := I2cRead(e, d, chip, addr, alen, buffer, len, Masterm);
            var head := Header(chip, addr, alen) + [StartCommand(chip, 1)];
            && (ret == 0 <==> Hits(devs, d, chip)
                              && InTime(devs[d.busNum], d, ReadPlan(chip, addr, alen, len, Masterm)))
            && (if Hits(devs, d, chip) && InTime(devs[d.busNum], d, head)
                then Fetched(b, buffer, Memories(devs, d.history)[d.busNum], addr, len, devs[d.busNum],
                             Seen(devs[d.busNum], d.history) + InitPlan(d) + head, ReceivePlan(len, Masterm))
                else b == buffer)
            && Memories(devs, d1.history) == Memories(devs, d.history)
            && Valid(d1) && Settled(d1.history)
  {
    hide Watch, Log, After, RealInit, Memories, Confined, Settled, SendStart, SendAddress, SendData, ReadTransfer,
      Attached, Addresses, Seen, AllTimely, ReadPlan, ReceivePlan, Header, Pow256, Fetched;
    ReadSettles(e, d, chip, addr, alen, buffer, len, Masterm);
    InitOnBoard(e, devs, d);
    var d0 := InitIfPending(e, d);
    I2cReadConfined(e, d, chip, addr, alen, buffer, len, Masterm);
    if Hits(devs, d, chip) {
      ReadReaches(e, devs[d.busNum], d0, chip, addr, buffer, len);
      MemoriesUpdated(devs, d, I2cRead(e, d, chip, addr, alen, buffer, len, Masterm).0, d.busNum);
      MemoryOf(devs, d0.history, d.busNum);
    } else {
      MissedRead(e, devs, d0, chip, addr, alen, buffer, len, Masterm);
    }
  }

  lemma MissedRead(e: Env, devs: map<int, Device>, d: Driver, chip: Byte, addr: nat, alen: nat, buffer: seq<Byte>,
                   len: nat, mode: Mode)
    requires OnBoard(e, devs) && Running(d) && Settled(d.history) && !d.initPending && !Hits(devs, d, chip)
    requires len <= |buffer|
    ensures var (d1, ret, b) := ReadTransfer(e, d, chip, addr, alen, buffer, len, mode);
            ret == 1 && b == buffer && Memories(devs, d1.history) == Memories(devs, d.history)
  {
    hide Memories, SendStart, SendAddress, Settled, Attached, Hits;
    MissedStart(e, devs, d, chip);
  }

  /** A probe always initialises for the chosen bus, so only the device there counts. */
  lemma BoardProbe(e: Env, devs: map<int, Device>, d: Driver, chip: Byte)
    requires OnBoard(e, devs) && d.OnBus() && Settled(d.history)
    ensures var (d1, ret) := Probe(e, d, chip);
            && (ret == 0 <==>
                  && d.busNum in devs && Addresses(chip, devs[d.busNum])
                  && AllTimely(devs[d.busNum], Seen(devs[d.busNum], d.history), [Configure] + ProbePlan(chip)))
            && Memories(devs, d1.history) == Memories(devs, d.history)
  {
    hide Watch, Log, After, RealInit, Memories, Confined, Settled, SendStart, Attached, Addresses, Seen, AllTimely,
      Step;
    RealInitOnBoard(e, devs, d);
    var d0 := RealInit(e, d);
    if Hits(devs, d0, chip) {
      HitProbe(e, devs[d.busNum], d0, chip);
      ProbeConfined(e, d, chip);
      MemoriesUpdated(devs, d, Probe(e, d, chip).0, d.busNum);
      MemoryOf(devs, d0.history, d.busNum);
      TimelyThen(devs[d.busNum], Seen(devs[d.busNum], d.history), [Configure], ProbePlan(chip));
      TimelyOne(devs[d.busNum], Seen(devs[d.busNum], d.history), Configure);
    } else {
      MissedStart(e, devs, d0, chip);
      var d1 := SendStart(e, d0, chip, 0).0;
      StopKeepsMemories(devs, d1);
    }
  }

  lemma StopKeepsMemories(devs: map<int, Device>, d: Driver)
    requires Fitted(devs) && IsWindow(d.busBase)
    ensures Memories(devs, SendStop(d).history) == Memories(devs, d.history)
  {
    hide Watch, Memories, DisrReads, Polls;
    var x := SendStopView(d);
    assert [x][0].cmd == Stop && At(d, SendStop(d)) == d;
    MemoriesKept(devs, d, SendStop(d), [x]);
  }

  lemma HitProbe(e: Env, dev: Device, d: Driver, chip: Byte)
    requires Tuned(e, dev, d) && Addresses(chip, dev)
    ensures var (d1, failed) := SendStart(e, d, chip, 0);
            && (failed == 0 <==> AllTimely(dev, Seen(dev, d.history), ProbePlan(chip)))
            && SlaveAt(dev, SendStop(d1).history).mem == SlaveAt(dev, d.history).mem
  {
    hide Watch, After, SendStart, SendStop, Seen, AllTimely, Timely, AnswersAt, Step, StartCommand, Addresses;
    var d1 := SendStart(e, d, chip, 0).0;
    StartReaches(e, dev, d, chip, 0);
    StartsWriting(dev, d, d1, chip);
    StopReaches(dev, d1);
    StopKeepsMemory(dev, SlaveAt(dev, d1.history));
    StartIsAnswered(chip, 0);
    TimelyThen(dev, Seen(dev, d.history), [StartCommand(chip, 0)], [Stop]);
    TimelyOne(dev, Seen(dev, d.history), StartCommand(chip, 0));
    TimelyOne(dev, Seen(dev, d.history) + [StartCommand(chip, 0)], Stop);
    assert ProbePlan(chip) == [StartCommand(chip, 0)] + [Stop];
  }

  lemma {:induction false} ScriptTransmitsAsSlave(outcomes: seq<Option<Byte>>)
    ensures forall k | 0 <= k < |Script(outcomes)| :: !Script(outcomes)[k].MasterTx?
  {
    if outcomes != [] {
      ScriptTransmitsAsSlave(outcomes[..|outcomes| - 1]);
    }
  }

  /** Serving as a slave changes no memory. */
  lemma BoardSlave(e: Env, devs: map<int, Device>, d: Driver, rounds: nat)
    requires Fitted(devs) && d.OnBus() && Settled(d.history)
    ensures Memories(devs, SlaveLoop(e, RealInit(e, d), rounds).0.history) == Memories(devs, d.history)
  {
    hide Watch, After, RealInit, SlaveLoop, Memories, Confined, Settled, DisrReads, Polls, Script, Outcomes, Finished;
    RealInitOnBoard(e, devs, d);
    var d0 := RealInit(e, d);
    var t := RoundsView(e, d0, rounds);
    ScriptTransmitsAsSlave(Outcomes(t));
    forall k | 0 <= k < |t|
      ensures !t[k].cmd.MasterTx?
    {
      assert Commands(t)[k] == t[k].cmd;
    }
    SlaveLoopConfined(e, d0, rounds);
    assert At(d0, SlaveLoop(e, d0, rounds).0) == d0;
    MemoriesKept(devs, d0, SlaveLoop(e, d0, rounds).0, t);
  }

  // ---- Existence --------------------------------------------------------------------

  /** The DISR bits of the first n buses. */
  function RaisedBits(devs: map<int, Device>, h: History, n: nat): Word
    requires n <= BUSES
  {
    if n == 0 then 0
    else
      var bits := RaisedBits(devs, h, n - 1);
      if n - 1 in devs && Raises(devs[n - 1], h) then SetWordBit(bits, n - 1) else bits
  }

  /** The bus whose window holds an address, if it is in one. */
  function BusOf(addr: int): int {
    var offset := addr - AST_I2C_REG_BASE;
    (if offset < 0x200 then offset else offset - 0x100) / 0x40 - 1
  }

  /** Such boards exist for every choice of devices: here is one. The byte sent last stands
      in the low half of the buffer register; the remaining registers read 0. */
  function BoardAnswer(devs: map<int, Device>, h: History, addr: int): Word
    requires Fitted(devs)
  {
    var b := BusOf(addr);
    if addr == DISR then RaisedBits(devs, h, BUSES)
    else if b !in devs then 0
    else if addr == Window(b) + ISR then if SlaveAt(devs[b], h).acked then 5 else 6
    else if addr == Window(b) + TRBB then 256 * SlaveAt(devs[b], h).out + Watch(h, Window(b)).latch % 256
    else 0
  }

  function Board(devs: map<int, Device>): Env
    requires Fitted(devs)
  {
    (h: History, addr: int) => BoardAnswer(devs, h, addr)
  }

  lemma {:induction false} RaisedBitsRead(devs: map<int, Device>, h: History, n: nat, b: nat)
    requires n <= BUSES
    ensures Bit(RaisedBits(devs, h, n), b) <==> b < n && b in devs && Raises(devs[b], h)
    decreases n
  {
    hide Raises, Bit, SetBit;
    if n == 0 {
      ZeroHasNoBits(b);
    } else {
      RaisedBitsRead(devs, h, n - 1, b);
      SetBitReads(RaisedBits(devs, h, n - 1), n - 1, b);
    }
  }

  lemma BusOfWindow(b: int)
    requires 0 <= b < BUSES
    ensures BusOf(Window(b) + ISR) == b && BusOf(Window(b) + TRBB) == b
  {
  }

  lemma BoardAnswers(devs: map<int, Device>, b: int, h: History)
    requires Fitted(devs) && b in devs
    ensures AnswersAt(Board(devs), devs[b], h)
  {
    hide Watch, Log, After, Raises, RaisedBits, Bit, Commands, Carries;
    RaisedBitsRead(devs, h, BUSES, b);
    BusOfWindow(b);
    FiveAndSix();
    var out, sent := SlaveAt(devs[b], h).out, Watch(h, Window(b)).latch % 256;
    assert SecondByte(256 * out + sent) == out;
    CarriedByte(256 * out + sent, out);
  }

  lemma FiveAndSix()
    ensures Bit(5, 0) && Bit(5, 2) && !Bit(6, 0) && Bit(6, 1) && Bit(6, 2)
  {
  }

  lemma BoardsExist(devs: map<int, Device>)
    requires Fitted(devs)
    ensures OnBoard(Board(devs), devs)
  {
    hide AnswersAt, RaisedBits, Bit, Pow256;
    forall b, h: History | b in devs
      ensures AnswersAt(Board(devs), devs[b], h)
    {
      BoardAnswers(devs, b, h);
    }
    forall b, h: History | 0 <= b < BUSES && b !in devs
      ensures UnconnectedAt(Board(devs), b, h)
    {
      RaisedBitsRead(devs, h, BUSES, b);
      BusOfWindow(b);
      ZeroHasNoBits(0);
    }
  }
}
