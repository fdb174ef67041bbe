/** The register accesses of the driver, word for word: addresses and values are written
    out as the hardware sees them. */
module I2cAccesses {
  import opened Bits
  import opened Division
  import opened WordBits
  import opened I2cHardware
  import opened I2cDriver
  import opened I2cWindows

  /** The windows of the 14 controllers, in bus order. */
  lemma WindowTable(bus: int)
    requires 0 <= bus < BUSES
    ensures BUSES == 14 && forall addr :: InWindow(addr, bus) <==> Window(bus) <= addr < Window(bus) + 0x2C
    ensures Window(bus) == [0x1E78A040, 0x1E78A080, 0x1E78A0C0, 0x1E78A100, 0x1E78A140, 0x1E78A180, 0x1E78A1C0,
                            0x1E78A300, 0x1E78A340, 0x1E78A380, 0x1E78A3C0, 0x1E78A400, 0x1E78A440, 0x1E78A480][bus]
  {
  }

  // ---- Commands ---------------------------------------------------------------------

  function Done(d: Driver, accesses: History): Driver {
    d.(history := d.history + accesses)
  }

  /** A start writes the address byte and the word 0x03, waits, and succeeds exactly if bit
      0 of the status is set. */
  lemma StartWords(e: Env, d: Driver, chip: Byte, readWrite: Byte)
    requires d.OnBus()
    ensures var sent := Done(d, [Write(d.busBase + 0x20, 2 * chip + readWrite % 2), Write(d.busBase + 0x14, 0x03)]);
            var (d1, status) := InterruptStatus(e, sent);
            SendStart(e, d, chip, readWrite) == (d1, if status % 2 == 1 then 0 else 1)
  {
    hide InterruptStatus;
    var d1 := d.Put(d.busBase + TRBB, 2 * chip + readWrite % 2).Put(d.busBase + CSR, 0x03);
    assert d1.history
        == d.history + [Write(d.busBase + 0x20, 2 * chip + readWrite % 2), Write(d.busBase + 0x14, 0x03)];
  }

  /** A byte is written with the word 0x02, as a slave 0x04; bit 0 or bit 1 of the status
      makes it a success. */
  lemma ByteWords(e: Env, d: Driver, byte: Byte, mode: Mode)
    requires d.OnBus()
    ensures var csr := if mode == Slavem then 0x04 else 0x02;
            var sent := Done(d, [Write(d.busBase + 0x20, byte), Write(d.busBase + 0x14, csr)]);
            var (d1, status) := InterruptStatus(e, sent);
            SendByte(e, d, byte, mode) == (d1, if status % 4 != 0 then 0 else 1)
  {
    hide InterruptStatus;
    var csr := if mode == Slavem then 0x04 else 0x02;
    var d1 := d.Put(d.busBase + TRBB, byte).Put(d.busBase + CSR, csr);
    assert d1.history == d.history + [Write(d.busBase + 0x20, byte), Write(d.busBase + 0x14, csr)];
    LowStatusBits(InterruptStatus(e, d1).1);
  }

  lemma LowStatusBits(w: Word)
    ensures w % 4 != 0 <==> Bit(w, 0) || Bit(w, 1)
    ensures (w / 4) % 2 == 1 <==> Bit(w, 2)
  {
    hide Bit;
    FirstBits(w);
    SplitLowBit(w, 2);
    Quarter(w);
  }

  lemma FirstBits(w: nat)
    ensures Bit(w, 0) <==> w % 2 == 1
    ensures Bit(w, 1) <==> (w / 2) % 2 == 1
    ensures Bit(w, 2) <==> (w / 2 / 2) % 2 == 1
  {
    assert Bit(w, 1) == Bit(w / 2, 0);
    assert Bit(w, 2) == Bit(w / 2, 1) == Bit(w / 2 / 2, 0);
  }

  lemma Quarter(w: nat)
    ensures w / 2 / 2 == w / 4
  {
  }

  /** A receive writes 0x08, as a slave 0, and 0x10 more for the last byte. Only if bit 2 of
      the status is set is the buffer register read, and the byte stored is its bits 15 to
      8, whatever its other bits are. */
  lemma ReceiveWords(e: Env, d: Driver, byte: Byte, last: bool, mode: Mode)
    requires d.OnBus()
    ensures var csr := if mode == Masterm then (if last then 0x18 else 0x08) else if last then 0x10 else 0x00;
            var (d1, status) := InterruptStatus(e, Done(d, [Write(d.busBase + 0x14, csr)]));
            var (d2, ret, stored) := ReceiveByte(e, d, byte, last, mode);
            var w := e(d1.history, d.busBase + 0x20);
            if (status / 4) % 2 == 1 then
              d2 == Done(d1, [Read(d.busBase + 0x20, w)]) && ret == 0 && Carries(w, stored)
            else d2 == d1 && ret == 1 && stored == byte
  {
    hide InterruptStatus, SecondByte, Carries;
    var csr := if mode == Masterm then (if last then 0x18 else 0x08) else if last then 0x10 else 0x00;
    var d1 := InterruptStatus(e, d.Put(d.busBase + CSR, csr)).0;
    LowStatusBits(InterruptStatus(e, d.Put(d.busBase + CSR, csr)).1);
    var w := e(d1.history, d.busBase + 0x20);
    CarriedByte(w, SecondByte(w));
  }

  lemma StopWords(d: Driver)
    ensures SendStop(d) == Done(d, [Write(d.busBase + 0x14, 0x30)])
  {
  }

  // ---- Waiting ----------------------------------------------------------------------

  /** h1 is h and then n reads of 0x1E78A000, none of which shows the bit of bus except,
      if `hit`, the last. */
  predicate Polled(e: Env, h: History, h1: History, n: nat, bus: nat, hit: bool) {
    && h <= h1 && |h1| == |h| + n
    && forall k | |h| <= k < |h1| ::
         && h1[k] == Read(0x1E78A000, e(h1[..k], 0x1E78A000))
         && (Bit(h1[k].value, bus) <==> hit && k == |h1| - 1)
  }

  lemma PolledFirst(e: Env, h: History, h1: History, n: nat, bus: nat, hit: bool)
    requires Polled(e, h + [Read(0x1E78A000, e(h, 0x1E78A000))], h1, n, bus, hit)
    requires !Bit(e(h, 0x1E78A000), bus) && (hit ==> n > 0)
    ensures Polled(e, h, h1, n + 1, bus, hit)
  {
    hide Bit;
    assert h1[|h|] == Read(0x1E78A000, e(h, 0x1E78A000));
    assert h1[..|h|] == h;
  }

  lemma {:induction false} PollWords(e: Env, d: Driver, limit: nat) returns (n: nat, hit: bool, polled: History)
    requires d.OnBus()
    ensures var (d1, status) := Poll(e, d, limit);
            && Polled(e, d.history, polled, n, d.busNum, hit)
            && (if hit then
                  && 0 < n <= limit && status == e(polled, d.busBase + 0x10)
                  && d1 == d.(history := polled + [Read(d.busBase + 0x10, status)])
                else n == limit && status == 0 && d1 == d.(history := polled))
    decreases limit
  {
    hide Bit;
    var d1 := d.Get(e, DISR);
    n, hit, polled := 0, false, d.history;
    if limit > 0 {
      if Bit(e(d.history, DISR), d.busNum) {
        n, hit, polled := 1, true, d1.history;
        assert polled[..|d.history|] == d.history;
      } else {
        n, hit, polled := PollWords(e, d1, limit - 1);
        PolledFirst(e, d.history, polled, n, d.busNum, hit);
        n := n + 1;
      }
    }
  }

  /** Waiting for a command: register 0x1E78A000 is read until it shows the bus's bit, at
      most 100000 times; after that the status register is read, otherwise the status is 0;
      and 0xFFFFFFFF is written to the status register once, at the end. */
  lemma StatusWords(e: Env, d: Driver) returns (n: nat, hit: bool, polled: History)
    requires d.OnBus()
    ensures var (d1, status) := InterruptStatus(e, d);
            && Polled(e, d.history, polled, n, d.busNum, hit)
            && (if hit then
                  && 0 < n <= 100000 && status == e(polled, d.busBase + 0x10)
                  && d1 == d.(history := polled + [Read(d.busBase + 0x10, status), Write(d.busBase + 0x10, 0xFFFFFFFF)])
                else
                  && n == 100000 && status == 0
                  && d1 == d.(history := polled + [Write(d.busBase + 0x10, 0xFFFFFFFF)]))
  {
    hide Poll, Polled;
    n, hit, polled := PollWords(e, d, POLL_LIMIT);
    if hit {
      var status := Poll(e, d, POLL_LIMIT).1;
      assert polled + [Read(d.busBase + 0x10, status)] + [Write(d.busBase + 0x10, 0xFFFFFFFF)]
          == polled + [Read(d.busBase + 0x10, status), Write(d.busBase + 0x10, 0xFFFFFFFF)];
    }
  }

  // ---- Initialisation ---------------------------------------------------------------

  /** The words an initialisation reads from the pin and reset registers, and those it
      writes there. */
  datatype Scu = Scu(pins: Word, pinsAfter: Word, reset: Word, resetAfter: Word)

  ghost predicate Connected(s: Scu, bus: int) {
    forall k: nat :: Bit(s.pinsAfter, k) <==> k == 14 + bus || (Bit(s.pins, k) && !(k == 0 && 9 <= bus <= 12))
  }

  ghost predicate OutOfReset(s: Scu) {
    forall k: nat :: Bit(s.resetAfter, k) <==> k != 2 && Bit(s.reset, k)
  }

  function UnlockWords(): History {
    [Write(0x1E6E2000, 0x1688A8A8)]
  }

  function PinWords(s: Scu, bus: int): History {
    if bus < 2 then [] else [Read(0x1E6E2090, s.pins), Write(0x1E6E2090, s.pinsAfter)]
  }

  function ResetWords(s: Scu): History {
    [Read(0x1E6E2004, s.reset), Write(0x1E6E2004, s.resetAfter)]
  }

  function WindowWords(base: int): History {
    [Write(base + 0x04, 0x77777344), Write(base + 0x08, 0x00000000), Write(base + 0x18, 0x10),
     Write(base + 0x10, 0xFFFFFFFF), Write(base + 0x00, 0x07), Write(base + 0x0C, 0x2F)]
  }

  /** An initialisation is exactly this sequence of accesses. */
  lemma InitWords(e: Env, d: Driver) returns (s: Scu)
    requires d.OnBus()
    ensures RealInit(e, d).history
         == d.history + UnlockWords() + PinWords(s, d.busNum) + ResetWords(s) + WindowWords(Window(d.busNum))
    ensures d.busNum >= 2 ==> s.pins == e(d.history + UnlockWords(), 0x1E6E2090) && Connected(s, d.busNum)
    ensures s.reset == e(d.history + UnlockWords() + PinWords(s, d.busNum), 0x1E6E2004) && OutOfReset(s)
  {
    hide PinWord, Bits.ClearWordBit, Connected, OutOfReset, Window;
    var d0 := d.(busBase := Window(d.busNum));
    var d1 := d0.Put(AST_SCU_BASE, 0x1688A8A8);
    var d2 := EnablePins(e, d0);
    var pins, reset := e(d1.history, SCU_PINS), e(d2.history, SCU_RESET);
    s := Scu(pins, if d.busNum >= 2 then PinWord(pins, d.busNum) else pins, reset, ClearWordBit(reset, 2));
    assert d2.history == d.history + UnlockWords() + PinWords(s, d.busNum);
    var d3 := ReleaseReset(e, d2);
    assert d3.history == d2.history + ResetWords(s);
    WindowSequence(d3);
    PinsConnected(s, d.busNum);
    ResetCleared(s);
  }

  lemma WindowSequence(d: Driver)
    ensures SetUpWindow(d).history == d.history + WindowWords(d.busBase)
  {
  }

  lemma PinsConnected(s: Scu, bus: int)
    requires 2 <= bus < BUSES ==> s.pinsAfter == PinWord(s.pins, bus)
    ensures 2 <= bus < BUSES ==> Connected(s, bus)
  {
    if 2 <= bus < BUSES {
      forall k: nat
        ensures Bit(s.pinsAfter, k) <==> k == 14 + bus || (Bit(s.pins, k) && !(k == 0 && 9 <= bus <= 12))
      {
        PinWordReads(s.pins, bus, k);
      }
    }
  }

  lemma ResetCleared(s: Scu)
    requires s.resetAfter == ClearWordBit(s.reset, 2)
    ensures OutOfReset(s)
  {
    forall k: nat
      ensures Bit(s.resetAfter, k) <==> k != 2 && Bit(s.reset, k)
    {
      ClearBitReads(s.reset, 2, k);
    }
  }

  predicate Unlocks(a: Access) {
    a == Write(0x1E6E2000, 0x1688A8A8)
  }

  predicate Locks(a: Access) {
    a.Write? && a.addr == 0x1E6E2000 && !Unlocks(a)
  }

  /** Each write of an initialisation to the pin or the reset register comes after an unlock
      of the same initialisation, with nothing locked in between. */
  lemma UnlockedFirst(e: Env, d: Driver, k: nat)
    requires d.OnBus() && |d.history| <= k < |RealInit(e, d).history|
    requires var a := RealInit(e, d).history[k];
             a.Write? && (a.addr == 0x1E6E2090 || a.addr == 0x1E6E2004)
    ensures var h := RealInit(e, d).history;
            exists j | |d.history| <= j < k :: Unlocks(h[j]) && forall i | j < i < k :: !Locks(h[i])
  {
    hide RealInit, Window;
    var s := InitWords(e, d);
    var h := RealInit(e, d).history;
    var added := UnlockWords() + PinWords(s, d.busNum) + ResetWords(s) + WindowWords(Window(d.busNum));
    assert h == d.history + added;
    forall i | |d.history| <= i < |h|
      ensures h[i] == added[i - |d.history|]
    {
    }
    assert Unlocks(added[0]) && Unlocks(h[|d.history|]);
    assert k > |d.history|;
    WindowIsAbove(d.busNum);
    forall i | |d.history| < i < k
      ensures !Locks(h[i])
    {
      assert added[i - |d.history|] == h[i];
    }
  }

  lemma WindowIsAbove(bus: int)
    requires 0 <= bus < BUSES
    ensures Window(bus) > 0x1E6E2090
  {
  }
}
