/** Register windows and pin selection. */
module I2cWindows {
  import opened Bits
  import opened I2cHardware
  import opened I2cDriver

  /** The addresses of the registers of one controller. */
  predicate InWindow(addr: int, bus: int) {
    Window(bus) <= addr <= Window(bus) + DMSR + 3
  }

  /** No address belongs to two controllers, and the shared DISR to none. */
  lemma WindowsDisjoint(addr: int, a: int, b: int)
    requires 0 <= a < BUSES && 0 <= b < BUSES && InWindow(addr, a)
    ensures InWindow(addr, b) ==> a == b
    ensures !(DISR <= addr <= DISR + 3)
  {
  }

  /** Last value written to a register, `initial` if there is none. */
  function LastWritten(h: History, addr: int, initial: Word): Word {
    if h == [] then initial
    else if Last(h).Write? && Last(h).addr == addr then Last(h).value
    else LastWritten(h[..|h| - 1], addr, initial)
  }

  lemma WrittenAppend(h: History, a: Access, addr: int, initial: Word)
    ensures LastWritten(h + [a], addr, initial)
         == if a.Write? && a.addr == addr then a.value else LastWritten(h, addr, initial)
  {
    assert (h + [a])[..|h + [a]| - 1] == h;
  }

  // ---- The registers of a controller ------------------------------------------------

  /** What the six set-up writes leave in any register. */
  lemma SetUpWrites(d: Driver, addr: int, initial: Word)
    ensures LastWritten(SetUpWindow(d).history, addr, initial)
         == if addr == d.busBase + CATCR1 then 0x77777344
            else if addr == d.busBase + CATCR2 then 0
            else if addr == d.busBase + DR then SLAVE_ADDRESS
            else if addr == d.busBase + ISR then 0xFFFFFFFF
            else if addr == d.busBase + FCR then 7
            else if addr == d.busBase + ICR then 0x2F
            else LastWritten(d.history, addr, initial)
  {
    hide LastWritten;
    var d1 := d.Put(d.busBase + CATCR1, 0x77777344);
    var d2 := d1.Put(d.busBase + CATCR2, 0);
    var d3 := d2.Put(d.busBase + DR, SLAVE_ADDRESS);
    var d4 := d3.Put(d.busBase + ISR, 0xFFFFFFFF);
    var d5 := d4.Put(d.busBase + FCR, 7);
    WrittenAppend(d.history, Last(d1.history), addr, initial);
    WrittenAppend(d1.history, Last(d2.history), addr, initial);
    WrittenAppend(d2.history, Last(d3.history), addr, initial);
    WrittenAppend(d3.history, Last(d4.history), addr, initial);
    WrittenAppend(d4.history, Last(d5.history), addr, initial);
    WrittenAppend(d5.history, Last(SetUpWindow(d).history), addr, initial);
  }

  /** After an initialisation the controller of the current bus is timed, addressed,
      cleared and enabled, and the last value written to any register of any other
      controller is what it was before. */
  lemma InitConfigures(e: Env, d: Driver, addr: int, bus: int, initial: Word)
    requires d.OnBus() && 0 <= bus < BUSES && InWindow(addr, bus)
    ensures var h := RealInit(e, d).history;
            var offset := addr - Window(d.busNum);
            LastWritten(h, addr, initial) == (
              if offset == CATCR1 then 0x77777344 else if offset == CATCR2 then 0
              else if offset == DR then SLAVE_ADDRESS else if offset == ISR then 0xFFFFFFFF
              else if offset == FCR then 7 else if offset == ICR then 0x2F
              else LastWritten(d.history, addr, initial))
  {
    hide LastWritten, Bits.ClearWordBit, PinWord, SetUpWindow;
    var d0 := d.(busBase := Window(d.busNum));
    var d1 := EnablePins(e, d0);
    PinsWriteElsewhere(e, d0, addr, initial);
    var d2 := d1.Get(e, SCU_RESET);
    WrittenAppend(d1.history, Last(d2.history), addr, initial);
    WrittenAppend(d2.history, Last(ReleaseReset(e, d1).history), addr, initial);
    SetUpWrites(ReleaseReset(e, d1), addr, initial);
  }

  lemma PinsWriteElsewhere(e: Env, d: Driver, addr: int, initial: Word)
    requires d.OnBus() && (addr >= AST_I2C_REG_BASE || addr == SCU_RESET)
    ensures LastWritten(EnablePins(e, d).history, addr, initial) == LastWritten(d.history, addr, initial)
  {
    hide LastWritten, PinWord;
    var d1 := d.Put(AST_SCU_BASE, 0x1688A8A8);
    WrittenAppend(d.history, Last(d1.history), addr, initial);
    if d.busNum >= 2 {
      var d2 := d1.Get(e, SCU_PINS);
      WrittenAppend(d1.history, Last(d2.history), addr, initial);
      WrittenAppend(d2.history, Last(EnablePins(e, d).history), addr, initial);
    }
  }

  // ---- The pin register -------------------------------------------------------------

  /** A register that reads back what was written to it. */
  ghost predicate IsStored(e: Env, addr: int, initial: Word) {
    forall h: History :: e(h, addr) == LastWritten(h, addr, initial)
  }

  function PinsAfter(h: History, initial: Word): Word {
    LastWritten(h, SCU_PINS, initial)
  }

  lemma PinsAppend(h: History, a: Access, initial: Word)
    ensures PinsAfter(h + [a], initial)
         == if a.Write? && a.addr == SCU_PINS then a.value else PinsAfter(h, initial)
  {
    WrittenAppend(h, a, SCU_PINS, initial);
  }

  lemma EnablePinsSets(e: Env, d: Driver, initial: Word)
    requires IsStored(e, SCU_PINS, initial) && d.OnBus()
    ensures var before, after := PinsAfter(d.history, initial), PinsAfter(EnablePins(e, d).history, initial);
            after == if d.busNum >= 2 then PinWord(before, d.busNum) else before
  {
    hide LastWritten, PinWord;
    var d1 := d.Put(AST_SCU_BASE, 0x1688A8A8);
    PinsAppend(d.history, Last(d1.history), initial);
    if d.busNum >= 2 {
      var d2 := d1.Get(e, SCU_PINS);
      PinsAppend(d1.history, Last(d2.history), initial);
      PinsAppend(d2.history, Last(EnablePins(e, d).history), initial);
    }
  }

  lemma RestKeepsPins(e: Env, d: Driver, initial: Word)
    requires d.busBase >= AST_I2C_REG_BASE
    ensures PinsAfter(SetUpWindow(ReleaseReset(e, d)).history, initial) == PinsAfter(d.history, initial)
  {
    hide LastWritten, Bits.ClearWordBit, SetUpWindow;
    var d1 := d.Get(e, SCU_RESET);
    var d2 := ReleaseReset(e, d);
    PinsAppend(d.history, Last(d1.history), initial);
    PinsAppend(d1.history, Last(d2.history), initial);
    SetUpWrites(d2, SCU_PINS, initial);
  }

  function InitRun(e: Env, d: Driver, buses: seq<int>): Driver
    requires forall i | 0 <= i < |buses| :: 0 <= buses[i] < BUSES
  {
    if buses == [] then d
    else RealInit(e, InitRun(e, d, buses[..|buses| - 1]).(busNum := Last(buses)))
  }

  /** After any run of initialisations, the pin register is its earlier value plus bit
      14 + n for every bus n >= 2 initialised, minus bit 0 if a bus from 9 to 12 was. */
  lemma {:induction false} PinsAccumulate(e: Env, d: Driver, buses: seq<int>, initial: Word, k: nat)
    requires IsStored(e, SCU_PINS, initial)
    requires forall i | 0 <= i < |buses| :: 0 <= buses[i] < BUSES
    ensures Bit(PinsAfter(InitRun(e, d, buses).history, initial), k)
       <==> ((exists i | 0 <= i < |buses| :: buses[i] >= 2 && k == 14 + buses[i])
             || (Bit(PinsAfter(d.history, initial), k)
                 && !(k == 0 && exists i | 0 <= i < |buses| :: 9 <= buses[i] <= 12)))
    decreases |buses|
  {
    hide PinsAfter, EnablePins, ReleaseReset, SetUpWindow, PinWord, Bit;
    if buses != [] {
      var before, bus := buses[..|buses| - 1], Last(buses);
      PinsAccumulate(e, d, before, initial, k);
      var d0 := InitRun(e, d, before).(busNum := bus, busBase := Window(bus));
      EnablePinsSets(e, d0, initial);
      RestKeepsPins(e, EnablePins(e, d0), initial);
      if bus >= 2 {
        PinWordReads(PinsAfter(d0.history, initial), bus, k);
      }
      assert forall i | 0 <= i < |before| :: buses[i] == before[i];
      assert buses[|before|] == bus;
    }
  }

  lemma PinWordReads(w: Word, bus: int, k: nat)
    requires 2 <= bus < BUSES
    ensures Bit(PinWord(w, bus), k) <==> k == 14 + bus || (Bit(w, k) && !(k == 0 && 9 <= bus <= 12))
  {
    hide Bit, SetBit, ClearBit;
    ClearBitReads(w, 0, k);
    SetBitReads(w, 14 + bus, k);
    SetBitReads(ClearWordBit(w, 0), 14 + bus, k);
  }

  /** An initialisation clears bit 2 of the reset register and no other. */
  lemma ResetReleased(e: Env, d: Driver, initial: Word, k: nat)
    requires IsStored(e, SCU_RESET, initial) && d.OnBus()
    ensures Bit(LastWritten(RealInit(e, d).history, SCU_RESET, initial), k)
       <==> k != 2 && Bit(LastWritten(d.history, SCU_RESET, initial), k)
  {
    hide LastWritten, PinWord, Bit, ClearBit, SetUpWindow;
    var d0 := d.(busBase := Window(d.busNum));
    var d1 := EnablePins(e, d0);
    PinsWriteElsewhere(e, d0, SCU_RESET, initial);
    var d2 := d1.Get(e, SCU_RESET);
    var w := e(d1.history, SCU_RESET);
    WrittenAppend(d1.history, Last(d2.history), SCU_RESET, initial);
    WrittenAppend(d2.history, Write(SCU_RESET, ClearWordBit(w, 2)), SCU_RESET, initial);
    SetUpWrites(ReleaseReset(e, d1), SCU_RESET, initial);
    ClearBitReads(w, 2, k);
  }
}
