/** The original ADC driver: clock, channel enable, calibration and measurement. */
module AdcOriginal {
  import opened Words
  import opened AdcRegisters
  import opened AdcClockMacro
  import opened AdcChannelMacro

  const SCU_PASSWORD: bv32 := 0x1E6E2000
  const SCU_RESET_CONTROL: bv32 := 0x1E6E2004
  const SCU_PROTECTION_KEY: bv32 := 0x1688A8A8
  const ENGINE_CONTROL: bv32 := 0x1E6E9000
  const CLOCK_CONTROL: bv32 := 0x1E6E900C
  const DATA: bv32 := 0x1E6E9010

  /** A 10-bit sample. */
  type RawSample = r: int | 0 <= r < 0x400

  function DataAddress(channel: UChar): bv32 {
    DATA + 4 * (channel / 2)
  }

  /** Two channels share a data register, and registers are 4 apart from 0x1E6E9010 on. */
  lemma DataAddresses(pair: bv32)
    requires pair < 128
    ensures DataAddress(2 * pair) == DataAddress(2 * pair + 1)
    ensures DataAddress(0) == 0x1E6E9010 && (pair < 127 ==> DataAddress(2 * pair + 2) == DataAddress(2 * pair) + 4)
    ensures DataAddress(2) == 0x1E6E9014 && DataAddress(13) == 0x1E6E9028
  {
  }

  function Field10(w: bv32): (r: RawSample) {
    TenBits(w);
    And(w, 0x3ff) as int
  }

  lemma TenBits(w: bv32)
    ensures 0 <= And(w, 0x3ff) as int < 0x400
  {
  }

  function Raw(regs: Registers, channel: UChar): RawSample {
    var w := regs(DataAddress(channel));
    if IsOdd(channel) then Field10(Down16(w)) else Field10(w)
  }

  /** Even channels are the low 10 bits of their register, odd ones bits 25:16. */
  lemma RawHalves(regs: Registers, pair: bv32)
    requires pair < 128
    ensures Raw(regs, 2 * pair) == (regs(DataAddress(2 * pair)) & 0x3ff) as int
    ensures Raw(regs, 2 * pair + 1) == ((regs(DataAddress(2 * pair)) >> 16) & 0x3ff) as int
  {
    hide DataAddress;
    DataAddresses(pair);
    Parity(pair);
  }

  lemma Parity(pair: bv32)
    requires pair < 128
    ensures !IsOdd(2 * pair) && IsOdd(2 * pair + 1)
  {
  }

  /** What IOCTL_ADC_MEASURE reports for a raw sample under a compensation value. */
  function Report(raw: RawSample, cvData: int): int {
    var readdata := raw + cvData;
    if readdata < 0 || readdata == cvData then 0 else readdata
  }

  // ---- Compensation -----------------------------------------------------------------

  /** The compensation value after a calibration that sensed the given sample. */
  function Compensation(sensed: RawSample): int {
    0x200 - sensed
  }

  /** After any calibration: the value is within [-511, 512]; a report is 0 for a zero
      sample, otherwise the shifted sample cut off at 0; it lies within [0, 1535], never
      decreases as the sample grows, and is 0x200 exactly for the calibration sample
      itself when that was not 0. */
  lemma ReportLaws(sensed: RawSample, raw: RawSample, more: RawSample)
    ensures var cv := Compensation(sensed);
            && -511 <= cv <= 512
            && Report(raw, cv) == (if raw == 0 || raw + 0x200 < sensed then 0 else raw + 0x200 - sensed)
            && 0 <= Report(raw, cv) <= 1535
            && (raw <= more ==> Report(raw, cv) <= Report(more, cv))
            && (Report(raw, cv) == 0x200 <==> raw == sensed && raw != 0)
  {
  }

  lemma SetThenClear(w: bv32, m: bv32)
    ensures AndNot(Or(w, m), m) == AndNot(w, m)
  {
    hide Or, AndNot;
    ClearDistributes(w, m, m);
    ClearAll(m);
    ZeroLaws(AndNot(w, m));
  }

  // ---- The driver -------------------------------------------------------------------

  datatype Access = Wrote(addr: bv32, data: bv32) | WasRead(addr: bv32, data: bv32)

  /** The accesses of the initialisation up to the sequence check: unlock, set and release
      the reset bit, clock, engine on. */
  function ResetAccesses(reset: bv32): seq<Access> {
    [Wrote(0x1E6E2000, 0x1688A8A8),
     WasRead(0x1E6E2004, reset),
     Wrote(0x1E6E2004, Or(reset, 1 << 23)),
     WasRead(0x1E6E2004, Or(reset, 1 << 23)),
     Wrote(0x1E6E2004, AndNot(reset, 1 << 23))]
  }

  function StartAccesses(reset: bv32): seq<Access> {
    ResetAccesses(reset) + [Wrote(0x1E6E900C, 0x40), Wrote(0x1E6E9000, 0x0000000f)]
  }

  /** The sequence check: the control register is read until bit 8 shows. */
  function CheckAccesses(polls: seq<bv32>): (a: seq<Access>)
    ensures |a| == |polls|
  {
    seq(|polls|, i requires 0 <= i < |polls| => WasRead(0x1E6E9000, polls[i]))
  }

  /** What these reads yield when the wait ends: bit 8 in the last one and in no other. */
  predicate ShowsAtLast(polls: seq<bv32>) {
    polls != [] && forall i | 0 <= i < |polls| :: And(polls[i], 1 << 8) != 0 <==> i == |polls| - 1
  }

  /** Calibration - the sample is read while the compensation bit and channel 0 are on -
      and the return to normal operation. */
  function CalibrationAccesses(sensed: bv32): seq<Access> {
    [Wrote(0x1E6E9000, 0x0000001f),
     Wrote(0x1E6E9000, 0x0001001f),
     WasRead(0x1E6E9010, sensed),
     Wrote(0x1E6E9000, 0x0000000f),
     Wrote(0x1E6E2000, 0xaa)]
  }

  /** The registers after the reset, before the calibration, and at the end. */
  function Released(regs: Registers): Registers {
    var reset := regs(SCU_RESET_CONTROL);
    Store(Store(Store(regs, SCU_PASSWORD, SCU_PROTECTION_KEY),
                SCU_RESET_CONTROL, Or(reset, 1 << 23)), SCU_RESET_CONTROL, AndNot(reset, 1 << 23))
  }

  function Started(regs: Registers): Registers {
    Store(Store(Released(regs), CLOCK_CONTROL, 0x40), ENGINE_CONTROL, 0x0000000f)
  }

  function Calibrated(regs: Registers, sensed: bv32): Registers {
    var sensing := Store(Store(regs, ENGINE_CONTROL, 0x0000001f), ENGINE_CONTROL, 0x0001001f);
    Store(Store(Store(sensing, DATA, sensed), ENGINE_CONTROL, 0x0000000f), SCU_PASSWORD, 0xaa)
  }

  lemma InitLeaves(regs: Registers, sensed: bv32)
    ensures forall addr: bv32 ::
              Calibrated(Started(regs), sensed)(addr)
              == if addr == SCU_PASSWORD then 0xaa
                 else if addr == SCU_RESET_CONTROL then AndNot(regs(addr), 1 << 23)
                 else if addr == CLOCK_CONTROL then 0x40
                 else if addr == ENGINE_CONTROL then 0x0000000f
                 else if addr == DATA then sensed
                 else regs(addr)
  {
    hide Or, AndNot;
  }

  lemma StoredAt(regs: Registers, addr: bv32, data: bv32, other: bv32)
    ensures Store(regs, addr, data)(other) == if other == addr then data else regs(other)
  {
  }

  class Adc {
    var regs: Registers
    /** Every register access of the driver, in order. */
    var accesses: seq<Access>
    var cvData: int

    constructor (regs: Registers)
      ensures this.regs == regs && accesses == [] && cvData == 0
    {
      this.regs, accesses, cvData := regs, [], 0;
    }

    method WriteRegister(addr: bv32, data: bv32)
      modifies this`regs, this`accesses
      ensures regs == Store(old(regs), addr, data) && accesses == old(accesses) + [Wrote(addr, data)]
    {
      regs, accesses := Store(regs, addr, data), accesses + [Wrote(addr, data)];
    }

    method ReadRegister(addr: bv32) returns (data: bv32)
      modifies this`accesses
      ensures data == regs(addr) && accesses == old(accesses) + [WasRead(addr, data)]
    {
      data := regs(addr);
      accesses := accesses + [WasRead(addr, data)];
    }

    method SetAdcClock(divisor: UChar, inverse: UChar) returns (ret: int)
      modifies this`regs, this`accesses
      ensures var w, v := old(regs)(0x1E6E900C),
                          ClockExpanded(old(regs)(0x1E6E900C), ClockData(divisor, inverse));
              && regs == Store(old(regs), 0x1E6E900C, v)
              && accesses == old(accesses) + [WasRead(0x1E6E900C, w)] + [Wrote(0x1E6E900C, v)]
      ensures ret == 1
    {
      hide And, Or, Up16, Store;
      var w := ReadRegister(CLOCK_CONTROL);
      WriteRegister(CLOCK_CONTROL, Or(And(w, !(0x01 << 16) + 0x3ff), Or(divisor, Up16(inverse))));
      ret := 1;
    }

    method AdcMeasure(channel: UChar) returns (raw: RawSample)
      modifies this`accesses
      ensures raw == Raw(regs, channel)
      ensures accesses == old(accesses) + [WasRead(DataAddress(channel), regs(DataAddress(channel)))]
    {
      var w := ReadRegister(DataAddress(channel));
      if IsOdd(channel) {
        raw := Field10(Down16(w));
      } else {
        raw := Field10(w);
      }
    }

    method EnableAdcChannel(channel: EngineChannel) returns (ret: int)
      modifies this`regs, this`accesses
      ensures var w, v := old(regs)(0x1E6E9000), Enable(old(regs)(0x1E6E9000), channel);
              && regs == Store(old(regs), 0x1E6E9000, v)
              && accesses == old(accesses) + [WasRead(0x1E6E9000, w)] + [Wrote(0x1E6E9000, v)]
      ensures ret == 1
    {
      hide Or, Store, ChannelMask;
      var w := ReadRegister(ENGINE_CONTROL);
      WriteRegister(ENGINE_CONTROL, Or(w, ChannelMask(channel)));
      ret := 1;
    }

    method DisableAdcChannel(channel: EngineChannel) returns (ret: int)
      modifies this`regs, this`accesses
      ensures var w, v := old(regs)(0x1E6E9000), DisableExpanded(old(regs)(0x1E6E9000), channel);
              && regs == Store(old(regs), 0x1E6E9000, v)
              && accesses == old(accesses) + [WasRead(0x1E6E9000, w)] + [Wrote(0x1E6E9000, v)]
      ensures ret == 1
    {
      hide And, Or, Store, KeptAbove;
      var w := ReadRegister(ENGINE_CONTROL);
      var kept := And(w, KeptAbove(channel));
      ZeroLaws(kept);
      WriteRegister(ENGINE_CONTROL, Or(kept, 0x00));
      ret := 1;
    }

    /** The parts of adc_init. */
    method ReleaseReset()
      modifies this`regs, this`accesses
      ensures regs == Released(old(regs)) && accesses == old(accesses) + ResetAccesses(old(regs)(SCU_RESET_CONTROL))
    {
      hide And, AndNot, Or, Store;
      WriteRegister(SCU_PASSWORD, SCU_PROTECTION_KEY);
      StoredAt(old(regs), SCU_PASSWORD, SCU_PROTECTION_KEY, SCU_RESET_CONTROL);
      var reset := ReadRegister(SCU_RESET_CONTROL);
      StoredAt(regs, SCU_RESET_CONTROL, Or(reset, 1 << 23), SCU_RESET_CONTROL);
      WriteRegister(SCU_RESET_CONTROL, Or(reset, 1 << 23));
      var raised := ReadRegister(SCU_RESET_CONTROL);
      WriteRegister(SCU_RESET_CONTROL, AndNot(raised, 1 << 23));
      SetThenClear(reset, 1 << 23);
    }

    method StartEngine()
      modifies this`regs, this`accesses
      ensures regs == Started(old(regs)) && accesses == old(accesses) + StartAccesses(old(regs)(SCU_RESET_CONTROL))
    {
      hide Store, Released, ResetAccesses;
      ReleaseReset();
      WriteRegister(CLOCK_CONTROL, 0x40);
      WriteRegister(ENGINE_CONTROL, 0x0000000f);
    }

    /** While the driver waits, the control register reads what the hardware reports. */
    method WaitForCheck(polls: seq<bv32>)
      requires ShowsAtLast(polls)
      modifies this`accesses
      ensures accesses == old(accesses) + CheckAccesses(polls)
    {
      hide And;
      var i, status := 1, polls[0];
      accesses := accesses + [WasRead(ENGINE_CONTROL, status)];
      while And(status, 1 << 8) == 0
        invariant 1 <= i <= |polls| && status == polls[i - 1]
        invariant accesses == old(accesses) + CheckAccesses(polls[..i])
        decreases |polls| - i
      {
        status := polls[i];
        accesses := accesses + [WasRead(ENGINE_CONTROL, status)];
        i := i + 1;
      }
      assert polls[..i] == polls;
    }

    method Calibrate(sensed: bv32)
      modifies this
      ensures cvData == Compensation(Field10(sensed))
      ensures regs == Calibrated(old(regs), sensed) && accesses == old(accesses) + CalibrationAccesses(sensed)
    {
      hide Field10, Store;
      WriteRegister(ENGINE_CONTROL, 0x0000001f);
      WriteRegister(ENGINE_CONTROL, 0x0001001f);
      StoredAt(regs, DATA, sensed, DATA);
      regs := Store(regs, DATA, sensed);
      assert DataAddress(0) == DATA;
      var raw := AdcMeasure(0);
      cvData := Compensation(raw);
      WriteRegister(ENGINE_CONTROL, 0x0000000f);
      WriteRegister(SCU_PASSWORD, 0xaa);
    }

    /** `polls` is what the control register reads until the sequence check is done, and
        `sensed` what the hardware has put into the first data register by the end of the
        compensation delay. */
    method AdcInit(polls: seq<bv32>, sensed: bv32)
      requires ShowsAtLast(polls)
      modifies this
      ensures cvData == Compensation(Field10(sensed))
      ensures accesses == old(accesses) + StartAccesses(old(regs)(SCU_RESET_CONTROL)) + CheckAccesses(polls)
                          + CalibrationAccesses(sensed)
      ensures forall addr: bv32 ::
                regs(addr) == if addr == 0x1E6E2000 then 0xaa
                              else if addr == 0x1E6E2004 then AndNot(old(regs)(addr), 1 << 23)
                              else if addr == 0x1E6E900C then 0x40
                              else if addr == 0x1E6E9000 then 0x0000000f
                              else if addr == 0x1E6E9010 then sensed
                              else old(regs)(addr)
    {
      hide AndNot, Field10, Started, Calibrated, StartAccesses, CheckAccesses, CalibrationAccesses, ShowsAtLast;
      StartEngine();
      WaitForCheck(polls);
      Calibrate(sensed);
      InitLeaves(old(regs), sensed);
    }

    /** The IOCTL_ADC_MEASURE branch; the result is also stored in the caller's data. */
    method IoctlMeasure(address: bv32) returns (data: int)
      modifies this`accesses
      ensures data == Report(Raw(regs, And(address, 0xFF)), cvData)
      ensures var register := DataAddress(And(address, 0xFF));
              accesses == old(accesses) + [WasRead(register, regs(register))]
    {
      var raw := AdcMeasure(And(address, 0xFF));
      var readdata := raw + cvData;
      if readdata < 0 || readdata == cvData {
        data := 0;
      } else {
        data := readdata;
      }
    }
  }
}
