/** The ADC driver rewritten test-first: fields packed into 32-bit registers by
    read-modify-write. */
module AdcTdd {
  import opened Words
  import opened AdcWords
  import opened AdcRegisters

  const ENGINE_CONTROL: bv32 := 0x0
  const CLOCK_CONTROL: bv32 := 0xC
  const DATA: bv32 := 0x10

  const IOCTL_ENABLE_ADC: bv32 := 0x111C
  const IOCTL_ADC_MEASURE: bv32 := 0x111D
  const IOCTL_SET_ADC_CLOCK: bv32 := 0x111E

  /** -1 as a 32-bit int. */
  const MINUS_ONE: bv32 := 0xFFFF_FFFF

  /** Two channels share a data register, the odd one in its upper half. */
  function DataOffset(chan: Channel): bv32 {
    DATA + 4 * (chan / 2)
  }

  // ---- The driver's operations ------------------------------------------------------

  function ChanStatus(regs: Registers, chan: Channel): bv32 {
    ChanBit(regs(ENGINE_CONTROL), chan)
  }

  function ClockDivisor(regs: Registers): bv32 {
    Low10(regs(CLOCK_CONTROL))
  }

  function SetClock(regs: Registers, divisor: bv32): Registers {
    Store(regs, CLOCK_CONTROL, WithLow10(regs(CLOCK_CONTROL), divisor))
  }

  function EnableChan(regs: Registers, chan: Channel, enable: bv32): Registers {
    var w := regs(ENGINE_CONTROL);
    Store(regs, ENGINE_CONTROL, if enable == 1 then WithChanBit(w, chan) else WithoutChanBit(w, chan))
  }

  /** The 10 bits that hold a channel's sample. */
  function Sample(regs: Registers, chan: Channel): bv32 {
    var w := regs(DataOffset(chan));
    if IsOdd(chan) then High10(w) else Low10(w)
  }

  function Measure(regs: Registers, chan: Channel): bv32 {
    if ChanStatus(regs, chan) == 0 then MINUS_ONE else Sample(regs, chan)
  }

  /** The hardware delivering a sample: a 16-bit value written over the old field. */
  function WriteSample(regs: Registers, chan: Channel, v: Stub): Registers {
    var w := regs(DataOffset(chan));
    Store(regs, DataOffset(chan), if IsOdd(chan) then WithHigh10(w, v) else WithLow10(w, v))
  }

  /** A negative result of adc_measure, as the ioctl tests it. */
  predicate Negative(v: bv32) {
    v & 0x8000_0000 != 0
  }
}
