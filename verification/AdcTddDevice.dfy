/** The test-first ADC driver itself, register access by register access. */
module AdcTddDevice {
  import opened Words
  import opened AdcWords
  import opened AdcRegisters
  import opened AdcTdd

  class IoAccessData {
    var Address: bv32
    var Data: bv32
  }

  class Adc {
    var regs: Registers

    /** kmalloc and memset, then adc_init. */
    constructor ()
      ensures regs == AdcTdd.SetClock(Zeroed(), 0x40)
    {
      regs := Zeroed();
      new;
      SetClock(0x40);
    }

    method ReadL(offset: bv32) returns (v: bv32)
      ensures v == regs(offset)
    {
      v := regs(offset);
    }

    method WriteL(v: bv32, offset: bv32)
      modifies this
      ensures regs == Store(old(regs), offset, v)
    {
      regs := Store(regs, offset, v);
    }

    method GetChanStatus(chan: Channel) returns (r: bv32)
      ensures r == ChanStatus(regs, chan)
    {
      var regv := ReadL(ENGINE_CONTROL);
      return Down(And(regv, Mask(chan)), chan);
    }

    method GetClockDivisor() returns (r: bv32)
      ensures r == ClockDivisor(regs)
    {
      var regv := ReadL(CLOCK_CONTROL);
      return And(regv, 0x3ff);
    }

    method SetClock(divisor: bv32)
      modifies this
      ensures regs == AdcTdd.SetClock(old(regs), divisor)
    {
      var regv := ReadL(CLOCK_CONTROL);
      regv := AndNot(regv, 0x3ff);
      regv := Or(regv, divisor);
      WriteL(regv, CLOCK_CONTROL);
    }

    method EnableChan(chan: Channel, enable: bv32)
      modifies this
      ensures regs == AdcTdd.EnableChan(old(regs), chan, enable)
    {
      hide Store, Mask, AndNot, Or;
      var regv := ReadL(ENGINE_CONTROL);
      regv := AndNot(regv, Mask(chan));
      if 1 == enable {
        regv := Or(regv, Mask(chan));
      }
      WriteL(regv, ENGINE_CONTROL);
    }

    method Measure(chan: Channel) returns (r: bv32)
      ensures r == AdcTdd.Measure(regs, chan)
    {
      var status := GetChanStatus(chan);
      if 0 == status {
        return MINUS_ONE;
      }
      var regv := ReadL(DataOffset(chan));
      if IsOdd(chan) {
        return And(Down16(regv), 0x3ff);
      } else {
        return And(regv, 0x3ff);
      }
    }

    /** The data argument of the call is changed by a successful measurement only. */
    method Ioctl(cmd: bv32, io: IoAccessData) returns (ret: int)
      requires cmd == 0x111D || cmd == 0x111C ==> io.Address <= 30
      modifies this, io`Data
      ensures cmd == 0x111E ==>
                ret == 0 && regs == AdcTdd.SetClock(old(regs), io.Data) && io.Data == old(io.Data)
      ensures cmd == 0x111C ==>
                ret == 0 && regs == AdcTdd.EnableChan(old(regs), io.Address, io.Data) && io.Data == old(io.Data)
      ensures cmd == 0x111D ==>
                && regs == old(regs)
                && (if ChanStatus(regs, io.Address) == 0 then ret == -1 && io.Data == old(io.Data)
                    else ret == 0 && io.Data == Sample(regs, io.Address))
      ensures cmd != 0x111E && cmd != 0x111D && cmd != 0x111C ==>
                ret == -1 && regs == old(regs) && io.Data == old(io.Data)
    {
      if cmd == IOCTL_SET_ADC_CLOCK {
        SetClock(io.Data);
        return 0;
      } else if cmd == IOCTL_ADC_MEASURE {
        var rawdata := Measure(io.Address);
        if Negative(rawdata) {
          return -1;
        } else {
          io.Data := rawdata;
        }
        return 0;
      } else if cmd == IOCTL_ENABLE_ADC {
        EnableChan(io.Address, io.Data);
        return 0;
      } else {
        return -1;
      }
    }

    method SetStubVal(chan: Channel, v: Stub)
      modifies this
      ensures regs == WriteSample(old(regs), chan, v)
    {
      hide IsOdd, Store, DataOffset, AndNot, Or, Up16;
      var offset := DataOffset(chan);
      var regv := ReadL(offset);
      if !IsOdd(chan) {
        regv := AndNot(regv, 0x3ff);
        regv := Or(regv, v);
      } else {
        regv := AndNot(regv, 0x3ff << 16);
        regv := Or(regv, Up16(v));
      }
      WriteL(regv, offset);
    }
  }
}
