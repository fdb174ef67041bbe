/** The driver itself: file-scope variables updated in place, register accesses one by
    one, polling and transfer loops, and the two shell commands. Every method is tied
    to its function in I2cDriver, about which the properties are proved. */
module I2cController {
  import opened Bits
  import opened I2cHardware
  import opened I2cDriver

  class AstI2c {
    const env: Env
    var history: History
    var initPending: bool
    var busBase: int
    var busNum: int

    /** The variables at load time: no bus chosen, nothing initialised. */
    constructor (env: Env)
      ensures this.env == env
      ensures State() == Driver(true, 0, -1, [])
    {
      this.env := env;
      history, initPending, busBase, busNum := [], true, 0, -1;
    }

    function State(): Driver
      reads this
    {
      Driver(initPending, busBase, busNum, history)
    }

    method WriteReg(addr: int, v: Word)
      modifies this`history
      ensures State() == old(State()).Put(addr, v)
    {
      history := history + [Write(addr, v)];
    }

    method ReadReg(addr: int) returns (v: Word)
      modifies this`history
      ensures v == env(old(history), addr)
      ensures State() == old(State()).Get(env, addr)
    {
      v := env(history, addr);
      history := history + [Read(addr, v)];
    }

    method InterruptStatus() returns (status: Word)
      requires State().OnBus()
      modifies this`history
      ensures (State(), status) == I2cDriver.InterruptStatus(env, old(State()))
    {
      status := 0;
      var i := 0;
      while i < POLL_LIMIT
        invariant i <= POLL_LIMIT
        invariant State().OnBus()
        invariant Poll(env, old(State()), POLL_LIMIT) == Poll(env, State(), POLL_LIMIT - i)
        invariant status == 0
      {
        var disr := ReadReg(DISR);
        if Bit(disr, busNum) {
          status := ReadReg(busBase + ISR);
          break;
        }
        i := i + 1;
      }
      WriteReg(busBase + ISR, 0xFFFFFFFF);
    }

    method SendStart(chip: Byte, readWrite: Byte) returns (ret: int)
      requires State().OnBus()
      modifies this`history
      ensures (State(), ret) == I2cDriver.SendStart(env, old(State()), chip, readWrite)
    {
      hide I2cDriver.InterruptStatus;
      WriteReg(busBase + TRBB, 2 * chip + readWrite % 2);
      WriteReg(busBase + CSR, 0x03);
      var status := InterruptStatus();
      if Bit(status, 0) {
        return 0;
      }
      return 1;
    }

    method SendByte(byte: Byte, mode: Mode) returns (ret: int)
      requires State().OnBus()
      modifies this`history
      ensures (State(), ret) == I2cDriver.SendByte(env, old(State()), byte, mode)
    {
      hide I2cDriver.InterruptStatus;
      WriteReg(busBase + TRBB, byte);
      if mode == Slavem {
        WriteReg(busBase + CSR, 4);
      } else {
        WriteReg(busBase + CSR, 2);
      }
      var status := InterruptStatus();
      if !(Bit(status, 0) || Bit(status, 1)) {
        return 1;
      }
      return 0;
    }

    /** The byte is stored through a pointer only on success; `stored` is what the
        pointed-to location, holding `byte` before, holds afterwards. */
    method ReceiveByte(byte: Byte, last: bool, mode: Mode) returns (ret: int, stored: Byte)
      requires State().OnBus()
      modifies this`history
      ensures (State(), ret, stored) == I2cDriver.ReceiveByte(env, old(State()), byte, last, mode)
    {
      hide I2cDriver.InterruptStatus;
      stored := byte;
      if mode == Masterm {
        WriteReg(busBase + CSR, 0x08 + (if last then 0x10 else 0));
      } else {
        WriteReg(busBase + CSR, if last then 0x10 else 0);
      }
      var status := InterruptStatus();
      if !Bit(status, 2) {
        return 1, stored;
      }
      var v := ReadReg(busBase + TRBB);
      stored := SecondByte(v);
      ret := 0;
    }

    method SendStop()
      modifies this`history
      ensures State() == I2cDriver.SendStop(old(State()))
    {
      WriteReg(busBase + CSR, 0x30);
    }

    /** The parts of real_i2c_init: pins, reset, and the controller's own registers. */
    method EnablePins()
      requires State().OnBus()
      modifies this`history
      ensures State() == I2cDriver.EnablePins(env, old(State()))
    {
      hide Bits.SetWordBit, Bits.ClearWordBit;
      WriteReg(AST_SCU_BASE, 0x1688A8A8);
      if busNum >= 2 {
        var scuReg := ReadReg(SCU_PINS);
        if 9 <= busNum && busNum <= 12 {
          scuReg := ClearWordBit(scuReg, 0);
        }
        WriteReg(SCU_PINS, SetWordBit(scuReg, 14 + busNum));
      }
    }

    method ReleaseReset()
      modifies this`history
      ensures State() == I2cDriver.ReleaseReset(env, old(State()))
    {
      hide Bits.ClearWordBit;
      var reset := ReadReg(SCU_RESET);
      WriteReg(SCU_RESET, ClearWordBit(reset, 2));
    }

    method SetUpWindow()
      modifies this`history
      ensures State() == I2cDriver.SetUpWindow(old(State()))
    {
      WriteReg(busBase + CATCR1, 0x77777344);
      WriteReg(busBase + CATCR2, 0);
      WriteReg(busBase + DR, SLAVE_ADDRESS);
      WriteReg(busBase + ISR, 0xFFFFFFFF);
      WriteReg(busBase + FCR, 7);
      WriteReg(busBase + ICR, 0x2F);
    }

    method RealInit()
      requires State().OnBus()
      modifies this`history, this`busBase, this`initPending
      ensures State() == I2cDriver.RealInit(env, old(State()))
    {
      hide I2cDriver.EnablePins, I2cDriver.ReleaseReset, I2cDriver.SetUpWindow;
      if busNum >= 7 {
        busBase := AST_I2C_REG_BASE + 0x100 + 0x40 * (busNum + 1);
      } else {
        busBase := AST_I2C_REG_BASE + 0x40 * (busNum + 1);
      }
      assert State() == old(State()).(busBase := Window(busNum));
      EnablePins();
      ReleaseReset();
      SetUpWindow();
      initPending := false;
    }

    method Probe(chip: Byte) returns (ret: int)
      requires State().OnBus()
      modifies this
      ensures (State(), ret) == I2cDriver.Probe(env, old(State()), chip)
    {
      hide I2cDriver.SendStart, I2cDriver.RealInit;
      ret := 0;
      RealInit();
      var failed := SendStart(chip, 0);
      if failed != 0 {
        ret := 1;
      }
      SendStop();
    }

    method I2cRead(chip: Byte, addr: Word, alen: int, buffer: array<Byte>, len: int, mode: Mode) returns (ret: int)
      requires State().OnBus() && alen <= 4 && len <= buffer.Length
      modifies this, buffer
      ensures (State(), ret, buffer[..])
           == I2cDriver.I2cRead(env, old(State()), chip, addr, Count(alen), old(buffer[..]), Count(len), mode)
    {
      hide I2cDriver.SendStart, I2cDriver.SendByte, I2cDriver.ReceiveByte, I2cDriver.RealInit;
      if initPending {
        RealInit();
      }
      ret := SendStart(chip, 0);
      if ret != 0 {
        return 1;
      }
      ghost var d1 := State();
      var i := 0;
      while i < alen
        invariant 0 <= i <= Count(alen)
        invariant (State(), 0) == SendAddress(env, d1, addr, Count(alen), i, mode)
        invariant buffer[..] == old(buffer[..])
      {
        ret := SendByte(AddressByte(addr, alen, i), mode);
        if ret != 0 {
          AddressFailureIsFinal(env, d1, addr, alen, i + 1, mode);
          return 1;
        }
        i := i + 1;
      }
      ret := SendStart(chip, 1);
      if ret != 0 {
        return 1;
      }
      ghost var d3 := State();
      i, ret := 0, 0;
      while i < len
        invariant 0 <= i <= Count(len)
        invariant (State(), ret, buffer[..]) == ReceiveData(env, d3, old(buffer[..]), Count(len), i, mode)
      {
        var failed, byte := ReceiveByte(buffer[i], !(i < len - 1), mode);
        buffer[i] := byte;
        if failed != 0 {
          ret := 1;
        }
        i := i + 1;
      }
      SendStop();
    }

    method I2cWrite(chip: Byte, addr: Word, alen: int, buffer: array<Byte>, len: int, mode: Mode) returns (ret: int)
      requires State().OnBus() && alen <= 4 && len <= buffer.Length
      modifies this
      ensures (State(), ret)
           == I2cDriver.I2cWrite(env, old(State()), chip, addr, Count(alen), buffer[..Count(len)], mode)
    {
      hide I2cDriver.SendStart, I2cDriver.SendByte, I2cDriver.ReceiveByte, I2cDriver.RealInit;
      if initPending {
        RealInit();
      }
      ret := SendStart(chip, 0);
      if ret != 0 {
        return 1;
      }
      ghost var d1 := State();
      var i := 0;
      while i < alen
        invariant 0 <= i <= Count(alen)
        invariant (State(), 0) == SendAddress(env, d1, addr, Count(alen), i, mode)
      {
        ret := SendByte(AddressByte(addr, alen, i), mode);
        if ret != 0 {
          AddressFailureIsFinal(env, d1, addr, alen, i + 1, mode);
          return 1;
        }
        i := i + 1;
      }
      ghost var d2 := State();
      i, ret := 0, 0;
      while i < len
        invariant 0 <= i <= Count(len)
        invariant (State(), ret) == SendData(env, d2, buffer[..Count(len)], i, mode)
      {
        var failed := SendByte(buffer[i], mode);
        if failed != 0 {
          ret := 1;
        }
        i := i + 1;
      }
      SendStop();
    }

    /** The slave command. `rounds` is how often the ctrl-c check lets the loop go on. */
    method DoSlaveRw(argc: int, bus: int, rounds: nat) returns (ret: int)
      requires 0 <= bus < BUSES
      modifies this
      ensures argc != 2 ==> State() == old(State()) && ret == -1
      ensures argc == 2 ==>
                && ret == 0
                && State() == SlaveLoop(env, I2cDriver.RealInit(env, old(State()).(busNum := bus)), rounds).0
    {
      hide I2cDriver.SendByte, I2cDriver.ReceiveByte, I2cDriver.RealInit;
      var byte: Byte := 0;
      if argc != 2 {
        return -1;
      }
      busNum := bus;
      RealInit();
      ghost var d := State();
      var round := 0;
      while round < rounds
        invariant 0 <= round <= rounds
        invariant (State(), byte) == SlaveLoop(env, d, round)
      {
        var failed;
        failed, byte := ReceiveByte(byte, byte == 0x21, Slavem);
        if byte == 0x21 {
          byte := 0;
          failed := SendByte(0x00, Slavem);
          failed := SendByte(0x55, Slavem);
        }
        round := round + 1;
      }
      return 0;
    }

    /** The master command; `reg` is the register value it prints, 0xff on failure. */
    method DoMasterRw(argc: int, bus: int) returns (ret: int, reg: Byte)
      requires 0 <= bus < BUSES
      modifies this
      ensures argc != 2 ==> State() == old(State()) && ret == -1
      ensures argc == 2 ==>
                && ret == 0
                && exists before: Byte ::
                     var (d, failed, read) :=
                       I2cDriver.I2cRead(env, old(State()).(busNum := bus), 0x10, 0x30, 1, [before], 1, Masterm);
                     State() == d && reg == (if failed != 0 then 0xFF else read[0])
    {
      if argc != 2 {
        return -1, 0;
      }
      busNum := bus;
      var buf := new Byte[1];
      ghost var before := buf[0];
      assert buf[..] == [before];
      var failed := I2cRead(0x10, 0x30, 1, buf, 1, Masterm);
      ret, reg := 0, if failed != 0 then 0xFF else buf[0];
    }
  }
}
