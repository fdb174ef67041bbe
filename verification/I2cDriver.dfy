/** What every driver operation does to the driver's globals and to the register
    history, as functions of the environment. The class in I2cController.dfy
    implements them statement by statement. */
module I2cDriver {
  import opened Bits
  import opened I2cHardware

  const POLL_LIMIT: nat := 100000
  const SLAVE_ADDRESS: Word := 0x10

  datatype Mode = Slavem | Masterm

  /** The file-scope variables of the driver and everything done to the hardware. */
  datatype Driver = Driver(initPending: bool, busBase: int, busNum: int, history: History) {

    predicate OnBus() {
      0 <= busNum < BUSES
    }

    function Put(addr: int, v: Word): Driver {
      this.(history := history + [Write(addr, v)])
    }

    function Get(e: Env, addr: int): Driver {
      this.(history := history + [Read(addr, e(history, addr))])
    }
  }

  /** All globals of the driver are the same in both. */
  predicate SameGlobals(d: Driver, d': Driver) {
    d'.busNum == d.busNum && d'.busBase == d.busBase && d'.initPending == d.initPending
  }

  /** At most n more polls of DISR; the interrupt status is read at the first one
      that shows the bit of the current bus. */
  function Poll(e: Env, d: Driver, n: nat): (r: (Driver, Word))
    requires d.OnBus()
    ensures SameGlobals(d, r.0)
    decreases n
  {
    if n == 0 then (d, 0)
    else
      var d1 := d.Get(e, DISR);
      if Bit(e(d.history, DISR), d.busNum) then
        (d1.Get(e, d.busBase + ISR), e(d1.history, d.busBase + ISR))
      else Poll(e, d1, n - 1)
  }

  function InterruptStatus(e: Env, d: Driver): (r: (Driver, Word))
    requires d.OnBus()
    ensures SameGlobals(d, r.0)
  {
    var (d1, status) := Poll(e, d, POLL_LIMIT);
    (d1.Put(d.busBase + ISR, 0xFFFFFFFF), status)
  }

  function SendStart(e: Env, d: Driver, chip: Byte, readWrite: Byte): (r: (Driver, int))
    requires d.OnBus()
    ensures SameGlobals(d, r.0)
  {
    var d1 := d.Put(d.busBase + TRBB, 2 * chip + readWrite % 2).Put(d.busBase + CSR, 0x03);
    var (d2, status) := InterruptStatus(e, d1);
    (d2, if Bit(status, 0) then 0 else 1)
  }

  function SendByte(e: Env, d: Driver, byte: Byte, mode: Mode): (r: (Driver, int))
    requires d.OnBus()
    ensures SameGlobals(d, r.0)
  {
    var d1 := d.Put(d.busBase + TRBB, byte).Put(d.busBase + CSR, if mode == Slavem then 4 else 2);
    var (d2, status) := InterruptStatus(e, d1);
    (d2, if Bit(status, 0) || Bit(status, 1) then 0 else 1)
  }

  /** The third component is the byte stored at the caller's location. */
  function ReceiveByte(e: Env, d: Driver, byte: Byte, last: bool, mode: Mode): (r: (Driver, int, Byte))
    requires d.OnBus()
    ensures SameGlobals(d, r.0)
  {
    var csr := (if mode == Masterm then 0x08 else 0) + (if last then 0x10 else 0);
    var (d1, status) := InterruptStatus(e, d.Put(d.busBase + CSR, csr));
    if Bit(status, 2) then
      (d1.Get(e, d.busBase + TRBB), 0, SecondByte(e(d1.history, d.busBase + TRBB)))
    else (d1, 1, byte)
  }

  function SendStop(d: Driver): Driver {
    d.Put(d.busBase + CSR, 0x30)
  }

  // ---- Initialisation ---------------------------------------------------------------

  /** New contents of the multi-function pin register for an initialisation of bus. */
  function PinWord(scuReg: Word, bus: int): Word
    requires 2 <= bus < BUSES
  {
    SetWordBit(if 9 <= bus <= 12 then ClearWordBit(scuReg, 0) else scuReg, 14 + bus)
  }

  function EnablePins(e: Env, d: Driver): (r: Driver)
    requires d.OnBus()
    ensures SameGlobals(d, r)
  {
    var d1 := d.Put(AST_SCU_BASE, 0x1688A8A8);
    if d.busNum >= 2 then
      d1.Get(e, SCU_PINS).Put(SCU_PINS, PinWord(e(d1.history, SCU_PINS), d.busNum))
    else d1
  }

  function ReleaseReset(e: Env, d: Driver): (r: Driver)
    ensures SameGlobals(d, r)
  {
    d.Get(e, SCU_RESET).Put(SCU_RESET, ClearWordBit(e(d.history, SCU_RESET), 2))
  }

  function SetUpWindow(d: Driver): (r: Driver)
    ensures SameGlobals(d, r)
  {
    d.Put(d.busBase + CATCR1, 0x77777344)
     .Put(d.busBase + CATCR2, 0)
     .Put(d.busBase + DR, SLAVE_ADDRESS)
     .Put(d.busBase + ISR, 0xFFFFFFFF)
     .Put(d.busBase + FCR, 7)
     .Put(d.busBase + ICR, 0x2F)
  }

  function RealInit(e: Env, d: Driver): (r: Driver)
    requires d.OnBus()
    ensures r.busNum == d.busNum && r.busBase == Window(d.busNum) && !r.initPending
  {
    var d0 := d.(busBase := Window(d.busNum));
    SetUpWindow(ReleaseReset(e, EnablePins(e, d0))).(initPending := false)
  }

  function InitIfPending(e: Env, d: Driver): (r: Driver)
    requires d.OnBus()
    ensures r.busNum == d.busNum && !r.initPending
  {
    if d.initPending then RealInit(e, d) else d
  }

  // ---- Transfers --------------------------------------------------------------------

  /** Number of iterations of `for (i = 0; i < n; i++)`. */
  function Count(n: int): nat {
    if n < 0 then 0 else n
  }

  function Pow256(k: nat): (p: nat)
    ensures p > 0
  {
    if k == 0 then 1 else 256 * Pow256(k - 1)
  }

  /** Byte i of the address as the transfer loops cut it out:
      `(addr >> ((alen - 1 - i) * 8)) & 0xff`. */
  function AddressByte(addr: nat, alen: nat, i: nat): Byte
    requires i < alen
  {
    (addr / Pow256(alen - 1 - i)) % 256
  }

  /** State and result after i iterations of the address loop; a failure ends it. */
  function SendAddress(e: Env, d: Driver, addr: nat, alen: nat, i: nat, mode: Mode): (r: (Driver, int))
    requires d.OnBus() && i <= alen
    ensures SameGlobals(d, r.0)
    decreases i
  {
    if i == 0 then (d, 0)
    else
      var (d1, ret) := SendAddress(e, d, addr, alen, i - 1, mode);
      if ret != 0 then (d1, ret)
      else
        SendByte(e, d1, AddressByte(addr, alen, i - 1), mode)
  }

  /** Once the address loop has failed, further iterations change nothing. */
  lemma {:induction false} AddressFailureIsFinal(e: Env, d: Driver, addr: nat, alen: nat, i: nat, mode: Mode)
    requires d.OnBus() && i <= alen
    requires SendAddress(e, d, addr, alen, i, mode).1 != 0
    ensures SendAddress(e, d, addr, alen, alen, mode) == SendAddress(e, d, addr, alen, i, mode)
    decreases alen - i
  {
    if i < alen {
      AddressFailureIsFinal(e, d, addr, alen, i + 1, mode);
    }
  }

  /** State and result after i iterations of the data loop; failures do not end it. */
  function SendData(e: Env, d: Driver, data: seq<Byte>, i: nat, mode: Mode): (r: (Driver, int))
    requires d.OnBus() && i <= |data|
    ensures SameGlobals(d, r.0)
    decreases i
  {
    if i == 0 then (d, 0)
    else
      var (d1, ret) := SendData(e, d, data, i - 1, mode);
      var (d2, failed) := SendByte(e, d1, data[i - 1], mode);
      (d2, if failed != 0 then 1 else ret)
  }

  /** State, result and buffer after i iterations of the receive loop. */
  function ReceiveData(e: Env, d: Driver, buffer: seq<Byte>, len: nat, i: nat, mode: Mode)
    : (r: (Driver, int, seq<Byte>))
    requires d.OnBus() && i <= len <= |buffer|
    ensures SameGlobals(d, r.0) && |r.2| == |buffer|
    decreases i
  {
    if i == 0 then (d, 0, buffer)
    else
      var (d1, ret, b1) := ReceiveData(e, d, buffer, len, i - 1, mode);
      var (d2, failed, byte) := ReceiveByte(e, d1, b1[i - 1], i - 1 >= len - 1, mode);
      (d2, if failed != 0 then 1 else ret, b1[i - 1 := byte])
  }

  function Probe(e: Env, d: Driver, chip: Byte): (r: (Driver, int))
    requires d.OnBus()
    ensures SameGlobals(RealInit(e, d), r.0)
  {
    var (d1, failed) := SendStart(e, RealInit(e, d), chip, 0);
    (SendStop(d1), if failed != 0 then 1 else 0)
  }

  /** What reads and writes begin with: address the device for writing, then send the
      register address. */
  function Select(e: Env, d: Driver, chip: Byte, addr: nat, alen: nat, mode: Mode): (r: (Driver, int))
    requires d.OnBus()
    ensures SameGlobals(d, r.0)
  {
    var (d1, failed) := SendStart(e, d, chip, 0);
    if failed != 0 then (d1, 1) else SendAddress(e, d1, addr, alen, alen, mode)
  }

  function ReadTransfer(e: Env, d: Driver, chip: Byte, addr: nat, alen: nat, buffer: seq<Byte>, len: nat, mode: Mode)
    : (r: (Driver, int, seq<Byte>))
    requires d.OnBus() && len <= |buffer|
    ensures SameGlobals(d, r.0) && |r.2| == |buffer|
  {
    var (d1, failed1) := Select(e, d, chip, addr, alen, mode);
    if failed1 != 0 then (d1, 1, buffer)
    else
      var (d2, failed2) := SendStart(e, d1, chip, 1);
      if failed2 != 0 then (d2, 1, buffer)
      else
        var (d3, ret, b) := ReceiveData(e, d2, buffer, len, len, mode);
        (SendStop(d3), ret, b)
  }

  function WriteTransfer(e: Env, d: Driver, chip: Byte, addr: nat, alen: nat, data: seq<Byte>, mode: Mode)
    : (r: (Driver, int))
    requires d.OnBus()
    ensures SameGlobals(d, r.0)
  {
    var (d1, failed) := Select(e, d, chip, addr, alen, mode);
    if failed != 0 then (d1, 1)
    else
      var (d2, ret) := SendData(e, d1, data, |data|, mode);
      (SendStop(d2), ret)
  }

  function I2cRead(e: Env, d: Driver, chip: Byte, addr: nat, alen: nat, buffer: seq<Byte>, len: nat, mode: Mode)
    : (r: (Driver, int, seq<Byte>))
    requires d.OnBus() && len <= |buffer|
    ensures |r.2| == |buffer|
  {
    ReadTransfer(e, InitIfPending(e, d), chip, addr, alen, buffer, len, mode)
  }

  function I2cWrite(e: Env, d: Driver, chip: Byte, addr: nat, alen: nat, data: seq<Byte>, mode: Mode): (Driver, int)
    requires d.OnBus()
  {
    WriteTransfer(e, InitIfPending(e, d), chip, addr, alen, data, mode)
  }

  // ---- The slave loop ---------------------------------------------------------------

  /** Driver and `byte` after the given number of rounds between two ctrl-c checks. */
  function SlaveLoop(e: Env, d: Driver, rounds: nat): (r: (Driver, Byte))
    requires d.OnBus()
    ensures SameGlobals(d, r.0)
    decreases rounds
  {
    if rounds == 0 then (d, 0)
    else
      var (d1, byte) := SlaveLoop(e, d, rounds - 1);
      var (d2, _, b) := ReceiveByte(e, d1, byte, byte == 0x21, Slavem);
      if b == 0x21 then
        var d3 := SendByte(e, d2, 0x00, Slavem).0;
        (SendByte(e, d3, 0x55, Slavem).0, 0)
      else (d2, b)
  }
}
