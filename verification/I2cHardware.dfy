/** The controller as the driver sees it: registers that are read and written, an
    environment that answers every read, and a monitor that turns the raw register
    accesses of one controller window back into the bus commands they stand for. */
module I2cHardware {
  import opened Bits
  import opened Options

  const AST_I2C_REG_BASE := 0x1E78A000
  const AST_SCU_BASE := 0x1E6E2000

  /** The device interrupt status register, shared by all controllers. */
  const DISR := AST_I2C_REG_BASE

  // Offsets inside one controller window.
  const FCR := 0x00
  const CATCR1 := 0x04
  const CATCR2 := 0x08
  const ICR := 0x0C
  const ISR := 0x10
  const CSR := 0x14
  const DR := 0x18
  const TRBB := 0x20
  const DMSR := 0x28

  const SCU_PINS := AST_SCU_BASE + 0x90
  const SCU_RESET := AST_SCU_BASE + 0x04

  const BUSES := 14

  /** First register of the window of a 0-based bus number. */
  function Window(bus: int): int {
    if bus >= 7 then AST_I2C_REG_BASE + 0x100 + 0x40 * (bus + 1)
    else AST_I2C_REG_BASE + 0x40 * (bus + 1)
  }

  datatype Access = Write(addr: int, value: Word) | Read(addr: int, value: Word)

  type History = seq<Access>

  /** What a register read returns, given every access made before it. */
  type Env = (History, int) -> Word

  // ---- The bus monitor --------------------------------------------------------------

  datatype Command =
    | Configure
    | Start(wire: Byte)
    | MasterTx(byte: Byte)
    | SlaveTx(byte: Byte)
    | MasterRx(last: bool)
    | SlaveRx(last: bool)
    | Stop

  /** The command bits of the command register: 5 stop, 4 last, 3 master receive,
      2 slave transmit, 1 master transmit, 0 start. The byte on the wire is the low
      byte of the transmit buffer. */
  function Decode(csr: Word, latch: Word): Command {
    if Bit(csr, 5) then Stop
    else if Bit(csr, 0) then Start(latch % 256)
    else if Bit(csr, 1) then MasterTx(latch % 256)
    else if Bit(csr, 2) then SlaveTx(latch % 256)
    else if Bit(csr, 3) then MasterRx(Bit(csr, 4))
    else SlaveRx(Bit(csr, 4))
  }

  /** One command and everything the driver did until the next one: how often it
      polled DISR, the interrupt status it read, how often it cleared that status,
      and the byte it fetched from the receive buffer. */
  datatype Exchange = Exchange(cmd: Command, polls: nat, status: Word, clears: nat, data: Option<Byte>)

  datatype Monitor = Monitor(latch: Word, log: seq<Exchange>)

  function Issued(cmd: Command): Exchange {
    Exchange(cmd, 0, 0, 0, None)
  }

  function Last<T>(s: seq<T>): T
    requires s != []
  {
    s[|s| - 1]
  }

  function Observe(m: Monitor, a: Access, base: int): Monitor {
    match a
    case Write(addr, v) =>
      if addr == base + TRBB then m.(latch := v)
      else if addr == base + CSR then m.(log := m.log + [Issued(Decode(v, m.latch))])
      else if addr == base + CATCR1 then m.(log := m.log + [Issued(Configure)])
      else if addr == base + ISR && m.log != [] then
        m.(log := Amend(m.log, Last(m.log).(clears := Last(m.log).clears + 1)))
      else m
    case Read(addr, v) =>
      if m.log == [] then m
      else if addr == DISR then m.(log := Amend(m.log, Last(m.log).(polls := Last(m.log).polls + 1)))
      else if addr == base + ISR then m.(log := Amend(m.log, Last(m.log).(status := v)))
      else if addr == base + TRBB then m.(log := Amend(m.log, Last(m.log).(data := Some(SecondByte(v)))))
      else m
  }

  function Amend<T>(s: seq<T>, x: T): (r: seq<T>)
    requires s != []
    ensures |r| == |s| && r[|s| - 1] == x && r[..|s| - 1] == s[..|s| - 1]
  {
    s[..|s| - 1] + [x]
  }

  /** The whole history as seen by a monitor attached to the window at base. */
  function Watch(h: History, base: int): Monitor {
    if h == [] then Monitor(0, []) else Observe(Watch(h[..|h| - 1], base), Last(h), base)
  }

  function Log(h: History, base: int): seq<Exchange> {
    Watch(h, base).log
  }

  /** The commands of a log, without their answers. */
  function Commands(log: seq<Exchange>): (c: seq<Command>)
    ensures |c| == |log|
  {
    seq(|log|, i requires 0 <= i < |log| => log[i].cmd)
  }

  lemma WatchAppend(h: History, a: Access, base: int)
    ensures Watch(h + [a], base) == Observe(Watch(h, base), a, base)
  {
    assert (h + [a])[..|h + [a]| - 1] == h;
  }

  /** The command words of the driver. */
  lemma CommandWords(latch: Word)
    ensures Decode(0x03, latch) == Start(latch % 256)
    ensures Decode(0x02, latch) == MasterTx(latch % 256) && Decode(0x04, latch) == SlaveTx(latch % 256)
    ensures Decode(0x08, latch) == MasterRx(false) && Decode(0x18, latch) == MasterRx(true)
    ensures Decode(0x00, latch) == SlaveRx(false) && Decode(0x10, latch) == SlaveRx(true)
    ensures Decode(0x30, latch) == Stop
  {
    hide Bit;
    TransmitBits();
    ReceiveBits();
    StopBits();
  }

  lemma TransmitBits()
    ensures !Bit(0x03, 5) && Bit(0x03, 0)
    ensures !Bit(0x02, 5) && !Bit(0x02, 0) && Bit(0x02, 1)
    ensures !Bit(0x04, 5) && !Bit(0x04, 0) && !Bit(0x04, 1) && Bit(0x04, 2)
  {
    hide Bit;
    BitsOf(0x03);
    BitsOf(0x02);
    BitsOf(0x04);
  }

  lemma ReceiveBits()
    ensures !Bit(0x08, 5) && !Bit(0x08, 0) && !Bit(0x08, 1) && !Bit(0x08, 2) && Bit(0x08, 3) && !Bit(0x08, 4)
    ensures !Bit(0x18, 5) && !Bit(0x18, 0) && !Bit(0x18, 1) && !Bit(0x18, 2) && Bit(0x18, 3) && Bit(0x18, 4)
    ensures !Bit(0x00, 5) && !Bit(0x00, 0) && !Bit(0x00, 1) && !Bit(0x00, 2) && !Bit(0x00, 3) && !Bit(0x00, 4)
    ensures !Bit(0x10, 5) && !Bit(0x10, 0) && !Bit(0x10, 1) && !Bit(0x10, 2) && !Bit(0x10, 3) && Bit(0x10, 4)
  {
    hide Bit;
    BitsOf(0x08);
    BitsOf(0x18);
    BitsOf(0x00);
    BitsOf(0x10);
  }

  lemma StopBits()
    ensures Bit(0x30, 5)
  {
    hide Bit;
    BitsOf(0x30);
  }

  lemma BitsOf(w: nat)
    ensures Bit(w, 0) <==> w % 2 == 1
    ensures Bit(w, 1) <==> (w / 2) % 2 == 1
    ensures Bit(w, 2) <==> (w / 2 / 2) % 2 == 1
    ensures Bit(w, 3) <==> (w / 2 / 2 / 2) % 2 == 1
    ensures Bit(w, 4) <==> (w / 2 / 2 / 2 / 2) % 2 == 1
    ensures Bit(w, 5) <==> (w / 2 / 2 / 2 / 2 / 2) % 2 == 1
  {
    hide Bit;
    HalfBit(w, 0);
    HalfBit(w, 1);
    HalfBit(w, 2);
    HalfBit(w, 3);
    HalfBit(w, 4);
    HalfBit(w / 2, 0);
    HalfBit(w / 2, 1);
    HalfBit(w / 2, 2);
    HalfBit(w / 2, 3);
    HalfBit(w / 2 / 2, 0);
    HalfBit(w / 2 / 2, 1);
    HalfBit(w / 2 / 2, 2);
    HalfBit(w / 2 / 2 / 2, 0);
    HalfBit(w / 2 / 2 / 2, 1);
    HalfBit(w / 2 / 2 / 2 / 2, 0);
  }

  lemma HalfBit(w: nat, k: nat)
    ensures Bit(w, k + 1) == Bit(w / 2, k) && (Bit(w, 0) <==> w % 2 == 1)
  {
  }
}
