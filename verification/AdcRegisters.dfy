/** A block of 32-bit registers. */
module AdcRegisters {

  /** Contents by address. */
  type Registers = bv32 -> bv32

  /** A block whose registers all hold 0. */
  function Zeroed(): Registers {
    _ => 0
  }

  function Store(regs: Registers, addr: bv32, v: bv32): Registers {
    x => if x == addr then v else regs(x)
  }
}
