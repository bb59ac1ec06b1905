/** Fixed-width unsigned integers of the interpreter (C's uint8_t and
    uint16_t), with the wrap-around of C's conversions written out. */
module Words {

  /** An 8-bit value: a memory cell, a V register, SP, DT, ST. */
  type U8 = x: int | 0 <= x < 0x100

  /** A 16-bit value: an opcode, I, PC, a stack slot. */
  type U16 = x: int | 0 <= x < 0x1_0000

  /** A 12-bit memory address, the nnn field of an opcode. */
  type U12 = x: int | 0 <= x < 0x1000

  /** A 4-bit field of an opcode (register index, row count, key code). */
  type Nibble = x: int | 0 <= x < 0x10

  /** Conversion of an arithmetic result back to uint8_t (reduction mod 256). */
  function Wrap8(x: int): U8 { x % 0x100 }

  /** Conversion of an arithmetic result back to uint16_t (reduction mod 65536). */
  function Wrap16(x: int): U16 { x % 0x1_0000 }

  function BitOr(a: U8, b: U8): U8 { ((a as bv8) | (b as bv8)) as int }

  function BitAnd(a: U8, b: U8): U8 { ((a as bv8) & (b as bv8)) as int }

  function BitXor(a: U8, b: U8): U8 { ((a as bv8) ^ (b as bv8)) as int }

  /** Bit 7 - col of b: the col-th pixel of a sprite row, most significant first. */
  predicate Bit(b: U8, col: int)
    requires 0 <= col < 8
  {
    b / [0x80, 0x40, 0x20, 0x10, 0x08, 0x04, 0x02, 0x01][col] % 2 == 1
  }
}
