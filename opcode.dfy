/** Fetching and decoding a CHIP-8 instruction word. */
module Opcode {
  import opened Words

  /** The fields exec_opcode extracts from an opcode (chip8.c:138-142): the
      top nibble hi, the register nibbles x and y, the low nibble n, the low
      byte kk and the low twelve bits addr. */
  datatype Fields = Fields(hi: Nibble, x: Nibble, y: Nibble, n: Nibble, kk: U8, addr: U12)

  /** The big-endian word at pc: M[PC] is the high byte, M[PC + 1] the low one. */
  function Fetch(mem: seq<U8>, pc: int): (op: U16)
    requires 0 <= pc && pc + 1 < |mem|
    ensures op / 0x100 == mem[pc] && op % 0x100 == mem[pc + 1]
  {
    (mem[pc] as int) * 0x100 + mem[pc + 1]
  }

  /** The masks and shifts of chip8.c:138-142 keep a word's value modulo a
      power of 16 or pick out one of its nibbles; on non-negative words the
      arithmetic reading by division and remainder is the same, and it is
      the one the solver handles. The nibbles reassemble the word, and the
      two wide fields are made of the nibbles below them. */
  function Decode(op: U16): (f: Fields)
    ensures Encode(f.hi, f.x, f.y, f.n) == op
    ensures f.kk == f.y * 0x10 + f.n && f.addr == f.x * 0x100 + f.kk
  {
    var q1, q2 := op / 0x10, op / 0x100;
    assert op == 0x10 * q1 + op % 0x10;
    assert q1 / 0x10 == q2 && q2 / 0x10 == op / 0x1000;
    assert q1 == 0x10 * q2 + q1 % 0x10;
    assert q2 == 0x10 * (op / 0x1000) + q2 % 0x10;
    assert op % 0x100 == q1 % 0x10 * 0x10 + op % 0x10;
    assert op % 0x1000 == q2 % 0x10 * 0x100 + op % 0x100;
    Fields(op / 0x1000, q2 % 0x10, q1 % 0x10, op % 0x10, op % 0x100, op % 0x1000)
  }

  /** The word whose four nibbles are hi, x, y and n. */
  function Encode(hi: Nibble, x: Nibble, y: Nibble, n: Nibble): U16
  {
    hi * 0x1000 + x * 0x100 + y * 0x10 + n
  }

  /** Decoding an encoded word gives back its nibbles: Decode and Encode are
      inverse bijections between words and nibble quadruples. */
  lemma DecodeEncode(hi: Nibble, x: Nibble, y: Nibble, n: Nibble)
    ensures Decode(Encode(hi, x, y, n)) ==
      Fields(hi, x, y, n, y * 0x10 + n, x * 0x100 + y * 0x10 + n)
  {
    var op := Encode(hi, x, y, n);
    var q2 := hi * 0x10 + x;
    var q1 := q2 * 0x10 + y;
    assert op == q1 * 0x10 + n;
    assert op / 0x10 == q1 && q1 / 0x10 == q2 && op / 0x100 == q2 && q2 / 0x10 == hi;
    assert op % 0x100 == y * 0x10 + n;
    assert op % 0x1000 == x * 0x100 + y * 0x10 + n;
  }

  /** The fields of a fetched word, read off the two bytes it was made of. */
  lemma FetchFields(mem: seq<U8>, pc: int)
    requires 0 <= pc && pc + 1 < |mem|
    ensures Decode(Fetch(mem, pc)) ==
      Fields(mem[pc] / 0x10, mem[pc] % 0x10, mem[pc + 1] / 0x10, mem[pc + 1] % 0x10,
             mem[pc + 1], (mem[pc] as int) % 0x10 * 0x100 + mem[pc + 1])
  {
    var hi, lo := mem[pc], mem[pc + 1];
    assert Fetch(mem, pc) == Encode(hi / 0x10, hi % 0x10, lo / 0x10, lo % 0x10);
    DecodeEncode(hi / 0x10, hi % 0x10, lo / 0x10, lo % 0x10);
  }

  /** Decoding a word written as hi, nnn. */
  lemma DecodeAddr(hi: Nibble, addr: U12)
    ensures var f := Decode(hi * 0x1000 + addr);
      f.hi == hi && f.addr == addr && f.x == addr / 0x100 && f.kk == addr % 0x100
  {
    var x, y, n := addr / 0x100, addr / 0x10 % 0x10, addr % 0x10;
    assert addr / 0x10 == x * 0x10 + y;
    assert addr == x * 0x100 + y * 0x10 + n;
    assert Encode(hi, x, y, n) == hi * 0x1000 + addr;
    DecodeEncode(hi, x, y, n);
  }

  /** Decoding a word written as hi, x, kk. */
  lemma DecodeByte(hi: Nibble, x: Nibble, kk: U8)
    ensures var f := Decode(hi * 0x1000 + x * 0x100 + kk);
      f.hi == hi && f.x == x && f.kk == kk && f.y == kk / 0x10 && f.n == kk % 0x10
  {
    var y, n := kk / 0x10, kk % 0x10;
    assert Encode(hi, x, y, n) == hi * 0x1000 + x * 0x100 + kk;
    DecodeEncode(hi, x, y, n);
  }
}
