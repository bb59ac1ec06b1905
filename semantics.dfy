/** One CHIP-8 machine as a value, and the effect of executing one
    instruction on it (exec_opcode in chip8.c) as a function. */
module Semantics {
  import opened Words
  import opened Opcode
  import opened Display

  const MEMORY_SIZE: int := 4096
  const ROM_START: int := 512
  const STACK_SIZE: int := 16
  const FONT_START: int := 0
  const FONT_WIDTH: int := 5

  /** The sixteen 5-byte glyphs 0..F that load_font places at FONT_START. */
  const FONT: seq<U8> := [
    0xF0, 0x90, 0x90, 0x90, 0xF0, 0x20, 0x60, 0x20, 0x20, 0x70,
    0xF0, 0x10, 0xF0, 0x80, 0xF0, 0xF0, 0x10, 0xF0, 0x10, 0xF0,
    0x90, 0x90, 0xF0, 0x10, 0x10, 0xF0, 0x80, 0xF0, 0x10, 0xF0,
    0xF0, 0x80, 0xF0, 0x90, 0xF0, 0xF0, 0x10, 0x20, 0x40, 0x40,
    0xF0, 0x90, 0xF0, 0x90, 0xF0, 0xF0, 0x90, 0xF0, 0x10, 0xF0,
    0xF0, 0x90, 0xF0, 0x90, 0x90, 0xE0, 0x90, 0xE0, 0x90, 0xE0,
    0xF0, 0x80, 0x80, 0x80, 0xF0, 0xE0, 0x90, 0x90, 0x90, 0xE0,
    0xF0, 0x80, 0xF0, 0x80, 0xF0, 0xF0, 0x80, 0xF0, 0x80, 0x80
  ]

  /** The globals of chip8.c: memory M, registers V, I, PC, the stack S with
      SP, the timers DT and ST, the framebuffer and the key flags. */
  datatype Machine = Machine(
    mem: seq<U8>, v: seq<U8>, i: U16, pc: U16, stack: seq<U16>, sp: U8,
    dt: U8, st: U8, screen: seq<bool>, keys: seq<bool>)
  {
    /** The C arrays have fixed sizes. */
    predicate Valid()
    {
      |mem| == MEMORY_SIZE && |v| == 16 && |stack| == STACK_SIZE &&
      |screen| == SCREEN_SURF && |keys| == 16
    }
  }

  /** The ways an instruction can go wrong. Each one is either an
      exit(EXIT_FAILURE) of the C program or an array access outside its
      bounds that the C program does not check. */
  datatype Error =
    | PcOutOfRange(pc: U16)                  // M[PC] or M[PC + 1] past the end of M
    | MemoryOutOfRange(addr: int, len: int)  // [addr, addr + len) not inside M
    | StackOutOfRange(index: U8)             // S[index] past the end of S
    | KeyOutOfRange(key: U8)                 // keys[key] past the 16 keys
    | InvalidOpcode(op: U16)                 // the "invalid opcode" exits

  /** Continue running, stop (chip8_stop on opcode 0x0n00), or stop on an error. */
  datatype Outcome = Continue | Halt | Fault(error: Error)

  datatype Transition = Transition(outcome: Outcome, after: Machine)

  datatype Option<T> = None | Some(value: T)

  /** C's conversion of a comparison to 0 or 1. */
  function Flag(b: bool): U8 { if b then 1 else 0 }

  function Next(m: Machine): Transition { Transition(Continue, m) }

  function Trap(m: Machine, e: Error): Transition { Transition(Fault(e), m) }

  /** The conditional skips: PC += 2 when the condition holds. */
  function SkipIf(m: Machine, c: bool): Transition
  {
    Next(if c then m.(pc := Wrap16(m.pc + 2)) else m)
  }

  /** Group 0, dispatched on the low byte only (chip8.c:146-154): 0x00 stops,
      0xE0 clears the framebuffer, 0xEE returns to the address in the top
      stack slot and then decrements SP as a uint8_t. Only a return changes
      PC or SP, and a fault changes nothing. */
  function System(m: Machine, f: Fields, op: U16): (t: Transition)
    requires m.Valid()
    ensures t.outcome == Halt <==> f.kk == 0x00
    ensures t.outcome.Fault? <==> f.kk !in {0x00, 0xE0, 0xEE} || (f.kk == 0xEE && m.sp >= STACK_SIZE)
    ensures t.outcome != Continue ==> t.after == m
    ensures t.after.(pc := m.pc, sp := m.sp, screen := m.screen) == m
    ensures f.kk != 0xEE ==> t.after.pc == m.pc && t.after.sp == m.sp
  {
    if f.kk == 0x00 then Transition(Halt, m)
    else if f.kk == 0xE0 then Next(m.(screen := Blank()))
    else if f.kk == 0xEE then
      if m.sp >= STACK_SIZE then Trap(m, StackOutOfRange(m.sp))
      else Next(m.(pc := m.stack[m.sp], sp := Wrap8(m.sp as int - 1)))
    else Trap(m, InvalidOpcode(op))
  }

  /** The jumps (chip8.c:155-156, 183): 1nnn jumps to addr; 2nnn increments
      SP as a uint8_t, saves PC in that stack slot and jumps to addr; Bnnn
      jumps to V0 + addr. Only a call with SP in 15..254 faults, and only a
      call touches the stack. */
  function Branch(m: Machine, f: Fields): (t: Transition)
    requires m.Valid() && f.hi in {0x1, 0x2, 0xB}
    ensures t.outcome.Fault? <==> f.hi == 0x2 && STACK_SIZE - 1 <= m.sp < 0xFF
    ensures t.outcome.Fault? ==> t.after == m
    ensures t.outcome != Halt
    ensures t.after.(pc := m.pc, stack := m.stack, sp := m.sp) == m
    ensures f.hi != 0x2 ==> t.after.stack == m.stack && t.after.sp == m.sp
    ensures f.hi != 0xB && t.outcome == Continue ==> t.after.pc == f.addr
  {
    if f.hi == 0x1 then Next(m.(pc := f.addr))
    else if f.hi == 0x2 then
      var top := Wrap8(m.sp as int + 1);
      if top >= STACK_SIZE then Trap(m, StackOutOfRange(top))
      else Next(m.(stack := m.stack[top := m.pc], sp := top, pc := f.addr))
    else Next(m.(pc := m.v[0x0] + f.addr))
  }

  /** The conditional skips 3xkk, 4xkk, 5xy_ and 9xy_ (chip8.c:157-159, 181);
      the last two do not look at their low nibble. A skip moves PC on by 2
      exactly when its comparison holds, and changes nothing else. */
  function Skip(m: Machine, f: Fields): (t: Transition)
    requires m.Valid() && f.hi in {0x3, 0x4, 0x5, 0x9}
    ensures t.outcome == Continue
    ensures t.after == m || t.after == m.(pc := Wrap16(m.pc + 2))
    ensures f.hi in {0x3, 0x4} ==> (t.after != m <==> (m.v[f.x] == f.kk) == (f.hi == 0x3))
    ensures f.hi in {0x5, 0x9} ==> (t.after != m <==> (m.v[f.x] == m.v[f.y]) == (f.hi == 0x5))
  {
    var vx := m.v[f.x];
    if f.hi == 0x3 then SkipIf(m, vx == f.kk)
    else if f.hi == 0x4 then SkipIf(m, vx != f.kk)
    else if f.hi == 0x5 then SkipIf(m, vx == m.v[f.y])
    else SkipIf(m, vx != m.v[f.y])
  }

  /** The plain assignments (chip8.c:160-161, 182, 184): 6xkk loads kk into
      Vx, 7xkk adds kk to Vx modulo 256 without touching VF, Annn loads addr
      into I and Cxkk stores the random byte masked by kk in Vx. Each one
      writes the one register it names and nothing else. */
  function Assign(m: Machine, f: Fields, rnd: U8): (t: Transition)
    requires m.Valid() && f.hi in {0x6, 0x7, 0xA, 0xC}
    ensures t.outcome == Continue
    ensures t.after.(v := m.v, i := m.i) == m && |t.after.v| == 16
    ensures forall r :: 0 <= r < 16 && r != f.x ==> t.after.v[r] == m.v[r]
    ensures f.hi != 0xA ==> t.after.i == m.i
    ensures f.hi == 0xA ==> t.after.v == m.v
    ensures f.hi == 0x6 ==> t.after.v[f.x] == f.kk
  {
    if f.hi == 0x6 then Next(m.(v := m.v[f.x := f.kk]))
    else if f.hi == 0x7 then Next(m.(v := m.v[f.x := Wrap8(m.v[f.x] as int + f.kk)]))
    else if f.hi == 0xA then Next(m.(i := f.addr))
    else Next(m.(v := m.v[f.x := BitAnd(rnd, f.kk)]))
  }

  /** Group 8 on the register file, dispatched on n. Where the C code sets
      VF before it computes Vx, it does so here too, so that x == 0xF or
      y == 0xF sees the new VF. */
  function Alu(v: seq<U8>, x: Nibble, y: Nibble, n: Nibble): (r: Option<seq<U8>>)
    requires |v| == 16
    ensures r.Some? <==> n <= 0x7 || n == 0xE
    ensures r.Some? ==> |r.value| == 16
    ensures r.Some? ==> forall k :: 0 <= k < 0xF && k != x ==> r.value[k] == v[k]
    ensures r.Some? && n <= 0x3 ==> r.value[0xF] == v[0xF] || x == 0xF
  {
    if n == 0x0 then Some(v[x := v[y]])
    else if n == 0x1 then Some(v[x := BitOr(v[x], v[y])])
    else if n == 0x2 then Some(v[x := BitAnd(v[x], v[y])])
    else if n == 0x3 then Some(v[x := BitXor(v[x], v[y])])
    else if n == 0x4 then
      var w := v[0xF := Flag(v[x] > 0xFF - v[y] as int)];
      Some(w[x := Wrap8(w[x] as int + w[y])])
    else if n == 0x5 then
      var w := v[0xF := Flag(v[x] > v[y])];
      Some(w[x := Wrap8(w[x] as int - w[y])])
    else if n == 0x6 then
      // the bit shifted out of Vx goes to VF first, then Vx is halved
      var w := v[0xF := v[x] % 2];
      Some(w[x := w[x] / 2])
    else if n == 0x7 then
      var w := v[0xF := Flag(v[y] > v[x])];
      Some(w[x := Wrap8(w[y] as int - w[x])])
    else if n == 0xE then
      // bit 7 of Vy (not Vx) goes to VF first, then Vx is doubled modulo 256
      var w := v[0xF := v[y] / 0x80];
      Some(w[x := Wrap8(w[x] as int * 2)])
    else None
  }

  /** 8xyn on the machine (chip8.c:162-180): an n with no case is an
      invalid opcode; otherwise only Vx and VF can change. */
  function Arith(m: Machine, f: Fields, op: U16): (t: Transition)
    requires m.Valid()
    ensures t.outcome.Fault? <==> !(f.n <= 0x7 || f.n == 0xE)
    ensures t.outcome != Halt
    ensures t.outcome.Fault? ==> t.after == m
    ensures t.after.(v := m.v) == m && |t.after.v| == 16
    ensures forall k :: 0 <= k < 0xF && k != f.x ==> t.after.v[k] == m.v[k]
  {
    match Alu(m.v, f.x, f.y, f.n)
    case Some(v') => Next(m.(v := v'))
    case None => Trap(m, InvalidOpcode(op))
  }

  /** M[I..I+n), the rows of a Dxyn sprite; empty when n is 0. */
  function SpriteAt(mem: seq<U8>, i: int, n: Nibble): (s: seq<U8>)
    requires n == 0 || (0 <= i && i + n <= |mem|)
  {
    if n == 0 then [] else mem[i..i + n]
  }

  /** Dxyn (chip8.c:185) calls draw_sprite at (Vx, Vy) with n rows read from
      M at I (chip8.c:78-90). It faults exactly when a row lies past the
      end of M; otherwise it changes only the framebuffer and VF, which it
      sets to 0 or 1. */
  function Draw(m: Machine, x: Nibble, y: Nibble, n: Nibble): (t: Transition)
    requires m.Valid()
    ensures t.outcome.Fault? <==> n > 0 && m.i + n > MEMORY_SIZE
    ensures t.outcome != Halt
    ensures t.outcome.Fault? ==> t.after == m
    ensures t.after.(screen := m.screen, v := m.v) == m
    ensures |t.after.v| == 16 && |t.after.screen| == SCREEN_SURF
    ensures t.outcome == Continue ==> t.after.v[0xF] <= 1
    ensures forall k :: 0 <= k < 0xF ==> t.after.v[k] == m.v[k]
  {
    if n > 0 && m.i + n > MEMORY_SIZE then Trap(m, MemoryOutOfRange(m.i, n))
    else
      var sprite, sx, sy := SpriteAt(m.mem, m.i, n), m.v[x], m.v[y];
      Next(m.(screen := DrawScreen(m.screen, sprite, sx, sy),
              v := m.v[0xF := Flag(Collides(m.screen, sprite, sx, sy))]))
  }

  /** Group E, dispatched on the low byte (chip8.c:186-192): 9E skips when
      key Vx is down, A1 when it is up. It faults on any other low byte and
      on a Vx that names no key, and otherwise does no more than skip. */
  function Keys(m: Machine, f: Fields, op: U16): (t: Transition)
    requires m.Valid()
    ensures t.outcome.Fault? <==> f.kk !in {0x9E, 0xA1} || m.v[f.x] >= 16
    ensures t.outcome != Halt
    ensures t.after == m || (t.outcome == Continue && t.after == m.(pc := Wrap16(m.pc + 2)))
  {
    var key := m.v[f.x];
    if f.kk != 0x9E && f.kk != 0xA1 then Trap(m, InvalidOpcode(op))
    else if key >= 16 then Trap(m, KeyOutOfRange(key))
    else if f.kk == 0x9E then SkipIf(m, m.keys[key])
    else SkipIf(m, !m.keys[key])
  }

  /** Fx33 (chip8.c:200-202): the hundreds, tens and ones digits of b at
      i, i + 1 and i + 2 (Properties.BcdDigits); the rest of M is kept. */
  function StoreBcd(mem: seq<U8>, i: int, b: U8): (r: seq<U8>)
    requires 0 <= i && i + 3 <= |mem|
    ensures |r| == |mem|
    ensures forall a :: 0 <= a < |mem| && !(i <= a < i + 3) ==> r[a] == mem[a]
  {
    mem[i := b / 100][i + 1 := b % 100 / 10][i + 2 := b % 10]
  }

  /** Fx55 (chip8.c:203): the x + 1 registers V0..Vx copied to M from i on;
      the rest of M is kept. */
  function StoreRegs(mem: seq<U8>, i: int, v: seq<U8>, x: Nibble): (r: seq<U8>)
    requires |v| == 16 && 0 <= i && i + x + 1 <= |mem|
    ensures |r| == |mem|
    ensures forall k :: 0 <= k <= x ==> r[i + k] == v[k]
    ensures forall a :: 0 <= a < |mem| && !(i <= a <= i + x) ==> r[a] == mem[a]
  {
    mem[..i] + v[..x + 1] + mem[i + x + 1..]
  }

  /** Fx65 (chip8.c:204): the x + 1 bytes of M from i on copied to V0..Vx;
      the registers above Vx are kept. */
  function LoadRegs(v: seq<U8>, mem: seq<U8>, i: int, x: Nibble): (r: seq<U8>)
    requires |v| == 16 && 0 <= i && i + x + 1 <= |mem|
    ensures |r| == 16
    ensures forall k :: 0 <= k <= x ==> r[k] == mem[i + k]
    ensures forall k :: x < k < 16 ==> r[k] == v[k]
  {
    mem[i..i + x + 1] + v[x + 1..]
  }

  /** Fx33, Fx55 and Fx65 (chip8.c:200-204), which write M at I or read it;
      the C code does not check that the bytes they touch lie inside M, so
      here they fault exactly when those bytes do not fit. Only Fx65
      changes V, and it leaves M alone. */
  function Transfer(m: Machine, f: Fields): (t: Transition)
    requires m.Valid() && f.kk in {0x33, 0x55, 0x65}
    ensures t.outcome.Fault? <==> m.i + (if f.kk == 0x33 then 3 else f.x + 1) > MEMORY_SIZE
    ensures t.outcome != Halt
    ensures t.outcome.Fault? ==> t.after == m
    ensures t.after.(mem := m.mem, v := m.v) == m
    ensures f.kk == 0x65 ==> t.after.mem == m.mem
    ensures f.kk != 0x65 ==> t.after.v == m.v
  {
    var x := f.x;
    if f.kk == 0x33 then
      if m.i + 3 > MEMORY_SIZE then Trap(m, MemoryOutOfRange(m.i, 3))
      else Next(m.(mem := StoreBcd(m.mem, m.i, m.v[x])))
    else if m.i + x + 1 > MEMORY_SIZE then Trap(m, MemoryOutOfRange(m.i, x as int + 1))
    else if f.kk == 0x55 then Next(m.(mem := StoreRegs(m.mem, m.i, m.v, x)))
    else Next(m.(v := LoadRegs(m.v, m.mem, m.i, x)))
  }

  /** Group F, dispatched on the low byte (chip8.c:193-208). key is the code
      await_keypress returns for Fx0A. No case of the group jumps, touches
      the stack, the framebuffer or the keys. */
  function Misc(m: Machine, f: Fields, op: U16, key: Nibble): (t: Transition)
    requires m.Valid()
    ensures t.outcome.Fault? <==>
      f.kk !in {0x07, 0x0A, 0x15, 0x18, 0x1E, 0x29, 0x33, 0x55, 0x65} ||
      (f.kk == 0x33 && m.i + 3 > MEMORY_SIZE) ||
      (f.kk in {0x55, 0x65} && m.i + f.x + 1 > MEMORY_SIZE)
    ensures t.outcome != Halt
    ensures t.outcome.Fault? ==> t.after == m
    ensures t.after.(mem := m.mem, v := m.v, i := m.i, dt := m.dt, st := m.st) == m
  {
    var x := f.x;
    var vx := m.v[x];
    if f.kk == 0x07 then Next(m.(v := m.v[x := m.dt]))
    else if f.kk == 0x0A then Next(m.(v := m.v[x := key]))
    else if f.kk == 0x15 then Next(m.(dt := vx))
    else if f.kk == 0x18 then Next(m.(st := vx))
    else if f.kk == 0x1E then Next(m.(i := Wrap16(m.i as int + vx)))
    else if f.kk == 0x29 then Next(m.(i := vx * FONT_WIDTH + FONT_START))
    else if f.kk in {0x33, 0x55, 0x65} then Transfer(m, f)
    else Trap(m, InvalidOpcode(op))
  }

  /** The state the instruction's own effect starts from: PC has moved past
      the two bytes just fetched. */
  function Fetched(m: Machine): Machine
  {
    m.(pc := Wrap16(m.pc + 2))
  }

  /** One exec_opcode: fetch the big-endian word at PC, advance PC by 2,
      decode, dispatch on the high nibble. rnd is the byte rand() % 256
      gives Cxkk; key is the key code Fx0A waits for. A fault leaves the
      instruction's own effect unapplied. */
  function Exec(m: Machine, rnd: U8, key: Nibble): (t: Transition)
    requires m.Valid()
    ensures t.after.Valid()
    ensures t.outcome == Fault(PcOutOfRange(m.pc)) <==> m.pc + 1 >= MEMORY_SIZE
  {
    if m.pc + 1 >= MEMORY_SIZE then Trap(m, PcOutOfRange(m.pc))
    else
      var op := Fetch(m.mem, m.pc);
      Dispatch(Fetched(m), Decode(op), op, rnd, key)
  }

  /** The switch on the high nibble of op, whose fields are f. */
  function Dispatch(m: Machine, f: Fields, op: U16, rnd: U8, key: Nibble): (t: Transition)
    requires m.Valid()
    ensures t.after.Valid()
  {
    if f.hi == 0x0 then System(m, f, op)
    else if f.hi in {0x1, 0x2, 0xB} then Branch(m, f)
    else if f.hi in {0x3, 0x4, 0x5, 0x9} then Skip(m, f)
    else if f.hi in {0x6, 0x7, 0xA, 0xC} then Assign(m, f, rnd)
    else if f.hi == 0x8 then Arith(m, f, op)
    else if f.hi == 0xD then Draw(m, f.x, f.y, f.n)
    else if f.hi == 0xE then Keys(m, f, op)
    else Misc(m, f, op, key)
  }

  /** M[ROM_START..MEMORY_SIZE) after main copies its zero-filled
      buffer: the first MEMORY_SIZE - ROM_START bytes of the ROM file,
      padded with zeros. */
  function RomImage(rom: seq<U8>): (img: seq<U8>)
    ensures |img| == MEMORY_SIZE - ROM_START
  {
    seq(MEMORY_SIZE - ROM_START, k requires 0 <= k < MEMORY_SIZE - ROM_START =>
      if k < |rom| then rom[k] else 0)
  }

  /** The machine when start() begins: zero-initialised globals, PC =
      ROM_START, the ROM copied to ROM_START, the font at FONT_START. */
  function Initial(rom: seq<U8>): (m: Machine)
    ensures m.Valid()
  {
    Machine(FONT + seq(ROM_START - |FONT|, _ => 0) + RomImage(rom),
            seq(16, _ => 0), 0, ROM_START as U16, seq(STACK_SIZE, _ => 0), 0, 0, 0,
            Blank(), seq(16, _ => false))
  }
}
