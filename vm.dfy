/** The interpreter as chip8.c runs it: one object holding the global
    arrays and registers, updated in place by Step (exec_opcode) and
    DrawSprite (draw_sprite). Every method is proved against the functions
    of module Semantics. */
module Interpreter {
  import opened Words
  import opened Opcode
  import opened Display
  import opened Semantics

  class Chip8 {
    var mem: array<U8>      // M
    var v: array<U8>        // V
    var i: U16              // I
    var pc: U16             // PC
    var stack: array<U16>   // S
    var sp: U8              // SP
    var dt: U8              // DT
    var st: U8              // ST
    var screen: array<bool>
    var keys: array<bool>   // written by the key-polling code (poll_keys), which is not modelled; read by Ex9E/ExA1

    /** The arrays have the sizes of the C globals and do not alias. */
    ghost predicate Valid()
      reads this
    {
      mem.Length == MEMORY_SIZE && v.Length == 16 && stack.Length == STACK_SIZE &&
      screen.Length == SCREEN_SURF && keys.Length == 16 && mem != v && screen != keys
    }

    /** The machine this object holds. */
    ghost function Abstract(): (m: Machine)
      reads this, mem, v, stack, screen, keys
      requires Valid()
      ensures m.Valid()
    {
      Machine(mem[..], v[..], i, pc, stack[..], sp, dt, st, screen[..], keys[..])
    }

    /** The globals' zero initialisation and PC = ROM_START, then main's
        copy of the ROM buffer and load_font. */
    constructor (rom: seq<U8>)
      ensures Valid() && Abstract() == Initial(rom)
      ensures fresh(mem) && fresh(v) && fresh(stack) && fresh(screen) && fresh(keys)
    {
      mem := new U8[MEMORY_SIZE](_ => 0);
      v := new U8[16](_ => 0);
      i, pc := 0, ROM_START as U16;
      stack := new U16[STACK_SIZE](_ => 0);
      sp, dt, st := 0, 0, 0;
      screen := new bool[SCREEN_SURF](_ => false);
      keys := new bool[16](_ => false);
      new;
      LoadRom(rom);
      LoadFont();
      assert mem[..] == FONT + seq(ROM_START - |FONT|, _ => 0) + RomImage(rom);
    }

    /** main (chip8.c:323-332) reads at most MEMORY_SIZE - ROM_START bytes of
        the ROM into a zeroed buffer and copies the whole buffer to M from
        ROM_START on. */
    method LoadRom(rom: seq<U8>)
      requires Valid()
      modifies mem
      ensures mem[..] == old(mem[..ROM_START]) + RomImage(rom)
    {
      forall k | 0 <= k < MEMORY_SIZE - ROM_START {
        mem[ROM_START + k] := if k < |rom| then rom[k] else 0;
      }
      assert mem[..] == old(mem[..ROM_START]) + RomImage(rom);
    }

    /** load_font (chip8.c:56-76) copies the glyph table to M from FONT_START on. */
    method LoadFont()
      requires Valid()
      modifies mem
      ensures mem[..] == FONT + old(mem[|FONT|..])
    {
      forall k | 0 <= k < |FONT| {
        mem[FONT_START + k] := FONT[k];
      }
      assert mem[..] == FONT + old(mem[|FONT|..]);
    }

    /** exec_opcode. A fault returns before the instruction changes anything
        beyond the PC advance of the fetch. */
    method Step(rnd: U8, key: Nibble) returns (r: Outcome)
      requires Valid()
      modifies this`i, this`pc, this`sp, this`dt, this`st, mem, v, stack, screen
      ensures Valid()
      ensures Transition(r, Abstract()) == Exec(old(Abstract()), rnd, key)
    {
      ghost var m0 := Abstract();
      if pc + 1 >= MEMORY_SIZE {
        return Fault(PcOutOfRange(pc));
      }
      var op: U16 := (mem[pc] as int) * 0x100 + mem[pc + 1];
      assert op == Fetch(m0.mem, m0.pc);
      pc := Wrap16(pc as int + 2);
      assert Abstract() == Fetched(m0);
      r := Dispatch(Decode(op), op, rnd, key);
    }

    /** The switch of exec_opcode on the high nibble of op. */
    method Dispatch(f: Fields, op: U16, rnd: U8, key: Nibble) returns (r: Outcome)
      requires Valid()
      modifies this`i, this`pc, this`sp, this`dt, this`st, mem, v, stack, screen
      ensures Valid()
      ensures Transition(r, Abstract()) == Semantics.Dispatch(old(Abstract()), f, op, rnd, key)
    {
      if f.hi == 0x0 {
        r := ExecSystem(f, op);
      } else if f.hi in {0x1, 0x2, 0xB} {
        r := ExecBranch(f);
      } else if f.hi in {0x3, 0x4, 0x5, 0x9} {
        r := ExecSkip(f);
      } else if f.hi in {0x6, 0x7, 0xA, 0xC} {
        r := ExecAssign(f, rnd);
      } else if f.hi == 0x8 {
        r := ExecAlu(f, op);
      } else if f.hi == 0xD {
        r := ExecDraw(f.x, f.y, f.n);
      } else if f.hi == 0xE {
        r := ExecKeys(f, op);
      } else {
        r := ExecMisc(f, op, key);
      }
    }

    /** Cases 1, 2 and B of exec_opcode. */
    method ExecBranch(f: Fields) returns (r: Outcome)
      requires Valid() && f.hi in {0x1, 0x2, 0xB}
      modifies this`pc, this`sp, stack
      ensures Valid()
      ensures Transition(r, Abstract()) == Branch(old(Abstract()), f)
    {
      r := Continue;
      if f.hi == 0x1 {
        pc := f.addr;
      } else if f.hi == 0x2 {
        var top := Wrap8(sp as int + 1);
        if top >= STACK_SIZE {
          return Fault(StackOutOfRange(top));
        }
        sp := top;
        stack[sp] := pc;
        pc := f.addr;
      } else {
        pc := v[0x0] + f.addr;
      }
    }

    /** Cases 3, 4, 5 and 9 of exec_opcode. */
    method ExecSkip(f: Fields) returns (r: Outcome)
      requires Valid() && f.hi in {0x3, 0x4, 0x5, 0x9}
      modifies this`pc
      ensures Valid()
      ensures Transition(r, Abstract()) == Skip(old(Abstract()), f)
    {
      var vx := v[f.x];
      var skip := if f.hi == 0x3 then vx == f.kk
        else if f.hi == 0x4 then vx != f.kk
        else if f.hi == 0x5 then vx == v[f.y]
        else vx != v[f.y];
      if skip {
        pc := Wrap16(pc as int + 2);
      }
      r := Continue;
    }

    /** Cases 6, 7, A and C of exec_opcode; rnd stands for rand() % 256. */
    method ExecAssign(f: Fields, rnd: U8) returns (r: Outcome)
      requires Valid() && f.hi in {0x6, 0x7, 0xA, 0xC}
      modifies this`i, v
      ensures Valid()
      ensures Transition(r, Abstract()) == Assign(old(Abstract()), f, rnd)
    {
      if f.hi == 0x6 {
        v[f.x] := f.kk;
      } else if f.hi == 0x7 {
        v[f.x] := Wrap8(v[f.x] as int + f.kk);
      } else if f.hi == 0xA {
        i := f.addr;
      } else {
        v[f.x] := BitAnd(rnd, f.kk);
      }
      r := Continue;
    }

    /** Case D of exec_opcode: the bounds check the C code leaves out, then
        draw_sprite(Vx, Vy, n). */
    method ExecDraw(x: Nibble, y: Nibble, n: Nibble) returns (r: Outcome)
      requires Valid()
      modifies v, screen
      ensures Valid()
      ensures Transition(r, Abstract()) == Draw(old(Abstract()), x, y, n)
    {
      if n > 0 && i + n > MEMORY_SIZE {
        return Fault(MemoryOutOfRange(i, n));
      }
      DrawSprite(v[x], v[y], n);
      r := Continue;
    }

    /** Group 0 of exec_opcode. */
    method ExecSystem(f: Fields, op: U16) returns (r: Outcome)
      requires Valid()
      modifies this`pc, this`sp, screen
      ensures Valid()
      ensures Transition(r, Abstract()) == System(old(Abstract()), f, op)
    {
      if f.kk == 0x00 {
        r := Halt;
      } else if f.kk == 0xE0 {
        forall p | 0 <= p < SCREEN_SURF {
          screen[p] := false;
        }
        assert screen[..] == Blank();
        r := Continue;
      } else if f.kk == 0xEE {
        if sp >= STACK_SIZE {
          return Fault(StackOutOfRange(sp));
        }
        pc := stack[sp];
        sp := Wrap8(sp as int - 1);
        r := Continue;
      } else {
        r := Fault(InvalidOpcode(op));
      }
    }

    /** Group 8 of exec_opcode. */
    method ExecAlu(f: Fields, op: U16) returns (r: Outcome)
      requires Valid()
      modifies v
      ensures Valid()
      ensures Transition(r, Abstract()) == Arith(old(Abstract()), f, op)
    {
      if f.n <= 0x3 {
        UpdateLogic(f.x, f.y, f.n);
        r := Continue;
      } else if f.n <= 0x7 || f.n == 0xE {
        UpdateFlagged(f.x, f.y, f.n);
        r := Continue;
      } else {
        r := Fault(InvalidOpcode(op));
      }
    }

    /** 8xy0..8xy3 (chip8.c:163-166): Vx becomes Vy, or Vx combined with Vy by
        bitwise OR, AND or XOR. */
    method UpdateLogic(x: Nibble, y: Nibble, n: Nibble)
      requires Valid() && n <= 0x3
      modifies v
      ensures Alu(old(v[..]), x, y, n) == Some(v[..])
    {
      if n == 0x0 {
        v[x] := v[y];
      } else if n == 0x1 {
        v[x] := BitOr(v[x], v[y]);
      } else if n == 0x2 {
        v[x] := BitAnd(v[x], v[y]);
      } else {
        v[x] := BitXor(v[x], v[y]);
      }
    }

    /** 8xy4..8xy7 and 8xyE, which set VF before they update Vx. */
    method UpdateFlagged(x: Nibble, y: Nibble, n: Nibble)
      requires Valid() && (0x4 <= n <= 0x7 || n == 0xE)
      modifies v
      ensures Alu(old(v[..]), x, y, n) == Some(v[..])
    {
      if n == 0x4 {
        v[0xF] := Flag(v[x] > 0xFF - v[y] as int);
        v[x] := Wrap8(v[x] as int + v[y]);
      } else if n == 0x5 {
        v[0xF] := Flag(v[x] > v[y]);
        v[x] := Wrap8(v[x] as int - v[y]);
      } else if n == 0x6 {
        v[0xF] := v[x] % 2;
        v[x] := v[x] / 2;
      } else if n == 0x7 {
        v[0xF] := Flag(v[y] > v[x]);
        v[x] := Wrap8(v[y] as int - v[x]);
      } else {
        v[0xF] := v[y] / 0x80;
        v[x] := Wrap8(v[x] as int * 2);
      }
    }

    /** Group E of exec_opcode. */
    method ExecKeys(f: Fields, op: U16) returns (r: Outcome)
      requires Valid()
      modifies this`pc
      ensures Valid()
      ensures Transition(r, Abstract()) == Keys(old(Abstract()), f, op)
    {
      if f.kk != 0x9E && f.kk != 0xA1 {
        return Fault(InvalidOpcode(op));
      }
      var key := v[f.x];
      if key >= 16 {
        return Fault(KeyOutOfRange(key));
      }
      if keys[key] == (f.kk == 0x9E) {
        pc := Wrap16(pc as int + 2);
      }
      r := Continue;
    }

    /** Group F of exec_opcode; key is what await_keypress returns. */
    method ExecMisc(f: Fields, op: U16, key: Nibble) returns (r: Outcome)
      requires Valid()
      modifies this`i, this`dt, this`st, mem, v
      ensures Valid()
      ensures Transition(r, Abstract()) == Misc(old(Abstract()), f, op, key)
    {
      var x := f.x;
      r := Continue;
      if f.kk == 0x07 {
        v[x] := dt;
      } else if f.kk == 0x0A {
        v[x] := key;
      } else if f.kk == 0x15 {
        dt := v[x];
      } else if f.kk == 0x18 {
        st := v[x];
      } else if f.kk == 0x1E {
        i := Wrap16(i as int + v[x]);
      } else if f.kk == 0x29 {
        i := v[x] * FONT_WIDTH + FONT_START;
      } else if f.kk in {0x33, 0x55, 0x65} {
        r := ExecTransfer(f);
      } else {
        r := Fault(InvalidOpcode(op));
      }
    }

    /** Cases Fx33, Fx55 and Fx65 of exec_opcode. */
    method ExecTransfer(f: Fields) returns (r: Outcome)
      requires Valid() && f.kk in {0x33, 0x55, 0x65}
      modifies mem, v
      ensures Valid()
      ensures Transition(r, Abstract()) == Transfer(old(Abstract()), f)
    {
      var x := f.x;
      if f.kk == 0x33 {
        if i + 3 > MEMORY_SIZE {
          return Fault(MemoryOutOfRange(i, 3));
        }
        StoreDigits(v[x]);
      } else if i + x + 1 > MEMORY_SIZE {
        return Fault(MemoryOutOfRange(i, x as int + 1));
      } else if f.kk == 0x55 {
        SaveRegisters(x);
      } else {
        RestoreRegisters(x);
      }
      r := Continue;
    }

    /** Fx33 (chip8.c:200-202): the hundreds, tens and ones digits of b written
        to M at I, I + 1 and I + 2. */
    method StoreDigits(b: U8)
      requires Valid() && i + 3 <= MEMORY_SIZE
      modifies mem
      ensures mem[..] == StoreBcd(old(mem[..]), i, b)
    {
      mem[i] := b / 100;
      mem[i + 1] := b % 100 / 10;
      mem[i + 2] := b % 10;
    }

    /** Fx55 (chip8.c:203): V0..Vx copied to M from I on, one byte each. */
    method SaveRegisters(x: Nibble)
      requires Valid() && i + x + 1 <= MEMORY_SIZE
      modifies mem
      ensures mem[..] == StoreRegs(old(mem[..]), i, v[..], x)
    {
      forall k | 0 <= k <= x {
        mem[i + k] := v[k];
      }
      assert mem[..] == StoreRegs(old(mem[..]), i, v[..], x);
    }

    /** Fx65 (chip8.c:204): the x + 1 bytes of M from I on copied to V0..Vx. */
    method RestoreRegisters(x: Nibble)
      requires Valid() && i + x + 1 <= MEMORY_SIZE
      modifies v
      ensures v[..] == LoadRegs(old(v[..]), mem[..], i, x)
    {
      forall k | 0 <= k <= x {
        v[k] := mem[i + k];
      }
      assert v[..] == LoadRegs(old(v[..]), mem[..], i, x);
    }

    /** The invariant of draw_sprite's loops: the cells before (row, col)
        have been XOR-ed onto the framebuffer it started from, and VF says
        whether one of them hit a lit pixel. */
    ghost predicate DrawnUpTo(before: seq<bool>, regs: seq<U8>, sprite: seq<U8>,
                              sx: U8, sy: U8, row: int, col: int)
      reads this, v, screen
      requires Valid()
    {
      |before| == SCREEN_SURF && |regs| == 16 &&
      (forall p :: 0 <= p < SCREEN_SURF ==>
         screen[p] == (before[p] != CoveredBefore(sprite, sx, sy, row, col, p))) &&
      v[..] == regs[0xF := Flag(HitBefore(before, sprite, sx, sy, row, col))]
    }

    /** draw_sprite without the blit to the window surface: n rows from
        M[I..], each toggling the pixels of its set bits at wrapped
        coordinates, with VF collecting whether a lit pixel was hit. */
    method DrawSprite(sx: U8, sy: U8, n: Nibble)
      requires Valid() && (n == 0 || i + n <= MEMORY_SIZE)
      modifies v, screen
      ensures screen[..] == DrawScreen(old(screen[..]), SpriteAt(mem[..], i, n), sx, sy)
      ensures v[..] == old(v[..])[0xF := Flag(Collides(old(screen[..]), SpriteAt(mem[..], i, n), sx, sy))]
    {
      ghost var sprite := SpriteAt(mem[..], i, n);
      ghost var before, regs := screen[..], v[..];
      v[0xF] := 0;
      var row := 0;
      while row < n
        invariant 0 <= row <= n
        invariant DrawnUpTo(before, regs, sprite, sx, sy, row, 0)
      {
        var y := (sy + row) % SCREEN_H;
        var memVal := mem[i + row];
        var col := 0;
        while col < 8
          invariant 0 <= col <= 8
          invariant DrawnUpTo(before, regs, sprite, sx, sy, row, col)
        {
          PlotCell(before, regs, sprite, sx, sy, row, col, y, memVal);
          col := col + 1;
        }
        RowDone(before, regs, sprite, sx, sy, row);
        row := row + 1;
      }
      AllRowsDone(before, regs, sprite, sx, sy);
    }

    /** After the last row every cell has been visited: the framebuffer is
        DrawScreen of the one draw_sprite started from, and VF is Collides. */
    lemma AllRowsDone(before: seq<bool>, regs: seq<U8>, sprite: seq<U8>, sx: U8, sy: U8)
      requires Valid() && DrawnUpTo(before, regs, sprite, sx, sy, |sprite|, 0)
      ensures screen[..] == DrawScreen(before, sprite, sx, sy)
      ensures v[..] == regs[0xF := Flag(Collides(before, sprite, sx, sy))]
    {
      assert forall p :: CoveredBefore(sprite, sx, sy, |sprite|, 0, p) == Covers(sprite, sx, sy, p);
      assert HitBefore(before, sprite, sx, sy, |sprite|, 0) == Collides(before, sprite, sx, sy);
    }

    /** Finishing column 7 of a row is starting column 0 of the next. */
    lemma RowDone(before: seq<bool>, regs: seq<U8>, sprite: seq<U8>, sx: U8, sy: U8, row: int)
      requires Valid() && DrawnUpTo(before, regs, sprite, sx, sy, row, 8)
      ensures DrawnUpTo(before, regs, sprite, sx, sy, row + 1, 0)
    {
      assert forall p ::
        CoveredBefore(sprite, sx, sy, row, 8, p) == CoveredBefore(sprite, sx, sy, row + 1, 0, p);
    }

    /** The body of draw_sprite's inner loop, for the cell (row, col) of a
        sprite row of value memVal drawn on screen row y. */
    method PlotCell(ghost before: seq<bool>, ghost regs: seq<U8>, ghost sprite: seq<U8>,
                    sx: U8, sy: U8, row: int, col: int, y: int, memVal: U8)
      requires Valid() && 0 <= row < |sprite| <= SCREEN_H && 0 <= col < 8
      requires y == (sy + row) % SCREEN_H && memVal == sprite[row]
      requires DrawnUpTo(before, regs, sprite, sx, sy, row, col)
      modifies v, screen
      ensures DrawnUpTo(before, regs, sprite, sx, sy, row, col + 1)
    {
      ghost var q := Target(sx, sy, row, col);
      TargetCell(sx, sy, row, col);
      HitStep(before, sprite, sx, sy, row, col);
      forall p | 0 <= p < SCREEN_SURF
        ensures CoveredBefore(sprite, sx, sy, row, col + 1, p) ==
          (CoveredBefore(sprite, sx, sy, row, col, p) || (p == q && Bit(sprite[row], col)))
      {
        CoverStep(sprite, sx, sy, row, col, p);
      }
      assert screen[q] == before[q];
      if Bit(memVal, col) {
        var x := (sx + col) % SCREEN_W;
        assert x + y * SCREEN_W == q;
        // a lit pixel under a set bit raises VF (chip8.c:89); the pixel is toggled (chip8.c:90)
        v[0xF] := if screen[x + y * SCREEN_W] then 1 else v[0xF];
        screen[x + y * SCREEN_W] := !screen[x + y * SCREEN_W];
      }
    }
  }
}
