/** Properties of one instruction, stated on the machine and the word PC
    points at, and of short sequences of instructions. */
module Properties {
  import opened Words
  import opened Opcode
  import opened Display
  import opened Semantics

  /** m can fetch, and the word at PC is op. */
  predicate Fetches(m: Machine, op: U16)
  {
    m.Valid() && m.pc + 1 < MEMORY_SIZE && Fetch(m.mem, m.pc) == op
  }

  /** The registers V0..VF other than x and VF are those of v. */
  predicate OthersKept(v': seq<U8>, v: seq<U8>, x: Nibble)
    requires |v'| == 16 && |v| == 16
  {
    forall r :: 0 <= r < 0xF && r != x ==> v'[r] == v[r]
  }

  // ---------------------------------------------------------------- fetch

  /** A PC that leaves no room for both bytes is the only fetch failure; it
      changes nothing. Otherwise the high nibble of M[PC] selects the group. */
  lemma FetchFault(m: Machine, rnd: U8, key: Nibble)
    requires m.Valid()
    ensures var t := Exec(m, rnd, key);
      t.outcome == Fault(PcOutOfRange(m.pc)) <==> m.pc + 1 >= MEMORY_SIZE
    ensures m.pc + 1 >= MEMORY_SIZE ==> Exec(m, rnd, key).after == m
  {
  }

  /** A fault never applies the instruction's effect: the machine is the one
      before the step, with PC advanced past the word when it was fetched. */
  lemma FaultIsInert(m: Machine, rnd: U8, key: Nibble)
    requires m.Valid()
    requires Exec(m, rnd, key).outcome.Fault?
    ensures Exec(m, rnd, key).after ==
      if m.pc + 1 >= MEMORY_SIZE then m else m.(pc := m.pc + 2)
  {
  }

  /** PC moves past the word before the case runs: an instruction that does
      not jump, skip or return and does not fault leaves PC at PC + 2. */
  lemma SequentialPc(m: Machine, rnd: U8, key: Nibble)
    requires m.Valid() && m.pc + 1 < MEMORY_SIZE
    requires m.mem[m.pc] / 0x10 in {0x6, 0x7, 0x8, 0xA, 0xC, 0xD, 0xF} ||
             (m.mem[m.pc] / 0x10 == 0x0 && m.mem[m.pc + 1] != 0xEE)
    ensures Exec(m, rnd, key).after.pc == m.pc + 2
  {
    FetchFields(m.mem, m.pc);
  }

  /** Only 2nnn and 00EE touch the stack and SP. */
  lemma StackOnlyByCallAndReturn(m: Machine, rnd: U8, key: Nibble)
    requires m.Valid() && m.pc + 1 < MEMORY_SIZE
    requires m.mem[m.pc] / 0x10 != 0x2
    requires m.mem[m.pc] / 0x10 == 0x0 ==> m.mem[m.pc + 1] != 0xEE
    ensures Exec(m, rnd, key).after.stack == m.stack
    ensures Exec(m, rnd, key).after.sp == m.sp
  {
    FetchFields(m.mem, m.pc);
  }

  // ---------------------------------------------------------------- group 0

  /** 0n00 stops the interpreter (chip8_stop) for every n; PC has moved on. */
  lemma HaltOpcode(m: Machine, rnd: U8, key: Nibble, n: Nibble)
    requires Fetches(m, n * 0x100)
    ensures Exec(m, rnd, key) == Transition(Halt, m.(pc := m.pc + 2))
  {
    DecodeByte(0x0, n, 0x00);
  }

  /** 0nE0 darkens every pixel and changes nothing else. */
  lemma ClearScreen(m: Machine, rnd: U8, key: Nibble, n: Nibble)
    requires Fetches(m, n * 0x100 + 0xE0)
    ensures var t := Exec(m, rnd, key);
      t.outcome == Continue && t.after == m.(pc := m.pc + 2, screen := Blank()) &&
      forall p :: 0 <= p < SCREEN_SURF ==> !t.after.screen[p]
  {
    DecodeByte(0x0, n, 0xE0);
  }

  /** 0nEE pops: PC becomes the slot S[SP] and SP is decremented as a
      uint8_t; only an SP beyond the stack faults, so SP == 0 pops S[0] and
      leaves SP at 255. */
  lemma Return(m: Machine, rnd: U8, key: Nibble, n: Nibble)
    requires Fetches(m, n * 0x100 + 0xEE)
    ensures var t := Exec(m, rnd, key);
      (t.outcome == Continue <==> m.sp < STACK_SIZE) &&
      (m.sp < STACK_SIZE ==>
        t.after == m.(pc := m.stack[m.sp], sp := (m.sp - 1) % 0x100)) &&
      (m.sp >= STACK_SIZE ==> t.outcome == Fault(StackOutOfRange(m.sp)))
    ensures m.sp == 0 ==> Exec(m, rnd, key).after.sp == 0xFF
  {
    DecodeByte(0x0, n, 0xEE);
  }

  /** Any other word of group 0 is an invalid opcode. */
  lemma SystemInvalid(m: Machine, rnd: U8, key: Nibble, x: Nibble, kk: U8)
    requires Fetches(m, x * 0x100 + kk) && kk !in {0x00, 0xE0, 0xEE}
    ensures Exec(m, rnd, key) ==
      Transition(Fault(InvalidOpcode(x * 0x100 + kk)), m.(pc := m.pc + 2))
  {
    DecodeByte(0x0, x, kk);
  }

  // ---------------------------------------------------------------- jumps

  /** 1nnn jumps to nnn. */
  lemma Jump(m: Machine, rnd: U8, key: Nibble, nnn: U12)
    requires Fetches(m, 0x1000 + nnn)
    ensures Exec(m, rnd, key) == Transition(Continue, m.(pc := nnn))
  {
    DecodeAddr(0x1, nnn);
  }

  /** Bnnn jumps to V0 + nnn. */
  lemma JumpOffset(m: Machine, rnd: U8, key: Nibble, nnn: U12)
    requires Fetches(m, 0xB000 + nnn)
    ensures Exec(m, rnd, key) == Transition(Continue, m.(pc := m.v[0] + nnn))
  {
    DecodeAddr(0xB, nnn);
  }

  /** 2nnn pushes the address of the next instruction at S[SP + 1] (SP is
      incremented as a uint8_t first) and jumps; it faults exactly when the
      incremented SP is past the stack, so an SP of 255 pushes at S[0]. */
  lemma Call(m: Machine, rnd: U8, key: Nibble, nnn: U12)
    requires Fetches(m, 0x2000 + nnn)
    ensures var t := Exec(m, rnd, key); var top := (m.sp + 1) % 0x100;
      (t.outcome == Continue <==> m.sp < STACK_SIZE - 1 || m.sp == 0xFF) &&
      (t.outcome == Continue ==>
        t.after == m.(pc := nnn, sp := top, stack := m.stack[top := m.pc + 2])) &&
      (t.outcome != Continue ==> t.outcome == Fault(StackOutOfRange(top)))
  {
    DecodeAddr(0x2, nnn);
  }

  /** A call from SP below 255 never writes S[0]. */
  lemma CallSkipsSlotZero(m: Machine, rnd: U8, key: Nibble, nnn: U12)
    requires Fetches(m, 0x2000 + nnn) && m.sp != 0xFF
    ensures Exec(m, rnd, key).after.stack[0] == m.stack[0]
  {
    DecodeAddr(0x2, nnn);
  }

  /** A return executed with the SP and top slot a call left behind goes back
      to the instruction after the call, with the caller's SP. */
  lemma CallThenReturn(m: Machine, nnn: U12, m2: Machine, n: Nibble,
                       rnd: U8, key: Nibble, rnd2: U8, key2: Nibble)
    requires Fetches(m, 0x2000 + nnn) && Exec(m, rnd, key).outcome == Continue
    requires Fetches(m2, n * 0x100 + 0xEE)
    requires m2.sp == Exec(m, rnd, key).after.sp
    requires m2.stack[m2.sp] == Exec(m, rnd, key).after.stack[m2.sp]
    ensures var t := Exec(m2, rnd2, key2);
      t.outcome == Continue && t.after.pc == m.pc + 2 && t.after.sp == m.sp
  {
    Call(m, rnd, key, nnn);
    Return(m2, rnd2, key2, n);
  }

  // ---------------------------------------------------------------- skips

  /** 3xkk skips the next instruction exactly when Vx == kk, 4xkk exactly
      when Vx != kk. */
  lemma SkipByte(m: Machine, rnd: U8, key: Nibble, hi: Nibble, x: Nibble, kk: U8)
    requires hi in {0x3, 0x4} && Fetches(m, hi * 0x1000 + x * 0x100 + kk)
    ensures var t := Exec(m, rnd, key);
      t.outcome == Continue &&
      t.after == m.(pc := if (m.v[x] == kk) == (hi == 0x3) then m.pc + 4 else m.pc + 2)
  {
    DecodeByte(hi, x, kk);
  }

  /** 5xyn skips exactly when Vx == Vy and 9xyn exactly when Vx != Vy, for
      every n: the low nibble is not looked at and never makes the word invalid. */
  lemma SkipRegister(m: Machine, rnd: U8, key: Nibble, hi: Nibble, x: Nibble, y: Nibble, n: Nibble)
    requires hi in {0x5, 0x9} && Fetches(m, Encode(hi, x, y, n))
    ensures var t := Exec(m, rnd, key);
      t.outcome == Continue &&
      t.after == m.(pc := if (m.v[x] == m.v[y]) == (hi == 0x5) then m.pc + 4 else m.pc + 2)
  {
    DecodeEncode(hi, x, y, n);
  }

  // ---------------------------------------------------------------- assignments

  /** 6xkk loads kk into Vx and changes nothing else. */
  lemma LoadByte(m: Machine, rnd: U8, key: Nibble, x: Nibble, kk: U8)
    requires Fetches(m, 0x6000 + x * 0x100 + kk)
    ensures var t := Exec(m, rnd, key);
      t.outcome == Continue && t.after == m.(pc := m.pc + 2, v := t.after.v) &&
      |t.after.v| == 16 && t.after.v[x] == kk &&
      forall r :: 0 <= r < 16 && r != x ==> t.after.v[r] == m.v[r]
  {
    DecodeByte(0x6, x, kk);
  }

  /** 7xkk adds kk to Vx modulo 256 and leaves VF alone, even on a carry. */
  lemma AddByte(m: Machine, rnd: U8, key: Nibble, x: Nibble, kk: U8)
    requires Fetches(m, 0x7000 + x * 0x100 + kk)
    ensures var t := Exec(m, rnd, key);
      t.outcome == Continue && t.after == m.(pc := m.pc + 2, v := t.after.v) &&
      |t.after.v| == 16 && t.after.v[x] == (m.v[x] + kk) % 0x100 &&
      forall r :: 0 <= r < 16 && r != x ==> t.after.v[r] == m.v[r]
  {
    DecodeByte(0x7, x, kk);
  }

  /** Annn loads nnn into I. */
  lemma LoadIndex(m: Machine, rnd: U8, key: Nibble, nnn: U12)
    requires Fetches(m, 0xA000 + nnn)
    ensures Exec(m, rnd, key) == Transition(Continue, m.(pc := m.pc + 2, i := nnn))
  {
    DecodeAddr(0xA, nnn);
  }

  /** Cxkk stores the random byte masked by kk in Vx and changes nothing else. */
  lemma RandomByte(m: Machine, rnd: U8, key: Nibble, x: Nibble, kk: U8)
    requires Fetches(m, 0xC000 + x * 0x100 + kk)
    ensures var t := Exec(m, rnd, key);
      t.outcome == Continue && t.after == m.(pc := m.pc + 2, v := t.after.v) &&
      |t.after.v| == 16 && t.after.v[x] == BitAnd(rnd, kk) &&
      forall r :: 0 <= r < 16 && r != x ==> t.after.v[r] == m.v[r]
  {
    DecodeByte(0xC, x, kk);
  }

  // ---------------------------------------------------------------- group 8

  /** An 8xyn word applies Alu to the registers, or faults when Alu has no
      case for n. */
  lemma AluStep(m: Machine, rnd: U8, key: Nibble, x: Nibble, y: Nibble, n: Nibble)
    requires Fetches(m, Encode(0x8, x, y, n))
    ensures Exec(m, rnd, key) ==
      match Alu(m.v, x, y, n)
      case Some(w) => Transition(Continue, m.(pc := m.pc + 2, v := w))
      case None => Transition(Fault(InvalidOpcode(Encode(0x8, x, y, n))), m.(pc := m.pc + 2))
  {
    DecodeEncode(0x8, x, y, n);
  }

  /** 8xy0..8xy3 copy, OR, AND or XOR Vy into Vx and change nothing else. */
  lemma Logic(m: Machine, rnd: U8, key: Nibble, x: Nibble, y: Nibble, n: Nibble)
    requires n <= 0x3 && Fetches(m, Encode(0x8, x, y, n))
    ensures var t := Exec(m, rnd, key);
      t.outcome == Continue && t.after == m.(pc := m.pc + 2, v := t.after.v) &&
      |t.after.v| == 16 &&
      t.after.v[x] == (if n == 0x0 then m.v[y] else if n == 0x1 then BitOr(m.v[x], m.v[y])
                       else if n == 0x2 then BitAnd(m.v[x], m.v[y]) else BitXor(m.v[x], m.v[y])) &&
      forall r :: 0 <= r < 16 && r != x ==> t.after.v[r] == m.v[r]
  {
    AluStep(m, rnd, key, x, y, n);
  }

  /** 8xy4: Vx = Vx + Vy modulo 256 and VF = 1 exactly on a carry out of 8 bits. */
  lemma AddCarry(m: Machine, rnd: U8, key: Nibble, x: Nibble, y: Nibble)
    requires Fetches(m, Encode(0x8, x, y, 0x4)) && x != 0xF && y != 0xF
    ensures var t := Exec(m, rnd, key);
      t.outcome == Continue && t.after == m.(pc := m.pc + 2, v := t.after.v) &&
      |t.after.v| == 16 &&
      t.after.v[x] == (m.v[x] as int + m.v[y]) % 0x100 &&
      t.after.v[0xF] == (m.v[x] as int + m.v[y]) / 0x100 &&
      OthersKept(t.after.v, m.v, x)
  {
    AluStep(m, rnd, key, x, y, 0x4);
  }

  /** 8xy5: Vx = Vx - Vy modulo 256 and VF = 1 exactly when Vx > Vy (no
      borrow is signalled on Vx == Vy). */
  lemma SubBorrow(m: Machine, rnd: U8, key: Nibble, x: Nibble, y: Nibble)
    requires Fetches(m, Encode(0x8, x, y, 0x5)) && x != 0xF && y != 0xF
    ensures var t := Exec(m, rnd, key);
      t.outcome == Continue && t.after == m.(pc := m.pc + 2, v := t.after.v) &&
      |t.after.v| == 16 &&
      t.after.v[x] == (m.v[x] as int - m.v[y]) % 0x100 &&
      (t.after.v[0xF] == 1 <==> m.v[x] > m.v[y]) && t.after.v[0xF] <= 1 &&
      OthersKept(t.after.v, m.v, x)
  {
    AluStep(m, rnd, key, x, y, 0x5);
  }

  /** 8xy7: Vx = Vy - Vx modulo 256 and VF = 1 exactly when Vy > Vx. */
  lemma SubReverse(m: Machine, rnd: U8, key: Nibble, x: Nibble, y: Nibble)
    requires Fetches(m, Encode(0x8, x, y, 0x7)) && x != 0xF && y != 0xF
    ensures var t := Exec(m, rnd, key);
      t.outcome == Continue && t.after == m.(pc := m.pc + 2, v := t.after.v) &&
      |t.after.v| == 16 &&
      t.after.v[x] == (m.v[y] as int - m.v[x]) % 0x100 &&
      (t.after.v[0xF] == 1 <==> m.v[y] > m.v[x]) && t.after.v[0xF] <= 1 &&
      OthersKept(t.after.v, m.v, x)
  {
    AluStep(m, rnd, key, x, y, 0x7);
  }

  /** 8xy6 shifts Vx (not Vy) right by one and puts the bit shifted out in
      VF; y plays no part. */
  lemma ShiftRight(m: Machine, rnd: U8, key: Nibble, x: Nibble, y: Nibble)
    requires Fetches(m, Encode(0x8, x, y, 0x6)) && x != 0xF
    ensures var t := Exec(m, rnd, key);
      t.outcome == Continue && t.after == m.(pc := m.pc + 2, v := t.after.v) &&
      |t.after.v| == 16 &&
      t.after.v[x] == m.v[x] / 2 && t.after.v[0xF] == m.v[x] % 2 &&
      OthersKept(t.after.v, m.v, x)
  {
    AluStep(m, rnd, key, x, y, 0x6);
  }

  /** 8xyE doubles Vx modulo 256 (a left shift of a uint8_t) and puts bit 7
      of Vy (not of Vx) in VF. */
  lemma ShiftLeft(m: Machine, rnd: U8, key: Nibble, x: Nibble, y: Nibble)
    requires Fetches(m, Encode(0x8, x, y, 0xE)) && x != 0xF
    ensures var t := Exec(m, rnd, key);
      t.outcome == Continue && t.after == m.(pc := m.pc + 2, v := t.after.v) &&
      |t.after.v| == 16 &&
      t.after.v[x] == (m.v[x] as int * 2) % 0x100 &&
      t.after.v[0xF] == m.v[y] / 0x80 && t.after.v[0xF] <= 1 &&
      OthersKept(t.after.v, m.v, x)
  {
    AluStep(m, rnd, key, x, y, 0xE);
  }

  /** With x == 0xF the flag is written first and then overwritten: 8Fy4
      leaves the carry plus Vy in VF, and the carry itself is lost. */
  lemma AddIntoFlag(m: Machine, rnd: U8, key: Nibble, y: Nibble)
    requires Fetches(m, Encode(0x8, 0xF, y, 0x4)) && y != 0xF
    ensures var t := Exec(m, rnd, key);
      t.outcome == Continue && |t.after.v| == 16 &&
      t.after.v[0xF] == (Flag(m.v[0xF] as int + m.v[y] > 0xFF) as int + m.v[y]) % 0x100
  {
    AluStep(m, rnd, key, 0xF, y, 0x4);
  }

  /** 8xyn with n in 8..D or F is an invalid opcode. */
  lemma ArithInvalid(m: Machine, rnd: U8, key: Nibble, x: Nibble, y: Nibble, n: Nibble)
    requires (0x8 <= n <= 0xD || n == 0xF) && Fetches(m, Encode(0x8, x, y, n))
    ensures Exec(m, rnd, key) ==
      Transition(Fault(InvalidOpcode(Encode(0x8, x, y, n))), m.(pc := m.pc + 2))
  {
    AluStep(m, rnd, key, x, y, n);
  }

  // ---------------------------------------------------------------- draw

  /** A set bit (row, col) of the n-row sprite at M[I] that lands on pixel p. */
  predicate SpriteHits(m: Machine, sx: U8, sy: U8, n: Nibble, p: int)
    requires m.Valid() && (n == 0 || m.i + n <= MEMORY_SIZE)
  {
    exists row, col :: 0 <= row < n && 0 <= col < 8 && Bit(m.mem[m.i + row], col) &&
      p == Target(sx, sy, row, col)
  }

  /** Dxyn faults exactly when rows of the sprite lie past the end of M.
      Otherwise it toggles exactly the pixels the sprite's set bits land on
      (wrapping around the edges), sets VF to 1 exactly when one of those was
      lit, and changes nothing else. */
  lemma DrawEffect(m: Machine, rnd: U8, key: Nibble, x: Nibble, y: Nibble, n: Nibble)
    requires Fetches(m, Encode(0xD, x, y, n))
    ensures var t := Exec(m, rnd, key);
      (t.outcome == Continue <==> n == 0 || m.i + n <= MEMORY_SIZE) &&
      (t.outcome != Continue ==>
        t == Transition(Fault(MemoryOutOfRange(m.i, n)), m.(pc := m.pc + 2)))
    ensures var t := Exec(m, rnd, key);
      t.outcome == Continue ==>
        t.after == m.(pc := m.pc + 2, screen := t.after.screen, v := t.after.v) &&
        (forall r :: 0 <= r < 0xF ==> t.after.v[r] == m.v[r]) &&
        (forall p :: 0 <= p < SCREEN_SURF ==>
          (t.after.screen[p] != m.screen[p] <==> SpriteHits(m, m.v[x], m.v[y], n, p))) &&
        t.after.v[0xF] <= 1 &&
        (t.after.v[0xF] == 1 <==>
          exists p :: 0 <= p < SCREEN_SURF && m.screen[p] && SpriteHits(m, m.v[x], m.v[y], n, p))
  {
    if n == 0 || m.i + n <= MEMORY_SIZE {
      DrawStep(m, rnd, key, x, y, n);
      var sprite, sx, sy := SpriteAt(m.mem, m.i, n), m.v[x], m.v[y];
      assert forall row :: 0 <= row < n ==> sprite[row] == m.mem[m.i + row];
      forall p | 0 <= p < SCREEN_SURF
        ensures Covers(sprite, sx, sy, p) == SpriteHits(m, sx, sy, n, p)
      {
        CoversIff(sprite, sx, sy, p);
      }
    } else {
      DecodeEncode(0xD, x, y, n);
    }
  }

  /** A Dxyn that does not fault XORs the sprite at M[I..I+n) onto the
      framebuffer at (Vx, Vy) and sets VF to whether it hit a lit pixel. */
  lemma DrawStep(m: Machine, rnd: U8, key: Nibble, x: Nibble, y: Nibble, n: Nibble)
    requires Fetches(m, Encode(0xD, x, y, n)) && (n == 0 || m.i + n <= MEMORY_SIZE)
    ensures var sprite := SpriteAt(m.mem, m.i, n);
      Exec(m, rnd, key) == Transition(Continue, m.(
        pc := m.pc + 2,
        screen := DrawScreen(m.screen, sprite, m.v[x], m.v[y]),
        v := m.v[0xF := Flag(Collides(m.screen, sprite, m.v[x], m.v[y]))]))
  {
    DecodeEncode(0xD, x, y, n);
  }

  /** Drawing the same sprite again at the same place (x and y not VF)
      restores the framebuffer; if the first draw did not collide, the second
      collides exactly when the sprite has a set bit. */
  lemma RedrawRestores(m: Machine, x: Nibble, y: Nibble, n: Nibble,
                       rnd: U8, key: Nibble, rnd2: U8, key2: Nibble)
    requires Fetches(m, Encode(0xD, x, y, n)) && x != 0xF && y != 0xF
    requires n == 0 || m.i + n <= MEMORY_SIZE
    requires Fetches(Exec(m, rnd, key).after, Encode(0xD, x, y, n))
    ensures var m1 := Exec(m, rnd, key).after; var t := Exec(m1, rnd2, key2);
      t.outcome == Continue && t.after.screen == m.screen &&
      (m1.v[0xF] == 0 ==> (t.after.v[0xF] == 1 <==> HasSetBit(SpriteAt(m.mem, m.i, n))))
  {
    DrawStep(m, rnd, key, x, y, n);
    var sprite, sx, sy := SpriteAt(m.mem, m.i, n), m.v[x], m.v[y];
    var m1 := Exec(m, rnd, key).after;
    DrawStep(m1, rnd2, key2, x, y, n);
    DrawTwice(m.screen, sprite, sx, sy);
    RedrawCollides(m.screen, sprite, sx, sy);
    CoversSomeIff(sprite, sx, sy);
  }

  /** After 00E0, a draw lights exactly the pixels its set bits land on and
      reports no collision. */
  lemma ClearThenDraw(m: Machine, c: Nibble, x: Nibble, y: Nibble, n: Nibble,
                      rnd: U8, key: Nibble, rnd2: U8, key2: Nibble)
    requires Fetches(m, c * 0x100 + 0xE0)
    requires Fetches(Exec(m, rnd, key).after, Encode(0xD, x, y, n))
    requires n == 0 || m.i + n <= MEMORY_SIZE
    ensures var t := Exec(Exec(m, rnd, key).after, rnd2, key2);
      t.outcome == Continue && t.after.v[0xF] == 0 &&
      forall p :: 0 <= p < SCREEN_SURF ==> (t.after.screen[p] <==> SpriteHits(m, m.v[x], m.v[y], n, p))
  {
    ClearScreen(m, rnd, key, c);
    var m1 := Exec(m, rnd, key).after;
    DrawEffect(m1, rnd2, key2, x, y, n);
    forall p | 0 <= p < SCREEN_SURF
      ensures SpriteHits(m1, m1.v[x], m1.v[y], n, p) == SpriteHits(m, m.v[x], m.v[y], n, p)
    {
    }
  }

  // ---------------------------------------------------------------- group E

  /** Ex9E skips exactly when key Vx is down, ExA1 exactly when it is up; a
      Vx that names no key faults. */
  lemma KeySkip(m: Machine, rnd: U8, key: Nibble, x: Nibble, kk: U8)
    requires kk in {0x9E, 0xA1} && Fetches(m, 0xE000 + x * 0x100 + kk)
    ensures var t := Exec(m, rnd, key);
      (t.outcome == Continue <==> m.v[x] < 16) &&
      (m.v[x] < 16 ==>
        t.after == m.(pc := if m.keys[m.v[x]] == (kk == 0x9E) then m.pc + 4 else m.pc + 2)) &&
      (m.v[x] >= 16 ==> t == Transition(Fault(KeyOutOfRange(m.v[x])), m.(pc := m.pc + 2)))
  {
    DecodeByte(0xE, x, kk);
  }

  /** Any other word of group E is an invalid opcode. */
  lemma KeysInvalid(m: Machine, rnd: U8, key: Nibble, x: Nibble, kk: U8)
    requires kk !in {0x9E, 0xA1} && Fetches(m, 0xE000 + x * 0x100 + kk)
    ensures Exec(m, rnd, key) ==
      Transition(Fault(InvalidOpcode(0xE000 + x * 0x100 + kk)), m.(pc := m.pc + 2))
  {
    DecodeByte(0xE, x, kk);
  }

  // ---------------------------------------------------------------- group F

  /** Fx0A stores the key pressed in Vx and changes nothing else. */
  lemma WaitKey(m: Machine, rnd: U8, key: Nibble, x: Nibble)
    requires Fetches(m, 0xF00A + x * 0x100)
    ensures var t := Exec(m, rnd, key);
      t.outcome == Continue && t.after == m.(pc := m.pc + 2, v := t.after.v) &&
      |t.after.v| == 16 && t.after.v[x] == key &&
      forall r :: 0 <= r < 16 && r != x ==> t.after.v[r] == m.v[r]
  {
    DecodeByte(0xF, x, 0x0A);
  }

  /** Fx15 sets DT and Fx18 sets ST to Vx, and nothing else changes. */
  lemma SetTimer(m: Machine, rnd: U8, key: Nibble, x: Nibble, kk: U8)
    requires kk in {0x15, 0x18} && Fetches(m, 0xF000 + x * 0x100 + kk)
    ensures Exec(m, rnd, key) == Transition(Continue,
      if kk == 0x15 then m.(pc := m.pc + 2, dt := m.v[x]) else m.(pc := m.pc + 2, st := m.v[x]))
  {
    DecodeByte(0xF, x, kk);
  }

  /** Fx15 followed by Fy07 copies Vx into Vy through DT. */
  lemma DelayRoundTrip(m: Machine, x: Nibble, y: Nibble,
                       rnd: U8, key: Nibble, rnd2: U8, key2: Nibble)
    requires Fetches(m, 0xF015 + x * 0x100)
    requires Fetches(Exec(m, rnd, key).after, 0xF007 + y * 0x100)
    ensures var t := Exec(Exec(m, rnd, key).after, rnd2, key2);
      t.outcome == Continue && |t.after.v| == 16 && t.after.v[y] == m.v[x] && t.after.dt == m.v[x]
  {
    SetTimer(m, rnd, key, x, 0x15);
    DecodeByte(0xF, y, 0x07);
  }

  /** Fx1E adds Vx to I modulo 65536 and leaves VF alone. */
  lemma AddIndex(m: Machine, rnd: U8, key: Nibble, x: Nibble)
    requires Fetches(m, 0xF01E + x * 0x100)
    ensures Exec(m, rnd, key) ==
      Transition(Continue, m.(pc := m.pc + 2, i := (m.i + m.v[x]) % 0x1_0000))
  {
    DecodeByte(0xF, x, 0x1E);
  }

  /** Fx29 points I at the glyph of digit Vx: FONT_WIDTH * Vx, unchecked. */
  lemma GlyphAddress(m: Machine, rnd: U8, key: Nibble, x: Nibble)
    requires Fetches(m, 0xF029 + x * 0x100)
    ensures Exec(m, rnd, key) == Transition(Continue, m.(pc := m.pc + 2, i := FONT_WIDTH * m.v[x]))
  {
    DecodeByte(0xF, x, 0x29);
  }

  /** With the font in place, Fx29 on a digit Vx < 16 leaves I at a sprite
      of FONT_WIDTH rows that is exactly that digit's glyph; a larger Vx
      points I past the font. */
  lemma GlyphSprite(m: Machine, rnd: U8, key: Nibble, x: Nibble)
    requires Fetches(m, 0xF029 + x * 0x100) && m.mem[..|FONT|] == FONT
    ensures var a := Exec(m, rnd, key).after; var d := FONT_WIDTH * m.v[x];
      m.v[x] < 16 ==>
        a.i + FONT_WIDTH <= MEMORY_SIZE && SpriteAt(a.mem, a.i, FONT_WIDTH) == FONT[d..d + FONT_WIDTH]
    ensures m.v[x] >= 16 ==> Exec(m, rnd, key).after.i >= |FONT|
  {
    GlyphAddress(m, rnd, key, x);
    var d := FONT_WIDTH * m.v[x];
    if m.v[x] < 16 {
      assert d + FONT_WIDTH <= |FONT|;
      assert m.mem[d..d + FONT_WIDTH] == m.mem[..|FONT|][d..d + FONT_WIDTH];
    }
  }

  /** Fx29 followed by a 5-row Dyz5 draws the glyph of digit Vx at (Vy, Vz). */
  lemma DrawDigit(m: Machine, x: Nibble, y: Nibble, z: Nibble,
                  rnd: U8, key: Nibble, rnd2: U8, key2: Nibble)
    requires Fetches(m, 0xF029 + x * 0x100) && m.mem[..|FONT|] == FONT && m.v[x] < 16
    requires Fetches(Exec(m, rnd, key).after, Encode(0xD, y, z, 0x5))
    ensures var t := Exec(Exec(m, rnd, key).after, rnd2, key2); var d := FONT_WIDTH * m.v[x];
      t.outcome == Continue &&
      t.after.screen == DrawScreen(m.screen, FONT[d..d + FONT_WIDTH], m.v[y], m.v[z])
  {
    GlyphAddress(m, rnd, key, x);
    GlyphSprite(m, rnd, key, x);
    var m1 := Exec(m, rnd, key).after;
    var d := FONT_WIDTH * m.v[x];
    assert m1.v == m.v && m1.screen == m.screen;
    assert SpriteAt(m1.mem, m1.i, 0x5) == FONT[d..d + FONT_WIDTH];
    DrawStep(m1, rnd2, key2, y, z, 0x5);
  }

  /** An Fx33, Fx55 or Fx65 word runs Transfer on the machine with PC moved
      past it. */
  lemma TransferStep(m: Machine, rnd: U8, key: Nibble, x: Nibble, kk: U8)
    requires kk in {0x33, 0x55, 0x65} && Fetches(m, 0xF000 + x * 0x100 + kk)
    ensures var f := Decode(0xF000 + x * 0x100 + kk);
      f.x == x && f.kk == kk && Exec(m, rnd, key) == Transfer(m.(pc := m.pc + 2), f)
  {
    DecodeByte(0xF, x, kk);
  }

  /** Fx33 faults when the three bytes at I do not fit in M; otherwise it
      changes only M, by StoreBcd. */
  lemma Bcd(m: Machine, rnd: U8, key: Nibble, x: Nibble)
    requires Fetches(m, 0xF033 + x * 0x100)
    ensures var t := Exec(m, rnd, key);
      (t.outcome == Continue <==> m.i + 3 <= MEMORY_SIZE) &&
      (t.outcome != Continue ==>
        t == Transition(Fault(MemoryOutOfRange(m.i, 3)), m.(pc := m.pc + 2))) &&
      (t.outcome == Continue ==>
        t.after == m.(pc := m.pc + 2, mem := StoreBcd(m.mem, m.i, m.v[x])))
  {
    TransferStep(m, rnd, key, x, 0x33);
  }

  /** StoreBcd writes the three decimal digits of b, most significant first,
      at i, i + 1 and i + 2. */
  lemma BcdDigits(mem: seq<U8>, i: int, b: U8)
    requires 0 <= i && i + 3 <= |mem|
    ensures var d := StoreBcd(mem, i, b);
      d[i] < 10 && d[i + 1] < 10 && d[i + 2] < 10 &&
      100 * d[i] + 10 * d[i + 1] + d[i + 2] == b
  {
    assert b == 100 * (b / 100) + b % 100;
    assert b % 100 == 10 * (b % 100 / 10) + b % 10;
  }

  /** Fx55 copies V0..Vx to M[I..I+x] and changes nothing else; it faults
      when the x + 1 bytes do not fit in M. */
  lemma StoreRegisters(m: Machine, rnd: U8, key: Nibble, x: Nibble)
    requires Fetches(m, 0xF055 + x * 0x100)
    ensures var t := Exec(m, rnd, key);
      (t.outcome == Continue <==> m.i + x + 1 <= MEMORY_SIZE) &&
      (t.outcome != Continue ==>
        t == Transition(Fault(MemoryOutOfRange(m.i, x + 1)), m.(pc := m.pc + 2)))
    ensures var t := Exec(m, rnd, key); var d := t.after.mem;
      t.outcome == Continue ==>
        t.after == m.(pc := m.pc + 2, mem := d) &&
        (forall k :: 0 <= k <= x ==> d[m.i + k] == m.v[k]) &&
        forall a :: 0 <= a < MEMORY_SIZE && !(m.i <= a <= m.i + x) ==> d[a] == m.mem[a]
  {
    TransferStep(m, rnd, key, x, 0x55);
  }

  /** Fx65 copies M[I..I+x] to V0..Vx and changes nothing else; it faults
      when the x + 1 bytes do not fit in M. */
  lemma ReadRegisters(m: Machine, rnd: U8, key: Nibble, x: Nibble)
    requires Fetches(m, 0xF065 + x * 0x100)
    ensures var t := Exec(m, rnd, key);
      (t.outcome == Continue <==> m.i + x + 1 <= MEMORY_SIZE) &&
      (t.outcome != Continue ==>
        t == Transition(Fault(MemoryOutOfRange(m.i, x + 1)), m.(pc := m.pc + 2)))
    ensures var t := Exec(m, rnd, key); var w := t.after.v;
      t.outcome == Continue ==>
        t.after == m.(pc := m.pc + 2, v := w) &&
        (forall k :: 0 <= k <= x ==> w[k] == m.mem[m.i + k]) &&
        forall k :: x < k < 16 ==> w[k] == m.v[k]
  {
    TransferStep(m, rnd, key, x, 0x65);
  }

  /** Fx55 followed by Fx65 with the same x and I reads back the registers
      it stored. */
  lemma StoreThenRead(m: Machine, x: Nibble, rnd: U8, key: Nibble, rnd2: U8, key2: Nibble)
    requires Fetches(m, 0xF055 + x * 0x100) && Exec(m, rnd, key).outcome == Continue
    requires Fetches(Exec(m, rnd, key).after, 0xF065 + x * 0x100)
    ensures var m1 := Exec(m, rnd, key).after; var t := Exec(m1, rnd2, key2);
      t.outcome == Continue && t.after == m1.(pc := m.pc + 4) && t.after.v == m.v
  {
    StoreRegisters(m, rnd, key, x);
    var m1 := Exec(m, rnd, key).after;
    ReadRegisters(m1, rnd2, key2, x);
    var w := Exec(m1, rnd2, key2).after.v;
    assert forall k :: 0 <= k < 16 ==> w[k] == m.v[k];
  }

  /** Any other word of group F is an invalid opcode. */
  lemma MiscInvalid(m: Machine, rnd: U8, key: Nibble, x: Nibble, kk: U8)
    requires kk !in {0x07, 0x0A, 0x15, 0x18, 0x1E, 0x29, 0x33, 0x55, 0x65}
    requires Fetches(m, 0xF000 + x * 0x100 + kk)
    ensures Exec(m, rnd, key) ==
      Transition(Fault(InvalidOpcode(0xF000 + x * 0x100 + kk)), m.(pc := m.pc + 2))
  {
    DecodeByte(0xF, x, kk);
  }

  // ---------------------------------------------------------------- the instruction set

  /** The words exec_opcode has a case for, listed by pattern. */
  predicate Recognised(op: U16)
  {
    var hi, lo := op / 0x1000, op % 0x100;
    (hi == 0x0 && lo in {0x00, 0xE0, 0xEE}) ||
    hi in {0x1, 0x2, 0x3, 0x4, 0x5, 0x6, 0x7, 0x9, 0xA, 0xB, 0xC, 0xD} ||
    (hi == 0x8 && (op % 0x10 <= 0x7 || op % 0x10 == 0xE)) ||
    (hi == 0xE && lo in {0x9E, 0xA1}) ||
    (hi == 0xF && lo in {0x07, 0x0A, 0x15, 0x18, 0x1E, 0x29, 0x33, 0x55, 0x65})
  }

  /** A fetched word faults as an invalid opcode exactly when it matches no
      pattern of the instruction set. */
  lemma InvalidIffUnrecognised(m: Machine, rnd: U8, key: Nibble)
    requires m.Valid() && m.pc + 1 < MEMORY_SIZE
    ensures var op := Fetch(m.mem, m.pc);
      Exec(m, rnd, key).outcome == Fault(InvalidOpcode(op)) <==> !Recognised(op)
  {
  }

  // ---------------------------------------------------------------- start-up

  /** At start-up PC is ROM_START, every register, timer, stack slot, pixel
      and key is zero or off, the font is at FONT_START, the bytes between font
      and ROM are zero, and M from ROM_START holds the ROM, truncated to fit
      and padded with zeros. */
  lemma InitialState(rom: seq<U8>)
    ensures var m := Initial(rom);
      m.pc == ROM_START && m.i == 0 && m.sp == 0 && m.dt == 0 && m.st == 0 &&
      (forall r :: 0 <= r < 16 ==> m.v[r] == 0 && !m.keys[r]) &&
      (forall k :: 0 <= k < STACK_SIZE ==> m.stack[k] == 0) &&
      (forall p :: 0 <= p < SCREEN_SURF ==> !m.screen[p]) &&
      m.mem[FONT_START..FONT_START + |FONT|] == FONT &&
      (forall a :: |FONT| <= a < ROM_START ==> m.mem[a] == 0) &&
      (forall k :: 0 <= k < MEMORY_SIZE - ROM_START ==>
        m.mem[ROM_START + k] == if k < |rom| then rom[k] else 0)
  {
    var m := Initial(rom);
    assert m.mem[..|FONT|] == FONT;
  }
}
