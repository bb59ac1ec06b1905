# CHIP-8 interpreter core, modelled and verified in Dafny

This project models the virtual machine of `chip8.c`, a small CHIP-8 interpreter.

The machine's state is 4096 bytes of memory `M` and sixteen 8-bit registers `V0`..`VF`. It also has:
- the 16-bit index register `I` and program counter `PC`;
- a 16-slot return stack `S` with an 8-bit stack pointer `SP`;
- the delay and sound timers `DT` and `ST`;
- a 64x32 monochrome framebuffer;
- sixteen key flags.

The model covers:
- the execution of one instruction (`exec_opcode`);
- sprite drawing (`draw_sprite`, without the window blit);
- the built-in font (`load_font`);
- the start-up state, including the copy of the ROM to address 0x200.

The model has two layers, and the second is proved against the first.

- **Semantics** (`words.dfy`, `opcode.dfy`, `display.dfy`, `semantics.dfy`). A `Machine` is a value. `Semantics.Exec` is one instruction as a function. It takes the random byte for `Cxkk` and the key for `Fx0A` as parameters. It returns one of three outcomes, together with the machine after the step:
  - `Continue`;
  - `Halt`, for `0x0n00`, whose C code calls `chip8_stop`;
  - `Fault(error)`.
- **Interpreter** (`vm.dfy`). Class `Chip8` holds `M`, `V`, `S`, the framebuffer and the keys in arrays, and the registers in fields, as the C globals do.
  - `Step` updates them in place, one method per group of opcodes.
  - `DrawSprite` is the nested row/column loop of `draw_sprite`.
  - Each method is proved to have exactly the effect of the matching semantic function.
- **Properties** (`properties.dfy`). These lemmas are stated on `Exec` and on the word at `PC`. They cover the effect of each instruction and the round trips between instructions:
  - call then return;
  - draw then redraw;
  - store registers then load them;
  - set DT then read DT.

Integer widths are explicit:
- `U8`, `U16` and `U12` are subset types of `int`.
- `Wrap8` and `Wrap16` are C's conversions back to `uint8_t` and `uint16_t`.
- The advance of PC by 2, the addition of Vx to I in `Fx1E`, and the increment and decrement of SP around a call and a return wrap as they do in C.

## How the model treats unchecked accesses

`chip8.c` checks no index. Every access that would leave its array is a distinct `Fault(error)`, and a faulting instruction changes nothing except the `PC + 2` of its fetch. The faulting accesses are:
- the fetch of `M[PC]`, `M[PC + 1]`;
- a sprite row `M[I + row]`;
- `M[I..I+2]` for Fx33;
- `M[I..I+x]` for Fx55 and Fx65;
- a stack slot outside `S`;
- `keys[Vx]`.

The bounds are exactly those of the C arrays, so an access the C code performs inside its array is never a fault. In particular:
- `00EE` with `SP == 0` reads `S[0]` and leaves `SP` at 255 (`Properties.Return`).
- A later `2nnn` then pushes at `S[0]` (`Properties.Call`).

## Where the code departs from the documented instruction set

The model follows `chip8.c` in each of these cases:
- `8xy6` takes its flag and its value from `Vx`, not `Vy` (chip8.c:171-172).
- `8xyE` takes its flag from bit 7 of `Vy` and shifts `Vx` (chip8.c:175-176).
- `5xyn` and `9xyn` accept every low nibble `n` (chip8.c:159, 181). So `0x5001` is a skip, not an invalid opcode.
- Group 0 is dispatched on the low byte only (chip8.c:146). So `0x0nE0` clears the screen and `0x0n00` halts for every `n`.
- Returning with an empty stack is not an error, as the previous section explains.
- The ROM is read into a zero-filled buffer of 3584 bytes and the whole buffer is copied to `M[0x200..]` (chip8.c:323-332). So an empty ROM and an over-long ROM are not rejected. The over-long ROM is truncated.
- In `8xy4`, `8xy5`, `8xy6`, `8xy7` and `8xyE` the flag is written before `Vx` is computed. So the computation sees the new `VF` when `x` is `F`, and in `8xy4`, `8xy5` and `8xy7` also when `y` is `F` (`Properties.AddIntoFlag`).

## Model

| member | source | states |
|---|---|---|
| Opcode.Fetch | chip8.c:136 | the opcode's high byte is `M[PC]` and its low byte is `M[PC + 1]` |
| Opcode.Decode | chip8.c:138-142 | the nibbles `hi, x, y, n` of any opcode reassemble it; `byte == y*16 + n` and `addr == x*256 + byte` |
| Opcode.DecodeEncode | chip8.c:138-142 | decoding the word built from four nibbles gives back exactly those nibbles, `byte` and `addr` |
| Opcode.FetchFields | chip8.c:136-142 | the fields of the fetched word, read off `M[PC]` and `M[PC + 1]` |
| Opcode.DecodeAddr | chip8.c:138-141 | a word `hi nnn` decodes to `hi` and `addr == nnn`, with `x` and `byte` taken from `nnn` |
| Opcode.DecodeByte | chip8.c:139-142 | a word `hi x kk` decodes to `hi`, `x` and `byte == kk`, with `y` and `n` taken from `kk` |
| Display.Target | chip8.c:82-88 | a sprite cell lands on a pixel inside the 64x32 framebuffer, its coordinates reduced modulo 64 and 32 |
| Display.DrawScreen | chip8.c:81-90 | a draw keeps the framebuffer's 2048 cells; its effect is stated by DrawChanges and DrawTwice |
| Display.TargetCell | chip8.c:82-88 | each sprite cell lands on exactly one pixel, and that pixel reads back as the cell (wrap-around is a bijection) |
| Display.CoversIff | chip8.c:81-90 | a pixel is covered iff some set sprite bit `(row, col)` lands on it |
| Display.CoverStep | chip8.c:85-90 | one step of the inner loop adds exactly the cell's target pixel, and only when the cell's bit is set |
| Display.HitStep | chip8.c:89 | one step of the inner loop adds a hit iff the cell's bit is set and its pixel was lit, which is how VF is raised |
| Display.DrawTwice | chip8.c:90 | XOR-drawing the same sprite twice at the same place restores the framebuffer |
| Display.DrawChanges | chip8.c:81-90 | a pixel changes iff some set sprite bit lands on it |
| Display.CollidesIff | chip8.c:79-89 | the collision flag is set iff some set sprite bit lands on a lit pixel |
| Display.RedrawCollides | chip8.c:79-90 | a redraw collides iff the first draw lit some pixel; after a draw without collision, the redraw collides iff anything was covered |
| Display.DrawOnBlank | chip8.c:79-90 | on a blank framebuffer a draw lights exactly the covered pixels and never collides |
| Display.CoversSomeIff | chip8.c:81-90 | a sprite of at most 32 rows covers some pixel iff it has a set bit, because nothing is clipped |
| Semantics.System | chip8.c:146-154 | group 0 halts iff the low byte is 00; it faults iff the low byte is not 00, E0 or EE, or a return finds SP past the stack; a fault changes nothing; only PC, SP and the framebuffer can change, and PC and SP only on a return (each case: HaltOpcode, ClearScreen, Return, SystemInvalid) |
| Semantics.Branch | chip8.c:155-156 | the jumps `1nnn`, `2nnn` and `Bnnn` (line 183) fault iff a call finds SP in 15..254, so SP 255 wraps to slot 0; only PC, the stack and SP change, the stack and SP only on a call; `1nnn` and `2nnn` land on `nnn` (Jump, JumpOffset, Call) |
| Semantics.Skip | chip8.c:157-159 | a skip, `9xy_` (line 181) included, never faults and either changes nothing or only moves PC on by 2; it moves PC iff its comparison (with `kk` or with Vy) holds (SkipByte, SkipRegister) |
| Semantics.Assign | chip8.c:160-161 | the assignments `6xkk`, `7xkk`, `Annn` (line 182) and `Cxkk` (line 184) never fault and change only V or I: every register other than Vx is kept, `Annn` leaves V alone, the others leave I alone, and `6xkk` puts `kk` in Vx (LoadByte, AddByte, LoadIndex, RandomByte) |
| Semantics.Alu | chip8.c:162-180 | group 8 has a case iff `n` is 0..7 or E; a case keeps 16 registers, changes none but Vx and VF, and `8xy0`..`8xy3` leave VF alone unless x is F (each case: AluStep to ArithInvalid) |
| Semantics.Arith | chip8.c:162-180 | `8xyn` faults iff `n` has no case, and then changes nothing; otherwise only Vx and VF change |
| Semantics.Draw | chip8.c:78-90 | `Dxyn` (line 185) faults iff sprite rows lie past memory, and then changes nothing; otherwise it changes only the framebuffer and VF, leaves V0..VE alone and sets VF to 0 or 1 (DrawEffect, DrawStep) |
| Semantics.Keys | chip8.c:186-192 | group E faults iff the low byte is not 9E or A1 or Vx names no key; it changes nothing or only moves PC on by 2 (KeySkip, KeysInvalid) |
| Semantics.Misc | chip8.c:193-208 | group F faults iff the low byte has no case or a transfer's bytes do not fit in memory, and then changes nothing; it never halts and changes only M, V, I, DT and ST (WaitKey to MiscInvalid) |
| Semantics.Transfer | chip8.c:200-204 | `Fx33`, `Fx55` and `Fx65` fault iff their 3 or `x + 1` bytes at I do not fit in memory; they change only M or V: `Fx65` only V, the other two only M (Bcd, StoreRegisters, ReadRegisters) |
| Semantics.StoreBcd | chip8.c:200-202 | the memory keeps its size and every byte outside `I..I+2` (the digits: BcdDigits) |
| Semantics.StoreRegs | chip8.c:203 | `M[I + k] == Vk` for `k <= x`, and every other byte of memory and the memory's size are kept |
| Semantics.LoadRegs | chip8.c:204 | `Vk == M[I + k]` for `k <= x`, and the registers above Vx are kept |
| Semantics.Exec | chip8.c:135-213 | one instruction keeps the machine's sizes, and it faults at fetch iff `PC + 1` is past memory |
| Semantics.Dispatch | chip8.c:145-212 | the switch on the high nibble keeps the machine's sizes |
| Semantics.RomImage | chip8.c:323-332 | the ROM region is exactly 3584 bytes long whatever the ROM's length |
| Semantics.Initial | chip8.c:18-39 | the start-up machine has the sizes of the C arrays; its contents are stated by InitialState |
| Interpreter.Chip8.constructor | chip8.c:18-39 | the zero-initialised globals with `PC = 0x200`, after the ROM copy and `load_font`, are exactly `Initial(rom)` |
| Interpreter.Chip8.LoadRom | chip8.c:331-332 | memory from 0x200 on becomes the zero-padded, truncated ROM, and nothing below 0x200 changes |
| Interpreter.Chip8.LoadFont | chip8.c:56-76 | the 80 glyph bytes are written at address 0, and nothing after them changes |
| Interpreter.Chip8.Step | chip8.c:135-213 | one in-place step has exactly the outcome and new state of `Exec` on the old state |
| Interpreter.Chip8.Dispatch | chip8.c:145-212 | the in-place switch on the high nibble agrees with `Semantics.Dispatch` |
| Interpreter.Chip8.ExecSystem | chip8.c:146-154 | group 0 in place agrees with `System`: halt, clear, return, or invalid opcode |
| Interpreter.Chip8.ExecBranch | chip8.c:155-156 | `1nnn`, `2nnn` and `Bnnn` (line 183) in place agree with `Branch` |
| Interpreter.Chip8.ExecSkip | chip8.c:157-159 | `3xkk`, `4xkk`, `5xy_` and `9xy_` (line 181) in place agree with `Skip` |
| Interpreter.Chip8.ExecAssign | chip8.c:160-161 | `6xkk`, `7xkk`, `Annn` (line 182) and `Cxkk` (line 184) in place agree with `Assign` |
| Interpreter.Chip8.ExecAlu | chip8.c:162-180 | group 8 in place agrees with `Arith`, including the invalid `n` |
| Interpreter.Chip8.UpdateLogic | chip8.c:163-166 | `8xy0`..`8xy3` on the register array agree with `Alu` |
| Interpreter.Chip8.UpdateFlagged | chip8.c:167-176 | `8xy4`..`8xy7` and `8xyE` on the register array, writing VF first, agree with `Alu` |
| Interpreter.Chip8.ExecDraw | chip8.c:185 | `Dxyn` in place agrees with `Draw`, faulting when sprite rows lie past memory |
| Interpreter.Chip8.DrawSprite | chip8.c:78-105 | the nested loop leaves the framebuffer equal to `DrawScreen` of the old one, and V equal to the old V with VF set to `Collides` |
| Interpreter.Chip8.PlotCell | chip8.c:86-90 | one inner-loop step keeps the loop invariant `DrawnUpTo` for the next cell |
| Interpreter.Chip8.RowDone | chip8.c:81-85 | the invariant after column 7 of a row is the invariant before column 0 of the next |
| Interpreter.Chip8.AllRowsDone | chip8.c:81-103 | when all rows are done, the invariant gives exactly `DrawScreen` and `Collides` |
| Interpreter.Chip8.ExecKeys | chip8.c:186-192 | group E in place agrees with `Keys` |
| Interpreter.Chip8.ExecMisc | chip8.c:193-208 | group F in place agrees with `Misc` |
| Interpreter.Chip8.ExecTransfer | chip8.c:200-204 | `Fx33`, `Fx55` and `Fx65` in place agree with `Transfer`, including the memory bounds faults |
| Interpreter.Chip8.StoreDigits | chip8.c:200-202 | memory becomes `StoreBcd` of the old memory |
| Interpreter.Chip8.SaveRegisters | chip8.c:203 | copying V0..Vx into memory from I on turns the memory into `StoreRegs` of the old memory |
| Interpreter.Chip8.RestoreRegisters | chip8.c:204 | copying the `x + 1` bytes from I on into V0..Vx turns V into `LoadRegs` of the old V |
| Properties.FetchFault | chip8.c:136 | the fetch fails iff `PC + 1` is past memory, and a failed fetch changes nothing |
| Properties.FaultIsInert | chip8.c:135-213 | a fault never applies the instruction's effect; only the fetch's `PC + 2` has happened |
| Properties.SequentialPc | chip8.c:137 | every instruction that does not jump, skip or return leaves PC at `PC + 2` |
| Properties.StackOnlyByCallAndReturn | chip8.c:145-212 | no instruction other than `2nnn` and `00EE` changes the stack or SP |
| Properties.HaltOpcode | chip8.c:147 | `0n00` halts for every `n`, with PC advanced and nothing else changed |
| Properties.ClearScreen | chip8.c:148 | `0nE0` makes every pixel dark and changes nothing but the framebuffer and `PC + 2` |
| Properties.Return | chip8.c:150 | `00EE` faults iff `SP >= 16`; otherwise PC becomes the stack slot `S[SP]` and SP is decremented mod 256, so SP 0 becomes 255 |
| Properties.SystemInvalid | chip8.c:151-153 | any other word of group 0 is an invalid opcode |
| Properties.Jump | chip8.c:155 | `1nnn` sets `PC = nnn` and nothing else |
| Properties.JumpOffset | chip8.c:183 | `Bnnn` sets `PC = V0 + nnn` and nothing else |
| Properties.Call | chip8.c:156 | `2nnn` faults iff `SP + 1` (mod 256) is past the stack; otherwise it stores `PC + 2` at `S[SP + 1]`, increments SP and jumps to `nnn` |
| Properties.CallSkipsSlotZero | chip8.c:156 | a call from any SP other than 255 leaves `S[0]` unchanged |
| Properties.CallThenReturn | chip8.c:150-156 | a return at the call's stack depth, with the call's slot intact, goes to the call's `PC + 2` and restores the caller's SP |
| Properties.SkipByte | chip8.c:157-158 | `3xkk` skips iff `Vx == kk`, `4xkk` skips iff `Vx != kk`, and nothing else changes |
| Properties.SkipRegister | chip8.c:159 | `5xyn` skips iff `Vx == Vy` and `9xyn` iff `Vx != Vy`, for every `n` |
| Properties.LoadByte | chip8.c:160 | `6xkk` sets `Vx = kk` and nothing else |
| Properties.AddByte | chip8.c:161 | `7xkk` sets `Vx = (Vx + kk) mod 256` and leaves VF alone |
| Properties.LoadIndex | chip8.c:182 | `Annn` sets `I = nnn` and nothing else |
| Properties.RandomByte | chip8.c:184 | `Cxkk` sets `Vx = rnd & kk` and nothing else |
| Properties.AluStep | chip8.c:162-180 | an `8xyn` word applies `Alu` to the registers with `PC + 2`, or is an invalid opcode when `Alu` has no case for `n` |
| Properties.Logic | chip8.c:163-166 | `8xy0`..`8xy3` set Vx to `Vy`, `Vx \| Vy`, `Vx & Vy` or `Vx ^ Vy`, and nothing else |
| Properties.AddCarry | chip8.c:167-168 | `8xy4`, for x and y not F: `Vx = (Vx + Vy) mod 256`, VF is the carry, other registers are kept |
| Properties.SubBorrow | chip8.c:169-170 | `8xy5`: `Vx = (Vx - Vy) mod 256`, and VF is 1 iff the old `Vx > Vy` |
| Properties.SubReverse | chip8.c:173-174 | `8xy7`: `Vx = (Vy - Vx) mod 256`, and VF is 1 iff the old `Vy > Vx` |
| Properties.ShiftRight | chip8.c:171-172 | `8xy6`: `Vx = Vx / 2` and `VF = Vx & 1` (old Vx), for every y |
| Properties.ShiftLeft | chip8.c:175-176 | `8xyE`: `Vx = (Vx * 2) mod 256` and VF is bit 7 of Vy |
| Properties.AddIntoFlag | chip8.c:167-168 | `8Fy4` loses the carry: VF ends as `(carry + Vy) mod 256` |
| Properties.ArithInvalid | chip8.c:177-179 | `8xyn` with `n` in 8..D or F is an invalid opcode |
| Properties.DrawEffect | chip8.c:78-105 | `Dxyn` faults iff sprite rows lie past memory; otherwise exactly the pixels hit by a set bit change, VF is 1 iff one of them was lit, and nothing else changes |
| Properties.DrawStep | chip8.c:185 | a `Dxyn` that does not fault XORs the sprite at `M[I..I+n)` onto the framebuffer at `(Vx, Vy)` and sets VF to its collision |
| Properties.RedrawRestores | chip8.c:78-105 | the same `Dxyn` twice restores the framebuffer; after a first draw without collision, the second collides iff the sprite has a set bit |
| Properties.ClearThenDraw | chip8.c:148 | after `00E0`, a draw lights exactly the pixels its set bits land on, and reports no collision |
| Properties.KeySkip | chip8.c:187-188 | `Ex9E` skips iff key Vx is down, and `ExA1` iff it is up; a Vx of 16 or more faults |
| Properties.KeysInvalid | chip8.c:189-191 | any other word of group E is an invalid opcode |
| Properties.WaitKey | chip8.c:195 | `Fx0A` stores the key in Vx and nothing else |
| Properties.SetTimer | chip8.c:196-197 | `Fx15` sets `DT = Vx` and `Fx18` sets `ST = Vx`, and nothing else changes |
| Properties.DelayRoundTrip | chip8.c:194-196 | `Fx15` followed by `Fy07` copies Vx into Vy through DT |
| Properties.AddIndex | chip8.c:198 | `Fx1E` sets `I = (I + Vx) mod 65536` and leaves VF alone |
| Properties.GlyphAddress | chip8.c:199 | `Fx29` sets `I = 5 * Vx` without checking Vx |
| Properties.GlyphSprite | chip8.c:199 | with the font of lines 56-76 in place, `Fx29` on a Vx below 16 leaves I at a 5-row sprite that is exactly that digit's glyph; a Vx of 16 or more points I past the font |
| Properties.DrawDigit | chip8.c:199 | with the font in place, `Fx29` then `Dyz5` (line 185) draws the glyph of digit Vx at `(Vy, Vz)` |
| Properties.TransferStep | chip8.c:200-204 | an `Fx33`, `Fx55` or `Fx65` word runs `Transfer` on its fields, with `PC + 2` |
| Properties.Bcd | chip8.c:200-202 | `Fx33` faults iff `I + 3` is past memory; otherwise it changes only memory, by `StoreBcd` |
| Properties.BcdDigits | chip8.c:200-202 | the three bytes written are digits below 10 with `100*M[I] + 10*M[I+1] + M[I+2] == Vx` |
| Properties.StoreRegisters | chip8.c:203 | `Fx55` faults iff `I + x + 1` is past memory; otherwise `M[I + k] = Vk` for `k <= x` and the rest of memory is kept |
| Properties.ReadRegisters | chip8.c:204 | `Fx65` faults iff `I + x + 1` is past memory; otherwise `Vk = M[I + k]` for `k <= x` and the other registers are kept |
| Properties.StoreThenRead | chip8.c:203-204 | `Fx55` then `Fx65` with the same x and I leaves V unchanged |
| Properties.MiscInvalid | chip8.c:205-207 | any other word of group F is an invalid opcode |
| Properties.InvalidIffUnrecognised | chip8.c:145-212 | a fetched word is an invalid opcode iff it matches no pattern of the instruction table `Recognised` |
| Properties.InitialState | chip8.c:18-39 | at start-up PC is 0x200 and all registers, timers, stack slots, pixels and keys are zero or off; the font is at 0, zeros fill memory up to 0x200, and the padded ROM follows |

## Left out

- The SDL window, surface and blitting, including the blit inside `draw_sprite` and the `SDL_FillRect` of `00E0`. These are foreign library calls; only the boolean framebuffer is modelled.
- `poll_keys` and the event loop of `await_keypress`. They are event input. The key flags are machine state, and the key `Fx0A` waits for is a parameter of `Exec` and `Step`.
- The case where `SDL_QUIT` arrives while `Fx0A` waits. It belongs to the event loop left out above.
- The pacing loop `start`. It uses the wall clock and floating-point accumulators. The instructions that read and write `DT` and `ST` are modelled, but the timers counting down and the beep are not.
- `rand` and `srand`. The random byte for `Cxkk` is a parameter.
- Opening and reading the file, argument handling, `atexit` and the `SIGINT` handler. These are process plumbing. The ROM is given as a byte sequence.
- The `running` flag and the loop that tests it. `chip8_stop` appears as the `Halt` outcome.
- A C access outside its array is undefined behaviour. The model replaces it by a `Fault` that changes nothing, instead of the memory corruption the C program might cause.
- Properties.AddCarry: requires x and y other than F, because the flag is written first and VF is then also an operand. `Properties.AddIntoFlag` states the x = F case.
- Properties.SubBorrow: requires x and y other than F, for the same reason.
- Properties.SubReverse: requires x and y other than F, for the same reason.
- Properties.ShiftRight: requires x other than F, because VF is the destination of both writes.
- Properties.ShiftLeft: requires x other than F, for the same reason.
- Properties.RedrawRestores: requires x and y other than F, because the first draw overwrites VF, which would move the second sprite.
