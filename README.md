# CHIP-8 interpreter core in Dafny

This project models the fetch-decode-execute core of a CHIP-8 interpreter, configured with the COSMAC VIP behaviour:
- 8XY1/8XY2/8XY3 clear VF;
- BNNN jumps to NNN + V0;
- 8XY6/8XYE shift VX in place and ignore VY.

The machine holds:
- 4096 bytes of memory, with the hexadecimal font at 0x50 and the program from 0x200;
- sixteen 8-bit registers V0..VF, a 16-bit program counter PC and index register I;
- an unbounded call stack;
- sixteen keys and a 32 × 64 monochrome pixel grid;
- the key latch used by FX0A;
- a delay timer and a sound timer, which count down 60 units per second;
- the time accumulator that runs one instruction every 1/500 s.

The model has two layers.
- **Value layer.** Each instruction is a function on an immutable `Commands.State`. `Cpu.Execute` fetches, advances PC and dispatches on the top nibble; `Cpu.Cycle` is one call of the cycle driver. The properties are proved here as lemmas: skips, call and return, flag arithmetic, the FX0A latch, sprite drawing, and the accumulator.
- **Object layer.** `Chip8.Machine` is the object the program keeps. Memory, registers, keys and pixels are arrays updated in place, and every handler is an imperative method. `Abstract()` reads the object as a `Commands.State`. Each method's postcondition says the new state is exactly what the value-layer function gives, so every lemma about the value layer holds for the object too. Sprite drawing is the nested loop of the display code, proved against `Screen.Draw` and `Screen.Collision`.

Modules:
- `Opcodes` (opcodes.dfy): nibble, byte and 12-bit views of an instruction word.
- `Ram` (ram.dfy): font, font addresses, BCD, sprite slices, the register block copies.
- `Registers` (registers.dfy): PC arithmetic and timer decay.
- `Screen` (screen.dfy): grid, XOR drawing with clipping, collision.
- `Commands` (commands.dfy): machine state and per-instruction semantics.
- `Cpu` (cpu.dfy): decoder, dispatcher, cycle driver and their properties.
- `Chip8` (chip8.dfy): the mutable machine.
- `LegacyMemory` (legacy_memory.dfy): the earlier `Memory` class in include/chip8/memory.h, the unit the repository's test exercises.

Aborts are modelled as preconditions. These are GSL `Expects` checks and `std::array::at` inside `noexcept` functions, which terminate the program. `Cpu.CanExecute` collects them for one instruction. The one exception the core throws is 00EE with an empty stack. It is the `StackUnderflow` outcome, and the methods report it as `ok == false`.

The family and sub-operation codes come from the standard CHIP-8 instruction table (Cowgod's Chip-8 Technical Reference, section 3.1). Each case name is matched to the handler it calls; the header that declares them is not part of this model. All sixteen top nibbles name a family, so the dispatcher's `default` arm cannot be reached. An unlisted sub-code in families 0, 8, E or F only advances PC (`Cpu.UnlistedOnlyAdvancesPc`).

## Model

| member | source | states |
|---|---|---|
| Opcodes.Nibble | src/ram.h:28-31 | nibble `pos` (at most 3) of the word is a value of at most 0xF |
| Opcodes.Byte | src/ram.h:33-36 | definition of get_byte: bits 8·pos .. 8·pos+7 of the word, pos at most 1; `Opcodes.Word` and `Opcodes.WordOfBytes` show the two bytes and the word determine each other |
| Opcodes.NibblesReassemble | src/ram.h:28-31 | the four nibbles, shifted back to their positions, rebuild the word |
| Opcodes.Addr12 | src/ram.h:38-40 | nibble 2 above byte 0 is the word masked with 0x0FFF, so below 0x1000 |
| Opcodes.Word | src/ram.h:96-100 | the fetched word has the byte at PC as its high byte and the next byte as its low byte |
| Opcodes.WordOfBytes | src/ram.h:33-36 | high byte and low byte reassemble the original word |
| Opcodes.DecodeExample | tests/memory_test.cpp:5-11 | 0x124E decodes to nibbles 1, 2, 4, E, bytes 0x12, 0x4E and address 0x24E |
| Registers.PcStepWraps | src/registers.h:20-27 | incr_pc and decr_pc work modulo 2^16, and each undoes the other |
| Registers.DecayTimer | src/registers.cpp:11-25 | a positive timer becomes max(0, t − 60·dt); a zero timer stays 0; a non-negative timer stays non-negative; with dt ≥ 0 it never grows |
| Registers.DecayAdds | src/registers.cpp:11-25 | decaying over dt1 and then dt2 equals decaying over dt1 + dt2 |
| Registers.DecayExamples | src/registers.cpp:6-25 | 5 becomes 4 after 1/60 s; a timer that reached 0 stays at 0 |
| Ram.FontGlyph | src/ram.h:75-93 | bytes 5·ch .. 5·ch+4 of the font table are glyph ch |
| Ram.FontLayout | src/ram.h:52-93 | the font is 80 bytes, 5 per glyph, lies below the program area, starts with F0 90 90 90 F0 and ends with F0 80 F0 80 80 |
| Ram.FontAddr | src/ram.h:112-116 | get_font_addr(ch) is 0x50 + 5·ch, and its five bytes lie inside the font region |
| Ram.BcdDigits | src/ram.h:118-125 | three digits, each below 10 |
| Ram.BcdDigitsValue | src/ram.h:118-125 | 100·d0 + 10·d1 + d2 is the value again |
| Ram.BcdExamples | src/ram.h:118-125 | 123 → 1 2 3, 0 → 0 0 0, 255 → 2 5 5 |
| Ram.StoreBcd | src/ram.h:118-125 | memory i..i+2 holds the digits of the value; no other byte changes |
| Ram.StoreBcdCells | src/ram.h:118-125 | the same as the three single-byte writes v/100, (v/10)%10, v%10 in that order |
| Ram.StoreBcdDecimal | src/ram.h:118-125 | the three stored bytes are decimal digits that spell out the value |
| Ram.Sprite | src/ram.h:102-110 | get_sprite(i, n) is exactly the n bytes from address i on, in order |
| Ram.Overwrite | src/ram.h:127-135 | a block copy: the target range holds the copied bytes and everything else is unchanged |
| Ram.Store | src/ram.h:127-130 | definition of store: V0..VX copied over memory from I on; the result has the memory's length, and `Ram.StoreLoadCells` states its contents |
| Ram.Load | src/ram.h:132-135 | definition of load: memory I..I+X copied over V0..VX; the result has the register file's length, and `Ram.StoreLoadCells` states its contents |
| Ram.StoreLoadCells | src/ram.h:127-135 | store puts V0..VX at i..i+X and keeps the rest of memory; load puts memory i..i+X into V0..VX and keeps the registers above VX |
| Ram.StoreThenLoad | src/ram.h:127-135 | loading back what was just stored, with the same I and X, leaves the registers as they were |
| Ram.StoreGuardAdmitsOverrun | src/ram.h:127-135 | the written guard i + x <= 4096 admits i = 0xFF1, x = 15, whose copy reaches index 4096 |
| Screen.Blank | src/display.cpp:93 | the initial grid is well formed and every cell is off |
| Screen.StartColumn | src/display.cpp:241 | x mod 64 is a valid column |
| Screen.StartRow | src/display.cpp:242 | y mod 32 is a valid row |
| Screen.PixelBitIsShift | src/display.cpp:250 | column j of a sprite row is set iff (row >> (7 − j)) & 1 is 1 |
| Screen.Covers | src/display.cpp:247-250 | definition: cell (r, c) lies in the clipped sprite rectangle and the sprite bit that lands on it is set |
| Screen.Draw | src/display.cpp:239-262 | definition of the grid after draw_sprite: every covered cell flipped; the result is a well-formed grid, and `Screen.DrawCells`, `Screen.DrawCell` and `Screen.DrawTwice` state what it does to each cell |
| Screen.Collision | src/display.cpp:247-264 | definition of has_flipped: some covered cell was lit; `Screen.CollisionDone` ties it to the loop's accumulated flag |
| Screen.DrawCells | src/display.cpp:247-260 | outside the clipped sprite rectangle no cell changes; inside, a cell flips exactly when the matching sprite bit is set |
| Screen.DrawCell | src/display.cpp:250-260 | cell (y0+i, x0+j) after drawing is the old cell XOR bit 7−j of sprite byte i |
| Screen.DrawUncovered | src/display.cpp:247-260 | a cell no set sprite bit covers keeps its value |
| Screen.DrawTwice | src/display.cpp:239-265 | drawing the same sprite at the same place twice restores the grid |
| Screen.SecondDrawCollides | src/display.cpp:239-265 | the second of two identical draws reports a collision iff the first lit some pixel |
| Screen.DrawTwiceFromBlank | src/display.cpp:239-265 | on a blank screen the second draw collides iff the sprite has a visible set bit |
| Screen.DrawOnBlank | src/display.cpp:239-265 | drawing on a blank screen never collides |
| Screen.CollisionDone | src/display.cpp:247-264 | the flag accumulated over all rows is exactly the collision predicate: some set bit landed on a lit cell |
| Commands.LowestPressedFrom | src/commands.cpp:177-182 | −1 iff no key from k on is pressed; otherwise the lowest pressed key |
| Commands.X | src/commands.h:25-26 | the register operand X is nibble 2 of the word, so it names one of V0..VF |
| Commands.Y | src/commands.h:37-38 | the register operand Y is nibble 1 of the word, so it names one of V0..VF |
| Commands.Skip | src/registers.h:20-22 | definition of incr_pc on the state: PC + 2 mod 2^16, nothing else |
| Commands.ClearOrReturn | src/commands.cpp:15-33 | definition: 00E0 blanks the grid, 00EE pops the stack into PC or throws on an empty stack, any other 0NNN does nothing; `Cpu.ReturnPops` and `Cpu.ReturnOnEmptyStackFails` state the return cases |
| Commands.Jump | src/commands.h:16-18 | definition of 1NNN: PC := NNN; `Cpu.JumpSetsPc` states it for a fetched instruction |
| Commands.Call | src/commands.h:20-23 | definition of 2NNN: push PC, then PC := NNN; `Cpu.CallThenReturn` pairs it with 00EE |
| Commands.IfRegNotEqValue | src/commands.h:25-29 | definition of 3XNN: skip when VX == NN; `Cpu.SkipIfRegEqualsValue` states the resulting PC |
| Commands.IfRegEqValue | src/commands.h:31-35 | definition of 4XNN: skip when VX != NN; `Cpu.SkipIfRegDiffersFromValue` states the resulting PC |
| Commands.IfRegNotEqReg | src/commands.h:37-41 | definition of 5XY_: skip when VX == VY; `Cpu.SkipIfRegsEqual` states the resulting PC |
| Commands.IfRegEqReg | src/commands.h:54-58 | definition of 9XY_: skip when VX != VY; `Cpu.SkipIfRegsDiffer` states the resulting PC |
| Commands.SetRegValue | src/commands.h:43-46 | definition of 6XNN: VX := NN |
| Commands.AddToReg | src/commands.h:48-51 | definition of 7XNN: VX := VX + NN mod 256; `Cpu.AddToRegKeepsFlag` states that VF is untouched |
| Commands.OperationValue | src/commands.cpp:38-122 | definition of the value each 8XYN case writes to VX (VY, OR, AND, XOR, sum, differences, shifts) |
| Commands.OperationFlag | src/commands.cpp:65-122 | definition of the value each flag-writing 8XYN case writes to VF (carry, no-borrow, bit shifted out, 0 after logic) |
| Commands.RegisterOperation | src/commands.cpp:35-124 | the register file after 8XYN keeps its 16 registers; `Commands.AdditionCarry`, `Commands.SubtractionBorrow`, `Commands.AltSubtractionBorrow`, `Commands.ShiftOutBit` and `Commands.LogicAndCopy` state each case |
| Commands.RegOperations | src/commands.cpp:35-124 | definition of 8XYN on the state: only the registers change, as `Commands.RegisterOperation` |
| Commands.SetIndex | src/commands.h:60-62 | definition of ANNN: I := NNN; `Cpu.SetIndexOnly` states it for a fetched instruction |
| Commands.JumpAddPlusV0 | src/commands.cpp:126-132 | definition of BNNN: PC := NNN + V0; `Cpu.JumpWithOffset` and `Cpu.JumpTargetNoWrap` state it |
| Commands.RandomNumber | src/commands.h:66-69 | definition of CXNN: VX := rnd & NN; `Commands.RandomMasked` states that VX stays within NN |
| Commands.LoadSprite | src/commands.cpp:134-142 | definition of DXYN: draw the N bytes at I at (VX, VY) and set VF to the collision; `Cpu.LoadSpritePreservesValid` and the `Screen` lemmas state its effect |
| Commands.KeyPressOperations | src/commands.cpp:144-164 | definition of EX9E and EXA1; `Cpu.KeySkip` states when they skip |
| Commands.WaitForKey | src/commands.cpp:174-194 | definition of FX0A's three branches; `Cpu.WaitWithoutKey`, `Cpu.WaitLatchesLowestKey`, `Cpu.WaitWhileHeld` and `Cpu.WaitEndsOnRelease` state them |
| Commands.TimerByte | src/commands.cpp:170 | definition of the FX07 cast of the delay timer to a byte: the floor, mod 256 |
| Commands.OtherOperations | src/commands.cpp:166-232 | definition of the FX family; `Cpu.OtherPreservesValid` states that it keeps the state well formed |
| Commands.CarryCompletesSum | src/commands.cpp:65-73 | wrapped sum plus 256 × carry is the true sum |
| Commands.BorrowCompletesDifference | src/commands.cpp:76-85 | a missing no-borrow flag adds 256 to the minuend, completing the wrapped difference |
| Commands.AdditionCarry | src/commands.cpp:65-73 | 8XY4: VF = 1 iff VX + VY > 255, VF:VX is the 9-bit sum, the flag wins when X = F, other registers unchanged |
| Commands.SubtractionBorrow | src/commands.cpp:76-85 | 8XY5: VF = 1 iff VX ≥ VY, VX = VX − VY mod 256, other registers unchanged |
| Commands.AltSubtractionBorrow | src/commands.cpp:100-109 | 8XY7: VF = 1 iff VY ≥ VX, VX = VY − VX mod 256, other registers unchanged |
| Commands.ShiftsLoseOneBit | src/commands.cpp:87-122 | the bit shifted out, put back, restores the byte, for both shift directions |
| Commands.ShiftOutBit | src/commands.cpp:87-122 | 8XY6: VX = old VX >> 1 and VF = old VX & 1; 8XYE: VX = old VX << 1 mod 256 and VF = bit 7 of old VX; VF holds the flag even when X = F; flag and new VX rebuild old VX; other registers unchanged; the result does not depend on Y |
| Commands.LogicAndCopy | src/commands.cpp:35-62 | 8XY0 copies VY; OR/AND/XOR compute into VX and clear VF; an unlisted low nibble changes nothing |
| Commands.RandomMasked | src/commands.h:66-69 | CXNN leaves no bit of VX set outside NN, whatever the random byte |
| Cpu.Code | src/cpu.cpp:43-135 | each family has a top-nibble code of at most 0xF |
| Cpu.OperationType | src/cpu.cpp:43 | the decoded family's code is the word's top nibble |
| Cpu.OperationTypeOfCode | src/cpu.cpp:43 | a word whose top nibble is a family's code decodes to that family, whatever the other bits |
| Cpu.Fetch | src/cpu.cpp:39 | the word at PC: memory[PC] high, memory[PC+1] low |
| Cpu.Dispatch | src/cpu.cpp:43-140 | definition of the switch on the operation type: one handler per family; `Cpu.DispatchPreservesValid` states that it keeps the state well formed |
| Cpu.Execute | src/cpu.cpp:38-41 | definition of fetch_decode_execute: fetch at PC, advance PC, dispatch; the `Cpu` lemmas state each instruction's effect |
| Cpu.Cycle | src/cpu.cpp:23-36 | definition of instr_cycle; `Cpu.CycleAccumulator` and `Cpu.NoInstructionBeforePeriod` state its behaviour |
| Cpu.UpdateTimers | src/registers.cpp:11-25 | only the two timers change; neither goes negative or grows for dt ≥ 0; two positive timers drop by the same amount |
| Cpu.ClearOrReturnPreservesValid | src/commands.cpp:15-33 | 00E0 and 00EE keep the state well formed |
| Cpu.LoadSpritePreservesValid | src/commands.cpp:134-142 | DXYN keeps the state well formed |
| Cpu.OtherPreservesValid | src/commands.cpp:166-232 | the FX handlers keep the state well formed (FX0A keeps the latch in −1..15) |
| Cpu.DispatchPreservesValid | src/cpu.cpp:43-140 | every handler keeps the state well formed |
| Cpu.ExecutePreservesValid | src/cpu.cpp:38-141 | one executed instruction keeps the state well formed |
| Cpu.JumpSetsPc | src/commands.h:16-18 | 1NNN sets PC to NNN and changes nothing else |
| Cpu.SkipIfRegEqualsValue | src/commands.h:25-29 | 3XNN lands 4 bytes past the instruction iff VX == NN, else 2; nothing else changes |
| Cpu.SkipIfRegDiffersFromValue | src/commands.h:31-35 | 4XNN lands 4 bytes past iff VX != NN, else 2 |
| Cpu.SkipIfRegsEqual | src/commands.h:37-41 | 5XY_ lands 4 bytes past iff VX == VY, else 2, whatever the low nibble |
| Cpu.SkipIfRegsDiffer | src/commands.h:54-58 | 9XY_ lands 4 bytes past iff VX != VY, else 2 |
| Cpu.KeySkip | src/commands.cpp:144-164 | EX9E skips iff key VX is pressed, EXA1 iff it is not |
| Cpu.CallThenReturn | src/commands.h:20-23 | 2NNN followed by 00EE only advances PC by 2 past the call; the stack is as before |
| Cpu.ReturnOnEmptyStackFails | src/commands.cpp:21-24 | 00EE on an empty stack throws |
| Cpu.ReturnPops | src/commands.cpp:21-27 | 00EE sets PC to the top of the stack and pops it; nothing else changes |
| Cpu.UnlistedOnlyAdvancesPc | src/commands.cpp:29-31 | an unlisted sub-code in family 0, 8, E or F only advances PC |
| Cpu.WaitWithoutKey | src/commands.cpp:176-186 | FX0A with nothing latched and no key down leaves the state unchanged, so it runs again |
| Cpu.WaitLatchesLowestKey | src/commands.cpp:176-186 | FX0A with nothing latched latches the lowest pressed key, writes it to VX and stays on the instruction |
| Cpu.WaitWhileHeld | src/commands.cpp:187-188 | FX0A while the latched key is held changes nothing |
| Cpu.WaitEndsOnRelease | src/commands.cpp:189-191 | FX0A after release clears the latch and moves past the instruction |
| Cpu.SetIndexOnly | src/commands.h:60-62 | ANNN sets I = NNN; PC only advances and the registers are unchanged |
| Cpu.JumpWithOffset | src/commands.cpp:126-132 | BNNN sets PC to NNN + V0 and changes nothing else |
| Cpu.JumpTargetNoWrap | src/commands.cpp:128 | NNN + V0 never wraps around 16 bits |
| Cpu.AddToRegKeepsFlag | src/commands.h:48-51 | 7XNN adds NN to VX mod 256 and leaves VF alone when X ≠ F |
| Cpu.NoInstructionBeforePeriod | src/cpu.cpp:23-35 | below one period of accumulated time, only the timers decay and the time adds up |
| Cpu.CycleAccumulator | src/cpu.cpp:23-35 | an instruction runs iff the accumulator reaches 1/500 s, on the timer-updated state; exactly one period is subtracted; with dt ≥ 0 the accumulator never goes negative |
| Chip8.Machine.constructor | src/cpu.cpp:21 | font at 0x50, ROM at 0x200, registers, I and timers zero, PC = 0x200, empty stack, no key pressed, blank grid, latch −1, no time accumulated |
| Chip8.Machine.Fetch | src/ram.h:96-100 | the word at `at`: memory[at] high, memory[at+1] low |
| Chip8.Machine.GetSprite | src/ram.h:102-110 | get_sprite on the machine's memory: `Ram.Sprite` of its contents |
| Chip8.Machine.IsPressed | src/display.cpp:304-306 | is_pressed: the state of key k, which must be below 16 |
| Chip8.Machine.StoreBcd | src/ram.h:118-125 | memory becomes `Ram.StoreBcd` of the old memory; nothing else changes |
| Chip8.Machine.Store | src/ram.h:127-130 | memory becomes `Ram.Store` of the old memory and the registers; nothing else changes |
| Chip8.Machine.Load | src/ram.h:132-135 | the registers become `Ram.Load` of memory and the old registers |
| Chip8.Machine.IncrPc | src/registers.h:20-22 | PC += 2 mod 2^16; nothing else changes |
| Chip8.Machine.DecrPc | src/registers.h:25-27 | PC −= 2 mod 2^16; nothing else changes |
| Chip8.Machine.AddIndex | src/registers.h:30-32 | I += offset mod 2^16; nothing else changes, VF included |
| Chip8.Machine.SetPc | src/registers.h:35-37 | only PC changes |
| Chip8.Machine.SetIndex | src/registers.h:39-41 | only I changes |
| Chip8.Machine.SetTimer | src/registers.h:43-45 | only the delay timer changes |
| Chip8.Machine.SetSound | src/registers.h:47-49 | only the sound timer changes |
| Chip8.Machine.SetRegister | src/registers.h:65-67 | only register x changes |
| Chip8.Machine.UpdateTimers | src/registers.cpp:11-25 | the state becomes `Cpu.UpdateTimers` of the old one |
| Chip8.Machine.ClearScreen | src/display.cpp:231-237 | every pixel is off |
| Chip8.Machine.ToggleKey | src/display.cpp:300-302 | only key k is negated |
| Chip8.Machine.DrawSprite | src/display.cpp:239-265 | the grid becomes `Screen.Draw` of the old grid at (x mod 64, y mod 32), and the result is `Screen.Collision` |
| Chip8.Machine.DrawRows | src/display.cpp:247-262 | the row loop: the drawn grid and the collision flag over all rows |
| Chip8.Machine.DrawRow | src/display.cpp:249-261 | the column loop: one more row drawn, the flag extended over it |
| Chip8.Machine.ClearOrReturn | src/commands.cpp:15-33 | the new state is `Commands.ClearOrReturn`; on an empty-stack return it reports failure and changes nothing |
| Chip8.Machine.Jump | src/commands.h:16-18 | the new state is `Commands.Jump` |
| Chip8.Machine.Call | src/commands.h:20-23 | the new state is `Commands.Call` |
| Chip8.Machine.IfRegNotEqValue | src/commands.h:25-29 | the new state is `Commands.IfRegNotEqValue` |
| Chip8.Machine.IfRegEqValue | src/commands.h:31-35 | the new state is `Commands.IfRegEqValue` |
| Chip8.Machine.IfRegNotEqReg | src/commands.h:37-41 | the new state is `Commands.IfRegNotEqReg` |
| Chip8.Machine.IfRegEqReg | src/commands.h:54-58 | the new state is `Commands.IfRegEqReg` |
| Chip8.Machine.SetRegValue | src/commands.h:43-46 | the new state is `Commands.SetRegValue` |
| Chip8.Machine.AddToReg | src/commands.h:48-51 | the new state is `Commands.AddToReg` |
| Chip8.Machine.RegOperations | src/commands.cpp:35-124 | the new state is `Commands.RegOperations` |
| Chip8.Machine.RegisterOperation | src/commands.cpp:35-124 | the registers become `Commands.RegisterOperation` of the old ones |
| Chip8.Machine.Alu | src/commands.cpp:38-122 | the value and flag each 8XYN case computes, and whether it writes VF |
| Chip8.Machine.SetIndexCommand | src/commands.h:60-62 | the new state is `Commands.SetIndex` |
| Chip8.Machine.JumpAddPlusV0 | src/commands.cpp:126-132 | the new state is `Commands.JumpAddPlusV0` |
| Chip8.Machine.RandomNumber | src/commands.h:66-69 | the new state is `Commands.RandomNumber` with the given random byte |
| Chip8.Machine.LoadSprite | src/commands.cpp:134-142 | the new state is `Commands.LoadSprite`: sprite drawn, VF = collision |
| Chip8.Machine.KeyPressOperations | src/commands.cpp:144-164 | the new state is `Commands.KeyPressOperations` |
| Chip8.Machine.SkipIfKey | src/commands.cpp:146-161 | PC advances iff key `key` is in the requested state |
| Chip8.Machine.WaitForKey | src/commands.cpp:174-194 | the new state is `Commands.WaitForKey` |
| Chip8.Machine.LatchKey | src/commands.cpp:176-186 | with nothing latched: the new state is `Commands.WaitForKey` |
| Chip8.Machine.KeyHeldOrReleased | src/commands.cpp:187-191 | with a key latched: the new state is `Commands.WaitForKey` |
| Chip8.Machine.SetLatch | src/commands.cpp:179 | only the latch changes |
| Chip8.Machine.RecordKey | src/commands.cpp:183-185 | VX receives the latched key if one was found |
| Chip8.Machine.FirstPressedKey | src/commands.cpp:177-182 | the key scan returns `Commands.LowestPressedFrom(keys, 0)` |
| Chip8.Machine.OtherOperations | src/commands.cpp:166-232 | the new state is `Commands.OtherOperations` |
| Chip8.Machine.TimerOrKeyOperation | src/commands.cpp:169-204 | FX07, FX0A, FX15, FX18: the new state is `Commands.OtherOperations` |
| Chip8.Machine.IndexOrMemoryOperation | src/commands.cpp:206-230 | FX1E, FX29, FX33, FX55, FX65: the new state is `Commands.OtherOperations` |
| Chip8.Machine.AddRegisterToIndex | src/commands.cpp:206-209 | FX1E: the new state is `Commands.OtherOperations` |
| Chip8.Machine.LoadRegisters | src/commands.cpp:227-230 | FX65: the new state is `Commands.OtherOperations` |
| Chip8.Machine.Dispatch | src/cpu.cpp:43-140 | the new state is `Cpu.Dispatch`; on the 00EE exception it reports failure and changes nothing |
| Chip8.Machine.FetchDecodeExecute | src/cpu.cpp:38-141 | the new state is `Cpu.Execute`; if 00EE threw, only the PC advance remains |
| Chip8.Machine.InstrCycle | src/cpu.cpp:23-36 | accumulator and state follow `Cpu.Cycle` |
| LegacyMemory.Extracted | include/chip8/memory.h:46 | the formatted stream read yields no more bytes than the file has, and none of them is whitespace |
| LegacyMemory.ExtractedWithoutSpaces | include/chip8/memory.h:46 | a file without whitespace bytes is read exactly |
| LegacyMemory.ExtractedLength | include/chip8/memory.h:46 | the image is shorter than the file by the number of whitespace bytes |
| LegacyMemory.SpaceByteDropped | include/chip8/memory.h:46 | the file 60 20 61 05 is read as 60 61 05 |
| LegacyMemory.Memory.constructor | include/chip8/memory.h:40-73 | the font sits at 0x50; the extracted image sits from 0x200 on; the ROM size is its length |
| LegacyMemory.Memory.CopyRom | include/chip8/memory.h:46-51 | the copy writes the extracted image from 0x200 on, returns its length, and leaves memory below 0x200 alone |
| LegacyMemory.Memory.CopyFont | include/chip8/memory.h:53-72 | the font table lands at 0x50; the program area is untouched |
| LegacyMemory.Memory.Fetch | include/chip8/memory.h:75-78 | the pair (data[pc], data[pc+1]) in that order |
| LegacyMemory.Memory.GetFontChar | include/chip8/memory.h:80-88 | the five bytes at 0x50 + 5·ch are glyph ch |
| LegacyMemory.OpcodeFetching | tests/memory_test.cpp:5-11 | a ROM starting 12 4E fetches 0x124E at address 512 |

## Left out

- OpenGL and GLFW presentation in src/display.cpp are not modelled: window setup, shaders, `draw_pixel`, `swap_buffers`, `poll_events`, `should_close`. Pixel drawing calls have no effect on the model.
- `process_keys`, the host-key callback, is not modelled. Keys change only through `Chip8.Machine.ToggleKey`.
- Reading the ROM file is not modelled: the ROM is a byte-sequence parameter. The RAM constructor does not bound the ROM length, so the model requires it to fit in 4096 − 0x200 bytes.
- The random number generator is not modelled: CXNN takes the random byte as a parameter.
- Timers and the accumulator are IEEE doubles in the program and `real` here, so rounding is not modelled.
- Commands.TimerByte: FX07's `static_cast<u8>` of the timer is modelled as the floor taken mod 256. The conversion is undefined in the program for values of 256 or more. With time steps dt ≥ 0 the timers never get there, since FX15/FX18 load at most 255 and decay only lowers them. A negative time step, which `Cpu.CanCycle` admits because `instr_cycle` does not reject one, makes a positive timer grow. Past 255 the model then wraps, where the program's behaviour is undefined.
- `run_chip8` and the entry points in src/chip8.cpp, chip8/chip8.cpp and src/main.cpp are not modelled. They hold the wall-clock loop, the command line and console output.
- src/memory.h, src/memory.cpp and src/ram.cpp are not part of this model. They hold a superseded memory variant, printing and the `Opcode` constructor.
- Debug printing is not modelled: the `CH_DEBUG` dumps and the "skip instruction" and "unknown instruction" messages.
- The `old_shift` and `old_jump_offset` alternatives are compile-time constants set to false and true, so only the configured variant is modelled.
- Memory outside the font and the ROM is uninitialised in the program, and the constructors promise nothing about it.
- `get_regs_span` and `Registers::at` are direct accesses to the register array `v`; `at`'s bound is the array bound.
- Chip8.Machine.IsPressed takes an `int` key and requires it to be below 16, which covers both the `u8` and `i8` callers.
- Chip8.Machine.DrawSprite does not model `draw_sprite` narrowing the sprite length to `u8`. The sprites come from DXYN and are at most 15 bytes long.
- LegacyMemory.Memory.constructor does not model the `u16` width of `m_rom_size`. The image is at most 3584 bytes, so it always fits.
- `Ram.Store` and `Ram.Load` state only the result length in their own contracts. The contents are in `Ram.StoreLoadCells` and `Ram.StoreThenLoad`.

## Findings

| source | as written | input that shows it | evidently intended | confidence | as-written member | corrected member |
|---|---|---|---|---|---|---|
| include/chip8/memory.h:46 | the ROM is read with `std::istream_iterator<u8>`, a formatted read that skips whitespace bytes (0x09–0x0D, 0x20) | ROM bytes 60 20 61 05 (V0 := 0x20, V1 := 5) are loaded as 60 61 05, so the word at 0x200 is 0x6061 | every ROM byte copied verbatim, as src/ram.h:67 does with `istreambuf_iterator` | high; not executed | LegacyMemory.SpaceByteDropped | Chip8.Machine.constructor |
| src/ram.h:127-135 | `store`/`load` guard with `i + vx <= N` and then copy vx + 1 bytes | I = 0xFF1 with FF55 (X = 15): the guard holds, and the copy writes index 4096, one past the end | `i + vx < N`, so that the last index written or read, i + vx, lies inside memory | high; not executed | Ram.StoreGuardAdmitsOverrun | Chip8.Machine.Store |
