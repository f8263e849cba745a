/** The interpreter as the program keeps it: one object whose memory,
    registers, keys and pixels are fixed-size buffers updated in place
    (RAM, Registers and Display in src/ram.h, src/registers.h and
    src/display.cpp, brought together by CPU in src/cpu.h). Every operation
    is proved against the value-level model: Abstract() reads the object as a
    Commands.State, and each method's postcondition says which function of
    Commands or Cpu the new state is. */
module Chip8 {
  import opened Opcodes
  import Ram
  import Registers
  import Screen
  import Commands
  import Cpu

  class Machine {
    /** RAM::m_data */
    const memory: array<bv8>
    /** Registers::m_regs, V0..VF */
    const v: array<bv8>
    /** Display::m_keys_pressed */
    const keys: array<bool>
    /** Display::m_display, indexed [row, column]; true is a lit pixel */
    const grid: array2<bool>
    var pc: bv16
    var index: bv16
    /** CPU::m_stack, top = last element */
    var stack: seq<bv16>
    /** CPU::m_key_pressed: the key latched by FX0A, or -1 */
    var keyLatch: int
    /** Registers::m_timer and Registers::m_sound */
    var delay: real
    var sound: real
    /** CPU::m_time_passed: time not yet spent on instructions */
    var timePassed: real

    ghost predicate Valid()
      reads this
    {
      memory.Length == Ram.Size && v.Length == Registers.NumberOfRegisters &&
      keys.Length == Commands.KeyCount &&
      grid.Length0 == Screen.Height && grid.Length1 == Screen.Width &&
      memory != v && keys as object != memory && keys as object != v &&
      -1 <= keyLatch < Commands.KeyCount
    }

    /** The pixel buffer as rows of cells. */
    ghost function Pixels(): (g: Screen.Grid)
      requires grid.Length0 == Screen.Height && grid.Length1 == Screen.Width
      reads grid
    {
      seq(Screen.Height, r requires 0 <= r < Screen.Height reads grid =>
        seq(Screen.Width, c requires 0 <= c < Screen.Width reads grid => grid[r, c]))
    }

    /** The whole interpreter state except the time accumulator. */
    ghost function Abstract(): (s: Commands.State)
      requires Valid()
      reads this, memory, v, keys, grid
      ensures Commands.Valid(s)
    {
      Commands.State(memory[..], v[..], pc, index, stack, keys[..], Pixels(), keyLatch, delay, sound)
    }

    /** CPU(rom): RAM(rom) copies the ROM to 0x200 and the font to 0x50;
        Registers(rom_start) zeroes the registers, I and the timers and sets
        PC; Display() clears pixels and keys; the stack is empty, no key is
        latched and no time has accumulated. The ROM must fit in memory, as
        the copy does not check. Memory outside the font and the ROM is left
        as it happens to be. */
    constructor(rom: seq<bv8>)
      requires |rom| <= Ram.Size - Ram.RomStart
      ensures Valid()
      ensures memory[Ram.FontStart..Ram.FontStart + Ram.FontSize] == Ram.Font
      ensures memory[Ram.RomStart..Ram.RomStart + |rom|] == rom
      ensures forall k :: 0 <= k < Registers.NumberOfRegisters ==> v[k] == 0
      ensures pc == Ram.RomStart as bv16 && index == 0 && stack == []
      ensures forall k :: 0 <= k < Commands.KeyCount ==> !keys[k]
      ensures Pixels() == Screen.Blank()
      ensures keyLatch == -1 && delay == 0.0 && sound == 0.0 && timePassed == 0.0
    {
      var mem := new bv8[Ram.Size];
      var k := 0;
      while k < |rom|
        invariant 0 <= k <= |rom|
        invariant mem[Ram.RomStart..Ram.RomStart + k] == rom[..k]
      {
        mem[Ram.RomStart + k] := rom[k];
        k := k + 1;
      }
      k := 0;
      while k < Ram.FontSize
        invariant 0 <= k <= Ram.FontSize
        invariant mem[Ram.RomStart..Ram.RomStart + |rom|] == rom
        invariant mem[Ram.FontStart..Ram.FontStart + k] == Ram.Font[..k]
      {
        mem[Ram.FontStart + k] := Ram.Font[k];
        k := k + 1;
      }
      memory := mem;
      v := new bv8[Registers.NumberOfRegisters](_ => 0);
      keys := new bool[Commands.KeyCount](_ => false);
      grid := new bool[Screen.Height, Screen.Width]((_, _) => false);
      pc, index, stack := Ram.RomStart as bv16, 0, [];
      keyLatch, delay, sound, timePassed := -1, 0.0, 0.0, 0.0;
      new;
      PixelsAre(Screen.Blank());
    }

    // ----- RAM (src/ram.h) -----

    /** RAM::fetch: the big-endian word at pc; memory is only read. */
    function Fetch(at: bv16): (op: bv16)
      requires Valid() && at as int + 1 < Ram.Size
      reads this, memory
      ensures Byte(op, 1) == memory[at] && Byte(op, 0) == memory[at as int + 1]
    {
      Word(memory[at], memory[at as int + 1])
    }

    /** RAM::get_sprite on the memory array. */
    function GetSprite(i: bv16, n: bv8): (sprite: seq<bv8>)
      requires Valid() && i as int + n as int < Ram.Size
      reads this, memory
    {
      Ram.Sprite(memory[..], i, n)
    }

    /** RAM::store_bcd: the decimal digits of vx at i, i+1, i+2. */
    method StoreBcd(i: bv16, vx: bv8)
      requires Valid() && i as int + 2 < Ram.Size
      modifies memory
      ensures Valid()
      ensures memory[..] == Ram.StoreBcd(old(memory[..]), i as nat, vx)
      ensures Abstract() == old(Abstract()).(memory := memory[..])
    {
      var at := i as nat;
      memory[at] := vx / 100;
      memory[at + 1] := (vx / 10) % 10;
      memory[at + 2] := vx % 10;
      Ram.StoreBcdCells(old(memory[..]), at, vx);
      assert memory[..] == old(memory[..])[at := vx / 100][at + 1 := (vx / 10) % 10][at + 2 := vx % 10];
    }

    /** RAM::store: V0..Vx copied to memory from address at on. The copy
        writes at..at+x, so at + x must be an address. */
    method Store(at: nat, x: nat)
      requires Valid() && x < Registers.NumberOfRegisters && at + x < Ram.Size
      modifies memory
      ensures Valid()
      ensures memory[..] == Ram.Store(old(memory[..]), v[..], at, x)
      ensures Abstract() == old(Abstract()).(memory := memory[..])
    {
      var k := 0;
      while k <= x
        invariant 0 <= k <= x + 1
        invariant forall j :: 0 <= j < Ram.Size ==>
          memory[j] == if at <= j < at + k then v[j - at] else old(memory[j])
      {
        memory[at + k] := v[k];
        k := k + 1;
      }
      ghost var r := Ram.Store(old(memory[..]), v[..], at, x);
      Ram.OverwriteAt(old(memory[..]), at, v[..x + 1]);
      assert memory[..] == r by {
        forall j | 0 <= j < Ram.Size ensures memory[j] == r[j] {
        }
      }
    }

    /** RAM::load: memory from address at on copied to V0..Vx. */
    method Load(at: nat, x: nat)
      requires Valid() && x < Registers.NumberOfRegisters && at + x < Ram.Size
      modifies v
      ensures Valid()
      ensures v[..] == Ram.Load(memory[..], old(v[..]), at, x)
    {
      var k := 0;
      while k <= x
        invariant 0 <= k <= x + 1
        invariant forall j :: 0 <= j < Registers.NumberOfRegisters ==>
          v[j] == if j < k then memory[at + j] else old(v[j])
      {
        v[k] := memory[at + k];
        k := k + 1;
      }
      ghost var r := Ram.Load(memory[..], old(v[..]), at, x);
      Ram.OverwriteAt(old(v[..]), 0, memory[at..at + x + 1]);
      assert v[..] == r by {
        forall j | 0 <= j < Registers.NumberOfRegisters ensures v[j] == r[j] {
        }
      }
    }

    // ----- Registers (src/registers.h, src/registers.cpp) -----

    method IncrPc()
      requires Valid()
      modifies this
      ensures Valid() && timePassed == old(timePassed)
      ensures Abstract() == old(Abstract()).(pc := old(pc) + 2)
    {
      pc := pc + 2;
    }

    method DecrPc()
      requires Valid()
      modifies this
      ensures Valid() && timePassed == old(timePassed)
      ensures Abstract() == old(Abstract()).(pc := old(pc) - 2)
    {
      pc := pc - 2;
    }

    /** I grows by offset modulo 2^16; VF is not touched. */
    method AddIndex(offset: bv16)
      requires Valid()
      modifies this
      ensures Valid() && timePassed == old(timePassed)
      ensures Abstract() == old(Abstract()).(index := old(index) + offset)
    {
      index := index + offset;
    }

    /** Registers::at(x) = b: register x alone changes. */
    method SetRegister(x: nat, b: bv8)
      requires Valid() && x < Registers.NumberOfRegisters
      modifies v
      ensures Valid()
      ensures Abstract() == old(Abstract()).(v := old(Abstract()).v[x := b])
    {
      ghost var s := Abstract();
      v[x] := b;
      assert v[..] == s.v[x := b];
    }

    method SetPc(addr: bv16)
      requires Valid()
      modifies this
      ensures Valid() && timePassed == old(timePassed)
      ensures Abstract() == old(Abstract()).(pc := addr)
    {
      pc := addr;
    }

    method SetIndex(addr: bv16)
      requires Valid()
      modifies this
      ensures Valid() && timePassed == old(timePassed)
      ensures Abstract() == old(Abstract()).(index := addr)
    {
      index := addr;
    }

    method SetTimer(time: real)
      requires Valid()
      modifies this
      ensures Valid() && timePassed == old(timePassed)
      ensures Abstract() == old(Abstract()).(delay := time)
    {
      delay := time;
    }

    method SetSound(time: real)
      requires Valid()
      modifies this
      ensures Valid() && timePassed == old(timePassed)
      ensures Abstract() == old(Abstract()).(sound := time)
    {
      sound := time;
    }

    /** Registers::update_timers: each positive timer loses 60 units per
        second of dt and stops at 0. */
    method UpdateTimers(dt: real)
      requires Valid()
      modifies this
      ensures Valid() && timePassed == old(timePassed)
      ensures Abstract() == Cpu.UpdateTimers(old(Abstract()), dt)
    {
      var decrement := dt * Registers.DecrementSpeed;
      if delay > 0.0 {
        delay := delay - decrement;
        if delay < 0.0 {
          delay := 0.0;
        }
      }
      if sound > 0.0 {
        sound := sound - decrement;
        if sound < 0.0 {
          sound := 0.0;
        }
      }
    }

    // ----- Display (src/display.cpp), without the drawing calls -----

    /** Display::clear_screen: every pixel off. */
    method ClearScreen()
      requires Valid()
      modifies grid
      ensures Valid()
      ensures Pixels() == Screen.Blank()
    {
      var r := 0;
      while r < Screen.Height
        invariant 0 <= r <= Screen.Height
        invariant forall i, j :: 0 <= i < r && 0 <= j < Screen.Width ==> !grid[i, j]
      {
        var c := 0;
        while c < Screen.Width
          invariant 0 <= c <= Screen.Width
          invariant forall i, j :: 0 <= i < r && 0 <= j < Screen.Width ==> !grid[i, j]
          invariant forall j :: 0 <= j < c ==> !grid[r, j]
        {
          grid[r, c] := false;
          c := c + 1;
        }
        r := r + 1;
      }
      PixelsAre(Screen.Blank());
    }

    /** Display::toggle_key: key k flips, no other key changes. */
    method ToggleKey(k: bv8)
      requires Valid() && k < 16
      modifies keys
      ensures Valid()
      ensures keys[..] == old(keys[..])[k := !old(keys[k])]
    {
      keys[k] := !keys[k];
    }

    /** Display::is_pressed; the key number is taken as an integer, which
        is what the callers' u8 and i8 values convert to. */
    function IsPressed(k: int): (pressed: bool)
      requires Valid() && 0 <= k < 16
      reads this, keys
    {
      keys[k]
    }

    /** Display::draw_sprite: x and y are reduced modulo the screen size, each
        set sprite bit flips the pixel it lands on (nothing wraps around the
        edges), and the answer tells whether a lit pixel was turned off. The
        row count is a u8 in the code, hence the bound on the sprite. */
    method DrawSprite(sprite: seq<bv8>, x: bv8, y: bv8) returns (flipped: bool)
      requires Valid() && |sprite| < 256
      modifies grid
      ensures Valid()
      ensures Pixels() == Screen.Draw(old(Pixels()), sprite, Screen.StartColumn(x), Screen.StartRow(y))
      ensures flipped == Screen.Collision(old(Pixels()), sprite, Screen.StartColumn(x), Screen.StartRow(y))
    {
      var x0, y0 := Screen.StartColumn(x), Screen.StartRow(y);
      ghost var g0 := Pixels();
      ghost var d := Screen.Draw(g0, sprite, x0, y0);
      Screen.DrawBeforeStart(g0, sprite, x0, y0);
      flipped := DrawRows(sprite, x0, y0, g0);
      PixelsAre(d);
    }

    /** The pixel buffer holds exactly the cells of g. */
    lemma PixelsAre(g: Screen.Grid)
      requires Valid() && Screen.WellFormed(g)
      requires forall r, c :: 0 <= r < Screen.Height && 0 <= c < Screen.Width ==> grid[r, c] == g[r][c]
      ensures Pixels() == g
    {
      var p := Pixels();
      forall r | 0 <= r < Screen.Height ensures p[r] == g[r] {
      }
    }

    /** draw_sprite's outer loop, over the sprite rows down to the bottom
        edge. */
    method DrawRows(sprite: seq<bv8>, x0: nat, y0: nat, ghost g0: Screen.Grid) returns (flipped: bool)
      requires Valid() && Screen.WellFormed(g0) && |sprite| < 256
      requires x0 < Screen.Width && y0 < Screen.Height
      requires forall r, c :: 0 <= r < Screen.Height && 0 <= c < Screen.Width ==>
        grid[r, c] == if Screen.Before(x0, y0, 0, 0, r, c) then Screen.Draw(g0, sprite, x0, y0)[r][c] else g0[r][c]
      modifies grid
      ensures forall r, c :: 0 <= r < Screen.Height && 0 <= c < Screen.Width ==>
        grid[r, c] == Screen.Draw(g0, sprite, x0, y0)[r][c]
      ensures flipped == Screen.Collision(g0, sprite, x0, y0)
    {
      ghost var d := Screen.Draw(g0, sprite, x0, y0);
      var n := |sprite|;
      flipped := false;
      var i := 0;
      while i < n && y0 + i < Screen.Height
        invariant 0 <= i <= n && y0 + i <= Screen.Height
        invariant forall r, c :: 0 <= r < Screen.Height && 0 <= c < Screen.Width ==>
          grid[r, c] == if Screen.Before(x0, y0, i, 0, r, c) then d[r][c] else g0[r][c]
        invariant flipped == Screen.CollisionBefore(g0, sprite, x0, y0, i, 0)
      {
        flipped := DrawRow(sprite, i, x0, y0, g0, flipped);
        i := i + 1;
      }
      Screen.CollisionDone(g0, sprite, x0, y0, i);
      Screen.DrawAfterEnd(g0, sprite, x0, y0, i);
    }

    /** One pass of draw_sprite's outer loop: row i of the sprite, bit by bit
        from the left, up to the right edge. */
    method DrawRow(sprite: seq<bv8>, i: nat, x0: nat, y0: nat, ghost g0: Screen.Grid, flippedBefore: bool)
      returns (flipped: bool)
      requires Valid() && Screen.WellFormed(g0)
      requires i < |sprite| && y0 + i < Screen.Height && x0 < Screen.Width
      requires forall r, c :: 0 <= r < Screen.Height && 0 <= c < Screen.Width ==>
        grid[r, c] == if Screen.Before(x0, y0, i, 0, r, c) then Screen.Draw(g0, sprite, x0, y0)[r][c] else g0[r][c]
      requires flippedBefore == Screen.CollisionBefore(g0, sprite, x0, y0, i, 0)
      modifies grid
      ensures forall r, c :: 0 <= r < Screen.Height && 0 <= c < Screen.Width ==>
        grid[r, c] == if Screen.Before(x0, y0, i + 1, 0, r, c) then Screen.Draw(g0, sprite, x0, y0)[r][c] else g0[r][c]
      ensures flipped == Screen.CollisionBefore(g0, sprite, x0, y0, i + 1, 0)
    {
      ghost var d := Screen.Draw(g0, sprite, x0, y0);
      var row := sprite[i];
      flipped := flippedBefore;
      var j := 0;
      while j < Screen.SpriteWidth && x0 + j < Screen.Width
        invariant 0 <= j <= Screen.SpriteWidth && x0 + j <= Screen.Width
        invariant forall r, c :: 0 <= r < Screen.Height && 0 <= c < Screen.Width ==>
          grid[r, c] == if Screen.Before(x0, y0, i, j, r, c) then d[r][c] else g0[r][c]
        invariant flipped == Screen.CollisionBefore(g0, sprite, x0, y0, i, j)
      {
        Screen.CollisionBeforeStep(g0, sprite, x0, y0, i, j);
        Screen.DrawCell(g0, sprite, x0, y0, i, j);
        if Screen.PixelBit(row, j) {
          if grid[y0 + i, x0 + j] {
            grid[y0 + i, x0 + j] := false;
            flipped := true;
          } else {
            grid[y0 + i, x0 + j] := true;
          }
        }
        j := j + 1;
      }
      Screen.CollisionRowEnd(g0, sprite, x0, y0, i, j);
    }

    // ----- Instruction handlers (src/commands.h, src/commands.cpp) -----
    // Each runs with PC already past the instruction and leaves the state
    // that the handler of the same name in Commands describes.

    /** 00E0 / 00EE; false when 00EE finds the stack empty (the code throws),
        in which case nothing has changed. */
    method ClearOrReturn(op: bv16) returns (ok: bool)
      requires Valid()
      modifies this, grid
      ensures Valid() && timePassed == old(timePassed)
      ensures ok == Commands.ClearOrReturn(old(Abstract()), op).Ok?
      ensures ok ==> Abstract() == Commands.ClearOrReturn(old(Abstract()), op).state
      ensures !ok ==> Abstract() == old(Abstract())
    {
      var code := Addr12(op);
      ok := true;
      if code == Commands.Clear {
        ClearScreen();
      } else if code == Commands.Return {
        if |stack| == 0 {
          ok := false;
          return;
        }
        SetPc(stack[|stack| - 1]);
        stack := stack[..|stack| - 1];
      }
    }

    method Jump(op: bv16)
      requires Valid()
      modifies this
      ensures Valid() && timePassed == old(timePassed)
      ensures Abstract() == Commands.Jump(old(Abstract()), op)
    {
      SetPc(Addr12(op));
    }

    method Call(op: bv16)
      requires Valid()
      modifies this
      ensures Valid() && timePassed == old(timePassed)
      ensures Abstract() == Commands.Call(old(Abstract()), op)
    {
      stack := stack + [pc];
      SetPc(Addr12(op));
    }

    method IfRegNotEqValue(op: bv16)
      requires Valid()
      modifies this
      ensures Valid() && timePassed == old(timePassed)
      ensures Abstract() == Commands.IfRegNotEqValue(old(Abstract()), op)
    {
      ghost var s := Abstract();
      var x, nn := Commands.X(op), Byte(op, 0);
      assert s.v[x] == v[x];
      if v[x] == nn {
        IncrPc();
        assert Abstract() == Commands.Skip(s);
      } else {
        assert Abstract() == s;
      }
    }

    method IfRegEqValue(op: bv16)
      requires Valid()
      modifies this
      ensures Valid() && timePassed == old(timePassed)
      ensures Abstract() == Commands.IfRegEqValue(old(Abstract()), op)
    {
      ghost var s := Abstract();
      var x, nn := Commands.X(op), Byte(op, 0);
      assert s.v[x] == v[x];
      if v[x] != nn {
        IncrPc();
        assert Abstract() == Commands.Skip(s);
      } else {
        assert Abstract() == s;
      }
    }

    method IfRegNotEqReg(op: bv16)
      requires Valid()
      modifies this
      ensures Valid() && timePassed == old(timePassed)
      ensures Abstract() == Commands.IfRegNotEqReg(old(Abstract()), op)
    {
      ghost var s := Abstract();
      var x, y := Commands.X(op), Commands.Y(op);
      assert s.v[x] == v[x] && s.v[y] == v[y];
      if v[x] == v[y] {
        IncrPc();
        assert Abstract() == Commands.Skip(s);
      } else {
        assert Abstract() == s;
      }
    }

    method IfRegEqReg(op: bv16)
      requires Valid()
      modifies this
      ensures Valid() && timePassed == old(timePassed)
      ensures Abstract() == Commands.IfRegEqReg(old(Abstract()), op)
    {
      ghost var s := Abstract();
      var x, y := Commands.X(op), Commands.Y(op);
      assert s.v[x] == v[x] && s.v[y] == v[y];
      if v[x] != v[y] {
        IncrPc();
        assert Abstract() == Commands.Skip(s);
      } else {
        assert Abstract() == s;
      }
    }

    method SetRegValue(op: bv16)
      requires Valid()
      modifies v
      ensures Valid()
      ensures Abstract() == Commands.SetRegValue(old(Abstract()), op)
    {
      SetRegister(Commands.X(op), Byte(op, 0));
    }

    method AddToReg(op: bv16)
      requires Valid()
      modifies v
      ensures Valid()
      ensures Abstract() == Commands.AddToReg(old(Abstract()), op)
    {
      var x := Commands.X(op);
      SetRegister(x, v[x] + Byte(op, 0));
    }

    /** 8XYN: VX is written first, then VF. */
    method RegOperations(op: bv16)
      requires Valid()
      modifies v
      ensures Valid()
      ensures Abstract() == Commands.RegOperations(old(Abstract()), op)
    {
      ghost var s := Abstract();
      RegisterOperation(Commands.X(op), Commands.Y(op), Nibble(op, 0));
      assert Abstract() == s.(v := v[..]);
    }

    /** The register writes of reg_operations for low nibble `code`: VX
        first, then VF. */
    method RegisterOperation(x: nat, y: nat, code: bv8)
      requires v.Length == Registers.NumberOfRegisters && x < 16 && y < 16
      modifies v
      ensures v[..] == Commands.RegisterOperation(old(v[..]), x, y, code)
    {
      var value, flag, setsFlag := Alu(v[x], v[y], code);
      if code == Commands.Set || setsFlag {
        v[x] := value;
      }
      if setsFlag {
        v[Commands.FlagRegister] := flag;
      }
    }

    /** The case analysis of reg_operations, case by case as the switch runs
        it: what is written to VX and, when `setsFlag`, to VF. An unknown code
        writes nothing. This is the executable form of the specification
        functions Commands.OperationValue, Commands.OperationFlag and
        Commands.SetsFlag, and its postcondition proves the two agree. */
    static method Alu(vx: bv8, vy: bv8, code: bv8) returns (value: bv8, flag: bv8, setsFlag: bool)
      ensures (code == Commands.Set || setsFlag) ==> value == Commands.OperationValue(vx, vy, code)
      ensures setsFlag == Commands.SetsFlag(code)
      ensures setsFlag ==> flag == Commands.OperationFlag(vx, vy, code)
    {
      value, flag, setsFlag := vx, 0, true;
      if code == Commands.Set {
        value, setsFlag := vy, false;
      } else if code == Commands.BitwiseOr {
        value := vx | vy;
      } else if code == Commands.BitwiseAnd {
        value := vx & vy;
      } else if code == Commands.BitwiseXor {
        value := vx ^ vy;
      } else if code == Commands.Addition {
        value := vx + vy;
        flag := if 0xFF - vx < vy then 1 else 0;
      } else if code == Commands.Subtraction {
        value := vx - vy;
        flag := if vx >= vy then 1 else 0;
      } else if code == Commands.ShiftRight {
        value := vx >> 1;
        flag := vx & 0x1;
      } else if code == Commands.AltSubtraction {
        value := vy - vx;
        flag := if vy >= vx then 1 else 0;
      } else if code == Commands.ShiftLeft {
        value := vx << 1;
        flag := (vx & 0x80) >> 7;
      } else {
        setsFlag := false;
      }
    }

    /** ANNN (commands::set_index; the register setter of the same name is
        SetIndex above). */
    method SetIndexCommand(op: bv16)
      requires Valid()
      modifies this
      ensures Valid() && timePassed == old(timePassed)
      ensures Abstract() == Commands.SetIndex(old(Abstract()), op)
    {
      SetIndex(Addr12(op));
    }

    /** BNNN: old_jump_offset is set, so the offset is V0. */
    method JumpAddPlusV0(op: bv16)
      requires Valid()
      modifies this
      ensures Valid() && timePassed == old(timePassed)
      ensures Abstract() == Commands.JumpAddPlusV0(old(Abstract()), op)
    {
      SetPc(Addr12(op) + Widen(v[0]));
    }

    /** CXNN with `rnd` the byte drawn from the generator. */
    method RandomNumber(op: bv16, rnd: bv8)
      requires Valid()
      modifies v
      ensures Valid()
      ensures Abstract() == Commands.RandomNumber(old(Abstract()), op, rnd)
    {
      SetRegister(Commands.X(op), rnd & Byte(op, 0));
    }

    /** DXYN */
    method LoadSprite(op: bv16)
      requires Valid() && Commands.SpriteInBounds(Abstract(), op)
      modifies v, grid
      ensures Valid()
      ensures Abstract() == Commands.LoadSprite(old(Abstract()), op)
    {
      ghost var s := Abstract();
      var x, y := v[Commands.X(op)], v[Commands.Y(op)];
      var sprite := GetSprite(index, Nibble(op, 0));
      ghost var x0, y0 := Screen.StartColumn(x), Screen.StartRow(y);
      ghost var drawn := Screen.Draw(s.grid, sprite, x0, y0);
      ghost var flag: bv8 := if Screen.Collision(s.grid, sprite, x0, y0) then 1 else 0;
      assert Commands.LoadSprite(s, op) == s.(grid := drawn, v := s.v[Commands.FlagRegister := flag]);
      var flipped := DrawSprite(sprite, x, y);
      assert Abstract() == s.(grid := drawn);
      SetRegister(Commands.FlagRegister, if flipped then 1 else 0);
    }

    /** EX9E / EXA1 */
    method KeyPressOperations(op: bv16)
      requires Valid() && Commands.KeyInRange(Abstract(), op)
      modifies this
      ensures Valid() && timePassed == old(timePassed)
      ensures Abstract() == Commands.KeyPressOperations(old(Abstract()), op)
    {
      var code, vx := Byte(op, 0), v[Commands.X(op)];
      if code == Commands.IfKeyNotPressed {
        SkipIfKey(vx as nat, true);
      } else if code == Commands.IfKeyPressed {
        SkipIfKey(vx as nat, false);
      }
    }

    /** Skip the next instruction when key `key` is pressed (`whenPressed`)
        or released (not `whenPressed`). */
    method SkipIfKey(key: nat, whenPressed: bool)
      requires Valid() && key < Commands.KeyCount
      modifies this
      ensures Valid() && timePassed == old(timePassed)
      ensures Abstract() == if old(keys[key]) == whenPressed then Commands.Skip(old(Abstract())) else old(Abstract())
    {
      if IsPressed(key) == whenPressed {
        IncrPc();
      }
    }

    /** FX0A: with no key latched, latch the lowest pressed key (writing it
        to VX) and wait by stepping PC back; with a key latched, wait while it
        is held and drop the latch once it is released. */
    method WaitForKey(op: bv16)
      requires Valid()
      modifies this, v
      ensures Valid() && timePassed == old(timePassed)
      ensures Abstract() == Commands.WaitForKey(old(Abstract()), op)
    {
      if keyLatch == -1 {
        LatchKey(op);
      } else {
        KeyHeldOrReleased(op);
      }
    }

    /** FX0A with a key latched: wait while it is held, then drop the latch. */
    method KeyHeldOrReleased(op: bv16)
      requires Valid() && keyLatch != -1
      modifies this
      ensures Valid() && timePassed == old(timePassed)
      ensures Abstract() == Commands.WaitForKey(old(Abstract()), op)
    {
      if IsPressed(keyLatch) {
        DecrPc();
      } else {
        SetLatch(-1);
      }
    }

    /** FX0A with no key latched: scan the keys, latch and record the first
        pressed one, and step PC back. */
    method LatchKey(op: bv16)
      requires Valid() && keyLatch == -1
      modifies this, v
      ensures Valid() && timePassed == old(timePassed)
      ensures Abstract() == Commands.WaitForKey(old(Abstract()), op)
    {
      var k := FirstPressedKey();
      SetLatch(k);
      RecordKey(Commands.X(op), k);
      DecrPc();
    }

    /** CPU::m_key_pressed = k */
    method SetLatch(k: int)
      requires Valid() && -1 <= k < Commands.KeyCount
      modifies this
      ensures Valid() && timePassed == old(timePassed)
      ensures Abstract() == old(Abstract()).(keyLatch := k)
    {
      keyLatch := k;
    }

    /** The write of a latched key to VX; nothing when no key was found. */
    method RecordKey(x: nat, k: int)
      requires Valid() && x < Registers.NumberOfRegisters && -1 <= k < Commands.KeyCount
      modifies v
      ensures Valid()
      ensures Abstract() == old(Abstract()).(v := if k != -1 then old(Abstract()).v[x := k as bv8] else old(Abstract()).v)
    {
      if k != -1 {
        SetRegister(x, k as bv8);
      }
    }

    /** The key scan of FX0A: keys 0 to 15 in order, stopping at the first
        pressed one; -1 when none is. */
    method FirstPressedKey() returns (k: int)
      requires Valid()
      ensures k == Commands.LowestPressedFrom(keys[..], 0)
    {
      k := -1;
      var i: bv8 := 0;
      while i < 16
        invariant i <= 16
        invariant Commands.LowestPressedFrom(keys[..], 0) == Commands.LowestPressedFrom(keys[..], i as nat)
      {
        if IsPressed(i as int) {
          k := i as int;
          break;
        }
        i := i + 1;
      }
    }

    /** The FX__ family. */
    method OtherOperations(op: bv16)
      requires Valid() && Commands.OtherInBounds(Abstract(), op)
      modifies this, memory, v
      ensures Valid() && timePassed == old(timePassed)
      ensures Abstract() == Commands.OtherOperations(old(Abstract()), op)
    {
      var code := Byte(op, 0);
      if code == Commands.SetVxDelay || code == Commands.SetVxKey ||
         code == Commands.SetDelay || code == Commands.SetBuzzer {
        TimerOrKeyOperation(op);
      } else {
        IndexOrMemoryOperation(op);
      }
    }

    /** FX07, FX0A, FX15, FX18 */
    method TimerOrKeyOperation(op: bv16)
      requires Valid()
      requires Byte(op, 0) in {Commands.SetVxDelay, Commands.SetVxKey, Commands.SetDelay, Commands.SetBuzzer}
      modifies this, v
      ensures Valid() && timePassed == old(timePassed)
      ensures Abstract() == Commands.OtherOperations(old(Abstract()), op)
    {
      var code, x := Byte(op, 0), Commands.X(op);
      if code == Commands.SetVxDelay {
        SetRegister(x, Commands.TimerByte(delay));
      } else if code == Commands.SetVxKey {
        WaitForKey(op);
      } else if code == Commands.SetDelay {
        SetTimer(Commands.TimerValue(v[x]));
      } else {
        SetSound(Commands.TimerValue(v[x]));
      }
    }

    /** FX1E, FX29, FX33, FX55, FX65, and the FX__ codes that do nothing. */
    method IndexOrMemoryOperation(op: bv16)
      requires Valid() && Commands.OtherInBounds(Abstract(), op)
      requires Byte(op, 0) !in {Commands.SetVxDelay, Commands.SetVxKey, Commands.SetDelay, Commands.SetBuzzer}
      modifies this, memory, v
      ensures Valid() && timePassed == old(timePassed)
      ensures Abstract() == Commands.OtherOperations(old(Abstract()), op)
    {
      var code, x := Byte(op, 0), Commands.X(op);
      if code == Commands.AddVxToIndex {
        AddRegisterToIndex(op);
      } else if code == Commands.SetIndexToHex {
        SetIndex(Ram.FontAddr(v[x]));
      } else if code == Commands.BcdVx {
        StoreBcd(index, v[x]);
      } else if code == Commands.StoreToRam {
        Store(index as nat, x);
      } else if code == Commands.LoadFromRam {
        LoadRegisters(op);
      }
    }

    /** FX1E: I += VX, wrapping at 16 bits. */
    method AddRegisterToIndex(op: bv16)
      requires Valid() && Byte(op, 0) == Commands.AddVxToIndex
      modifies this
      ensures Valid() && timePassed == old(timePassed)
      ensures Abstract() == Commands.OtherOperations(old(Abstract()), op)
    {
      AddIndex(Widen(v[Commands.X(op)]));
    }

    /** FX65: V0..VX from memory at I. */
    method LoadRegisters(op: bv16)
      requires Valid() && Commands.OtherInBounds(Abstract(), op) && Byte(op, 0) == Commands.LoadFromRam
      modifies v
      ensures Valid()
      ensures Abstract() == Commands.OtherOperations(old(Abstract()), op)
    {
      ghost var s := Abstract();
      Load(index as nat, Commands.X(op));
      assert Abstract() == s.(v := v[..]);
    }

    // ----- CPU (src/cpu.cpp) -----

    /** The switch of fetch_decode_execute, on an op whose PC advance is done. */
    method Dispatch(op: bv16, rnd: bv8) returns (ok: bool)
      requires Valid() && Cpu.Defined(Abstract(), op)
      modifies this, memory, v, grid
      ensures Valid() && timePassed == old(timePassed)
      ensures ok == Cpu.Dispatch(old(Abstract()), op, rnd).Ok?
      ensures ok ==> Abstract() == Cpu.Dispatch(old(Abstract()), op, rnd).state
      ensures !ok ==> Abstract() == old(Abstract())
    {
      ok := true;
      match Cpu.OperationType(op)
      case ClearReturn => ok := ClearOrReturn(op);
      case Jump => Jump(op);
      case Call => Call(op);
      case IfRegNotEqualValue => IfRegNotEqValue(op);
      case IfRegEqualValue => IfRegEqValue(op);
      case IfRegNotEqualReg => IfRegNotEqReg(op);
      case SetRegValue => SetRegValue(op);
      case AddToReg => AddToReg(op);
      case RegOperations => RegOperations(op);
      case IfRegEquality => IfRegEqReg(op);
      case SetIndex => SetIndexCommand(op);
      case JumpV0Addr => JumpAddPlusV0(op);
      case RandomNumber => RandomNumber(op, rnd);
      case LoadSprite => LoadSprite(op);
      case KeyPress => KeyPressOperations(op);
      case Other => OtherOperations(op);
    }

    /** fetch_decode_execute: fetch at PC, advance PC, dispatch. When 00EE
        throws, PC has already been advanced. */
    method FetchDecodeExecute(rnd: bv8) returns (ok: bool)
      requires Valid() && Cpu.CanExecute(Abstract())
      modifies this, memory, v, grid
      ensures Valid() && timePassed == old(timePassed)
      ensures ok == Cpu.Execute(old(Abstract()), rnd).Ok?
      ensures ok ==> Abstract() == Cpu.Execute(old(Abstract()), rnd).state
      ensures !ok ==> Abstract() == Commands.Skip(old(Abstract()))
    {
      var op := Fetch(pc);
      IncrPc();
      ok := Dispatch(op, rnd);
    }

    /** instr_cycle: add dt to the accumulator, decay the timers, and run one
        instruction if a whole period has accumulated. `ok` is false when
        that instruction threw. */
    method InstrCycle(dt: real, rnd: bv8) returns (ok: bool)
      requires Valid() && Cpu.CanCycle(Abstract(), timePassed, dt)
      modifies this, memory, v, grid
      ensures Valid()
      ensures var c := Cpu.Cycle(old(Abstract()), old(timePassed), dt, rnd);
        timePassed == c.timePassed && ok == c.outcome.Ok? &&
        (ok ==> Abstract() == c.outcome.state) &&
        (!ok ==> Abstract() == Commands.Skip(Cpu.UpdateTimers(old(Abstract()), dt)))
    {
      timePassed := timePassed + dt;
      UpdateTimers(dt);
      ok := true;
      if timePassed >= Cpu.SecondsPerInstruction {
        timePassed := timePassed - Cpu.SecondsPerInstruction;
        ok := FetchDecodeExecute(rnd);
      }
    }
  }
}
