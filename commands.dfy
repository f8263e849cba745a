/** The machine state seen by the instruction handlers, and what each handler
    of src/commands.h and src/commands.cpp does to it. A handler runs after the
    dispatcher has already advanced PC past the instruction. This build's
    variant switches are fixed: shifts do not copy VY first (old_shift is
    false) and BNNN adds V0 (old_jump_offset is true). */
module Commands {
  import opened Opcodes
  import Ram
  import Registers
  import Screen

  /** VF, the register the flag-setting instructions write. */
  const FlagRegister := 0xF
  /** Number of hexadecimal keys. */
  const KeyCount := 16

  // Sub-codes of the instruction families (enums ClearReturn, RegOperation,
  // KeyPressOp and OtherOp). The key and skip names say when the NEXT
  // instruction runs: IfKeyNotPressed skips it when the key is pressed.
  const Clear: bv16 := 0x0E0
  const Return: bv16 := 0x0EE

  const Set: bv8 := 0x0
  const BitwiseOr: bv8 := 0x1
  const BitwiseAnd: bv8 := 0x2
  const BitwiseXor: bv8 := 0x3
  const Addition: bv8 := 0x4
  const Subtraction: bv8 := 0x5
  const ShiftRight: bv8 := 0x6
  const AltSubtraction: bv8 := 0x7
  const ShiftLeft: bv8 := 0xE

  const IfKeyNotPressed: bv8 := 0x9E
  const IfKeyPressed: bv8 := 0xA1

  const SetVxDelay: bv8 := 0x07
  const SetVxKey: bv8 := 0x0A
  const SetDelay: bv8 := 0x15
  const SetBuzzer: bv8 := 0x18
  const AddVxToIndex: bv8 := 0x1E
  const SetIndexToHex: bv8 := 0x29
  const BcdVx: bv8 := 0x33
  const StoreToRam: bv8 := 0x55
  const LoadFromRam: bv8 := 0x65

  /** Memory, registers, call stack (top = last element), key states, pixels,
      the FX0A key latch (-1 when no key is latched) and the two timers. */
  datatype State = State(
    memory: seq<bv8>,
    v: seq<bv8>,
    pc: bv16,
    index: bv16,
    stack: seq<bv16>,
    keys: seq<bool>,
    grid: Screen.Grid,
    keyLatch: int,
    delay: real,
    sound: real)

  predicate Valid(s: State)
  {
    |s.memory| == Ram.Size && |s.v| == Registers.NumberOfRegisters && |s.keys| == KeyCount &&
    Screen.WellFormed(s.grid) && -1 <= s.keyLatch < KeyCount
  }

  /** A handler either yields the next state or throws on a return with an
      empty call stack. */
  datatype Outcome = Ok(state: State) | StackUnderflow

  /** Register operands: X is nibble 2, Y is nibble 1. */
  function X(op: bv16): (x: nat)
    ensures x < 16
  {
    Nibble(op, 2) as nat
  }

  function Y(op: bv16): (y: nat)
    ensures y < 16
  {
    Nibble(op, 1) as nat
  }

  /** The state with PC moved past the next instruction. */
  function Skip(s: State): State
  {
    s.(pc := s.pc + 2)
  }

  // ----- 0NNN, 1NNN, 2NNN -----

  /** 00E0 clears the screen; 00EE pops the return address into PC, and
      throws when the stack is empty; any other 0NNN does nothing. */
  function ClearOrReturn(s: State, op: bv16): Outcome
    requires Valid(s)
  {
    var code := Addr12(op);
    if code == Clear then
      Ok(s.(grid := Screen.Blank()))
    else if code == Return then
      if |s.stack| == 0 then StackUnderflow
      else Ok(s.(pc := s.stack[|s.stack| - 1], stack := s.stack[..|s.stack| - 1]))
    else
      Ok(s)
  }

  function Jump(s: State, op: bv16): State
  {
    s.(pc := Addr12(op))
  }

  function Call(s: State, op: bv16): State
  {
    s.(stack := s.stack + [s.pc], pc := Addr12(op))
  }

  // ----- Conditional skips -----

  /** 3XNN: skip when VX == NN. */
  function IfRegNotEqValue(s: State, op: bv16): State
    requires Valid(s)
  {
    if s.v[X(op)] == Byte(op, 0) then Skip(s) else s
  }

  /** 4XNN: skip when VX != NN. */
  function IfRegEqValue(s: State, op: bv16): State
    requires Valid(s)
  {
    if s.v[X(op)] != Byte(op, 0) then Skip(s) else s
  }

  /** 5XY0: skip when VX == VY; the low nibble is not looked at. */
  function IfRegNotEqReg(s: State, op: bv16): State
    requires Valid(s)
  {
    if s.v[X(op)] == s.v[Y(op)] then Skip(s) else s
  }

  /** 9XY0: skip when VX != VY. */
  function IfRegEqReg(s: State, op: bv16): State
    requires Valid(s)
  {
    if s.v[X(op)] != s.v[Y(op)] then Skip(s) else s
  }

  // ----- Register writes -----

  /** 6XNN */
  function SetRegValue(s: State, op: bv16): State
    requires Valid(s)
  {
    s.(v := s.v[X(op) := Byte(op, 0)])
  }

  /** 7XNN: 8-bit wrapping add; VF is not written. */
  function AddToReg(s: State, op: bv16): State
    requires Valid(s)
  {
    s.(v := s.v[X(op) := s.v[X(op)] + Byte(op, 0)])
  }

  /** The 8XYN codes that write VF after VX: all but the plain copy. */
  predicate SetsFlag(code: bv8)
  {
    code == BitwiseOr || code == BitwiseAnd || code == BitwiseXor || code == Addition ||
    code == Subtraction || code == ShiftRight || code == AltSubtraction || code == ShiftLeft
  }

  /** The value 8XYN writes to VX. */
  function OperationValue(vx: bv8, vy: bv8, code: bv8): bv8
  {
    if code == Set then vy
    else if code == BitwiseOr then vx | vy
    else if code == BitwiseAnd then vx & vy
    else if code == BitwiseXor then vx ^ vy
    else if code == Addition then vx + vy
    else if code == Subtraction then vx - vy
    else if code == ShiftRight then vx >> 1
    else if code == AltSubtraction then vy - vx
    else if code == ShiftLeft then vx << 1
    else vx
  }

  /** The value 8XYN then writes to VF: the carry, the no-borrow bit, the bit
      shifted out, or 0 after a logic operation. */
  function OperationFlag(vx: bv8, vy: bv8, code: bv8): bv8
  {
    if code == Addition then (if 0xFF - vx < vy then 1 else 0)
    else if code == Subtraction then (if vx >= vy then 1 else 0)
    else if code == ShiftRight then vx & 0x1
    else if code == AltSubtraction then (if vy >= vx then 1 else 0)
    else if code == ShiftLeft then (vx & 0x80) >> 7
    else 0
  }

  /** The registers after 8XYN with low nibble `code`. The flag is written
      after VX, so with X = F the flag is what remains; an unknown code
      changes nothing. */
  function RegisterOperation(v: seq<bv8>, x: nat, y: nat, code: bv8): (r: seq<bv8>)
    requires |v| == Registers.NumberOfRegisters && x < 16 && y < 16
    ensures |r| == |v|
  {
    var vx, vy := v[x], v[y];
    if code == Set then
      v[x := vy]
    else if SetsFlag(code) then
      v[x := OperationValue(vx, vy, code)][FlagRegister := OperationFlag(vx, vy, code)]
    else
      v
  }

  /** 8XYN: register-to-register operations, selected by the low nibble. */
  function RegOperations(s: State, op: bv16): State
    requires Valid(s)
  {
    s.(v := RegisterOperation(s.v, X(op), Y(op), Nibble(op, 0)))
  }

  /** ANNN */
  function SetIndex(s: State, op: bv16): State
  {
    s.(index := Addr12(op))
  }

  /** BNNN: jump to NNN + V0 (no wrap-around: at most 0xFFF + 0xFF). */
  function JumpAddPlusV0(s: State, op: bv16): State
    requires Valid(s)
  {
    s.(pc := Addr12(op) + Widen(s.v[0]))
  }

  /** CXNN, with `rnd` the byte drawn from the random source. */
  function RandomNumber(s: State, op: bv16, rnd: bv8): State
    requires Valid(s)
  {
    s.(v := s.v[X(op) := rnd & Byte(op, 0)])
  }

  // ----- DXYN -----

  /** get_sprite insists that I + N lies inside memory. */
  predicate SpriteInBounds(s: State, op: bv16)
  {
    s.index as int + Nibble(op, 0) as int < Ram.Size
  }

  /** DXYN: draw the N bytes at I at (VX, VY); VF tells whether a lit pixel
      was turned off. */
  function LoadSprite(s: State, op: bv16): State
    requires Valid(s) && SpriteInBounds(s, op)
  {
    var sprite := Ram.Sprite(s.memory, s.index, Nibble(op, 0));
    var x0, y0 := Screen.StartColumn(s.v[X(op)]), Screen.StartRow(s.v[Y(op)]);
    var collided := Screen.Collision(s.grid, sprite, x0, y0);
    s.(grid := Screen.Draw(s.grid, sprite, x0, y0),
       v := s.v[FlagRegister := if collided then 1 else 0])
  }

  // ----- EX9E, EXA1 -----

  /** is_pressed indexes the key array with VX, which must name a key. */
  predicate KeyInRange(s: State, op: bv16)
    requires Valid(s)
  {
    var code := Byte(op, 0);
    code == IfKeyNotPressed || code == IfKeyPressed ==> s.v[X(op)] < 16
  }

  /** EX9E skips when key VX is pressed, EXA1 when it is not; other EX__
      do nothing. */
  function KeyPressOperations(s: State, op: bv16): State
    requires Valid(s) && KeyInRange(s, op)
  {
    var code := Byte(op, 0);
    if code == IfKeyNotPressed then
      if s.keys[s.v[X(op)]] then Skip(s) else s
    else if code == IfKeyPressed then
      if !s.keys[s.v[X(op)]] then Skip(s) else s
    else
      s
  }

  // ----- FX__ -----

  /** The lowest-numbered pressed key from `k` on, or -1 when there is none. */
  function LowestPressedFrom(keys: seq<bool>, k: nat): (r: int)
    requires |keys| == KeyCount && k <= KeyCount
    ensures r == -1 <==> forall j :: k <= j < KeyCount ==> !keys[j]
    ensures r != -1 ==> k <= r < KeyCount && keys[r] && forall j :: k <= j < r ==> !keys[j]
    decreases KeyCount - k
  {
    if k == KeyCount then -1
    else if keys[k] then k
    else LowestPressedFrom(keys, k + 1)
  }

  /** FX0A: wait for a key to be pressed and released, by re-running the
      instruction (PC moves back) until that happens. With no key latched, the
      lowest pressed key is latched and written to VX; while the latched key is
      held nothing else happens; once it is released the latch is cleared and
      execution moves on. */
  function WaitForKey(s: State, op: bv16): State
    requires Valid(s)
  {
    if s.keyLatch == -1 then
      var k := LowestPressedFrom(s.keys, 0);
      var v := if k != -1 then s.v[X(op) := k as bv8] else s.v;
      s.(keyLatch := k, v := v, pc := s.pc - 2)
    else if s.keys[s.keyLatch] then
      s.(pc := s.pc - 2)
    else
      s.(keyLatch := -1)
  }

  /** The delay timer read as a byte: static_cast<u8> truncates, and the timer
      is never negative; a value of 256 or more would wrap around. */
  function TimerByte(t: real): bv8
  {
    (t.Floor % 256) as bv8
  }

  /** The demands that the FX__ handlers check by aborting: a font digit must
      be at most F, and the memory touched from I must lie inside memory. */
  predicate OtherInBounds(s: State, op: bv16)
    requires Valid(s)
  {
    var code := Byte(op, 0);
    (code == SetIndexToHex ==> s.v[X(op)] <= 0xF) &&
    (code == BcdVx ==> s.index as int + 2 < Ram.Size) &&
    (code == StoreToRam || code == LoadFromRam ==> s.index as int + X(op) < Ram.Size)
  }

  /** A register byte loaded into a timer. */
  function TimerValue(b: bv8): real
  {
    b as int as real
  }

  /** FX07, FX0A, FX15, FX18, FX1E, FX29, FX33, FX55, FX65; other FX__ do nothing. */
  function OtherOperations(s: State, op: bv16): State
    requires Valid(s) && OtherInBounds(s, op)
  {
    var code, x := Byte(op, 0), X(op);
    if code == SetVxDelay then
      s.(v := s.v[x := TimerByte(s.delay)])
    else if code == SetVxKey then
      WaitForKey(s, op)
    else if code == SetDelay then
      s.(delay := TimerValue(s.v[x]))
    else if code == SetBuzzer then
      s.(sound := TimerValue(s.v[x]))
    else if code == AddVxToIndex then
      s.(index := s.index + Widen(s.v[x]))
    else if code == SetIndexToHex then
      s.(index := Ram.FontAddr(s.v[x]))
    else if code == BcdVx then
      s.(memory := Ram.StoreBcd(s.memory, s.index as nat, s.v[x]))
    else if code == StoreToRam then
      s.(memory := Ram.Store(s.memory, s.v, s.index as nat, x))
    else if code == LoadFromRam then
      s.(v := Ram.Load(s.memory, s.v, s.index as nat, x))
    else
      s
  }

  // ----- Arithmetic meaning of the 8XYN flags -----

  /** The carry of an 8-bit addition completes the wrapped sum to the true one. */
  lemma CarryCompletesSum(a: bv8, b: bv8)
    ensures var carry: bv16 := if 0xFF - a < b then 1 else 0;
      (a + b) as bv16 + carry * 0x100 == a as bv16 + b as bv16
  {
  }

  /** A borrow (flag 0) adds 256 to the minuend. */
  lemma BorrowCompletesDifference(a: bv8, b: bv8)
    ensures var noBorrow: bv16 := if a >= b then 1 else 0;
      a as bv16 + (1 - noBorrow) * 0x100 == b as bv16 + (a - b) as bv16
  {
  }

  /** 8XY4: VF:VX is the exact 9-bit sum VX + VY (so VF = 1 exactly when the
      sum exceeds 255); with X = F only the carry remains. No other register
      changes. */
  lemma AdditionCarry(v: seq<bv8>, x: nat, y: nat)
    requires |v| == 16 && x < 16 && y < 16
    ensures var r, vx, vy := RegisterOperation(v, x, y, Addition), v[x], v[y];
      |r| == 16 && r[FlagRegister] <= 1 &&
      (r[FlagRegister] == 1 <==> vx as bv16 + vy as bv16 > 0xFF) &&
      (x != FlagRegister ==> r[x] as bv16 + (r[FlagRegister] as bv16) * 0x100 == vx as bv16 + vy as bv16) &&
      forall k :: 0 <= k < 16 && k != x && k != FlagRegister ==> r[k] == v[k]
  {
    CarryCompletesSum(v[x], v[y]);
  }

  /** 8XY5: VX - VY wraps into VX and VF = 1 exactly when there is no borrow,
      i.e. VX >= VY; no other register changes. */
  lemma SubtractionBorrow(v: seq<bv8>, x: nat, y: nat)
    requires |v| == 16 && x < 16 && y < 16
    ensures var r, vx, vy := RegisterOperation(v, x, y, Subtraction), v[x], v[y];
      |r| == 16 && r[FlagRegister] <= 1 &&
      (r[FlagRegister] == 1 <==> vx >= vy) &&
      (x != FlagRegister ==> vx as bv16 + (1 - r[FlagRegister] as bv16) * 0x100 == vy as bv16 + r[x] as bv16) &&
      forall k :: 0 <= k < 16 && k != x && k != FlagRegister ==> r[k] == v[k]
  {
    var r := RegisterOperation(v, x, y, Subtraction);
    assert r == v[x := v[x] - v[y]][FlagRegister := if v[x] >= v[y] then 1 else 0];
    BorrowCompletesDifference(v[x], v[y]);
  }

  /** 8XY7: the same with the operands exchanged, VY - VX. */
  lemma AltSubtractionBorrow(v: seq<bv8>, x: nat, y: nat)
    requires |v| == 16 && x < 16 && y < 16
    ensures var r, vx, vy := RegisterOperation(v, x, y, AltSubtraction), v[x], v[y];
      |r| == 16 && r[FlagRegister] <= 1 &&
      (r[FlagRegister] == 1 <==> vy >= vx) &&
      (x != FlagRegister ==> vy as bv16 + (1 - r[FlagRegister] as bv16) * 0x100 == vx as bv16 + r[x] as bv16) &&
      forall k :: 0 <= k < 16 && k != x && k != FlagRegister ==> r[k] == v[k]
  {
    var r := RegisterOperation(v, x, y, AltSubtraction);
    assert r == v[x := v[y] - v[x]][FlagRegister := if v[y] >= v[x] then 1 else 0];
    BorrowCompletesDifference(v[y], v[x]);
  }

  /** The bit shifted out, put back, restores the byte. */
  lemma ShiftsLoseOneBit(a: bv8)
    ensures ((a >> 1) << 1) | (a & 0x1) == a
    ensures (((a & 0x80) >> 7) << 7) | ((a << 1) >> 1) == a
  {
  }

  /** 8XY6 and 8XYE: VX is shifted by one, VF receives the bit shifted out
      (even when X = F, as the flag is written last), so flag and new VX
      together give back the old VX; VY is not read. */
  lemma ShiftOutBit(v: seq<bv8>, x: nat, y: nat, code: bv8)
    requires |v| == 16 && x < 16 && y < 16 && (code == ShiftRight || code == ShiftLeft)
    ensures var r, vx := RegisterOperation(v, x, y, code), v[x];
      |r| == 16 && r[FlagRegister] <= 1 &&
      r[FlagRegister] == (if code == ShiftRight then vx & 1 else vx >> 7) &&
      (x != FlagRegister && code == ShiftRight ==> r[x] == vx >> 1) &&
      (x != FlagRegister && code == ShiftLeft ==> r[x] == vx << 1) &&
      (x != FlagRegister && code == ShiftRight ==> (r[x] << 1) | r[FlagRegister] == vx) &&
      (x != FlagRegister && code == ShiftLeft ==> (r[FlagRegister] << 7) | (r[x] >> 1) == vx) &&
      forall k :: 0 <= k < 16 && k != x && k != FlagRegister ==> r[k] == v[k]
    ensures RegisterOperation(v, x, y, code) == RegisterOperation(v, x, 0, code)
  {
    ShiftsLoseOneBit(v[x]);
  }

  /** 8XY1, 8XY2, 8XY3 clear VF after the logic operation; 8XY0 copies VY and
      leaves VF alone unless X = F; unlisted low nibbles change nothing. */
  lemma LogicAndCopy(v: seq<bv8>, x: nat, y: nat, code: bv8)
    requires |v| == 16 && x < 16 && y < 16
    ensures var r, vx, vy := RegisterOperation(v, x, y, code), v[x], v[y];
      (code == Set ==> r == v[x := vy]) &&
      (code == BitwiseOr || code == BitwiseAnd || code == BitwiseXor ==>
        |r| == 16 && r[FlagRegister] == 0 &&
        (x != FlagRegister ==>
          r[x] == (if code == BitwiseOr then vx | vy else if code == BitwiseAnd then vx & vy else vx ^ vy)) &&
        forall k :: 0 <= k < 16 && k != x && k != FlagRegister ==> r[k] == v[k]) &&
      (code !in {Set, BitwiseOr, BitwiseAnd, BitwiseXor, Addition, Subtraction, ShiftRight, AltSubtraction, ShiftLeft} ==>
        r == v)
  {
  }

  /** CXNN leaves no bit set in VX outside NN, whatever the random byte. */
  lemma RandomMasked(s: State, op: bv16, rnd: bv8)
    requires Valid(s)
    ensures var r := RandomNumber(s, op, rnd);
      r.v[X(op)] & !Byte(op, 0) == 0 && r.v[X(op)] | Byte(op, 0) == Byte(op, 0)
  {
  }
}
