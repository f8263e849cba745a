/** The dispatcher and cycle driver of src/cpu.cpp, as functions on
    Commands.State: fetch the word at PC, advance PC, then hand the word to
    the handler of its family (the top nibble). */
module Cpu {
  import opened Opcodes
  import Ram
  import Registers
  import Screen
  import opened Commands

  /** Instruction families, one per value of the top nibble. */
  datatype Operation =
    | ClearReturn | Jump | Call | IfRegNotEqualValue | IfRegEqualValue
    | IfRegNotEqualReg | SetRegValue | AddToReg | RegOperations | IfRegEquality
    | SetIndex | JumpV0Addr | RandomNumber | LoadSprite | KeyPress | Other

  /** The top nibble that selects each family. */
  function Code(t: Operation): (n: bv8)
    ensures n <= 0xF
  {
    match t
    case ClearReturn => 0x0
    case Jump => 0x1
    case Call => 0x2
    case IfRegNotEqualValue => 0x3
    case IfRegEqualValue => 0x4
    case IfRegNotEqualReg => 0x5
    case SetRegValue => 0x6
    case AddToReg => 0x7
    case RegOperations => 0x8
    case IfRegEquality => 0x9
    case SetIndex => 0xA
    case JumpV0Addr => 0xB
    case RandomNumber => 0xC
    case LoadSprite => 0xD
    case KeyPress => 0xE
    case Other => 0xF
  }

  /** get_operation_type: the family named by the top nibble. Every nibble
      names one, so the dispatcher's default arm is never reached. */
  function OperationType(op: bv16): (t: Operation)
    ensures Code(t) == Nibble(op, 3)
  {
    var n := Nibble(op, 3);
    if n == 0x0 then ClearReturn
    else if n == 0x1 then Jump
    else if n == 0x2 then Call
    else if n == 0x3 then IfRegNotEqualValue
    else if n == 0x4 then IfRegEqualValue
    else if n == 0x5 then IfRegNotEqualReg
    else if n == 0x6 then SetRegValue
    else if n == 0x7 then AddToReg
    else if n == 0x8 then RegOperations
    else if n == 0x9 then IfRegEquality
    else if n == 0xA then SetIndex
    else if n == 0xB then JumpV0Addr
    else if n == 0xC then RandomNumber
    else if n == 0xD then LoadSprite
    else if n == 0xE then KeyPress
    else Other
  }

  /** Decoding is the inverse of the family code: families and top nibbles
      are in one-to-one correspondence. */
  lemma OperationTypeOfCode(t: Operation, rest: bv16)
    requires rest < 0x1000
    ensures OperationType(((Code(t) as bv16) << 12) | rest) == t
  {
    var op := ((Code(t) as bv16) << 12) | rest;
    assert Nibble(op, 3) == Code(t);
  }

  /** The instruction word at PC (RAM::fetch), most significant byte first. */
  function Fetch(s: State): (op: bv16)
    requires Valid(s) && s.pc as int + 1 < Ram.Size
    ensures Byte(op, 1) == s.memory[s.pc] && Byte(op, 0) == s.memory[s.pc as int + 1]
  {
    Word(s.memory[s.pc], s.memory[s.pc as int + 1])
  }

  /** What the handler of `op` demands of the state it runs in (checked by
      aborting in the source). */
  predicate Defined(s: State, op: bv16)
    requires Valid(s)
  {
    match OperationType(op)
    case LoadSprite => SpriteInBounds(s, op)
    case KeyPress => KeyInRange(s, op)
    case Other => OtherInBounds(s, op)
    case _ => true
  }

  /** The next instruction can be fetched and its handler does not abort. */
  predicate CanExecute(s: State)
  {
    Valid(s) && s.pc as int + 1 < Ram.Size && Defined(Skip(s), Fetch(s))
  }

  /** The family handler applied to `s`, whose PC is already past `op`. */
  function Dispatch(s: State, op: bv16, rnd: bv8): Outcome
    requires Valid(s) && Defined(s, op)
  {
    match OperationType(op)
    case ClearReturn => ClearOrReturn(s, op)
    case Jump => Ok(Commands.Jump(s, op))
    case Call => Ok(Commands.Call(s, op))
    case IfRegNotEqualValue => Ok(IfRegNotEqValue(s, op))
    case IfRegEqualValue => Ok(IfRegEqValue(s, op))
    case IfRegNotEqualReg => Ok(IfRegNotEqReg(s, op))
    case SetRegValue => Ok(Commands.SetRegValue(s, op))
    case AddToReg => Ok(Commands.AddToReg(s, op))
    case RegOperations => Ok(Commands.RegOperations(s, op))
    case IfRegEquality => Ok(IfRegEqReg(s, op))
    case SetIndex => Ok(Commands.SetIndex(s, op))
    case JumpV0Addr => Ok(JumpAddPlusV0(s, op))
    case RandomNumber => Ok(Commands.RandomNumber(s, op, rnd))
    case LoadSprite => Ok(Commands.LoadSprite(s, op))
    case KeyPress => Ok(KeyPressOperations(s, op))
    case Other => Ok(OtherOperations(s, op))
  }

  /** fetch_decode_execute: fetch, advance PC by 2, dispatch. `rnd` is the
      byte the random source would produce for CXNN. */
  function Execute(s: State, rnd: bv8): Outcome
    requires CanExecute(s)
  {
    Dispatch(Skip(s), Fetch(s), rnd)
  }

  /** update_timers applied to both timers; nothing else changes. */
  function UpdateTimers(s: State, dt: real): (r: State)
    ensures r == s.(delay := r.delay, sound := r.sound)
    ensures s.delay >= 0.0 ==> r.delay >= 0.0
    ensures s.sound >= 0.0 ==> r.sound >= 0.0
    ensures dt >= 0.0 ==> r.delay <= s.delay && r.sound <= s.sound
    ensures r.delay > 0.0 && r.sound > 0.0 ==> s.delay - r.delay == s.sound - r.sound
  {
    s.(delay := Registers.DecayTimer(s.delay, dt), sound := Registers.DecayTimer(s.sound, dt))
  }

  /** Instructions per second, and the period between two of them. */
  const InstructionsPerSecond := 500
  const SecondsPerInstruction: real := 1.0 / 500.0

  /** What one instr_cycle call leaves: the outcome (the state, or the
      exception thrown by 00EE), the time accumulator, and whether an
      instruction ran. */
  datatype Step = Step(outcome: Outcome, timePassed: real, executed: bool)

  /** The instruction that instr_cycle(dt) would run needs to be runnable. */
  predicate CanCycle(s: State, timePassed: real, dt: real)
  {
    Valid(s) && (timePassed + dt >= SecondsPerInstruction ==> CanExecute(UpdateTimers(s, dt)))
  }

  /** instr_cycle: accumulate dt, decay the timers, and run one instruction
      once a whole period has accumulated, subtracting that period. */
  function Cycle(s: State, timePassed: real, dt: real, rnd: bv8): Step
    requires CanCycle(s, timePassed, dt)
  {
    var t := timePassed + dt;
    var timed := UpdateTimers(s, dt);
    if t >= SecondsPerInstruction then
      Step(Execute(timed, rnd), t - SecondsPerInstruction, true)
    else
      Step(Ok(timed), t, false)
  }

  // ----- Properties of the dispatcher -----

  /** 00E0 and 00EE keep the state well formed. */
  lemma ClearOrReturnPreservesValid(s: State, op: bv16)
    requires Valid(s)
    ensures ClearOrReturn(s, op).Ok? ==> Valid(ClearOrReturn(s, op).state)
  {
  }

  /** DXYN keeps the state well formed: drawing keeps the grid's shape. */
  lemma LoadSpritePreservesValid(s: State, op: bv16)
    requires Valid(s) && SpriteInBounds(s, op)
    ensures Valid(Commands.LoadSprite(s, op))
  {
  }

  /** The FX__ handlers keep the state well formed; FX0A latches a key
      number or -1. */
  lemma OtherPreservesValid(s: State, op: bv16)
    requires Valid(s) && OtherInBounds(s, op)
    ensures Valid(OtherOperations(s, op))
  {
    if Byte(op, 0) == SetVxKey {
      var k := LowestPressedFrom(s.keys, 0);
      assert -1 <= k < KeyCount;
    }
  }

  /** Every handler keeps the state well formed. */
  lemma DispatchPreservesValid(s: State, op: bv16, rnd: bv8)
    requires Valid(s) && Defined(s, op)
    ensures Dispatch(s, op, rnd).Ok? ==> Valid(Dispatch(s, op, rnd).state)
  {
    match OperationType(op)
    case ClearReturn => ClearOrReturnPreservesValid(s, op);
    case LoadSprite => LoadSpritePreservesValid(s, op);
    case Other => OtherPreservesValid(s, op);
    case _ =>
  }

  /** Executing an instruction keeps the state well formed. */
  lemma ExecutePreservesValid(s: State, rnd: bv8)
    requires CanExecute(s)
    ensures Execute(s, rnd).Ok? ==> Valid(Execute(s, rnd).state)
  {
    DispatchPreservesValid(Skip(s), Fetch(s), rnd);
  }

  /** 1NNN: PC becomes NNN; nothing else changes. */
  lemma JumpSetsPc(s: State, rnd: bv8)
    requires CanExecute(s) && OperationType(Fetch(s)) == Jump
    ensures Execute(s, rnd) == Ok(s.(pc := Fetch(s) & 0x0FFF))
  {
  }

  /** 3XNN: a taken skip (VX == NN) lands 4 bytes past the instruction,
      otherwise execution continues 2 bytes past it; nothing else changes.
      The same holds for 4XNN (VX != NN), 5XY0 (VX == VY) and 9XY0 (VX != VY). */
  lemma SkipIfRegEqualsValue(s: State, rnd: bv8)
    requires CanExecute(s) && OperationType(Fetch(s)) == IfRegNotEqualValue
    ensures var op := Fetch(s);
      Execute(s, rnd) == Ok(if s.v[X(op)] == Byte(op, 0) then Skip(Skip(s)) else Skip(s)) &&
      Execute(s, rnd).state.pc == if s.v[X(op)] == Byte(op, 0) then s.pc + 4 else s.pc + 2
  {
  }

  lemma SkipIfRegDiffersFromValue(s: State, rnd: bv8)
    requires CanExecute(s) && OperationType(Fetch(s)) == IfRegEqualValue
    ensures var op := Fetch(s);
      Execute(s, rnd) == Ok(if s.v[X(op)] != Byte(op, 0) then Skip(Skip(s)) else Skip(s)) &&
      Execute(s, rnd).state.pc == if s.v[X(op)] != Byte(op, 0) then s.pc + 4 else s.pc + 2
  {
  }

  lemma SkipIfRegsEqual(s: State, rnd: bv8)
    requires CanExecute(s) && OperationType(Fetch(s)) == IfRegNotEqualReg
    ensures var op := Fetch(s);
      Execute(s, rnd) == Ok(if s.v[X(op)] == s.v[Y(op)] then Skip(Skip(s)) else Skip(s)) &&
      Execute(s, rnd).state.pc == if s.v[X(op)] == s.v[Y(op)] then s.pc + 4 else s.pc + 2
  {
  }

  lemma SkipIfRegsDiffer(s: State, rnd: bv8)
    requires CanExecute(s) && OperationType(Fetch(s)) == IfRegEquality
    ensures var op := Fetch(s);
      Execute(s, rnd) == Ok(if s.v[X(op)] != s.v[Y(op)] then Skip(Skip(s)) else Skip(s)) &&
      Execute(s, rnd).state.pc == if s.v[X(op)] != s.v[Y(op)] then s.pc + 4 else s.pc + 2
  {
  }

  /** EX9E skips exactly when key VX is pressed, EXA1 exactly when it is not. */
  lemma KeySkip(s: State, rnd: bv8)
    requires CanExecute(s) && OperationType(Fetch(s)) == KeyPress
    requires Byte(Fetch(s), 0) == IfKeyNotPressed || Byte(Fetch(s), 0) == IfKeyPressed
    ensures var taken := s.keys[s.v[X(Fetch(s))]] == (Byte(Fetch(s), 0) == IfKeyNotPressed);
      Execute(s, rnd) == Ok(if taken then Skip(Skip(s)) else Skip(s)) &&
      Execute(s, rnd).state.pc == if taken then s.pc + 4 else s.pc + 2
  {
  }

  /** 2NNN followed by 00EE comes back to the instruction after the call,
      with the stack as it was: the pair only advances PC by 2. */
  lemma CallThenReturn(s: State, rnd1: bv8, rnd2: bv8)
    requires CanExecute(s) && OperationType(Fetch(s)) == Call
    requires var s1 := Execute(s, rnd1).state;
      CanExecute(s1) && Fetch(s1) == 0x00EE
    ensures Execute(Execute(s, rnd1).state, rnd2) == Ok(s.(pc := s.pc + 2))
  {
    var s1 := Execute(s, rnd1).state;
    assert s1 == s.(stack := s.stack + [s.pc + 2], pc := Addr12(Fetch(s)));
    assert OperationType(Fetch(s1)) == ClearReturn;
    assert Addr12(Fetch(s1)) == Return;
    assert (s.stack + [s.pc + 2])[..|s.stack|] == s.stack;
  }

  /** 00EE with an empty stack throws. */
  lemma ReturnOnEmptyStackFails(s: State, rnd: bv8)
    requires CanExecute(s) && Fetch(s) == 0x00EE && |s.stack| == 0
    ensures Execute(s, rnd) == StackUnderflow
  {
    assert OperationType(Fetch(s)) == ClearReturn;
  }

  /** 00EE with a non-empty stack pops the top into PC. */
  lemma ReturnPops(s: State, rnd: bv8)
    requires CanExecute(s) && Fetch(s) == 0x00EE && |s.stack| > 0
    ensures Execute(s, rnd) == Ok(s.(pc := s.stack[|s.stack| - 1], stack := s.stack[..|s.stack| - 1]))
  {
    assert OperationType(Fetch(s)) == ClearReturn;
  }

  /** A sub-code that no handler lists (in families 0, 8, E and F) only
      advances PC. */
  predicate Unlisted(op: bv16)
  {
    match OperationType(op)
    case ClearReturn => Addr12(op) != Clear && Addr12(op) != Return
    case RegOperations =>
      Nibble(op, 0) !in {Set, BitwiseOr, BitwiseAnd, BitwiseXor, Addition, Subtraction, ShiftRight, AltSubtraction, ShiftLeft}
    case KeyPress => Byte(op, 0) != IfKeyNotPressed && Byte(op, 0) != IfKeyPressed
    case Other =>
      Byte(op, 0) !in {SetVxDelay, SetVxKey, SetDelay, SetBuzzer, AddVxToIndex, SetIndexToHex, BcdVx, StoreToRam, LoadFromRam}
    case _ => false
  }

  lemma UnlistedOnlyAdvancesPc(s: State, rnd: bv8)
    requires CanExecute(s) && Unlisted(Fetch(s))
    ensures Execute(s, rnd) == Ok(Skip(s))
  {
    var op := Fetch(s);
    if OperationType(op) == RegOperations {
      LogicAndCopy(s.v, X(op), Y(op), Nibble(op, 0));
    }
  }

  // ----- FX0A -----

  /** FX0A, first visit with no key pressed: the state is unchanged, so the
      instruction runs again next time. */
  lemma WaitWithoutKey(s: State, rnd: bv8)
    requires CanExecute(s) && OperationType(Fetch(s)) == Other && Byte(Fetch(s), 0) == SetVxKey
    requires s.keyLatch == -1 && forall k :: 0 <= k < KeyCount ==> !s.keys[k]
    ensures Execute(s, rnd) == Ok(s)
  {
  }

  /** FX0A with no key latched and some key pressed: the lowest pressed key is
      latched and written to VX, and PC stays on the instruction. */
  lemma WaitLatchesLowestKey(s: State, k: nat, rnd: bv8)
    requires CanExecute(s) && OperationType(Fetch(s)) == Other && Byte(Fetch(s), 0) == SetVxKey
    requires s.keyLatch == -1 && k < KeyCount && s.keys[k] && forall j :: 0 <= j < k ==> !s.keys[j]
    ensures Execute(s, rnd) == Ok(s.(keyLatch := k, v := s.v[X(Fetch(s)) := k as bv8]))
  {
    var r := LowestPressedFrom(s.keys, 0);
    assert r == k;
  }

  /** FX0A while the latched key is held: nothing changes. */
  lemma WaitWhileHeld(s: State, rnd: bv8)
    requires CanExecute(s) && OperationType(Fetch(s)) == Other && Byte(Fetch(s), 0) == SetVxKey
    requires s.keyLatch != -1 && s.keys[s.keyLatch]
    ensures Execute(s, rnd) == Ok(s)
  {
  }

  /** FX0A once the latched key is released: the latch is cleared and
      execution moves past the instruction. */
  lemma WaitEndsOnRelease(s: State, rnd: bv8)
    requires CanExecute(s) && OperationType(Fetch(s)) == Other && Byte(Fetch(s), 0) == SetVxKey
    requires s.keyLatch != -1 && !s.keys[s.keyLatch]
    ensures Execute(s, rnd) == Ok(s.(keyLatch := -1, pc := s.pc + 2))
  {
  }

  // ----- Other families -----

  /** ANNN sets I to NNN; PC only advances and the registers are unchanged. */
  lemma SetIndexOnly(s: State, rnd: bv8)
    requires CanExecute(s) && OperationType(Fetch(s)) == SetIndex
    ensures Execute(s, rnd) == Ok(s.(pc := s.pc + 2, index := Fetch(s) & 0x0FFF))
  {
  }

  /** BNNN jumps to NNN + V0. */
  lemma JumpWithOffset(s: State, rnd: bv8)
    requires CanExecute(s) && OperationType(Fetch(s)) == JumpV0Addr
    ensures Execute(s, rnd) == Ok(s.(pc := (Fetch(s) & 0x0FFF) + Widen(s.v[0])))
  {
  }

  /** The BNNN target is at most 0xFFF + 0xFF, so the 16-bit sum never wraps. */
  lemma JumpTargetNoWrap(op: bv16, v0: bv8)
    ensures Addr12(op) + Widen(v0) >= Widen(v0)
    ensures Addr12(op) + Widen(v0) >= Addr12(op)
  {
  }

  /** 7XNN adds modulo 256 and leaves VF (and every other register) alone. */
  lemma AddToRegKeepsFlag(s: State, rnd: bv8)
    requires CanExecute(s) && OperationType(Fetch(s)) == AddToReg
    ensures var x := X(Fetch(s));
      Execute(s, rnd) == Ok(Skip(s).(v := s.v[x := s.v[x] + Byte(Fetch(s), 0)])) &&
      (x != FlagRegister ==> Execute(s, rnd).state.v[FlagRegister] == s.v[FlagRegister])
  {
  }

  // ----- The cycle driver -----

  /** Below one period of accumulated time nothing runs: only the timers
      decay and the time adds up. */
  lemma NoInstructionBeforePeriod(s: State, timePassed: real, dt: real, rnd: bv8)
    requires CanCycle(s, timePassed, dt) && timePassed + dt < SecondsPerInstruction
    ensures Cycle(s, timePassed, dt, rnd) == Step(Ok(UpdateTimers(s, dt)), timePassed + dt, false)
  {
  }

  /** At most one instruction runs per call, on the timer-updated state, and
      then exactly one period is taken off the accumulator. With
      non-negative time steps the accumulator never goes negative, and it
      stays below one period as long as each step is at most one period. */
  lemma CycleAccumulator(s: State, timePassed: real, dt: real, rnd: bv8)
    requires CanCycle(s, timePassed, dt) && 0.0 <= timePassed && 0.0 <= dt
    ensures var c := Cycle(s, timePassed, dt, rnd);
      0.0 <= c.timePassed &&
      (c.executed <==> timePassed + dt >= SecondsPerInstruction) &&
      (c.executed ==>
         c.timePassed == timePassed + dt - SecondsPerInstruction && c.outcome == Execute(UpdateTimers(s, dt), rnd)) &&
      (timePassed < SecondsPerInstruction && dt <= SecondsPerInstruction ==> c.timePassed < SecondsPerInstruction)
  {
  }
}
