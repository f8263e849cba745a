/** Value-level facts about the register file (src/registers.h, src/registers.cpp):
    16-bit program-counter arithmetic and the decay of the two timers. */
module Registers {

  /** Number of general registers V0..VF (m_number_of_registers). */
  const NumberOfRegisters := 16
  /** Timers count down 60 units per second (decrement_speed). */
  const DecrementSpeed: real := 60.0

  /** incr_pc and decr_pc work modulo 2^16, and decr_pc undoes incr_pc. */
  lemma PcStepWraps(pc: bv16)
    ensures pc == 0xFFFE ==> pc + 2 == 0
    ensures pc == 0 ==> pc - 2 == 0xFFFE
    ensures (pc + 2) - 2 == pc && (pc - 2) + 2 == pc
  {
  }

  /** One timer after `dt` seconds (update_timers): a positive timer loses
      60 units per second and is clamped at 0; a timer at 0 is left alone. */
  function DecayTimer(t: real, dt: real): (r: real)
    ensures t >= 0.0 ==> r >= 0.0
    ensures t == 0.0 ==> r == 0.0
    ensures t > 0.0 ==> r == if t - dt * DecrementSpeed < 0.0 then 0.0 else t - dt * DecrementSpeed
    ensures dt >= 0.0 ==> r <= t
  {
    if t > 0.0 then
      var r := t - dt * DecrementSpeed;
      if r < 0.0 then 0.0 else r
    else
      t
  }

  /** Decay over two consecutive intervals is decay over their sum: the timers
      depend on elapsed time only, not on how it was split into cycles. */
  lemma DecayAdds(t: real, dt1: real, dt2: real)
    requires t >= 0.0 && dt1 >= 0.0 && dt2 >= 0.0
    ensures DecayTimer(DecayTimer(t, dt1), dt2) == DecayTimer(t, dt1 + dt2)
  {
  }

  /** A timer at 5 is at 4 one sixtieth of a second later, and once a timer
      has reached 0 it stays there. */
  lemma DecayExamples(dt: real)
    ensures DecayTimer(5.0, 1.0 / 60.0) == 4.0
    ensures DecayTimer(DecayTimer(5.0, 1.0), dt) == 0.0
  {
  }
}
