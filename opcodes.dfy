/** Views of one 16-bit CHIP-8 instruction word (class Opcode in src/ram.h).
    Positions are counted from the right, starting at 0. */
module Opcodes {

  /** Nibble `pos` of `w`: bits 4*pos .. 4*pos+3. */
  function Nibble(w: bv16, pos: bv8): (n: bv8)
    requires pos <= 3
    ensures n <= 0xF
  {
    ((w >> (pos * 4)) & 0xF) as bv8
  }

  /** Byte `pos` of `w`: bits 8*pos .. 8*pos+7. */
  function Byte(w: bv16, pos: bv8): (b: bv8)
    requires pos <= 1
  {
    ((w >> (pos * 8)) & 0xFF) as bv8
  }

  /** Zero-extends a byte to a word. */
  function Widen(b: bv8): bv16
  {
    b as bv16
  }

  /** The 12-bit address operand NNN: nibble 2 above byte 0. */
  function Addr12(w: bv16): (a: bv16)
    ensures a == w & 0x0FFF
    ensures a < 0x1000
  {
    ((Nibble(w, 2) as bv16) << 8) | (Byte(w, 0) as bv16)
  }

  /** The instruction word made of two memory bytes, most significant first. */
  function Word(hi: bv8, lo: bv8): (w: bv16)
    ensures Byte(w, 1) == hi && Byte(w, 0) == lo
  {
    ((hi as bv16) << 8) | (lo as bv16)
  }

  /** The two bytes of a word reassemble it. */
  lemma WordOfBytes(w: bv16)
    ensures Word(Byte(w, 1), Byte(w, 0)) == w
  {
  }

  /** The four nibbles of a word reassemble it. */
  lemma NibblesReassemble(w: bv16)
    ensures w == ((Nibble(w, 3) as bv16) << 12) | ((Nibble(w, 2) as bv16) << 8)
               | ((Nibble(w, 1) as bv16) << 4) | (Nibble(w, 0) as bv16)
  {
  }

  /** The decoding of 0x124E, the word the memory test fetches at 0x200. */
  lemma DecodeExample()
    ensures Addr12(0x124E) == 0x024E
    ensures Nibble(0x124E, 3) == 0x1 && Nibble(0x124E, 2) == 0x2
    ensures Nibble(0x124E, 1) == 0x4 && Nibble(0x124E, 0) == 0xE
    ensures Byte(0x124E, 1) == 0x12 && Byte(0x124E, 0) == 0x4E
  {
  }
}
