/** Memory layout and the value-level parts of the RAM class (src/ram.h):
    font table, font addresses, BCD digits and block copies. */
module Ram {

  /** Capacity of memory in bytes (default_memory_size). */
  const Size := 4096
  /** The built-in font: 16 hexadecimal glyphs of 5 bytes each, from FontStart. */
  const BytesPerChar := 5
  const FontSize := 80
  const FontStart := 0x50
  /** ROM images are placed from here on; programs start executing here. */
  const RomStart := 0x200

  /** The 16 glyphs, 5 rows of 8 pixels each, in hexadecimal digit order. */
  const Glyphs: seq<seq<bv8>> := [
    [0xF0, 0x90, 0x90, 0x90, 0xF0], // 0
    [0x20, 0x60, 0x20, 0x20, 0x70], // 1
    [0xF0, 0x10, 0xF0, 0x80, 0xF0], // 2
    [0xF0, 0x10, 0xF0, 0x10, 0xF0], // 3
    [0x90, 0x90, 0xF0, 0x10, 0x10], // 4
    [0xF0, 0x80, 0xF0, 0x10, 0xF0], // 5
    [0xF0, 0x80, 0xF0, 0x90, 0xF0], // 6
    [0xF0, 0x10, 0x20, 0x40, 0x40], // 7
    [0xF0, 0x90, 0xF0, 0x90, 0xF0], // 8
    [0xF0, 0x90, 0xF0, 0x10, 0xF0], // 9
    [0xF0, 0x90, 0xF0, 0x90, 0x90], // A
    [0xE0, 0x90, 0xE0, 0x90, 0xE0], // B
    [0xF0, 0x80, 0x80, 0x80, 0xF0], // C
    [0xE0, 0x90, 0x90, 0x90, 0xE0], // D
    [0xF0, 0x80, 0xF0, 0x80, 0xF0], // E
    [0xF0, 0x80, 0xF0, 0x80, 0x80]  // F
  ]

  /** The 80-byte default font table, glyph after glyph. */
  const Font: seq<bv8> := seq(FontSize, i requires 0 <= i < FontSize => Glyphs[i / BytesPerChar][i % BytesPerChar])

  /** Glyph ch occupies bytes 5ch..5ch+4 of the font table. */
  lemma FontGlyph(ch: nat)
    requires ch < 16
    ensures Font[BytesPerChar * ch..BytesPerChar * ch + BytesPerChar] == Glyphs[ch]
  {
    var glyph := Font[BytesPerChar * ch..BytesPerChar * ch + BytesPerChar];
    forall k | 0 <= k < BytesPerChar ensures glyph[k] == Glyphs[ch][k] {
      var at := BytesPerChar * ch + k;
      assert glyph[k] == Font[at];
      assert at / BytesPerChar == ch && at % BytesPerChar == k;
    }
  }

  /** The font fills exactly its 80-byte region, which ends before the ROM area. */
  lemma FontLayout()
    ensures |Font| == FontSize == 16 * BytesPerChar
    ensures FontStart + FontSize <= RomStart < Size
    ensures Font[..5] == [0xF0, 0x90, 0x90, 0x90, 0xF0]
    ensures Font[75..] == [0xF0, 0x80, 0xF0, 0x80, 0x80]
    ensures forall ch :: 0 <= ch < 16 ==> Font[BytesPerChar * ch..BytesPerChar * ch + BytesPerChar] == Glyphs[ch]
  {
    forall ch | 0 <= ch < 16
      ensures Font[BytesPerChar * ch..BytesPerChar * ch + BytesPerChar] == Glyphs[ch]
    {
      FontGlyph(ch);
    }
    FontGlyph(0);
    FontGlyph(15);
  }

  /** Address of the glyph of hexadecimal digit `ch` (get_font_addr). */
  function FontAddr(ch: bv8): (addr: bv16)
    requires ch <= 0xF
    ensures addr as int == FontStart + BytesPerChar * ch as int
    ensures FontStart <= addr as int && addr as int + BytesPerChar <= FontStart + FontSize
  {
    FontStart as bv16 + (ch as bv16) * BytesPerChar as bv16
  }

  /** The three decimal digits of `value`, hundreds first (store_bcd). */
  function BcdDigits(value: bv8): (digits: seq<bv8>)
    ensures |digits| == 3
    ensures forall k :: 0 <= k < 3 ==> digits[k] < 10
  {
    [value / 100, (value / 10) % 10, value % 10]
  }

  /** The digits, weighted by 100, 10 and 1, add up to the value again. */
  lemma BcdDigitsValue(value: bv8)
    ensures var digits := BcdDigits(value);
      (digits[0] as bv16) * 100 + (digits[1] as bv16) * 10 + digits[2] as bv16 == value as bv16
  {
  }

  lemma BcdExamples()
    ensures BcdDigits(123) == [1, 2, 3]
    ensures BcdDigits(0) == [0, 0, 0]
    ensures BcdDigits(255) == [2, 5, 5]
  {
  }

  /** store_bcd: the digits of `value` written at i, i+1 and i+2; nothing
      else changes. */
  function StoreBcd(mem: seq<bv8>, i: nat, value: bv8): (r: seq<bv8>)
    requires i + 2 < |mem|
    ensures |r| == |mem|
    ensures r[i..i + 3] == BcdDigits(value)
    ensures forall k :: 0 <= k < |mem| && !(i <= k < i + 3) ==> r[k] == mem[k]
  {
    Overwrite(mem, i, BcdDigits(value))
  }

  /** store_bcd as three single-cell writes, in the order the code does them. */
  lemma StoreBcdCells(mem: seq<bv8>, i: nat, value: bv8)
    requires i + 2 < |mem|
    ensures StoreBcd(mem, i, value) == mem[i := value / 100][i + 1 := (value / 10) % 10][i + 2 := value % 10]
  {
    var r, w := StoreBcd(mem, i, value), mem[i := value / 100][i + 1 := (value / 10) % 10][i + 2 := value % 10];
    var digits := BcdDigits(value);
    OverwriteAt(mem, i, digits);
    forall k | 0 <= k < |mem| ensures r[k] == w[k] {
    }
  }

  /** What store_bcd leaves at i, i+1, i+2 are three decimal digits that
      spell out the value. */
  lemma StoreBcdDecimal(mem: seq<bv8>, i: nat, value: bv8)
    requires i + 2 < |mem|
    ensures var r := StoreBcd(mem, i, value);
      r[i] < 10 && r[i + 1] < 10 && r[i + 2] < 10 &&
      (r[i] as bv16) * 100 + (r[i + 1] as bv16) * 10 + r[i + 2] as bv16 == value as bv16
  {
    var r := StoreBcd(mem, i, value);
    var digits := BcdDigits(value);
    assert r[i] == r[i..i + 3][0] == digits[0];
    assert r[i + 1] == r[i..i + 3][1] == digits[1];
    assert r[i + 2] == r[i..i + 3][2] == digits[2];
    BcdDigitsValue(value);
  }

  /** RAM::get_sprite: the n bytes from address i on, in order. */
  function Sprite(mem: seq<bv8>, i: bv16, n: bv8): (sprite: seq<bv8>)
    requires |mem| == Size && i as int + n as int < Size
    ensures |sprite| == n as int
    ensures forall k :: 0 <= k < n as int ==> sprite[k] == mem[i as int + k]
  {
    mem[i as int..i as int + n as int]
  }

  /** `mem` with `bytes` copied over it from index `at` (the effect of std::copy). */
  function Overwrite(mem: seq<bv8>, at: nat, bytes: seq<bv8>): (r: seq<bv8>)
    requires at + |bytes| <= |mem|
    ensures |r| == |mem|
    ensures r[at..at + |bytes|] == bytes
    ensures forall k :: 0 <= k < |mem| && !(at <= k < at + |bytes|) ==> r[k] == mem[k]
  {
    mem[..at] + bytes + mem[at + |bytes|..]
  }

  /** One cell of Overwrite: inside the written range it is the matching
      byte, elsewhere the old one. */
  lemma OverwriteAt(mem: seq<bv8>, at: nat, bytes: seq<bv8>)
    requires at + |bytes| <= |mem|
    ensures forall k :: 0 <= k < |mem| ==>
      Overwrite(mem, at, bytes)[k] == if at <= k < at + |bytes| then bytes[k - at] else mem[k]
  {
    var r := Overwrite(mem, at, bytes);
    forall k | at <= k < at + |bytes| ensures r[k] == bytes[k - at] {
      assert r[at..at + |bytes|][k - at] == r[k];
    }
  }

  /** Overwriting a block with what it already holds changes nothing. */
  lemma {:induction false} OverwriteSame(mem: seq<bv8>, at: nat, n: nat)
    requires at + n <= |mem|
    ensures Overwrite(mem, at, mem[at..at + n]) == mem
  {
    var r := Overwrite(mem, at, mem[at..at + n]);
    forall k | 0 <= k < |mem| ensures r[k] == mem[k] {
      if at <= k < at + n {
        assert r[k] == r[at..at + n][k - at];
      }
    }
  }

  /** RAM::store: V0..VX copied to memory from address i on. */
  function Store(mem: seq<bv8>, regs: seq<bv8>, i: nat, x: nat): (r: seq<bv8>)
    requires x < |regs| && i + x < |mem|
    ensures |r| == |mem|
  {
    Overwrite(mem, i, regs[..x + 1])
  }

  /** RAM::load: memory from address i on copied to V0..VX. */
  function Load(mem: seq<bv8>, regs: seq<bv8>, i: nat, x: nat): (r: seq<bv8>)
    requires x < |regs| && i + x < |mem|
    ensures |r| == |regs|
  {
    Overwrite(regs, 0, mem[i..i + x + 1])
  }

  /** What the two copies move: store puts V0..VX at i..i+X and keeps every
      other memory byte; load puts memory i..i+X into V0..VX and keeps the
      registers above VX. */
  lemma StoreLoadCells(mem: seq<bv8>, regs: seq<bv8>, i: nat, x: nat)
    requires x < |regs| && i + x < |mem|
    ensures var s := Store(mem, regs, i, x);
      s[i..i + x + 1] == regs[..x + 1] && s[..i] == mem[..i] && s[i + x + 1..] == mem[i + x + 1..]
    ensures var l := Load(mem, regs, i, x);
      l[..x + 1] == mem[i..i + x + 1] && l[x + 1..] == regs[x + 1..]
  {
  }

  /** FX55 then FX65 with the same I and X: loading back what was just
      stored leaves the registers as they were. */
  lemma StoreThenLoad(mem: seq<bv8>, regs: seq<bv8>, i: nat, x: nat)
    requires x < |regs| && i + x < |mem|
    ensures Load(Store(mem, regs, i, x), regs, i, x) == regs
  {
    assert Store(mem, regs, i, x)[i..i + x + 1] == regs[0..x + 1];
    OverwriteSame(regs, 0, x + 1);
  }

  /** The guard written before the block copies of store and load. */
  predicate StoreGuardAsWritten(i: int, x: int)
  {
    i + x <= Size
  }

  /** The written guard admits a copy whose last target index, i + x, is Size:
      one past the end of memory. */
  lemma StoreGuardAdmitsOverrun()
    ensures StoreGuardAsWritten(0xFF1, 15) && !(0xFF1 + 15 < Size)
  {
  }
}
