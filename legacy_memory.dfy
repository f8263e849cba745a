/** The earlier memory class (include/chip8/memory.h), the one unit the
    repository's tests exercise: a 4096-byte array holding the font at 0x50
    and the ROM image from 0x200 on, with a byte-pair fetch and a glyph
    accessor. Its constructor reads the ROM through a formatted stream
    iterator, which skips whitespace bytes; the model keeps that behaviour. */
module LegacyMemory {
  import opened Opcodes
  import Ram

  /** The bytes a formatted read of an unsigned char skips in the classic
      locale: space, tab, line feed, vertical tab, form feed, carriage return. */
  predicate IsSpace(b: bv8)
  {
    b == 0x20 || b == 0x09 || b == 0x0A || b == 0x0B || b == 0x0C || b == 0x0D
  }

  /** The bytes a formatted stream iterator yields from `file`: every byte
      in order, except the whitespace bytes it skips. */
  function Extracted(file: seq<bv8>): (bytes: seq<bv8>)
    ensures |bytes| <= |file|
    ensures forall k :: 0 <= k < |bytes| ==> !IsSpace(bytes[k])
  {
    if |file| == 0 then []
    else Extracted(file[..|file| - 1]) + (if IsSpace(file[|file| - 1]) then [] else [file[|file| - 1]])
  }

  /** A file without whitespace bytes is read exactly as it is. */
  lemma {:induction false} ExtractedWithoutSpaces(file: seq<bv8>)
    requires forall k :: 0 <= k < |file| ==> !IsSpace(file[k])
    ensures Extracted(file) == file
  {
    if |file| > 0 {
      ExtractedWithoutSpaces(file[..|file| - 1]);
    }
  }

  /** Extraction drops exactly the whitespace bytes: the image is shorter
      than the file by one byte for each whitespace byte in it. */
  lemma {:induction false} ExtractedLength(file: seq<bv8>)
    ensures |Extracted(file)| + |Spaces(file)| == |file|
  {
    if |file| > 0 {
      ExtractedLength(file[..|file| - 1]);
    }
  }

  /** The whitespace bytes of `file`, in order. */
  function Spaces(file: seq<bv8>): (spaces: seq<bv8>)
    ensures forall k :: 0 <= k < |spaces| ==> IsSpace(spaces[k])
  {
    if |file| == 0 then []
    else Spaces(file[..|file| - 1]) + (if IsSpace(file[|file| - 1]) then [file[|file| - 1]] else [])
  }

  /** The program 6020 6105 (V0 := 0x20, V1 := 0x05) loses its 0x20 byte:
      0x61 lands at 0x201, so the word fetched at 0x200 is 0x6061 and the
      image is one byte short. */
  lemma SpaceByteDropped()
    ensures Extracted([0x60, 0x20, 0x61, 0x05]) == [0x60, 0x61, 0x05]
  {
    var file: seq<bv8> := [0x60, 0x20, 0x61, 0x05];
    assert file[..0] == [];
    PrefixExtracted(file, 1);
    assert Extracted(file[..1]) == [0x60];
    PrefixExtracted(file, 2);
    assert Extracted(file[..2]) == [0x60];
    PrefixExtracted(file, 3);
    assert Extracted(file[..3]) == [0x60, 0x61];
    PrefixExtracted(file, 4);
    assert file[..4] == file;
  }

  class Memory {
    var data: array<bv8>
    /** How many bytes the ROM copy wrote (m_rom_size). */
    var romSize: nat

    /** The array has its fixed size and the font sits at 0x50; nothing
        writes to memory after construction. */
    predicate Valid()
      reads this, data
    {
      data.Length == Ram.Size &&
      data[Ram.FontStart..Ram.FontStart + Ram.FontSize] == Ram.Font &&
      romSize <= Ram.Size - Ram.RomStart
    }

    /** Memory(filename), with the file's bytes as `file`: the bytes the
        stream iterator yields are copied from 0x200 on, then the font to
        0x50. The copy does not check that the image fits. */
    constructor(file: seq<bv8>)
      requires |Extracted(file)| <= Ram.Size - Ram.RomStart
      ensures Valid()
      ensures romSize == |Extracted(file)|
      ensures data[Ram.RomStart..Ram.RomStart + romSize] == Extracted(file)
    {
      var mem := new bv8[Ram.Size];
      var n := CopyRom(mem, file);
      CopyFont(mem);
      data, romSize := mem, n;
    }

    /** The std::copy from the stream iterator into memory from 0x200 on:
        returns how many bytes it wrote. */
    static method CopyRom(mem: array<bv8>, file: seq<bv8>) returns (n: nat)
      requires mem.Length == Ram.Size && |Extracted(file)| <= Ram.Size - Ram.RomStart
      modifies mem
      ensures n == |Extracted(file)|
      ensures mem[Ram.RomStart..Ram.RomStart + n] == Extracted(file)
      ensures mem[..Ram.RomStart] == old(mem[..Ram.RomStart])
    {
      var k := 0;
      n := 0;
      while k < |file|
        invariant 0 <= k <= |file|
        invariant n == |Extracted(file[..k])| && n <= Ram.Size - Ram.RomStart
        invariant mem[Ram.RomStart..Ram.RomStart + n] == Extracted(file[..k])
        invariant mem[..Ram.RomStart] == old(mem[..Ram.RomStart])
      {
        PrefixExtracted(file, k + 1);
        ExtractedPrefixLength(file, k + 1);
        if !IsSpace(file[k]) {
          mem[Ram.RomStart + n] := file[k];
          n := n + 1;
        }
        k := k + 1;
      }
      assert file[..k] == file;
    }

    /** The std::copy of the default font to 0x50; the ROM area, above it,
        is untouched. */
    static method CopyFont(mem: array<bv8>)
      requires mem.Length == Ram.Size
      modifies mem
      ensures mem[Ram.FontStart..Ram.FontStart + Ram.FontSize] == Ram.Font
      ensures mem[Ram.RomStart..] == old(mem[Ram.RomStart..])
    {
      var k := 0;
      while k < Ram.FontSize
        invariant 0 <= k <= Ram.FontSize
        invariant mem[Ram.FontStart..Ram.FontStart + k] == Ram.Font[..k]
        invariant mem[Ram.RomStart..] == old(mem[Ram.RomStart..])
      {
        mem[Ram.FontStart + k] := Ram.Font[k];
        k := k + 1;
      }
    }

    /** fetch(pc): the bytes at pc and pc + 1, in that order, as one word. */
    function Fetch(pc: bv16): (op: bv16)
      requires Valid() && pc as int + 1 < Ram.Size
      reads this, data
      ensures Byte(op, 1) == data[pc] && Byte(op, 0) == data[pc as int + 1]
    {
      Word(data[pc], data[pc as int + 1])
    }

    /** The five bytes from 0x50 + 5c on are bytes 5c..5c+4 of the font region. */
    lemma FontSlice(c: nat)
      requires Valid() && c < 16
      ensures data[Ram.FontStart + Ram.BytesPerChar * c..Ram.FontStart + Ram.BytesPerChar * c + Ram.BytesPerChar] ==
        Ram.Font[Ram.BytesPerChar * c..Ram.BytesPerChar * c + Ram.BytesPerChar]
    {
      var at := Ram.FontStart + Ram.BytesPerChar * c;
      var got, want := data[at..at + Ram.BytesPerChar], Ram.Font[Ram.BytesPerChar * c..Ram.BytesPerChar * c + Ram.BytesPerChar];
      forall k | 0 <= k < Ram.BytesPerChar ensures got[k] == want[k] {
        assert data[at + k] == data[Ram.FontStart..Ram.FontStart + Ram.FontSize][Ram.BytesPerChar * c + k];
      }
    }

    /** get_font_char(ch): the five bytes of glyph ch. */
    function GetFontChar(ch: bv8): (glyph: seq<bv8>)
      requires Valid() && ch <= 0xF
      reads this, data
      ensures glyph == Ram.Glyphs[ch]
    {
      var c := ch as nat;
      var at := Ram.FontStart + Ram.BytesPerChar * c;
      Ram.FontGlyph(c);
      FontSlice(c);
      data[at..at + Ram.BytesPerChar]
    }
  }

  /** One more file byte adds itself to the extracted image unless it is
      whitespace. */
  lemma PrefixExtracted(file: seq<bv8>, k: nat)
    requires 0 < k <= |file|
    ensures Extracted(file[..k]) ==
      Extracted(file[..k - 1]) + (if IsSpace(file[k - 1]) then [] else [file[k - 1]])
  {
    assert file[..k][..k - 1] == file[..k - 1];
  }

  /** The extracted image of a prefix is no longer than that of the file. */
  lemma {:induction false} ExtractedPrefixLength(file: seq<bv8>, k: nat)
    requires k <= |file|
    ensures |Extracted(file[..k])| <= |Extracted(file)|
    decreases |file| - k
  {
    if k < |file| {
      ExtractedPrefixLength(file, k + 1);
      PrefixExtracted(file, k + 1);
    } else {
      assert file[..k] == file;
    }
  }

  /** The memory test: a ROM file starting 12 4E fetches 0x124E at 512. */
  method OpcodeFetching(file: seq<bv8>) returns (op: bv16)
    requires 2 <= |file| <= Ram.Size - Ram.RomStart
    requires file[0] == 0x12 && file[1] == 0x4E
    ensures op == 0x124E
  {
    var memory := new Memory(file);
    ExtractedPrefix(file, 2);
    StartOfRom(memory, file);
    op := memory.Fetch(0x200);
    WordOfBytes(op);
  }

  /** The first two image bytes are the first two memory bytes at 0x200. */
  lemma StartOfRom(memory: Memory, file: seq<bv8>)
    requires memory.Valid() && 2 <= memory.romSize
    requires memory.data[Ram.RomStart..Ram.RomStart + memory.romSize] == Extracted(file)
    requires Extracted(file)[..2] == file[..2]
    ensures memory.data[0x200] == file[0] && memory.data[0x201] == file[1]
  {
    assert memory.data[0x200] == Extracted(file)[0] == file[..2][0];
    assert memory.data[0x201] == Extracted(file)[1] == file[..2][1];
  }

  /** A prefix without whitespace bytes is extracted as it is, ahead of
      whatever the rest of the file yields. */
  lemma {:induction false} ExtractedPrefix(file: seq<bv8>, k: nat)
    requires k <= |file| && forall j :: 0 <= j < k ==> !IsSpace(file[j])
    ensures |Extracted(file)| >= k && Extracted(file)[..k] == file[..k]
    decreases |file|
  {
    if |file| > k {
      ExtractedPrefix(file[..|file| - 1], k);
      assert file[..|file| - 1][..k] == file[..k];
    } else {
      ExtractedWithoutSpaces(file);
      assert file[..k] == file;
    }
  }
}
