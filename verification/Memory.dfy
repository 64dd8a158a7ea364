/** RAM and ROM of src/memory.c: what a word read or written on the system bus reaches. */
module Memory {
  import opened Words

  const RAM_SIZE: nat := 0x1E0000   // eight boards of 256K, less 128K
  const ROM_FIRST: nat := 0x400000  // the ROM answers in the whole megabyte from here
  const ROM_END: nat := 0x500000
  const ROM_SIZE: nat := 0x4000

  predicate ValidForWrite(a: nat) { a < RAM_SIZE }

  predicate ValidForRead(a: nat) { a < RAM_SIZE || ROM_FIRST <= a < ROM_END }

  /** The byte the bus sees at an address.  After a reset the ROM covers everything until
      the first write. */
  function View(ram: seq<byte>, rom: seq<byte>, overlay: bool, a: nat): byte
    requires |ram| == RAM_SIZE && |rom| == ROM_SIZE
  {
    if !overlay && a < RAM_SIZE then ram[a] else rom[a % ROM_SIZE]
  }

  /** The word at an address lies within RAM or within one copy of the ROM, as every even one
      does; for the odd ones that straddle an end the source reads past its arrays. */
  predicate WithinRam(a: nat) { a != RAM_SIZE - 1 }

  predicate WithinRom(a: nat) { a % ROM_SIZE != ROM_SIZE - 1 }

  /** The memory map: while the ROM covers everything, each address shows the ROM, which repeats every
      0x4000 bytes; later the RAM is at 0 to 0x1dffff and the ROM at 0x400000 to 0x4fffff.  Only RAM
      can be written. */
  lemma MemoryMap(ram: seq<byte>, rom: seq<byte>, a: nat)
    requires |ram| == RAM_SIZE && |rom| == ROM_SIZE
    ensures |rom| == 0x4000 && |ram| == 0x1e_0000
    ensures View(ram, rom, true, a) == rom[a % 0x4000]
    ensures a <= 0x1d_ffff ==> View(ram, rom, false, a) == ram[a]
    ensures 0x40_0000 <= a <= 0x4f_ffff ==> View(ram, rom, false, a) == rom[a % 0x4000]
    ensures ValidForWrite(a) <==> a <= 0x1d_ffff
    ensures ValidForRead(a) <==> a <= 0x1d_ffff || 0x40_0000 <= a <= 0x4f_ffff
  {
  }

  /** Words at even addresses are all there, and of the odd ones all but the last byte of the RAM and of
      each copy of the ROM. */
  lemma WordsWithin(a: nat)
    ensures a % 2 == 0 ==> WithinRam(a) && WithinRom(a)
    ensures a <= 0x1d_ffff ==> (WithinRam(a) <==> a + 1 <= 0x1d_ffff)
    ensures WithinRom(a) <==> a % 0x4000 + 1 < 0x4000
  {
  }

  class Memory {
    const ram: array<byte>
    const rom: array<byte>
    var overlay: bool

    ghost predicate Valid() {
      ram != rom && ram.Length == RAM_SIZE && rom.Length == ROM_SIZE
    }

    constructor ()
      ensures Valid() && overlay && fresh(ram) && fresh(rom)
    {
      ram := new byte[RAM_SIZE](i => 0xff);
      rom := new byte[ROM_SIZE](i => 0);
      overlay := true;
    }

    /** A word from the bus: right after a reset the ROM answers everywhere, later a read
        outside RAM and ROM is a bus error and gives all ones. */
    method ReadWord(a: nat) returns (w: nat, ok: bool)
      requires Valid()
      requires if overlay || ROM_FIRST <= a < ROM_END then WithinRom(a) else WithinRam(a)
      ensures ok <==> overlay || ValidForRead(a)
      ensures ok ==> w == 256 * View(ram[..], rom[..], overlay, a) + View(ram[..], rom[..], overlay, a + 1)
      ensures !ok ==> w == 0xffff
    {
      if overlay {
        return 256 * (rom[a % ROM_SIZE] as int) + rom[a % ROM_SIZE + 1], true;
      }
      if a < RAM_SIZE {
        return 256 * (ram[a] as int) + ram[a + 1], true;
      }
      if ROM_FIRST <= a < ROM_END {
        return 256 * (rom[a % ROM_SIZE] as int) + rom[a % ROM_SIZE + 1], true;
      }
      return 0xffff, false;
    }

    /** A word to the bus: outside RAM it is a bus error, but the ROM overlay is gone all the
        same. */
    method WriteWord(a: nat, w: nat) returns (ok: bool)
      requires Valid() && WithinRam(a) && w < 0x1_0000
      modifies this`overlay, ram
      ensures !overlay && (ok <==> ValidForWrite(a))
      ensures ram[..] == if ok then old(ram[..])[a := w / 256][a + 1 := w % 256] else old(ram[..])
    {
      overlay := false;
      if a >= RAM_SIZE {
        return false;
      }
      ram[a] := w / 256;
      ram[a + 1] := w % 256;
      return true;
    }
  }
}
