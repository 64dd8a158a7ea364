/**
 The DMA engine and the disk side of READ and WRITE in src/wd.c.  The methods move a block
 range word by word and eighteen sectors at a time; `ReadEffect` and `WriteEffect` say in
 closed form, for every input, what they do.
 */
module WdDma {
  import opened Memory
  import opened Registers
  import opened Words

  const SECTOR: nat := 512
  const CHUNK: nat := 18            // sectors that fit the controller's buffer
  const WORDS: nat := 256           // words of a sector
  const BUFFER: nat := CHUNK * SECTOR
  const BUS: nat := 0x100_0000      // the bus has 24 address bits

  const SENSE_DATA: byte := 0x11
  const SENSE_RECORD_NOT_FOUND: byte := 0x14
  const SENSE_BLOCK_ADDRESS: byte := 0x21

  // ---------------------------------------------------------------- the address register

  /** The register holds the ones complement of the word address. */
  function DmaAddr(reg: nat): (a: nat)
    requires reg < W
    ensures a < BUS && a % 2 == 0
  {
    2 * (W - 1 - reg) % BUS
  }

  /** The register after n words: it counts down, which walks the address up. */
  function Advance(reg: nat, n: nat): (r: nat)
    ensures r < W
  {
    (reg - n) % W
  }

  lemma AdvanceOne(reg: nat, n: nat)
    requires reg < W
    ensures Advance(reg, 0) == reg
    ensures Advance(Advance(reg, n), 1) == Advance(reg, n + 1)
  {
  }

  lemma AdvanceAdds(reg: nat, n: nat, m: nat)
    ensures Advance(Advance(reg, n), m) == Advance(reg, n + m)
  {
  }

  /** n words on, the register designates the address 2n higher. */
  lemma AdvanceWalksUp(reg: nat, n: nat)
    requires reg < W
    ensures DmaAddr(Advance(reg, n)) == (DmaAddr(reg) + 2 * n) % BUS
  {
  }

  /** A host that writes the complements of the three bytes of a word address, in whatever order, makes
      the engine start at that word. */
  lemma WordIsDesignated(reg: word, h: byte, m: byte, l: byte)
    ensures var (x, y, z, w) := (255 - h, 255 - m, 255 - l, 0x1_0000 * h + 256 * m + l);
      && DmaAddr(SetLow(SetMid(SetHigh(reg, x), y), z)) == 2 * w % 0x100_0000
      && DmaAddr(SetMid(SetLow(SetHigh(reg, x), z), y)) == 2 * w % 0x100_0000
      && DmaAddr(SetLow(SetHigh(SetMid(reg, y), x), z)) == 2 * w % 0x100_0000
      && DmaAddr(SetHigh(SetLow(SetMid(reg, y), z), x)) == 2 * w % 0x100_0000
      && DmaAddr(SetMid(SetHigh(SetLow(reg, z), x), y)) == 2 * w % 0x100_0000
      && DmaAddr(SetHigh(SetMid(SetLow(reg, z), y), x)) == 2 * w % 0x100_0000
  {
    hide SetHigh, SetMid, SetLow;
    Thirds(reg, 255 - h, 255 - m, 255 - l);
    Complements(h, m, l);
  }

  lemma Complements(h: byte, m: byte, l: byte)
    ensures DmaAddr(Assembled(255 - h, 255 - m, 255 - l)) == 2 * (0x1_0000 * h + 256 * m + l) % 0x100_0000
  {
    var w := 0x1_0000 * h + 256 * m + l;
    assert W - 1 - Assembled(255 - h, 255 - m, 255 - l) == 0xff00_0000 + w;
    assert 2 * (0xff00_0000 + w) == 0x1fe * BUS + 2 * w;
    WholeBuses(0x1fe, 2 * w);
  }

  lemma WholeBuses(k: nat, x: nat)
    ensures (k * BUS + x) % BUS == x % BUS
  {
  }

  /** How many words from an address on may be written, or read, before a bus error. */
  function WordsWritable(a: nat): nat { if a < RAM_SIZE then (RAM_SIZE - a) / 2 else 0 }

  function WordsReadable(a: nat): nat {
    if a < RAM_SIZE then (RAM_SIZE - a) / 2
    else if ROM_FIRST <= a < ROM_END then (ROM_END - a) / 2
    else 0
  }

  lemma WordsWritableIsExact(a: nat)
    requires a < BUS && a % 2 == 0
    ensures forall k: nat :: k < WordsWritable(a) ==> ValidForWrite(a + 2 * k)
    ensures !ValidForWrite((a + 2 * WordsWritable(a)) % BUS)
  {
  }

  lemma WordsReadableIsExact(a: nat)
    requires a < BUS && a % 2 == 0
    ensures forall k: nat :: k < WordsReadable(a) ==> ValidForRead(a + 2 * k)
    ensures !ValidForRead((a + 2 * WordsReadable(a)) % BUS)
  {
  }

  // ---------------------------------------------------------------- whole transfers

  /** Everything a transfer reads or changes. */
  datatype Disk = Disk(
    ram: seq<byte>, rom: seq<byte>, overlay: bool,
    image: seq<byte>, blocks: nat,    // the file, and the blocks it had when it was attached
    readonly: bool,
    reg: nat, status: byte, sense: byte, busErr: bool)
  {
    ghost predicate Valid() {
      |ram| == RAM_SIZE && |rom| == ROM_SIZE && reg < W && SECTOR * blocks <= |image| && blocks < W
    }

    /** Bytes of memory as the bus sees them. */
    function Seen(a: nat, n: nat): (r: seq<byte>)
      requires Valid()
      ensures |r| == n
    {
      seq<byte>(n, k requires 0 <= k => View(ram, rom, overlay, a + k))
    }
  }

  /** s with d written over it from position at on. */
  function Overlay(s: seq<byte>, at: nat, d: seq<byte>): (r: seq<byte>)
    ensures |r| == |s|
  {
    seq<byte>(|s|, k requires 0 <= k < |s| => if at <= k < at + |d| then d[k - at] else s[k])
  }

  /** s with d written over it from position at on; a file grows for it, and a gap reads as zeros. */
  function Patched(s: seq<byte>, at: nat, d: seq<byte>): (r: seq<byte>)
    requires d != []
    ensures |r| == if at + |d| > |s| then at + |d| else |s|
  {
    seq<byte>(if at + |d| > |s| then at + |d| else |s|, k requires 0 <= k =>
      if at <= k < at + |d| then d[k - at] else if k < |s| then s[k] else 0)
  }

  lemma PatchedInside(s: seq<byte>, at: nat, d: seq<byte>)
    requires d != [] && at + |d| <= |s|
    ensures Patched(s, at, d) == Overlay(s, at, d)
  {
  }

  lemma PatchedInParts(s: seq<byte>, at: nat, d: seq<byte>, padded: seq<byte>, r: seq<byte>)
    requires d != [] && at <= |padded|
    requires padded == if |s| < at then s + seq(at - |s|, _ => 0) else s
    requires r == padded[..at] + d + (if at + |d| < |padded| then padded[at + |d|..] else [])
    ensures r == Patched(s, at, d)
  {
  }

  function Min(a: nat, b: nat): nat { if a < b then a else b }

  /** A word stored at the DMA address, and a whole buffer stored from there on. */
  function Stored(d: Disk, x: byte, y: byte): Disk
    requires d.Valid() && ValidForWrite(DmaAddr(d.reg))
  {
    var a := DmaAddr(d.reg);
    d.(ram := d.ram[a := x][a + 1 := y], overlay := false, reg := Advance(d.reg, 1))
  }

  function StoredAll(d: Disk, buf: seq<byte>): Disk
    requires d.reg < W
  {
    d.(ram := Overlay(d.ram, DmaAddr(d.reg), buf), overlay := d.overlay && buf == [], reg := Advance(d.reg, |buf| / 2))
  }

  /** Blocks the image yields before a chunk of the range sticks out of it. */
  function InImage(lba: nat, count: nat, blocks: nat): nat {
    if lba + count <= blocks then count
    else if lba <= blocks then (blocks - lba) / CHUNK * CHUNK
    else 0
  }

  /** The first words of a block range. */
  function FromImage(s: Disk, lba: nat, words: nat): (r: seq<byte>)
    requires words > 0 ==> SECTOR * lba + 2 * words <= |s.image|
    ensures |r| == 2 * words
  {
    if words == 0 then [] else s.image[SECTOR * lba..SECTOR * lba + 2 * words]
  }

  lemma FromImageTaken(s: Disk, blk: nat, chunk: nat, words: nat, buf: seq<byte>)
    requires SECTOR * (blk + chunk) <= |s.image| && SECTOR * chunk <= |buf| && words <= WORDS * chunk
    requires buf[..SECTOR * chunk] == s.image[SECTOR * blk..SECTOR * (blk + chunk)]
    ensures buf[..2 * words] == FromImage(s, blk, words)
  {
    assert buf[..2 * words] == buf[..SECTOR * chunk][..2 * words];
  }

  /** Words a READ moves: all the image yields, or up to the first bad address. */
  function ReadWords(s: Disk, lba: nat, count: nat): (n: nat)
    requires s.Valid()
    ensures n > 0 ==> SECTOR * lba + 2 * n <= |s.image|
  {
    Min(WORDS * InImage(lba, count, s.blocks), WordsWritable(DmaAddr(s.reg)))
  }

  function ReadEffect(s: Disk, lba: nat, count: nat): (r: Disk)
    requires s.Valid()
    ensures r.Valid()
  {
    var yielded := InImage(lba, count, s.blocks);
    var moved := ReadWords(s, lba, count);
    var s1 := StoredAll(s, FromImage(s, lba, moved)).(status := 0);
    if moved < WORDS * yielded then s1.(status := 2, sense := SENSE_DATA, busErr := true)
    else if yielded < count then s1.(status := 2, sense := SENSE_BLOCK_ADDRESS)
    else s1
  }

  /** Blocks a WRITE puts on the image, and words it fetches for them. */
  function Accepted(s: Disk, lba: nat, count: nat): nat {
    if s.readonly then 0 else InImage(lba, count, s.blocks)
  }

  function Fetched(s: Disk, lba: nat, count: nat): nat {
    var accepted := Accepted(s, lba, count);
    WORDS * (if accepted == count then count else Min(count, accepted + CHUNK))
  }

  function WriteWords(s: Disk, lba: nat, count: nat): nat
    requires s.reg < W
  {
    Min(Fetched(s, lba, count), WordsReadable(DmaAddr(s.reg)))
  }

  /** Blocks a WRITE puts on the image: after a bus error, the whole chunks before it. */
  function Written(s: Disk, lba: nat, count: nat): nat
    requires s.reg < W
  {
    var moved := WriteWords(s, lba, count);
    if moved < Fetched(s, lba, count) then moved / (CHUNK * WORDS) * CHUNK else Accepted(s, lba, count)
  }

  function WriteEffect(s: Disk, lba: nat, count: nat): (r: Disk)
    requires s.Valid()
    ensures r.Valid()
  {
    var moved := WriteWords(s, lba, count);
    var written := Written(s, lba, count);
    var s1 := s.(image := Overlay(s.image, SECTOR * lba, s.Seen(DmaAddr(s.reg), SECTOR * written)),
                 reg := Advance(s.reg, moved), status := 0);
    if moved < Fetched(s, lba, count) then s1.(status := 2, sense := SENSE_DATA, busErr := true)
    else if written < count then s1.(status := 2, sense := SENSE_RECORD_NOT_FOUND)
    else s1
  }

  // ---------------------------------------------------------------- chunk by chunk

  /** The bound of a block range is checked on 32 bits, so a range that wraps may pass. */
  predicate PassesCheck(blk: nat, n: nat, blocks: nat) { blk + n <= blocks || (blk + n >= W && blk + n - W <= blocks) }

  /** Whether the image hands out a chunk: one that wraps comes back short from the file, unless
      the file has grown that far. */
  predicate Yields(d: Disk, blk: nat, n: nat) { PassesCheck(blk, n, d.blocks) && SECTOR * (blk + n) <= |d.image| }

  predicate Takes(d: Disk, blk: nat, n: nat) { !d.readonly && PassesCheck(blk, n, d.blocks) }

  /** A chunk of a READ. */
  function ReadPart(d: Disk, blk: nat, n: nat): (r: Disk)
    requires d.Valid()
    ensures r.Valid()
  {
    if !Yields(d, blk, n) then d.(status := 2, sense := SENSE_BLOCK_ADDRESS)
    else
      var moved := Min(WORDS * n, WordsWritable(DmaAddr(d.reg)));
      var r := StoredAll(d, FromImage(d, blk, moved));
      if moved < WORDS * n then r.(status := 2, sense := SENSE_DATA, busErr := true) else r
  }

  /** A chunk of a WRITE. */
  function WritePart(d: Disk, blk: nat, n: nat): (r: Disk)
    requires d.Valid() && n > 0
    ensures r.Valid()
  {
    var moved := Min(WORDS * n, WordsReadable(DmaAddr(d.reg)));
    var r := d.(reg := Advance(d.reg, moved));
    if moved < WORDS * n then r.(status := 2, sense := SENSE_DATA, busErr := true)
    else if !Takes(d, blk, n) then r.(status := 2, sense := SENSE_RECORD_NOT_FOUND)
    else r.(image := Patched(d.image, SECTOR * blk, d.Seen(DmaAddr(d.reg), SECTOR * n)))
  }

  /** The rest of a transfer, from a number of blocks on; block numbers wrap on 32 bits. */
  function ReadRun(d: Disk, lba: nat, done: nat, count: nat): (r: Disk)
    requires d.Valid() && done <= count
    ensures r.Valid()
    decreases count - done
  {
    if done == count then d else
    var n := Min(count - done, CHUNK);
    var r := ReadPart(d, (lba + done) % W, n);
    if r.status != 0 then r else ReadRun(r, lba, done + n, count)
  }

  function WriteRun(d: Disk, lba: nat, done: nat, count: nat): (r: Disk)
    requires d.Valid() && done <= count
    ensures r.Valid()
    decreases count - done
  {
    if done == count then d else
    var n := Min(count - done, CHUNK);
    var r := WritePart(d, (lba + done) % W, n);
    if r.status != 0 then r else WriteRun(r, lba, done + n, count)
  }

  function Read(d: Disk, lba: nat, count: nat): (r: Disk)
    requires d.Valid()
    ensures r.Valid()
  {
    ReadRun(d.(status := 0), lba, 0, count)
  }

  function Write(d: Disk, lba: nat, count: nat): (r: Disk)
    requires d.Valid()
    ensures r.Valid()
  {
    WriteRun(d.(status := 0), lba, 0, count)
  }

  // ---------------------------------------------------------------- overlays

  lemma OverlayGrows(s: seq<byte>, at: nat, d: seq<byte>, x: byte, y: byte)
    requires at + |d| + 2 <= |s|
    ensures Overlay(s, at, d)[at + |d| := x][at + |d| + 1 := y] == Overlay(s, at, d + [x, y])
  {
  }

  lemma OverlayComposes(s: seq<byte>, at: nat, x: seq<byte>, y: seq<byte>)
    ensures Overlay(Overlay(s, at, x), at + |x|, y) == Overlay(s, at, x + y)
  {
  }

  lemma OverlayNothing(s: seq<byte>, at: nat)
    ensures Overlay(s, at, []) == s
  {
  }

  /** Where the next chunk starts: the words left are those not yet moved. */
  lemma WritableAfter(reg: nat, n: nat)
    requires reg < W && n <= WordsWritable(DmaAddr(reg))
    ensures WordsWritable(DmaAddr(Advance(reg, n))) == WordsWritable(DmaAddr(reg)) - n
    ensures n < WordsWritable(DmaAddr(reg)) ==> DmaAddr(Advance(reg, n)) == DmaAddr(reg) + 2 * n
  {
    AdvanceWalksUp(reg, n);
  }

  lemma ReadableAfter(reg: nat, n: nat)
    requires reg < W && n <= WordsReadable(DmaAddr(reg))
    ensures WordsReadable(DmaAddr(Advance(reg, n))) == WordsReadable(DmaAddr(reg)) - n
    ensures n < WordsReadable(DmaAddr(reg)) ==> DmaAddr(Advance(reg, n)) == DmaAddr(reg) + 2 * n
  {
    AdvanceWalksUp(reg, n);
  }

  lemma StoredNone(d: Disk)
    requires d.Valid()
    ensures StoredAll(d, []) == d
  {
  }

  lemma StoredAllGrows(d: Disk, buf: seq<byte>, x: byte, y: byte)
    requires d.Valid() && |buf| % 2 == 0 && |buf| / 2 <= WordsWritable(DmaAddr(d.reg))
    ensures ValidForWrite(DmaAddr(StoredAll(d, buf).reg)) <==> |buf| / 2 < WordsWritable(DmaAddr(d.reg))
    ensures |buf| / 2 < WordsWritable(DmaAddr(d.reg)) ==> Stored(StoredAll(d, buf), x, y) == StoredAll(d, buf + [x, y])
  {
    WritableAfter(d.reg, |buf| / 2);
    AdvanceOne(d.reg, |buf| / 2);
    if |buf| / 2 < WordsWritable(DmaAddr(d.reg)) { OverlayGrows(d.ram, DmaAddr(d.reg), buf, x, y); }
  }

  lemma SeenJoins(d: Disk, e: Disk, a: nat, n: nat, m: nat)
    requires d.Valid() && e.Valid() && d.ram == e.ram && d.rom == e.rom && d.overlay == e.overlay
    ensures d.Seen(a, n) + e.Seen(a + n, m) == d.Seen(a, n + m)
  {
  }

  lemma SeenGrows(d: Disk, i: nat)
    requires d.Valid() && i % 2 == 0 && i / 2 <= WordsReadable(DmaAddr(d.reg))
    ensures var d1 := d.(reg := Advance(d.reg, i / 2));
      && (ValidForRead(DmaAddr(d1.reg)) <==> i / 2 < WordsReadable(DmaAddr(d.reg)))
      && (i / 2 < WordsReadable(DmaAddr(d.reg)) ==>
            d.Seen(DmaAddr(d.reg), i) + d1.Seen(DmaAddr(d1.reg), 2) == d.Seen(DmaAddr(d.reg), i + 2))
  {
    hide DmaAddr, WordsReadable, Advance, View;
    ReadableAfter(d.reg, i / 2);
    ReadableIffWordsLeft(Advance(d.reg, i / 2));
    SeenJoins(d, d.(reg := Advance(d.reg, i / 2)), DmaAddr(d.reg), i, 2);
  }

  lemma ReadableIffWordsLeft(reg: nat)
    requires reg < W
    ensures ValidForRead(DmaAddr(reg)) <==> WordsReadable(DmaAddr(reg)) > 0
  {
  }

  class DmaEngine {
    const mem: Memory
    const dataBuf: array<byte>
    const imgBlocks: nat
    const readonly: bool
    var image: seq<byte>       // the file behind the unit
    var dmaAddress: nat
    var statusByte: byte
    var sense: byte
    var busErr: bool

    ghost predicate Valid()
      reads this
    {
      && mem.Valid() && dmaAddress < W && dataBuf.Length == BUFFER
      && SECTOR * imgBlocks <= |image| && imgBlocks < W
      && mem.ram != dataBuf && mem.rom != dataBuf
    }

    ghost function D(): (d: Disk)
      requires Valid()
      reads this, mem, mem.ram, mem.rom
      ensures d.Valid()
    {
      Disk(mem.ram[..], mem.rom[..], mem.overlay, image, imgBlocks, readonly, dmaAddress, statusByte, sense, busErr)
    }

    /** The number of blocks is kept on 32 bits. */
    constructor (mem: Memory, image: seq<byte>, readonly: bool)
      requires mem.Valid()
      ensures Valid() && this.mem == mem && this.image == image && this.readonly == readonly && fresh(dataBuf)
      ensures imgBlocks == |image| / SECTOR % W
    {
      this.mem, this.image, this.readonly := mem, image, readonly;
      imgBlocks := |image| / SECTOR % W;
      dataBuf := new byte[BUFFER](i => 0);
      dmaAddress, statusByte, sense, busErr := 0, 0, 0, false;
    }

    /** The three bytes of the address register. */
    method WriteDmaHigh(v: byte)
      requires Valid()
      modifies this`dmaAddress
      ensures Valid() && D() == old(D()).(reg := SetHigh(old(dmaAddress), v))
    {
      dmaAddress := v * 0x1_0000 + dmaAddress % 0x1_0000;
    }

    method WriteDmaMiddle(v: byte)
      requires Valid()
      modifies this`dmaAddress
      ensures Valid() && D() == old(D()).(reg := SetMid(old(dmaAddress), v))
    {
      dmaAddress := dmaAddress / 0x1_0000 % 256 * 0x1_0000 + v * 256 + dmaAddress % 256;
    }

    method WriteDmaLow(v: byte)
      requires Valid()
      modifies this`dmaAddress
      ensures Valid() && D() == old(D()).(reg := SetLow(old(dmaAddress), v))
    {
      dmaAddress := dmaAddress / 256 % 0x1_0000 * 256 + v;
    }

    /** One word of the buffer to memory, or a bus error. */
    method WordToMem(i: nat) returns (ok: bool)
      requires Valid() && i + 1 < BUFFER
      modifies this`dmaAddress, this`busErr, mem`overlay, mem.ram
      ensures Valid() && ok == ValidForWrite(DmaAddr(old(dmaAddress)))
      ensures D() == if ok then Stored(old(D()), dataBuf[i], dataBuf[i + 1]) else old(D()).(busErr := true)
    {
      var a := 2 * (W - 1 - dmaAddress) % BUS;
      if !ValidForWrite(a) {
        busErr := true;
        return false;
      }
      var _ := mem.WriteWord(a, 256 * (dataBuf[i] as int) + dataBuf[i + 1]);
      dmaAddress := (dmaAddress - 1) % W;
      return true;
    }

    /** Controller to memory; stops at the first address that cannot be written. */
    method DmaToMem(len: nat) returns (ok: bool)
      requires Valid() && len % 2 == 0 && len <= BUFFER
      modifies this`dmaAddress, this`busErr, mem`overlay, mem.ram
      ensures Valid()
      ensures var n := Min(len / 2, WordsWritable(DmaAddr(old(dmaAddress))));
        && ok == (n == len / 2)
        && D() == StoredAll(old(D()), dataBuf[..2 * n]).(busErr := old(busErr) || !ok)
    {
      hide Overlay, DmaAddr, Advance, WordsWritable;
      ghost var d0 := D();
      StoredNone(d0);
      var i := 0;
      while i < len
        invariant i % 2 == 0 && i <= len && Valid()
        invariant i / 2 <= WordsWritable(DmaAddr(d0.reg))
        invariant D() == StoredAll(d0, dataBuf[..i])
      {
        StoredAllGrows(d0, dataBuf[..i], dataBuf[i], dataBuf[i + 1]);
        assert dataBuf[..i + 2] == dataBuf[..i] + [dataBuf[i], dataBuf[i + 1]];
        var moved := WordToMem(i);
        if !moved { return false; }
        i := i + 2;
      }
      return true;
    }

    /** One word of memory to the buffer, or a bus error. */
    method WordFromMem(i: nat) returns (ok: bool)
      requires Valid() && i + 1 < BUFFER
      modifies this`dmaAddress, this`busErr, dataBuf
      ensures Valid() && ok == ValidForRead(DmaAddr(old(dmaAddress)))
      ensures D() == if ok then old(D()).(reg := Advance(old(dmaAddress), 1)) else old(D()).(busErr := true)
      ensures ok ==> dataBuf[..i + 2] == old(dataBuf[..i]) + old(D()).Seen(DmaAddr(old(dmaAddress)), 2)
      ensures !ok ==> dataBuf[..] == old(dataBuf[..])
    {
      var a := 2 * (W - 1 - dmaAddress) % BUS;
      if !ValidForRead(a) {
        busErr := true;
        return false;
      }
      hide View;
      var w, _ := mem.ReadWord(a);
      dataBuf[i] := w / 256;
      dataBuf[i + 1] := w % 256;
      dmaAddress := (dmaAddress - 1) % W;
      return true;
    }

    /** Memory to controller; stops at the first address that cannot be read. */
    method DmaFromMem(len: nat) returns (ok: bool)
      requires Valid() && len % 2 == 0 && len <= BUFFER
      modifies this`dmaAddress, this`busErr, dataBuf
      ensures Valid()
      ensures var n := Min(len / 2, WordsReadable(DmaAddr(old(dmaAddress))));
        && ok == (n == len / 2)
        && dataBuf[..2 * n] == old(D()).Seen(DmaAddr(old(dmaAddress)), 2 * n)
        && D() == old(D()).(reg := Advance(old(dmaAddress), n), busErr := old(busErr) || !ok)
    {
      hide Overlay, DmaAddr, Advance, WordsReadable, View;
      ghost var d0 := D();
      AdvanceOne(d0.reg, 0);
      var i := 0;
      while i < len
        invariant i % 2 == 0 && i <= len && Valid()
        invariant i / 2 <= WordsReadable(DmaAddr(d0.reg))
        invariant D() == d0.(reg := Advance(d0.reg, i / 2))
        invariant dataBuf[..i] == d0.Seen(DmaAddr(d0.reg), i)
      {
        SeenGrows(d0, i);
        AdvanceOne(d0.reg, i / 2);
        var moved := WordFromMem(i);
        if !moved { return false; }
        i := i + 2;
      }
      return true;
    }

    /** The host's probe of the DMA address: the word there, all ones after a bus error. */
    method DmaTest() returns (word: nat, ok: bool)
      requires Valid()
      modifies this`dmaAddress
      ensures Valid() && D() == old(D()).(reg := Advance(old(dmaAddress), 1))
      ensures word < 0x1_0000 && ok == ValidForRead(DmaAddr(old(dmaAddress)))
      ensures ok ==> [word / 256, word % 256] == D().Seen(DmaAddr(old(dmaAddress)), 2)
    {
      var a := 2 * (W - 1 - dmaAddress) % BUS;
      hide View;
      word, ok := mem.ReadWord(a);
      ok := ValidForRead(a);
      dmaAddress := (dmaAddress - 1) % W;
    }

    /** Whole sectors from the image into the buffer. */
    method ImgRead(blk: nat, nblk: nat) returns (ok: bool)
      requires Valid() && blk < W && 0 < nblk <= CHUNK
      modifies dataBuf
      ensures ok <==> Yields(D(), blk, nblk)
      ensures ok ==> dataBuf[..SECTOR * nblk] == image[SECTOR * blk..SECTOR * (blk + nblk)]
    {
      if (blk + nblk) % W > imgBlocks { return false; }
      if SECTOR * (blk + nblk) > |image| { return false; }
      forall k | 0 <= k < SECTOR * nblk { dataBuf[k] := image[SECTOR * blk + k]; }
      return true;
    }

    /** Whole sectors from the buffer to the image; the file takes them wherever they are put. */
    method ImgWrite(blk: nat, nblk: nat) returns (ok: bool)
      requires Valid() && blk < W && 0 < nblk <= CHUNK
      modifies this`image
      ensures Valid() && (ok <==> Takes(old(D()), blk, nblk))
      ensures image == if ok then Patched(old(image), SECTOR * blk, dataBuf[..SECTOR * nblk]) else old(image)
    {
      if readonly { return false; }
      hide Patched, View;
      if (blk + nblk) % W > imgBlocks { return false; }
      var at, end := SECTOR * blk, SECTOR * (blk + nblk);
      var padded := if |image| < at then image + seq(at - |image|, _ => 0) else image;
      image := padded[..at] + dataBuf[..SECTOR * nblk] + (if end < |padded| then padded[end..] else []);
      PatchedInParts(old(image), at, dataBuf[..SECTOR * nblk], padded, image);
      return true;
    }

    /** At most one buffer full of a READ. */
    method ReadChunk(blk: nat, chunk: nat) returns (ok: bool)
      requires Valid() && blk < W && 0 < chunk <= CHUNK && statusByte == 0
      modifies this`dmaAddress, this`busErr, this`statusByte, this`sense, mem`overlay, mem.ram, dataBuf
      ensures Valid() && D() == ReadPart(old(D()), blk, chunk)
      ensures ok <==> statusByte == 0
    {
      hide Overlay, DmaAddr, Advance, WordsWritable;
      ghost var d0 := D();
      ok := ImgRead(blk, chunk);
      if !ok {
        statusByte, sense := 2, SENSE_BLOCK_ADDRESS;
        return;
      }
      ok := DmaToMem(chunk * SECTOR);
      ghost var moved := Min(WORDS * chunk, WordsWritable(DmaAddr(d0.reg)));
      FromImageTaken(d0, blk, chunk, moved, dataBuf[..]);
      assert dataBuf[..2 * moved] == dataBuf[..][..2 * moved];
      if !ok { statusByte, sense := 2, SENSE_DATA; }
    }

    /** READ with DMA on. */
    method ReadBlocks(lba: nat, count: nat)
      requires Valid() && lba < W
      modifies this`dmaAddress, this`busErr, this`statusByte, this`sense, mem`overlay, mem.ram, dataBuf
      ensures Valid() && D() == Read(old(D()), lba, count)
      ensures lba + count < W || |image| < SECTOR * W ==> D() == ReadEffect(old(D()), lba, count)
    {
      hide ReadEffect, ReadPart;
      ghost var d0 := D();
      ReadCloses(d0, lba, count);
      statusByte := 0;
      var done := 0;
      while done < count
        invariant done <= count && Valid() && statusByte == 0
        invariant ReadRun(D(), lba, done, count) == Read(d0, lba, count)
      {
        var chunk := Min(count - done, CHUNK);
        var ok := ReadChunk((lba + done) % W, chunk);
        if !ok { return; }
        done := done + chunk;
      }
    }

    /** At most one buffer full of a WRITE. */
    method WriteChunk(blk: nat, chunk: nat) returns (ok: bool)
      requires Valid() && blk < W && 0 < chunk <= CHUNK && statusByte == 0
      modifies this`dmaAddress, this`busErr, this`statusByte, this`sense, this`image, dataBuf
      ensures Valid() && D() == WritePart(old(D()), blk, chunk)
      ensures ok <==> statusByte == 0
    {
      hide Patched, DmaAddr, Advance, WordsReadable;
      ghost var d0 := D();
      ok := DmaFromMem(chunk * SECTOR);
      if !ok {
        statusByte, sense := 2, SENSE_DATA;
        return;
      }
      ok := ImgWrite(blk, chunk);
      if !ok { statusByte, sense := 2, SENSE_RECORD_NOT_FOUND; }
    }

    /** WRITE with DMA on. */
    method WriteBlocks(lba: nat, count: nat)
      requires Valid() && lba < W
      modifies this`dmaAddress, this`busErr, this`statusByte, this`sense, this`image, dataBuf
      ensures Valid() && D() == Write(old(D()), lba, count)
      ensures lba + count < W ==> D() == WriteEffect(old(D()), lba, count)
    {
      hide WriteEffect, WritePart;
      ghost var d0 := D();
      WriteCloses(d0, lba, count);
      statusByte := 0;
      var done := 0;
      while done < count
        invariant done <= count && Valid() && statusByte == 0
        invariant WriteRun(D(), lba, done, count) == Write(d0, lba, count)
      {
        var chunk := Min(count - done, CHUNK);
        var ok := WriteChunk((lba + done) % W, chunk);
        if !ok { return; }
        done := done + chunk;
      }
    }
  }

  lemma NextBoundary(done: nat, count: nat)
    requires done % CHUNK == 0 && done < count
    ensures var next := done + Min(count - done, CHUNK); next <= count && (next % CHUNK == 0 || next == count)
  {
  }

  /** A range within one buffer is read whole or not at all. */
  lemma OneChunkInImage(blk: nat, chunk: nat, blocks: nat)
    requires 0 < chunk <= CHUNK
    ensures InImage(blk, chunk, blocks) == if blk + chunk <= blocks then chunk else 0
  {
  }

  lemma ReadNothing(d: Disk, lba: nat)
    requires d.Valid()
    ensures ReadEffect(d, lba, 0) == d.(status := 0)
  {
  }

  lemma StoredAllComposes(d: Disk, x: seq<byte>, y: seq<byte>)
    requires d.Valid() && |x| % 2 == 0 && |x| / 2 <= WordsWritable(DmaAddr(d.reg))
    requires |x| / 2 == WordsWritable(DmaAddr(d.reg)) ==> y == []
    ensures StoredAll(StoredAll(d, x), y) == StoredAll(d, x + y)
  {
    WritableAfter(d.reg, |x| / 2);
    AdvanceAdds(d.reg, |x| / 2, |y| / 2);
    OverlayComposes(d.ram, DmaAddr(d.reg), x, y);
    if y == [] {
      assert x + y == x;
      OverlayNothing(StoredAll(d, x).ram, DmaAddr(Advance(d.reg, |x| / 2)));
    }
  }

  /** What the image yields for a longer range, once a shorter one was read whole. */
  lemma InImageComposes(lba: nat, done: nat, chunk: nat, count: nat, blocks: nat)
    requires done % CHUNK == 0 && done < count && chunk == Min(count - done, CHUNK)
    requires done > 0 ==> lba + done <= blocks
    ensures InImage(lba, done + chunk, blocks) == done + InImage(lba + done, chunk, blocks)
    ensures InImage(lba + done, chunk, blocks) < chunk ==> InImage(lba, count, blocks) == done
    ensures InImage(lba + done, chunk, blocks) == chunk ==> InImage(lba, count, blocks) >= done + chunk
  {
  }

  lemma FromImageSplits(d: Disk, lba: nat, done: nat, n: nat)
    requires SECTOR * lba + 2 * (WORDS * done + n) <= |d.image| || (done == 0 && n == 0)
    ensures FromImage(d, lba, WORDS * done) + FromImage(d, lba + done, n) == FromImage(d, lba, WORDS * done + n)
  {
  }

  /** After a trouble-free READ the words left are those not yet moved. */
  lemma AfterRead(d: Disk, lba: nat, done: nat)
    requires d.Valid() && ReadEffect(d, lba, done).status == 0
    ensures var d1 := ReadEffect(d, lba, done);
      && d1 == StoredAll(d, FromImage(d, lba, WORDS * done)).(status := 0)
      && (done > 0 ==> lba + done <= d.blocks)
      && WORDS * done <= WordsWritable(DmaAddr(d.reg))
      && WordsWritable(DmaAddr(d1.reg)) == WordsWritable(DmaAddr(d.reg)) - WORDS * done
  {
    WritableAfter(d.reg, WORDS * done);
  }

  lemma ReadWordsCompose(d: Disk, lba: nat, done: nat, chunk: nat, count: nat)
    requires d.Valid() && done % CHUNK == 0 && done < count && chunk == Min(count - done, CHUNK)
    requires ReadEffect(d, lba, done).status == 0
    ensures var d1 := ReadEffect(d, lba, done);
      && ReadWords(d, lba, done + chunk) == WORDS * done + ReadWords(d1, lba + done, chunk)
      && FromImage(d, lba, WORDS * done) + FromImage(d1, lba + done, ReadWords(d1, lba + done, chunk))
         == FromImage(d, lba, ReadWords(d, lba, done + chunk))
      && (ReadWords(d1, lba + done, chunk) < WORDS * chunk
          ==> ReadWords(d, lba, count) == ReadWords(d, lba, done + chunk))
  {
    var d1 := ReadEffect(d, lba, done);
    AfterRead(d, lba, done);
    InImageComposes(lba, done, chunk, count, d.blocks);
    FromImageSplits(d, lba, done, ReadWords(d1, lba + done, chunk));
  }

  lemma ReadJoins(d: Disk, lba: nat, done: nat, chunk: nat, count: nat)
    requires d.Valid() && done % CHUNK == 0 && done < count && chunk == Min(count - done, CHUNK)
    requires ReadEffect(d, lba, done).status == 0
    ensures ReadEffect(ReadEffect(d, lba, done), lba + done, chunk) == ReadEffect(d, lba, done + chunk)
  {
    hide Overlay, InImage, WordsWritable, DmaAddr, Advance;
    var d1 := ReadEffect(d, lba, done);
    AfterRead(d, lba, done);
    InImageComposes(lba, done, chunk, count, d.blocks);
    ReadWordsCompose(d, lba, done, chunk, count);
    StoredAllComposes(d, FromImage(d, lba, WORDS * done), FromImage(d1, lba + done, ReadWords(d1, lba + done, chunk)));
  }

  lemma ReadEnds(d: Disk, lba: nat, done: nat, chunk: nat, count: nat)
    requires d.Valid() && done % CHUNK == 0 && done < count && chunk == Min(count - done, CHUNK)
    requires ReadEffect(d, lba, done).status == 0 && ReadEffect(d, lba, done + chunk).status != 0
    ensures ReadEffect(d, lba, done + chunk) == ReadEffect(d, lba, count)
  {
    hide Overlay, InImage, WordsWritable, DmaAddr, Advance, StoredAll, FromImage;
    AfterRead(d, lba, done);
    InImageComposes(lba, done, chunk, count, d.blocks);
    OneChunkInImage(lba + done, chunk, d.blocks);
    ReadWordsCompose(d, lba, done, chunk, count);
  }

  /** Reading on from where a trouble-free READ ended is one longer READ; and the first chunk
      that goes wrong ends the whole READ.  So the chunking cannot be observed. */
  lemma ReadComposes(d: Disk, lba: nat, done: nat, chunk: nat, count: nat)
    requires d.Valid() && done % CHUNK == 0 && done < count && chunk == Min(count - done, CHUNK)
    requires ReadEffect(d, lba, done).status == 0
    ensures ReadEffect(ReadEffect(d, lba, done), lba + done, chunk) == ReadEffect(d, lba, done + chunk)
    ensures ReadEffect(d, lba, done + chunk).status != 0
      ==> ReadEffect(d, lba, done + chunk) == ReadEffect(d, lba, count)
  {
    hide ReadEffect;
    ReadJoins(d, lba, done, chunk, count);
    if ReadEffect(d, lba, done + chunk).status != 0 { ReadEnds(d, lba, done, chunk, count); }
  }

  lemma WriteNothing(d: Disk, lba: nat)
    requires d.Valid()
    ensures WriteEffect(d, lba, 0) == d.(status := 0)
  {
  }

  lemma AcceptedComposes(d: Disk, lba: nat, done: nat, chunk: nat, count: nat)
    requires done % CHUNK == 0 && done < count && chunk == Min(count - done, CHUNK)
    requires Accepted(d, lba, done) == done
    ensures Accepted(d, lba, done + chunk) == done + Accepted(d, lba + done, chunk)
    ensures Accepted(d, lba + done, chunk) in {0, chunk}
    ensures Accepted(d, lba + done, chunk) == 0 ==> Accepted(d, lba, count) == done
    ensures Accepted(d, lba + done, chunk) == chunk ==> Accepted(d, lba, count) >= done + chunk
  {
  }

  lemma FetchedComposes(d: Disk, lba: nat, done: nat, chunk: nat, count: nat)
    requires done % CHUNK == 0 && done < count && chunk == Min(count - done, CHUNK)
    requires Accepted(d, lba, done) == done
    ensures Fetched(d, lba + done, chunk) == WORDS * chunk
    ensures Fetched(d, lba, done + chunk) == WORDS * done + WORDS * chunk
    ensures Accepted(d, lba + done, chunk) == 0 ==> Fetched(d, lba, count) == WORDS * done + WORDS * chunk
    ensures Accepted(d, lba + done, chunk) == chunk ==> Fetched(d, lba, count) >= WORDS * done + WORDS * chunk
  {
  }

  lemma WholeChunksBefore(done: nat, m: nat)
    requires done % CHUNK == 0 && m < CHUNK * WORDS
    ensures (WORDS * done + m) / (CHUNK * WORDS) * CHUNK == done
  {
  }

  /** The counts of a WRITE from those of its parts. */
  lemma WrittenComposes(d: Disk, d1: Disk, lba: nat, done: nat, chunk: nat, count: nat)
    requires d.reg < W && d1.reg < W && done % CHUNK == 0 && done < count && chunk == Min(count - done, CHUNK)
    requires Accepted(d, lba, done) == done && d1.readonly == d.readonly && d1.blocks == d.blocks
    requires WordsReadable(DmaAddr(d.reg)) == WORDS * done + WordsReadable(DmaAddr(d1.reg))
    ensures WriteWords(d, lba, done + chunk) == WORDS * done + WriteWords(d1, lba + done, chunk)
    ensures Written(d, lba, done + chunk) == done + Written(d1, lba + done, chunk)
    ensures Fetched(d, lba, done + chunk) == WORDS * done + Fetched(d1, lba + done, chunk)
    ensures WriteWords(d1, lba + done, chunk) < Fetched(d1, lba + done, chunk)
      ==> Written(d1, lba + done, chunk) < chunk
    ensures Written(d1, lba + done, chunk) < chunk ==>
      && WriteWords(d, lba, count) == WriteWords(d, lba, done + chunk)
      && Written(d, lba, count) == Written(d, lba, done + chunk)
      && (WriteWords(d, lba, count) < Fetched(d, lba, count)
          <==> WriteWords(d, lba, done + chunk) < Fetched(d, lba, done + chunk))
  {
    AcceptedComposes(d, lba, done, chunk, count);
    FetchedComposes(d, lba, done, chunk, count);
    var m := WriteWords(d1, lba + done, chunk);
    if m < WORDS * chunk { WholeChunksBefore(done, m); WholeChunksBefore(0, m); }
  }

  lemma SeenComposes(d: Disk, n: nat, m: nat)
    requires d.Valid() && n % 2 == 0 && n / 2 <= WordsReadable(DmaAddr(d.reg))
    requires n / 2 == WordsReadable(DmaAddr(d.reg)) ==> m == 0
    ensures d.Seen(DmaAddr(d.reg), n) + d.Seen(DmaAddr(Advance(d.reg, n / 2)), m) == d.Seen(DmaAddr(d.reg), n + m)
  {
    ReadableAfter(d.reg, n / 2);
  }

  lemma AfterWrite(d: Disk, lba: nat, done: nat)
    requires d.Valid() && WriteEffect(d, lba, done).status == 0
    ensures var d1 := WriteEffect(d, lba, done);
      && d1 == d.(image := Overlay(d.image, SECTOR * lba, d.Seen(DmaAddr(d.reg), SECTOR * done)),
                  reg := Advance(d.reg, WORDS * done), status := 0)
      && Accepted(d, lba, done) == done
      && WORDS * done <= WordsReadable(DmaAddr(d.reg))
      && WordsReadable(DmaAddr(d1.reg)) == WordsReadable(DmaAddr(d.reg)) - WORDS * done
  {
    ReadableAfter(d.reg, WORDS * done);
  }

  /** Writing on from where a trouble-free WRITE ended is one longer WRITE; and the first
      chunk that goes wrong ends the whole WRITE. */
  lemma WriteComposes(d: Disk, lba: nat, done: nat, chunk: nat, count: nat)
    requires d.Valid() && done % CHUNK == 0 && done < count && chunk == Min(count - done, CHUNK)
    requires WriteEffect(d, lba, done).status == 0
    ensures WriteEffect(WriteEffect(d, lba, done), lba + done, chunk) == WriteEffect(d, lba, done + chunk)
    ensures WriteEffect(d, lba, done + chunk).status != 0
      ==> WriteEffect(d, lba, done + chunk) == WriteEffect(d, lba, count)
  {
    hide Overlay, Accepted, Fetched, WriteWords, Written, Advance, DmaAddr, WordsReadable;
    var d1 := WriteEffect(d, lba, done);
    AfterWrite(d, lba, done);
    WrittenComposes(d, d1, lba, done, chunk, count);
    AdvanceAdds(d.reg, WORDS * done, WriteWords(d1, lba + done, chunk));
    var n := SECTOR * Written(d1, lba + done, chunk);
    WrittenIsReadable(d1, lba + done, chunk);
    SeenComposes(d, SECTOR * done, n);
    OverlayComposes(d.image, SECTOR * lba, d.Seen(DmaAddr(d.reg), SECTOR * done), d1.Seen(DmaAddr(d1.reg), n));
  }

  lemma WrittenIsReadable(d: Disk, lba: nat, count: nat)
    requires d.reg < W
    ensures WORDS * Written(d, lba, count) <= WriteWords(d, lba, count) <= WordsReadable(DmaAddr(d.reg))
  {
  }

  // ---------------------------------------------------------------- the closed forms

  lemma ReadPartCloses(d: Disk, blk: nat, n: nat)
    requires d.Valid() && 0 < n <= CHUNK && d.status == 0 && (blk + n < W || |d.image| < SECTOR * W)
    ensures ReadPart(d, blk, n) == ReadEffect(d, blk, n)
  {
    hide Overlay, DmaAddr, WordsWritable;
    OneChunkInImage(blk, n, d.blocks);
    StoredNone(d);
  }

  lemma ReadKeepsImage(d: Disk, lba: nat, done: nat)
    requires d.Valid()
    ensures var r := ReadEffect(d, lba, done);
      && r.image == d.image && r.blocks == d.blocks
      && (r.status == 0 && done > 0 ==> lba + done <= d.blocks)
  {
  }

  lemma {:induction false} ReadRunCloses(d: Disk, lba: nat, done: nat, count: nat)
    requires d.Valid() && lba < W && done <= count && (done % CHUNK == 0 || done == count)
    requires lba + count < W || |d.image| < SECTOR * W
    requires ReadEffect(d, lba, done).status == 0
    ensures ReadRun(ReadEffect(d, lba, done), lba, done, count) == ReadEffect(d, lba, count)
    decreases count - done
  {
    hide ReadPart, ReadEffect;
    if done < count {
      var n, r := Min(count - done, CHUNK), ReadEffect(d, lba, done);
      NextBoundary(done, count);
      ReadKeepsImage(d, lba, done);
      ReadComposes(d, lba, done, n, count);
      ReadPartCloses(r, lba + done, n);
      if ReadEffect(d, lba, done + n).status == 0 { ReadRunCloses(d, lba, done + n, count); }
    }
  }

  /** Chunking cannot be observed: a READ is one transfer of the whole range, unless the range
      wraps on a file that has grown that far. */
  lemma ReadCloses(d: Disk, lba: nat, count: nat)
    requires d.Valid() && lba < W
    ensures lba + count < W || |d.image| < SECTOR * W ==> Read(d, lba, count) == ReadEffect(d, lba, count)
  {
    hide ReadEffect;
    ReadNothing(d, lba);
    if lba + count < W || |d.image| < SECTOR * W { ReadRunCloses(d, lba, 0, count); }
  }

  lemma WritePartCloses(d: Disk, blk: nat, n: nat)
    requires d.Valid() && 0 < n <= CHUNK && d.status == 0 && blk + n < W
    ensures WritePart(d, blk, n) == WriteEffect(d, blk, n)
  {
    hide Overlay, Patched, DmaAddr, WordsReadable;
    OneChunkInImage(blk, n, d.blocks);
    OverlayNothing(d.image, SECTOR * blk);
    if Takes(d, blk, n) { PatchedInside(d.image, SECTOR * blk, d.Seen(DmaAddr(d.reg), SECTOR * n)); }
  }

  lemma {:induction false} WriteRunCloses(d: Disk, lba: nat, done: nat, count: nat)
    requires d.Valid() && done <= count && (done % CHUNK == 0 || done == count) && lba + count < W
    requires WriteEffect(d, lba, done).status == 0
    ensures WriteRun(WriteEffect(d, lba, done), lba, done, count) == WriteEffect(d, lba, count)
    decreases count - done
  {
    hide WritePart, WriteEffect;
    if done < count {
      var n, r := Min(count - done, CHUNK), WriteEffect(d, lba, done);
      NextBoundary(done, count);
      WriteComposes(d, lba, done, n, count);
      WritePartCloses(r, lba + done, n);
      if WriteEffect(d, lba, done + n).status == 0 { WriteRunCloses(d, lba, done + n, count); }
    }
  }

  /** And a WRITE, unless its range wraps. */
  lemma WriteCloses(d: Disk, lba: nat, count: nat)
    requires d.Valid()
    ensures lba + count < W ==> Write(d, lba, count) == WriteEffect(d, lba, count)
  {
    hide WriteEffect;
    WriteNothing(d, lba);
    if lba + count < W { WriteRunCloses(d, lba, 0, count); }
  }
}
