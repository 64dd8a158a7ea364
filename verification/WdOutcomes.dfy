/**
 READ and WRITE in numbers: what a transfer of src/wd.c leaves in every byte of memory and of the
 image, in the register, the status and the sense byte.
 */
module WdOutcomes {
  import opened Memory
  import opened WdDma
  import opened Words

  /** The address that the register designates, which is the complement of a word address of 23 bits. */
  function Address(reg: nat): int { 2 * (0xffff_ffff - reg) % 0x100_0000 }

  /** Blocks of a range that come out of an image, which goes by 18 at a time. */
  function FromBlocks(lba: nat, count: nat, blocks: nat): (y: nat)
    ensures y <= count
  {
    if lba + count <= blocks then count else if lba <= blocks then (blocks - lba) / 18 * 18 else 0
  }

  /** Words from an address on that can be written, and read. */
  function RoomAt(a: int): int { if a < 0x1e_0000 then (0x1e_0000 - a) / 2 else 0 }

  function ThereAt(a: int): int {
    if a < 0x1e_0000 then (0x1e_0000 - a) / 2
    else if 0x40_0000 <= a < 0x50_0000 then (0x50_0000 - a) / 2 else 0
  }

  lemma Numbers(reg: nat, lba: nat, count: nat, blocks: nat)
    requires reg < W
    ensures DmaAddr(reg) == Address(reg) && InImage(lba, count, blocks) == FromBlocks(lba, count, blocks)
    ensures WordsWritable(DmaAddr(reg)) == RoomAt(Address(reg)) && WordsReadable(DmaAddr(reg)) == ThereAt(Address(reg))
  {
  }

  /** Words a READ moves. */
  function Moved(d: Disk, lba: nat, count: nat): int {
    var (w, room) := (256 * FromBlocks(lba, count, d.blocks), RoomAt(Address(d.reg)));
    if w <= room then w else room
  }

  /** A READ moves whole chunks of 18 blocks as long as the image has them and the last one if it has
      it, and stops at the first word for which there is no RAM. */
  lemma ReadByNumbers(d: Disk, lba: nat, count: nat)
    requires d.Valid()
    ensures var (r, a, y, m) :=
        (ReadEffect(d, lba, count), Address(d.reg), FromBlocks(lba, count, d.blocks), Moved(d, lba, count));
      && r.status == (if m == 256 * y && y == count then 0 else 2)
      && r.sense == (if m < 256 * y then 0x11 else if y < count then 0x21 else d.sense)
      && r.busErr == (d.busErr || m < 256 * y)
      && r.reg == (d.reg - m) % 0x1_0000_0000
      && r.overlay == (d.overlay && m == 0)
      && r.image == d.image && r.rom == d.rom && r.blocks == d.blocks && r.readonly == d.readonly
  {
    hide DmaAddr, InImage, WordsWritable, Overlay, FromBlocks, RoomAt, Address;
    Numbers(d.reg, lba, count, d.blocks);
  }

  /** The bytes it leaves in RAM. */
  lemma ReadBytes(d: Disk, lba: nat, count: nat, k: nat)
    requires d.Valid() && k < 0x1e_0000
    ensures var (r, a, m) := (ReadEffect(d, lba, count), Address(d.reg), Moved(d, lba, count));
      && |r.ram| == 0x1e_0000
      && (a <= k < a + 2 * m ==> 0 <= 512 * lba + (k - a) < |d.image| && r.ram[k] == d.image[512 * lba + (k - a)])
      && (!(a <= k < a + 2 * m) ==> r.ram[k] == d.ram[k])
  {
    hide DmaAddr, InImage, WordsWritable, FromBlocks, RoomAt, Address;
    Numbers(d.reg, lba, count, d.blocks);
    assert ReadWords(d, lba, count) == Moved(d, lba, count);
  }

  /** Blocks a WRITE may put on the image. */
  function Room(d: Disk, lba: nat, count: nat): nat { if d.readonly then 0 else FromBlocks(lba, count, d.blocks) }

  /** Words it wants of memory: those of the blocks it can place and of the chunk it fails to. */
  function Wanted(d: Disk, lba: nat, count: nat): nat {
    var y := Room(d, lba, count);
    256 * (if y == count || y + 18 >= count then count else y + 18)
  }

  function Fetches(d: Disk, lba: nat, count: nat): int {
    var (w, there) := (Wanted(d, lba, count), ThereAt(Address(d.reg)));
    if w <= there then w else there
  }

  /** Blocks it does put there: of a fetch that fails, the whole chunks before. */
  function Placed(d: Disk, lba: nat, count: nat): int {
    var m := Fetches(d, lba, count);
    if m < Wanted(d, lba, count) then m / (18 * 256) * 18 else Room(d, lba, count)
  }

  /** A WRITE fetches a chunk of 18 blocks before it finds that the image does not take it. */
  lemma WriteByNumbers(d: Disk, lba: nat, count: nat)
    requires d.Valid()
    ensures var (r, m, w, n) := (WriteEffect(d, lba, count), Fetches(d, lba, count), Wanted(d, lba, count),
                                 Placed(d, lba, count));
      && r.status == (if m == w && n == count then 0 else 2)
      && r.sense == (if m < w then 0x11 else if n < count then 0x14 else d.sense)
      && r.busErr == (d.busErr || m < w)
      && r.reg == (d.reg - m) % 0x1_0000_0000
      && r.ram == d.ram && r.rom == d.rom && r.overlay == d.overlay && r.blocks == d.blocks && r.readonly == d.readonly
      && |r.image| == |d.image|
  {
    hide DmaAddr, InImage, WordsReadable, Overlay, FromBlocks, ThereAt, Address;
    Numbers(d.reg, lba, count, d.blocks);
    assert Fetched(d, lba, count) == Wanted(d, lba, count);
    assert WriteWords(d, lba, count) == Fetches(d, lba, count);
  }

  /** The bytes it leaves on the image: what the bus shows, RAM or the ROM, which repeats every 0x4000
      bytes and covers everything after a reset. */
  lemma WriteBytes(d: Disk, lba: nat, count: nat, k: nat)
    requires d.Valid() && k < |d.image|
    ensures var (r, p, n) := (WriteEffect(d, lba, count), k - 512 * lba, Placed(d, lba, count));
      var x := Address(d.reg) + p;
      && |r.image| == |d.image|
      && (0 <= p < 512 * n ==> x >= 0)
      && (0 <= p < 512 * n ==> r.image[k] == if !d.overlay && x < 0x1e_0000 then d.ram[x] else d.rom[x % 0x4000])
      && (!(0 <= p < 512 * n) ==> r.image[k] == d.image[k])
  {
    hide DmaAddr, InImage, WordsReadable, FromBlocks, ThereAt, Address;
    Numbers(d.reg, lba, count, d.blocks);
    assert Fetched(d, lba, count) == Wanted(d, lba, count);
    var n := Written(d, lba, count);
    assert n == Placed(d, lba, count);
    var s := d.Seen(DmaAddr(d.reg), SECTOR * n);
    assert WriteEffect(d, lba, count).image == Overlay(d.image, SECTOR * lba, s);
    var p := k - 512 * lba;
    if 0 <= p < 512 * n {
      assert s[p] == View(d.ram, d.rom, d.overlay, DmaAddr(d.reg) + p);
    }
  }
}
