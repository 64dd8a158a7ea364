/** What a host may rely on when it moves blocks between disk and memory. */
module WdTransfers {
  import opened Memory
  import opened WdDma
  import opened Words

  /** r is s with d written at position at, and nothing else changed. */
  ghost predicate OnlyCopied(s: seq<byte>, at: nat, d: seq<byte>, r: seq<byte>) {
    && at + |d| <= |s| == |r|
    && r[..at] == s[..at] && r[at..at + |d|] == d && r[at + |d|..] == s[at + |d|..]
  }

  lemma OverlayCopies(s: seq<byte>, at: nat, d: seq<byte>)
    requires at + |d| <= |s|
    ensures OnlyCopied(s, at, d, Overlay(s, at, d))
  {
  }

  lemma ReadEffectSucceeds(d: Disk, lba: nat, count: nat)
    requires d.Valid()
    ensures ReadEffect(d, lba, count).status == 0 <==>
      count == 0 || (lba + count <= d.blocks && WORDS * count <= WordsWritable(DmaAddr(d.reg)))
  {
  }

  lemma WriteEffectSucceeds(d: Disk, lba: nat, count: nat)
    requires d.Valid()
    ensures WriteEffect(d, lba, count).status == 0 <==>
      count == 0 || (!d.readonly && lba + count <= d.blocks && WORDS * count <= WordsReadable(DmaAddr(d.reg)))
  {
  }

  /** A successful READ is one block copy: the image range appears at the DMA address, the
      register has dropped by 256 a block, and nothing else has changed but the ROM overlay,
      which the first write removes. */
  lemma ReadIsOneCopy(d: Disk, lba: nat, count: nat)
    requires d.Valid() && count > 0 && ReadEffect(d, lba, count).status == 0
    ensures var r := ReadEffect(d, lba, count);
      && SECTOR * (lba + count) <= |d.image|
      && OnlyCopied(d.ram, DmaAddr(d.reg), d.image[SECTOR * lba..SECTOR * (lba + count)], r.ram)
      && r.reg == (d.reg - WORDS * count) % W
      && r == d.(ram := r.ram, overlay := false, reg := r.reg, status := 0)
  {
    hide Overlay, OnlyCopied, DmaAddr;
    ReadEffectSucceeds(d, lba, count);
    OverlayCopies(d.ram, DmaAddr(d.reg), d.image[SECTOR * lba..SECTOR * (lba + count)]);
  }

  lemma WriteIsOneCopy(d: Disk, lba: nat, count: nat)
    requires d.Valid() && count > 0 && WriteEffect(d, lba, count).status == 0
    ensures var r := WriteEffect(d, lba, count);
      && OnlyCopied(d.image, SECTOR * lba, d.Seen(DmaAddr(d.reg), SECTOR * count), r.image)
      && r.reg == (d.reg - WORDS * count) % W
      && r == d.(image := r.image, reg := r.reg, status := 0)
  {
  }

  /** Bytes written to disk come back: a WRITE, then a READ of the same blocks to any memory
      that can take them, puts there exactly what the bus showed at the source. */
  lemma WriteThenReadRestores(d: Disk, lba: nat, count: nat, target: nat)
    requires d.Valid() && count > 0 && target < W
    requires WriteEffect(d, lba, count).status == 0
    requires WORDS * count <= WordsWritable(DmaAddr(target))
    ensures var w := WriteEffect(d, lba, count).(reg := target);
      var r := ReadEffect(w, lba, count);
      && r.status == 0 && r.image == w.image
      && OnlyCopied(d.ram, DmaAddr(target), d.Seen(DmaAddr(d.reg), SECTOR * count), r.ram)
  {
    var w := WriteEffect(d, lba, count).(reg := target);
    WriteEffectSucceeds(d, lba, count);
    WriteIsOneCopy(d, lba, count);
    ReadEffectSucceeds(w, lba, count);
    ReadIsOneCopy(w, lba, count);
    assert w.image[SECTOR * lba..SECTOR * (lba + count)] == d.Seen(DmaAddr(d.reg), SECTOR * count);
  }

  lemma SuccessfulRead(d: Disk, lba: nat, count: nat)
    requires d.Valid()
    requires count == 0 || (lba + count <= d.blocks && WORDS * count <= WordsWritable(DmaAddr(d.reg)))
    ensures ReadEffect(d, lba, count) == StoredAll(d, FromImage(d, lba, WORDS * count)).(status := 0)
  {
  }

  /** The split of a successful READ into two is invisible, wherever the cut falls. */
  lemma ReadSplitsAnywhere(d: Disk, lba: nat, first: nat, second: nat)
    requires d.Valid() && ReadEffect(d, lba, first + second).status == 0
    ensures ReadEffect(ReadEffect(d, lba, first), lba + first, second) == ReadEffect(d, lba, first + second)
  {
    hide ReadEffect, Overlay, DmaAddr, WordsWritable;
    ReadEffectSucceeds(d, lba, first + second);
    if first + second > 0 {
      var x, y := FromImage(d, lba, WORDS * first), FromImage(d, lba + first, WORDS * second);
      var d1 := ReadEffect(d, lba, first);
      SuccessfulRead(d, lba, first + second);
      SuccessfulRead(d, lba, first);
      WritableAfter(d.reg, WORDS * first);
      SuccessfulRead(d1, lba + first, second);
      FromImageSplits(d, lba, first, WORDS * second);
      StoredAllComposes(d, x, y);
    } else {
      ReadNothing(d, lba);
      ReadNothing(d.(status := 0), lba);
    }
  }

  /** A READ that meets an invalid address stops at a clean prefix: every word before it was
      moved, the register designates it, BUSERR and sense 0x11 report it. */
  lemma ReadStopsAtBadAddress(d: Disk, lba: nat, count: nat)
    requires d.Valid()
    ensures var r := ReadEffect(d, lba, count);
      var a := DmaAddr(d.reg);
      var moved := ReadWords(d, lba, count);
      && (forall k: nat :: k < moved ==> ValidForWrite(a + 2 * k))
      && DmaAddr(r.reg) == (a + 2 * moved) % BUS
      && (moved > 0 ==> OnlyCopied(d.ram, a, d.image[SECTOR * lba..SECTOR * lba + 2 * moved], r.ram))
      && (moved == 0 ==> r.ram == d.ram)
      && (moved < WORDS * InImage(lba, count, d.blocks) ==>
            !ValidForWrite(DmaAddr(r.reg)) && r.busErr && r.status == 2 && r.sense == SENSE_DATA)
      && (moved == WORDS * InImage(lba, count, d.blocks) ==> r.busErr == d.busErr)
  {
    hide Overlay, OnlyCopied, DmaAddr, Advance, InImage, ValidForWrite;
    var a := DmaAddr(d.reg);
    var moved := ReadWords(d, lba, count);
    AdvanceWalksUp(d.reg, moved);
    WordsWritableIsExact(a);
    if moved > 0 {
      OverlayCopies(d.ram, a, d.image[SECTOR * lba..SECTOR * lba + 2 * moved]);
    } else {
      OverlayNothing(d.ram, a);
    }
  }

  /** The same for WRITE; of the words fetched, only the whole chunks before the fault are on
      the image. */
  lemma WriteStopsAtBadAddress(d: Disk, lba: nat, count: nat)
    requires d.Valid() && WriteWords(d, lba, count) < Fetched(d, lba, count)
    ensures var r := WriteEffect(d, lba, count);
      var a := DmaAddr(d.reg);
      var moved := WriteWords(d, lba, count);
      var written := moved / (CHUNK * WORDS) * CHUNK;
      && (forall k: nat :: k < moved ==> ValidForRead(a + 2 * k))
      && DmaAddr(r.reg) == (a + 2 * moved) % BUS && !ValidForRead(DmaAddr(r.reg))
      && (written > 0 ==> OnlyCopied(d.image, SECTOR * lba, d.Seen(a, SECTOR * written), r.image))
      && (written == 0 ==> r.image == d.image)
      && r.busErr && r.status == 2 && r.sense == SENSE_DATA
      && r.ram == d.ram
  {
    hide Overlay, OnlyCopied, DmaAddr, Advance, ValidForRead, View;
    var a := DmaAddr(d.reg);
    var moved := WriteWords(d, lba, count);
    var written := moved / (CHUNK * WORDS) * CHUNK;
    AdvanceWalksUp(d.reg, moved);
    WordsReadableIsExact(a);
    if written > 0 {
      OverlayCopies(d.image, SECTOR * lba, d.Seen(a, SECTOR * written));
    } else {
      OverlayNothing(d.image, SECTOR * lba);
    }
  }
}
