/**
 READ and WRITE of any block range, the ones that leave 32 bits among them.  The bound check of the
 image wraps, so such a range can pass it; when exactly a transfer succeeds is given here for all
 ranges, and when a WRITE makes the image file grow.
 */
module WdWraps {
  import opened Memory
  import opened WdDma
  import opened Words

  // ---------------------------------------------------------------- which ranges pass

  /** The chunks of a range, from one on, pass the bound check and end within reach. */
  predicate AllPass(lba: nat, done: nat, count: nat, blocks: nat, reach: nat)
    requires done <= count
    decreases count - done
  {
    done == count ||
    (var blk, n := (lba + done) % W, Min(count - done, CHUNK);
     PassesCheck(blk, n, blocks) && blk + n <= reach && AllPass(lba, done + n, count, blocks, reach))
  }

  /** Blocks of a range before the chunk that reaches the end of 32 bits, and up to its end. */
  function Crossing(lba: nat): nat
    requires lba < W
  {
    (W - 1 - lba) / CHUNK * CHUNK
  }

  function Crossed(lba: nat, count: nat): nat
    requires lba < W
  {
    Min(Crossing(lba) + CHUNK, count)
  }

  /** What lies before the crossing chunk is on the image, and the chunk itself passes, because its
      end wraps to a block that is on the image. */
  predicate Crosses(lba: nat, count: nat, blocks: nat, reach: nat)
    requires lba < W <= lba + count
  {
    && (Crossing(lba) == 0 || lba + Crossing(lba) <= blocks)
    && lba + Crossed(lba, count) - W <= blocks && lba + Crossed(lba, count) <= reach
  }

  /** The ranges that are let through: those on the image, and those that wrap, cross and end on the
      image behind the wrap. */
  predicate Admitted(lba: nat, count: nat, blocks: nat, reach: nat)
    requires lba < W
  {
    if lba + count < W then lba + count <= blocks
    else Crosses(lba, count, blocks, reach) && lba + count - W <= blocks
  }

  lemma CrossingBounds(lba: nat, done: nat, count: nat)
    requires lba + done < W && done % CHUNK == 0
    ensures done <= Crossing(lba) && Crossing(lba) % CHUNK == 0
    ensures lba + Crossing(lba) < W <= lba + Crossing(lba) + CHUNK
    ensures lba + count >= W ==> Crossing(lba) < Crossed(lba, count) && W <= lba + Crossed(lba, count)
  {
    assert done == done / CHUNK * CHUNK <= (W - 1 - lba) / CHUNK * CHUNK;
  }

  lemma {:induction false} PassBehindWrap(lba: nat, done: nat, count: nat, blocks: nat, reach: nat)
    requires lba < W <= lba + done && done <= count && lba + count < 2 * W && blocks <= reach
    ensures AllPass(lba, done, count, blocks, reach) <==> done == count || lba + count - W <= blocks
    decreases count - done
  {
    if done < count {
      PassBehindWrap(lba, done + Min(count - done, CHUNK), count, blocks, reach);
    }
  }

  /** What is left of a range passes, seen from a chunk before the wrap. */
  predicate PassesFrom(lba: nat, done: nat, count: nat, blocks: nat, reach: nat)
    requires lba < W
  {
    if lba + count < W then lba + count <= blocks
    else (Crossing(lba) == done || lba + Crossing(lba) <= blocks)
         && lba + Crossed(lba, count) - W <= blocks && lba + Crossed(lba, count) <= reach
         && lba + count - W <= blocks
  }

  lemma OnePass(lba: nat, done: nat, count: nat, blocks: nat, reach: nat)
    requires lba + done < W && done < count && done % CHUNK == 0
    requires lba + count < 2 * W && blocks < W && blocks <= reach
    ensures var n := Min(count - done, CHUNK);
      var passes := PassesCheck(lba + done, n, blocks) && lba + done + n <= reach;
      PassesFrom(lba, done, count, blocks, reach) <==>
        passes && (done + n == count
                   || (if lba + done + n < W then PassesFrom(lba, done + n, count, blocks, reach)
                       else lba + count - W <= blocks))
  {
    hide Crossing;
    CrossingBounds(lba, done, count);
  }

  lemma {:induction false} PassBeforeWrap(lba: nat, done: nat, count: nat, blocks: nat, reach: nat)
    requires lba + done < W && done <= count && (done % CHUNK == 0 || done == count)
    requires lba + count < 2 * W && blocks < W && blocks <= reach
    ensures AllPass(lba, done, count, blocks, reach) <==> done == count || PassesFrom(lba, done, count, blocks, reach)
    decreases count - done
  {
    hide PassesFrom;
    if done < count {
      OnePass(lba, done, count, blocks, reach);
      var n := Min(count - done, CHUNK);
      if lba + done + n < W {
        PassBeforeWrap(lba, done + n, count, blocks, reach);
      } else {
        PassBehindWrap(lba, done + n, count, blocks, reach);
      }
    }
  }

  lemma AllPassIff(lba: nat, count: nat, blocks: nat, reach: nat)
    requires lba < W && count < W && blocks < W && blocks <= reach
    ensures AllPass(lba, 0, count, blocks, reach) <==> count == 0 || Admitted(lba, count, blocks, reach)
  {
    hide AllPass, Crossing;
    PassBeforeWrap(lba, 0, count, blocks, reach);
  }

  // ---------------------------------------------------------------- when a transfer succeeds

  lemma WritePartSucceeds(d: Disk, blk: nat, n: nat)
    requires d.Valid() && n > 0 && d.status == 0
    ensures var r := WritePart(d, blk, n);
      && r.blocks == d.blocks && r.readonly == d.readonly
      && (r.status == 0 <==>
            !d.readonly && PassesCheck(blk, n, d.blocks) && WORDS * n <= WordsReadable(DmaAddr(d.reg)))
      && (r.status == 0 ==> WordsReadable(DmaAddr(r.reg)) == WordsReadable(DmaAddr(d.reg)) - WORDS * n)
  {
    hide DmaAddr, WordsReadable, Advance, PassesCheck, Patched;
    if WORDS * n <= WordsReadable(DmaAddr(d.reg)) { ReadableAfter(d.reg, WORDS * n); }
  }

  lemma {:induction false} WriteRunSucceeds(d: Disk, lba: nat, done: nat, count: nat, reach: nat)
    requires d.Valid() && d.status == 0 && lba < W && done <= count && reach >= 2 * W
    ensures WriteRun(d, lba, done, count).status == 0 <==>
      || done == count
      || (&& !d.readonly && AllPass(lba, done, count, d.blocks, reach)
          && WORDS * (count - done) <= WordsReadable(DmaAddr(d.reg)))
    decreases count - done
  {
    hide WritePart, DmaAddr, WordsReadable, PassesCheck;
    if done < count {
      var n := Min(count - done, CHUNK);
      WritePartSucceeds(d, (lba + done) % W, n);
      var r := WritePart(d, (lba + done) % W, n);
      if r.status == 0 { WriteRunSucceeds(r, lba, done + n, count, reach); }
    }
  }

  /** A WRITE succeeds exactly when the image is writable, the range is let through and the memory
      can be read. */
  lemma WriteSucceedsIff(d: Disk, lba: nat, count: nat)
    requires d.Valid() && lba < W && count < W
    ensures Write(d, lba, count).status == 0 <==>
      || count == 0
      || (!d.readonly && Admitted(lba, count, d.blocks, 2 * W) && WORDS * count <= WordsReadable(DmaAddr(d.reg)))
  {
    hide WriteRun, AllPass, Admitted, DmaAddr, WordsReadable;
    WriteRunSucceeds(d.(status := 0), lba, 0, count, 2 * W);
    AllPassIff(lba, count, d.blocks, 2 * W);
  }

  lemma {:induction false} WriteRunKeepsMemory(d: Disk, lba: nat, done: nat, count: nat)
    requires d.Valid() && done <= count
    ensures WriteRun(d, lba, done, count).ram == d.ram
    decreases count - done
  {
    hide Patched, DmaAddr, WordsReadable, Takes;
    if done < count {
      var n := Min(count - done, CHUNK);
      WriteRunKeepsMemory(WritePart(d, (lba + done) % W, n), lba, done + n, count);
    }
  }

  lemma WriteKeepsMemory(d: Disk, lba: nat, count: nat)
    requires d.Valid()
    ensures Write(d, lba, count).ram == d.ram
  {
    WriteRunKeepsMemory(d.(status := 0), lba, 0, count);
  }

  lemma ReadPartSucceeds(d: Disk, blk: nat, n: nat)
    requires d.Valid() && d.status == 0
    ensures var r := ReadPart(d, blk, n);
      && r.blocks == d.blocks && r.image == d.image
      && (r.status == 0 <==> && PassesCheck(blk, n, d.blocks) && blk + n <= |d.image| / SECTOR
                             && WORDS * n <= WordsWritable(DmaAddr(d.reg)))
      && (r.status == 0 ==> WordsWritable(DmaAddr(r.reg)) == WordsWritable(DmaAddr(d.reg)) - WORDS * n)
  {
    hide DmaAddr, WordsWritable, Advance, PassesCheck, Overlay;
    if WORDS * n <= WordsWritable(DmaAddr(d.reg)) { WritableAfter(d.reg, WORDS * n); }
  }

  lemma {:induction false} ReadRunSucceeds(d: Disk, lba: nat, done: nat, count: nat)
    requires d.Valid() && d.status == 0 && lba < W && done <= count
    ensures ReadRun(d, lba, done, count).status == 0 <==>
      || done == count
      || (AllPass(lba, done, count, d.blocks, |d.image| / SECTOR)
          && WORDS * (count - done) <= WordsWritable(DmaAddr(d.reg)))
    decreases count - done
  {
    hide ReadPart, DmaAddr, WordsWritable, PassesCheck;
    if done < count {
      var n := Min(count - done, CHUNK);
      ReadPartSucceeds(d, (lba + done) % W, n);
      var r := ReadPart(d, (lba + done) % W, n);
      if r.status == 0 { ReadRunSucceeds(r, lba, done + n, count); }
    }
  }

  /** A READ succeeds exactly when the range is let through, the file reaches that far and the memory
      is there. */
  lemma ReadSucceedsIff(d: Disk, lba: nat, count: nat)
    requires d.Valid() && lba < W && count < W
    ensures Read(d, lba, count).status == 0 <==>
      || count == 0
      || (Admitted(lba, count, d.blocks, |d.image| / SECTOR) && WORDS * count <= WordsWritable(DmaAddr(d.reg)))
  {
    hide ReadRun, AllPass, Admitted, DmaAddr, WordsWritable;
    ReadRunSucceeds(d.(status := 0), lba, 0, count);
    AllPassIff(lba, count, d.blocks, |d.image| / SECTOR);
  }

  // ---------------------------------------------------------------- when the image grows

  /** The size of the image after a chunk. */
  lemma WritePartGrows(d: Disk, blk: nat, n: nat)
    requires d.Valid() && n > 0 && d.status == 0 && blk < W
    ensures var r := WritePart(d, blk, n);
      && |r.image| >= |d.image|
      && (blk + n < W ==> |r.image| == |d.image|)
      && (r.status != 0 ==> r.image == d.image)
      && (r.status == 0 && blk + n >= W && |d.image| < SECTOR * W ==> |r.image| == SECTOR * (blk + n) > |d.image|)
  {
    hide DmaAddr, WordsReadable, Advance;
  }

  lemma {:induction false} SizeBehindWrap(d: Disk, lba: nat, done: nat, count: nat)
    requires d.Valid() && d.status == 0 && lba < W <= lba + done && done <= count && lba + count < 2 * W
    ensures |WriteRun(d, lba, done, count).image| == |d.image|
    decreases count - done
  {
    hide WritePart, DmaAddr, WordsReadable;
    if done < count {
      var n := Min(count - done, CHUNK);
      var r := WritePart(d, (lba + done) % W, n);
      WritePartSucceeds(d, (lba + done) % W, n);
      WritePartGrows(d, (lba + done) % W, n);
      if r.status == 0 { SizeBehindWrap(r, lba, done + n, count); }
    }
  }

  /** The WRITE gets through its crossing chunk. */
  predicate GetsAcross(d: Disk, lba: nat, done: nat, count: nat)
    requires lba < W <= lba + count && d.reg < W
  {
    && !d.readonly && (Crossing(lba) == done || lba + Crossing(lba) <= d.blocks)
    && lba + Crossed(lba, count) - W <= d.blocks
    && WORDS * (Crossed(lba, count) - done) <= WordsReadable(DmaAddr(d.reg))
  }

  lemma {:induction false} SizeBeforeWrap(d: Disk, lba: nat, done: nat, count: nat)
    requires d.Valid() && d.status == 0 && lba + done < W && lba + count < 2 * W && |d.image| < SECTOR * W
    requires done <= count && (done % CHUNK == 0 || done == count)
    ensures var z, across := WriteRun(d, lba, done, count), lba + count >= W && GetsAcross(d, lba, done, count);
      |z.image| == if across then SECTOR * (lba + Crossed(lba, count)) else |d.image|
    decreases count - done
  {
    hide WritePart, DmaAddr, WordsReadable, Crossing;
    if done < count {
      CrossingBounds(lba, done, count);
      var n := Min(count - done, CHUNK);
      var r := WritePart(d, (lba + done) % W, n);
      WritePartSucceeds(d, (lba + done) % W, n);
      WritePartGrows(d, (lba + done) % W, n);
      if r.status == 0 {
        if lba + done + n < W {
          SizeBeforeWrap(r, lba, done + n, count);
        } else {
          SizeBehindWrap(r, lba, done + n, count);
        }
      }
    }
  }

  /** A WRITE leaves the size of the image alone, unless its range reaches the end of 32 bits and
      gets across; then the file grows to the end of the crossing chunk. */
  lemma WriteGrowsIff(d: Disk, lba: nat, count: nat)
    requires d.Valid() && lba < W && count < W && |d.image| < SECTOR * W
    ensures |Write(d, lba, count).image| != |d.image| <==>
      && lba + count >= W && !d.readonly && Crosses(lba, count, d.blocks, 2 * W)
      && WORDS * Crossed(lba, count) <= WordsReadable(DmaAddr(d.reg))
    ensures |Write(d, lba, count).image| != |d.image|
      ==> |Write(d, lba, count).image| == SECTOR * (lba + Crossed(lba, count))
  {
    hide WriteRun, DmaAddr, WordsReadable, Crossing;
    SizeBeforeWrap(d.(status := 0), lba, 0, count);
    CrossingBounds(lba, 0, count);
  }

  /** On every writable image a WRITE of the one block 0xffffffff is reported as good, and the file
      grows to 2^41 bytes. */
  lemma LastBlockGrows(d: Disk)
    requires d.Valid() && !d.readonly && |d.image| < SECTOR * W && WordsReadable(DmaAddr(d.reg)) >= WORDS
    ensures Write(d, W - 1, 1).status == 0 && |Write(d, W - 1, 1).image| == SECTOR * W
  {
    hide Write, DmaAddr, WordsReadable;
    WriteSucceedsIff(d, W - 1, 1);
    WriteGrowsIff(d, W - 1, 1);
  }
}
