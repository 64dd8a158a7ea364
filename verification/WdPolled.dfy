/**
 READ without DMA (src/wd.c): the blocks become the reply of the command and the host takes
 them byte by byte through the input register.
 */
module WdPolled {
  import opened WdCdb
  import opened WdDma
  import opened Words
  import C = WdController
  import T = WdTranscript

  const SENSE_BAD_ARGUMENT: byte := 0x24

  /** Status, sense and reply of a READ of some blocks: all or nothing, and no more than the
      buffer holds. */
  function PolledRead(d: Disk, lba: nat, count: nat): (byte, byte, seq<byte>) {
    if count == 0 then (0, d.sense, [])
    else if !Yields(d, lba, Min(count, CHUNK)) then (2, SENSE_BLOCK_ADDRESS, [])
    else if count > CHUNK then (2, SENSE_BAD_ARGUMENT, [])
    else (0, d.sense, d.image[SECTOR * lba..SECTOR * (lba + count)])
  }

  /** In numbers: sense 0x21 where the image lacks a block of the first 18, and 0x24 for more than 18. */
  lemma PolledByNumbers(d: Disk, lba: nat, count: nat)
    requires d.Valid() && lba + count < W
    ensures var ((status, sense, reply), n) := (PolledRead(d, lba, count), if count < 18 then count else 18);
      var there := lba + n <= d.blocks;
      && status == (if count == 0 || (there && count <= 18) then 0 else 2)
      && sense == (if status == 0 then d.sense else if !there then 0x21 else 0x24)
      && (status == 2 ==> reply == [])
      && (status == 0 && count > 0 ==>
            512 * (lba + count) <= |d.image| && reply == d.image[512 * lba..512 * (lba + count)])
      && (count == 0 ==> reply == [])
  {
  }

  /** Without DMA the loop over chunks is left on its first turn, whatever happens. */
  method ReadPolled(e: DmaEngine, replyBuffer: array<byte>, lba: nat, count: nat) returns (replyBytesLeft: nat)
    requires e.Valid() && lba < W && replyBuffer.Length == BUFFER && e.statusByte == 0
    requires replyBuffer !in {e.dataBuf, e.mem.ram, e.mem.rom}
    modifies e`statusByte, e`sense, e.dataBuf, replyBuffer
    ensures e.Valid() && replyBytesLeft <= BUFFER
    ensures (e.statusByte, e.sense, replyBuffer[..replyBytesLeft]) == PolledRead(old(e.D()), lba, count)
    ensures e.D() == old(e.D()).(status := e.statusByte, sense := e.sense)
  {
    ghost var d := e.D();
    replyBytesLeft := 0;
    if count == 0 {
      return;
    }
    var chunk := if count > CHUNK then CHUNK else count;
    var ok := e.ImgRead(lba, chunk);
    assert e.D() == d && chunk == Min(count, CHUNK) && (ok <==> Yields(d, lba, chunk));
    if !ok {
      e.statusByte, e.sense := 2, SENSE_BLOCK_ADDRESS;
    } else if count * SECTOR > BUFFER {
      e.statusByte, e.sense := 2, SENSE_BAD_ARGUMENT;
    } else {
      forall i | 0 <= i < count * SECTOR { replyBuffer[i] := e.dataBuf[i]; }
      replyBytesLeft := count * SECTOR;
      assert replyBuffer[..replyBytesLeft] == e.dataBuf[..SECTOR * chunk];
      assert e.dataBuf[..SECTOR * chunk] == d.image[SECTOR * lba..SECTOR * (lba + count)];
    }
  }

  /** A READ asks for no data from the host, so it runs on its own without DMA too. */
  lemma ReadsComplete(cdb: seq<byte>, ctl: C.Control)
    requires IsTransfer(cdb) && cdb[0] in {READ, READ2} && cdb[1] / 32 < 2
    ensures T.IsCommandBlock(cdb) && T.Runs(cdb, ctl) && (T.Completes(cdb, ctl) <==> !ctl.srst)
  {
  }

  /** What the host gets of a READ of n blocks without DMA. */
  function Handed(d: Disk, blk: nat, n: nat): seq<byte> {
    if n <= CHUNK && Yields(d, blk, n) then d.image[SECTOR * blk..SECTOR * (blk + n)] + [0, 0] else [2, 0]
  }

  lemma PolledTranscript(d: Disk, blk: nat, n: nat)
    requires n > 0
    ensures var (status, _, reply) := PolledRead(d, blk, n);
      T.Transcript(C.Outcome(status, reply, false)) == Handed(d, blk, n)
  {
  }

  /** From encoder to input register without DMA: however the session is scheduled, the host
      reads exactly the blocks it asked for, a good status and the message byte, if the image
      hands them out and they fit the buffer; otherwise it reads status 2 and the message byte. */
  lemma PolledReadEndToEnd(
      d: Disk, l: C.Ladder, v: byte, ms: seq<T.Move>,
      op: byte, lun: byte, blk: nat, n: nat, tail: seq<byte>)
    requires C.WellFormed(l) && l.phase == C.Idle && !l.ctl.seqEn && v != 0 && lun / 32 < 2
    requires IsReadOf(op, blk, n, tail)
    ensures var cdb := WithBlock([op, lun], blk) + tail;
      && IsTransfer(cdb) && CdbLba(cdb) == (blk, n) && T.IsCommandBlock(cdb)
      && var (status, _, reply) := PolledRead(d, blk, n);
        var o := C.Outcome(status, reply, false);
        (T.Disciplined(T.Selected(l, v), ms, cdb, o) ==>
          var c := T.After(T.Selected(l, v), ms, cdb, o);
          c.got <= Handed(d, blk, n)
          && (c.l.selected == 0 <==> c.got == Handed(d, blk, n) && c.l.phase == C.Idle))
  {
    hide T.Disciplined, T.After, T.Selected, T.Runs, T.Transcript, WithBlock, CdbLba, PolledRead, Handed;
    var cdb := WithBlock([op, lun], blk) + tail;
    BlockNumbersSurvive(op, lun, blk, tail);
    ReadsComplete(cdb, l.ctl);
    var (status, _, reply) := PolledRead(d, blk, n);
    PolledTranscript(d, blk, n);
    SessionHands(l, v, ms, cdb, C.Outcome(status, reply, false), Handed(d, blk, n));
  }

  lemma SessionHands(l: C.Ladder, v: byte, ms: seq<T.Move>, cdb: seq<byte>, o: C.Outcome, whole: seq<byte>)
    requires C.WellFormed(l) && l.phase == C.Idle && v != 0
    requires T.IsCommandBlock(cdb) && T.Runs(cdb, l.ctl) && T.Transcript(o) == whole
    ensures T.Disciplined(T.Selected(l, v), ms, cdb, o) ==>
      var c := T.After(T.Selected(l, v), ms, cdb, o);
      c.got <= whole && (c.l.selected == 0 <==> c.got == whole && c.l.phase == C.Idle)
  {
    if T.Disciplined(T.Selected(l, v), ms, cdb, o) {
      T.TranscriptIsExact(l, v, ms, cdb, o);
    }
  }
}
