/**
 Command blocks: how the host's driver (eagletests/eagletest/wd.c) builds them, how the
 controller (src/wd.c) takes them apart, and a whole READ or WRITE from block to transcript.
 */
module WdCdb {
  import opened Memory
  import opened WdDma
  import opened WdTransfers
  import opened WdWraps
  import opened Words
  import C = WdController
  import T = WdTranscript

  const MAX_COMMAND_BYTES: nat := 64

  // ---------------------------------------------------------------- the host's encoder

  function BlockNumber(blk: nat): seq<byte>
    requires blk < W
  {
    [blk / 0x100_0000, blk / 0x1_0000 % 256, blk / 0x100 % 256, blk % 256]
  }

  /** The command bytes after a 32 bit block number was added. */
  function WithBlock(b: seq<byte>, blk: nat): seq<byte>
    requires |b| > 0 && blk < W
  {
    if b[0] < 0x20 then
      if |b| != 2 then b
      else [b[0], b[1] / 32 * 32 + blk / 0x1_0000 % 32, blk / 0x100 % 256, blk % 256]
    else b + BlockNumber(blk)
  }

  /** What is left of a command that outgrew its buffer. */
  function Fitting(b: seq<byte>): seq<byte> { if |b| <= MAX_COMMAND_BYTES then b else b[..MAX_COMMAND_BYTES] }

  lemma FittingJoins(b: seq<byte>, blk: nat)
    requires blk < W && |b| <= MAX_COMMAND_BYTES
    ensures var x := BlockNumber(blk);
      Fitting(Fitting(Fitting(Fitting(b + [x[0]]) + [x[1]]) + [x[2]]) + [x[3]]) == Fitting(b + x)
  {
  }

  class CommandBlock {
    const data: array<byte>
    var byteCount: nat

    ghost predicate Valid()
      reads this
    {
      data.Length == MAX_COMMAND_BYTES && byteCount <= MAX_COMMAND_BYTES
    }

    ghost function Bytes(): seq<byte>
      requires Valid()
      reads this, data
    {
      data[..byteCount]
    }

    constructor ()
      ensures Valid() && Bytes() == [] && fresh(data)
    {
      data := new byte[MAX_COMMAND_BYTES](i => 0);
      byteCount := 0;
    }

    method AddByte(b: byte)
      requires Valid()
      modifies this`byteCount, data
      ensures Valid()
      ensures Bytes() == Fitting(old(Bytes()) + [b])
      ensures old(byteCount) > 0 ==> data[0] == old(data[0])
    {
      if byteCount < MAX_COMMAND_BYTES {
        data[byteCount] := b;
        byteCount := byteCount + 1;
      }
    }

    /** The first byte decides the form, whether it was added or is left from before. */
    method AddBlock(blk: nat)
      requires Valid() && blk < W
      modifies this`byteCount, data
      ensures Valid()
      ensures old(byteCount) > 0 ==> Bytes() == Fitting(WithBlock(old(Bytes()), blk))
      ensures old(byteCount) == 0 ==> Bytes() == if old(data[0]) < 0x20 then [] else BlockNumber(blk)
    {
      if data[0] < 0x20 {
        if byteCount != 2 { return; }
        AddByte(blk / 0x100 % 256);
        AddByte(blk % 256);
        data[1] := data[1] / 32 * 32 + blk / 0x1_0000 % 32;
      } else {
        ghost var b := Bytes();
        FittingJoins(b, blk);
        AddByte(blk / 0x100_0000);
        AddByte(blk / 0x1_0000 % 256);
        AddByte(blk / 0x100 % 256);
        AddByte(blk % 256);
      }
    }

    /** The driver's own check before it sends the block. */
    method Sendable() returns (ok: bool)
      requires Valid()
      ensures ok <==> C.Class(data[0]) <= 1 && byteCount == C.CdbLength(data[0])
    {
      var len: nat;
      match data[0] / 32 {
        case 0 => len := 6;
        case 1 => len := 10;
        case _ => return false;
      }
      ok := len == byteCount;
    }
  }

  // ---------------------------------------------------------------- the controller's decoder

  /** Block number and block count of a transfer command. */
  function CdbLba(b: seq<byte>): (r: (nat, nat))
    requires |b| >= 10 || (|b| >= 6 && C.Class(b[0]) == 0)
    ensures r.0 < W && r.1 < 0x1_0000
  {
    if C.Class(b[0]) == 0 then
      (Join(Join(b[1] % 32, b[2]), b[3]), if b[4] == 0 then 256 else b[4])
    else
      (Join(Join(Join(b[2], b[3]), b[4]), b[5]), Join(b[7], b[8]))
  }

  /** A number from its high part and its low byte. */
  function Join(high: nat, low: byte): nat { 256 * high + low }

  /** The block number is read most significant byte first: 21 bits of bytes 1 to 3 or 32 bits of bytes
      2 to 5; the count is byte 4, where 0 stands for 256, or bytes 7 and 8. */
  lemma DecodesByBytes(b: seq<byte>)
    requires |b| >= 10
    ensures var (blk, n) := CdbLba(b);
      && (b[0] < 32 ==>
            blk == b[1] as int % 32 * 65536 + b[2] as int * 256 + b[3] && n == if b[4] == 0 then 256 else b[4])
      && (b[0] >= 32 ==>
            && blk == b[2] as int * 0x100_0000 + b[3] as int * 65536 + b[4] as int * 256 + b[5]
            && n == b[7] as int * 256 + b[8])
  {
  }

  /** Of a command that outgrows its buffer the first 64 bytes are left. */
  lemma FittingKeeps(b: seq<byte>)
    ensures Fitting(b) <= b && |Fitting(b)| == if |b| < 64 then |b| else 64
  {
  }

  /** What is encoded decodes to itself: all 21 bits in class 0, where the unit bits beside
      them survive and a count byte of 0 stands for 256, and all 32 bits in class 1. */
  lemma BlockNumbersSurvive(op: byte, lun: byte, blk: nat, rest: seq<byte>)
    requires op < 0x40 && blk < W && |rest| == (if op < 0x20 then 2 else 4)
    ensures var cdb := WithBlock([op, lun], blk) + rest;
      && |cdb| == C.CdbLength(op) && cdb[0] == op && cdb[1] / 32 == lun / 32
      && (op < 0x20 ==> CdbLba(cdb) == (blk % 0x20_0000, if rest[0] == 0 then 256 else rest[0]))
      && (op >= 0x20 ==> cdb[1] == lun && CdbLba(cdb) == (blk, Join(rest[1], rest[2])))
  {
    if op < 0x20 {
      SplitBlock(blk);
      assert (lun / 32 * 32 + blk / 0x1_0000 % 32) / 32 == lun / 32;
      assert (lun / 32 * 32 + blk / 0x1_0000 % 32) % 32 == blk / 0x1_0000 % 32;
    } else {
      SplitBlock(blk);
    }
  }

  lemma Shift16(x: nat)
    ensures x / 0x1_0000 == x / 0x100 / 0x100
  {
  }

  lemma SplitBlock(blk: nat)
    requires blk < W
    ensures Join(Join(blk / 0x1_0000 % 32, blk / 0x100 % 256), blk % 256) == blk % 0x20_0000
    ensures Join(Join(Join(blk / 0x100_0000, blk / 0x1_0000 % 256), blk / 0x100 % 256), blk % 256) == blk
  {
    var mid, low := blk / 0x100, blk % 0x100;
    var top, m := mid / 0x100, mid % 0x100;
    var h, t := top / 0x100, top % 0x100;
    Shift16(blk);
    assert blk == 0x100 * mid + low && mid == 0x100 * top + m && top == 0x100 * h + t;
    ThreeBytes(top, m, low);
    assert blk / 0x100_0000 == h by { FourBytes(h, t, m, low); }
  }

  lemma ThreeBytes(top: nat, m: nat, low: nat)
    requires m < 256 && low < 256
    ensures Join(Join(top % 32, m), low) == (0x1_0000 * top + 0x100 * m + low) % 0x20_0000
  {
    var (q, r, y) := (top / 32, top % 32, 0x100 * m + low);
    assert 0x1_0000 * top + y == 0x20_0000 * q + (0x1_0000 * r + y);
    assert 0 <= 0x1_0000 * r + y < 0x20_0000;
  }

  lemma FourBytes(h: nat, t: nat, m: nat, low: nat)
    requires t < 256 && m < 256 && low < 256
    ensures (0x100_0000 * h + 0x1_0000 * t + 0x100 * m + low) / 0x100_0000 == h
  {
  }

  // ---------------------------------------------------------------- transfer commands

  const READ: byte := 0x08
  const READ2: byte := 0x28
  const WRITE: byte := 0x0A
  const WRITE2: byte := 0x2A
  const WRITEVERIFY: byte := 0x2E

  predicate IsTransfer(cdb: seq<byte>) {
    |cdb| >= 6 && |cdb| == C.CdbLength(cdb[0]) && cdb[0] in {READ, READ2, WRITE, WRITE2, WRITEVERIFY}
  }

  /** The state a DMA transfer command leaves, and its outcome for the phase ladder. */
  function TransferEffect(d: Disk, cdb: seq<byte>): (Disk, C.Outcome)
    requires d.Valid() && IsTransfer(cdb)
  {
    var (lba, count) := CdbLba(cdb);
    var d0 := d.(busErr := false);
    var r := if cdb[0] in {READ, READ2} then Read(d0, lba, count) else Write(d0, lba, count);
    (r, C.Outcome(r.status, [], r.busErr))
  }

  method ExecuteTransfer(e: DmaEngine, cdb: seq<byte>) returns (o: C.Outcome)
    requires e.Valid() && IsTransfer(cdb)
    modifies e, e.mem, e.mem.ram, e.dataBuf
    ensures e.Valid() && (e.D(), o) == TransferEffect(old(e.D()), cdb)
  {
    var (lba, count) := CdbLba(cdb);
    e.busErr := false;
    if cdb[0] in {READ, READ2} {
      e.ReadBlocks(lba, count);
    } else {
      e.WriteBlocks(lba, count);
    }
    o := C.Outcome(e.statusByte, [], e.busErr);
  }

  /** The DMA test: a byte written on the free bus with DMA on probes memory, and what the host then
      reads are the two bytes the bus shows at the DMA address. */
  method ProbeMemory(e: DmaEngine, l: C.Ladder, v: byte) returns (l1: C.Ladder)
    requires e.Valid() && C.WellFormed(l) && l.selected == 0 && l.ctl.seqEn
    modifies e`dmaAddress
    ensures e.Valid() && e.D() == old(e.D()).(reg := Advance(old(e.dmaAddress), 1))
    ensures var a := DmaAddr(old(e.dmaAddress));
      var (l2, high) := C.ReadInput(l1);
      var (l3, low) := C.ReadInput(l2);
      && l1.statusReg.busErr == (l.statusReg.busErr || !ValidForRead(a))
      && (ValidForRead(a) ==> [high, low] == old(e.D()).Seen(a, 2)) && C.ReadInput(l3).1 == v
  {
    ghost var d := e.D();
    var word, ok := e.DmaTest();
    var p := C.Probe(ok, word);
    l1 := C.HostWrite(l, v, p);
    C.ProbeReadsBack(l, v, p);
    assert e.D().Seen(DmaAddr(d.reg), 2) == d.Seen(DmaAddr(d.reg), 2);
  }

  /** With DMA on, the controller runs every transfer command on its own, and the command
      ends unless the reset is held. */
  lemma TransfersComplete(cdb: seq<byte>, ctl: C.Control)
    requires IsTransfer(cdb) && cdb[1] / 32 < 2 && ctl.seqEn
    ensures T.IsCommandBlock(cdb) && T.Runs(cdb, ctl) && (T.Completes(cdb, ctl) <==> !ctl.srst)
  {
  }

  /** Where a READ finds its blocks: on the image, and nowhere else unless the file has grown to
      2^41 bytes. */
  ghost predicate OnImage(d: Disk, blk: nat, n: nat)
    requires blk < W
  {
    Admitted(blk, n, d.blocks, |d.image| / SECTOR)
  }

  lemma OnImageMeans(d: Disk, blk: nat, n: nat)
    requires d.Valid() && blk < W && n < W
    ensures blk + n < W || |d.image| < SECTOR * W ==> (OnImage(d, blk, n) <==> blk + n <= d.blocks)
  {
    if blk + n >= W { CrossingBounds(blk, 0, n); }
  }

  /** What a READ block makes the controller do. */
  lemma ReadOutcome(d: Disk, cdb: seq<byte>, blk: nat, n: nat)
    requires d.Valid() && IsTransfer(cdb) && cdb[0] in {READ, READ2} && CdbLba(cdb) == (blk, n) && n > 0
    ensures var (r, o) := TransferEffect(d, cdb);
      && o.reply == [] && o.status == r.status
      && (r.status == 0 <==> OnImage(d, blk, n) && WORDS * n <= WordsWritable(DmaAddr(d.reg)))
      && (r.status == 0 && blk + n <= d.blocks ==>
            OnlyCopied(d.ram, DmaAddr(d.reg), d.image[SECTOR * blk..SECTOR * (blk + n)], r.ram))
  {
    hide Read, Write, ReadEffect, DmaAddr, WordsWritable, CdbLba, Admitted, OnlyCopied;
    var d0 := d.(busErr := false);
    ReadSucceedsIff(d0, blk, n);
    ReadCloses(d0, blk, n);
    if TransferEffect(d, cdb).0.status == 0 && blk + n <= d.blocks { ReadIsOneCopy(d0, blk, n); }
  }

  /** What a WRITE block makes the controller do.  A range that wraps may be taken too, see
      WriteGrowsIff. */
  lemma WriteOutcome(d: Disk, cdb: seq<byte>, blk: nat, n: nat)
    requires d.Valid() && IsTransfer(cdb) && cdb[0] !in {READ, READ2} && CdbLba(cdb) == (blk, n) && n > 0
    ensures var (r, o) := TransferEffect(d, cdb);
      && o.reply == [] && o.status == r.status && r.ram == d.ram
      && (r.status == 0 <==>
            !d.readonly && Admitted(blk, n, d.blocks, 2 * W) && WORDS * n <= WordsReadable(DmaAddr(d.reg)))
      && (r.status == 0 && blk + n <= d.blocks ==>
            OnlyCopied(d.image, SECTOR * blk, d.Seen(DmaAddr(d.reg), SECTOR * n), r.image))
  {
    hide Read, Write, WriteEffect, DmaAddr, WordsReadable, CdbLba, Admitted, OnlyCopied;
    var d0 := d.(busErr := false);
    WriteSucceedsIff(d0, blk, n);
    WriteKeepsMemory(d0, blk, n);
    WriteCloses(d0, blk, n);
    assert d0.Seen(DmaAddr(d.reg), SECTOR * n) == d.Seen(DmaAddr(d.reg), SECTOR * n);
    if TransferEffect(d, cdb).0.status == 0 && blk + n <= d.blocks { WriteIsOneCopy(d0, blk, n); }
  }

  /** A transfer command's session hands the host its status and the message byte. */
  lemma TransferTranscript(l: C.Ladder, v: byte, ms: seq<T.Move>, cdb: seq<byte>, o: C.Outcome)
    requires C.WellFormed(l) && l.phase == C.Idle && l.ctl.seqEn && v != 0
    requires IsTransfer(cdb) && cdb[1] / 32 < 2 && o.reply == []
    ensures T.IsCommandBlock(cdb)
    ensures T.Disciplined(T.Selected(l, v), ms, cdb, o) ==>
      var c := T.After(T.Selected(l, v), ms, cdb, o);
      c.got <= [o.status, 0] && (c.l.selected == 0 ==> c.got == [o.status, 0])
  {
    TransfersComplete(cdb, l.ctl);
    if T.Disciplined(T.Selected(l, v), ms, cdb, o) {
      T.TranscriptIsExact(l, v, ms, cdb, o);
      assert T.Transcript(o) == [o.status, 0];
    }
  }

  ghost predicate IsReadOf(op: byte, blk: nat, n: nat, tail: seq<byte>) {
    || (op == 0x08 && blk < 0x20_0000 && 0 < n <= 256 && |tail| == 2 && tail[0] == n % 256)
    || (op == 0x28 && blk < W && 0 < n < 0x1_0000 && |tail| == 4 && tail[1] == n / 256 && tail[2] == n % 256)
  }

  /** From the host's encoder to the host's input register: a READ of n blocks from block
      blk, however the session is scheduled, hands the host a status byte and the message
      byte; the status is 0 iff the blocks exist and the memory does, and then memory holds
      exactly those blocks at the DMA address. */
  lemma ReadCommandEndToEnd(
      d: Disk, l: C.Ladder, v: byte, ms: seq<T.Move>, op: byte, lun: byte, blk: nat, n: nat, tail: seq<byte>)
    requires d.Valid() && C.WellFormed(l) && l.phase == C.Idle && l.ctl.seqEn && v != 0 && lun / 32 < 2
    requires IsReadOf(op, blk, n, tail)
    ensures var cdb := WithBlock([op, lun], blk) + tail;
      IsTransfer(cdb) && T.IsCommandBlock(cdb) &&
      var (r, o) := TransferEffect(d, cdb);
      && (T.Disciplined(T.Selected(l, v), ms, cdb, o) ==>
            var c := T.After(T.Selected(l, v), ms, cdb, o);
            c.got <= [r.status, 0] && (c.l.selected == 0 ==> c.got == [r.status, 0]))
      && (r.status == 0 <==> OnImage(d, blk, n) && WORDS * n <= WordsWritable(DmaAddr(d.reg)))
      && (r.status == 0 && blk + n <= d.blocks ==>
            OnlyCopied(d.ram, DmaAddr(d.reg), d.image[SECTOR * blk..SECTOR * (blk + n)], r.ram))
  {
    hide TransferEffect, OnImage, DmaAddr, WordsWritable, OnlyCopied, WithBlock, CdbLba;
    hide T.Disciplined, T.After, T.Selected;
    var cdb := WithBlock([op, lun], blk) + tail;
    BlockNumbersSurvive(op, lun, blk, tail);
    ReadOutcome(d, cdb, blk, n);
    TransferTranscript(l, v, ms, cdb, TransferEffect(d, cdb).1);
  }

  ghost predicate IsWriteOf(op: byte, blk: nat, n: nat, tail: seq<byte>) {
    || (op == 0x0A && blk < 0x20_0000 && 0 < n <= 256 && |tail| == 2 && tail[0] == n % 256)
    || (op in {0x2A, 0x2E} && blk < W && 0 < n < 0x1_0000 && |tail| == 4
        && tail[1] == n / 256 && tail[2] == n % 256)
  }

  /** The same for a WRITE: the status is 0 iff the image is writable, takes the blocks and the memory
      is there; if the blocks are on the image it then holds exactly the bytes the bus showed at
      the DMA address, and memory is as it was in any case. */
  lemma WriteCommandEndToEnd(
      d: Disk, l: C.Ladder, v: byte, ms: seq<T.Move>, op: byte, lun: byte, blk: nat, n: nat, tail: seq<byte>)
    requires d.Valid() && C.WellFormed(l) && l.phase == C.Idle && l.ctl.seqEn && v != 0 && lun / 32 < 2
    requires IsWriteOf(op, blk, n, tail)
    ensures var cdb := WithBlock([op, lun], blk) + tail;
      IsTransfer(cdb) && T.IsCommandBlock(cdb) &&
      var (r, o) := TransferEffect(d, cdb);
      && (T.Disciplined(T.Selected(l, v), ms, cdb, o) ==>
            var c := T.After(T.Selected(l, v), ms, cdb, o);
            c.got <= [r.status, 0] && (c.l.selected == 0 ==> c.got == [r.status, 0]))
      && r.ram == d.ram
      && (r.status == 0 <==>
            !d.readonly && Admitted(blk, n, d.blocks, 2 * W) && WORDS * n <= WordsReadable(DmaAddr(d.reg)))
      && (r.status == 0 && blk + n <= d.blocks ==>
            OnlyCopied(d.image, SECTOR * blk, d.Seen(DmaAddr(d.reg), SECTOR * n), r.image))
  {
    hide TransferEffect, Admitted, DmaAddr, WordsReadable, OnlyCopied, WithBlock, CdbLba;
    hide T.Disciplined, T.After, T.Selected;
    var cdb := WithBlock([op, lun], blk) + tail;
    BlockNumbersSurvive(op, lun, blk, tail);
    WriteOutcome(d, cdb, blk, n);
    TransferTranscript(l, v, ms, cdb, TransferEffect(d, cdb).1);
  }
}
