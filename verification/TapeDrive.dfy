/**
 The cartridge controller of src/cs.c as it runs: the file number, the open file with its
 remaining block count, and the loops that copy blocks to the bus.  READ, SKIP and REWIND are
 proved against the drive of module `Tape`.
 */
module TapeDrive {
  import opened Words
  import opened Bus
  import opened Tape

  // status bits
  const FILENMARK: nat := 0x0080
  const READEOT_TERM: nat := 0x1400
  const IPBPERR: nat := 0x2000
  const EOD: nat := 0x4000
  const COMPLETE: nat := 0x8000
  // status1 bits
  const S1_EOM: nat := 0x0002
  const S1_BOM: nat := 0x0008
  const S1_STAT1BIT: nat := 0x0080
  const S1_FILEMARK: nat := 0x0100
  const S1_EORM: nat := 0x0800
  const S1_WRITEPROT: nat := 0x1000
  const S1_STAT0BYTE: nat := 0x8000

  lemma {:induction false} DataOfFile(tape: Files, f: nat, b: nat, k: nat)
    requires f < |tape| && b + k <= Blocks(tape, f)
    ensures Data(FileItems(tape, f, b, k)) == tape[f][b * BLOCK..(b + k) * BLOCK]
    decreases k
  {
    var items := FileItems(tape, f, b, k);
    if k > 0 {
      assert items[1..] == FileItems(tape, f, b + 1, k - 1);
      DataOfFile(tape, f, b + 1, k - 1);
      assert tape[f][b * BLOCK..(b + k) * BLOCK] == BlockAt(tape, f, b) + tape[f][(b + 1) * BLOCK..(b + k) * BLOCK];
    }
  }

  /** What a READ reports for the items it consumed. */
  function ReadStatus(got: seq<Item>, nowOpen: bool, wasOpen: bool): (nat, nat) {
    if !nowOpen then (if wasOpen then READEOT_TERM else EOD, S1_EOM)
    else if got != [] && got[|got| - 1].FileMark? then (FILENMARK, S1_FILEMARK)
    else if got != [] && got[|got| - 1].EndMark? then (READEOT_TERM, S1_EOM)
    else (COMPLETE, 0)
  }

  /** The reports in numbers: status and second status byte pair by what the READ met last. */
  lemma ReportsAre(got: seq<Item>, wasOpen: bool)
    ensures var last := if got == [] then Block([]) else got[|got| - 1];
      && ReadStatus(got, false, wasOpen) == (if wasOpen then 0x1400 else 0x4000, 0x0002)
      && ReadStatus(got, true, wasOpen)
         == match last {
              case Block(_) => (0x8000, 0)
              case FileMark => (0x0080, 0x0100)
              case EndMark => (0x1400, 0x0002)
            }
  {
  }

  class Streamer {
    const tape: Files
    const readonly: bool
    var fileNo: nat
    var fileIsOpen: bool
    var fileRemainingBlocks: nat
    var filePos: nat                 // where the open file is read next
    var bus: map<word, byte>         // what was last written to each address

    ghost predicate Valid()
      reads this
    {
      && Placed(tape, Where())
      && (fileIsOpen ==> filePos == (Blocks(tape, fileNo) - fileRemainingBlocks) * BLOCK)
    }

    ghost function Where(): Drive
      reads this
    {
      Drive(fileNo, fileIsOpen, if fileIsOpen then fileRemainingBlocks else 0)
    }

    constructor (tape: Files, readonly: bool)
      ensures Valid() && Where() == REWOUND && this.tape == tape && this.readonly == readonly
    {
      this.tape, this.readonly := tape, readonly;
      fileNo, fileIsOpen, fileRemainingBlocks, filePos := 0, false, 0, 0;
      bus := map[];
    }

    method OpenFileR(f: nat) returns (ok: bool)
      requires f <= |tape|
      modifies this
      ensures ok == (f < |tape|) && fileIsOpen == ok && fileNo == old(fileNo) && bus == old(bus)
      ensures ok ==> fileRemainingBlocks == Blocks(tape, f) && filePos == 0
    {
      fileIsOpen := false;
      if f >= |tape| {
        return false;
      }
      fileIsOpen := true;
      filePos := 0;
      fileRemainingBlocks := |tape[f]| / BLOCK;
      return true;
    }

    /** One block from the open file to the bus. */
    method CopyBlock(address: word)
      requires fileNo < |tape| && filePos + BLOCK <= |tape[fileNo]|
      modifies `bus, `filePos
      ensures filePos == old(filePos) + BLOCK
      ensures bus == Put(old(bus), address, tape[fileNo][old(filePos)..filePos])
    {
      hide Put, Wrap;
      var buf := tape[fileNo][filePos..filePos + BLOCK];
      var j := 0;
      var a: word := address;
      PutNone(bus, a);
      WrapZero(address);
      while j < BLOCK
        invariant 0 <= j <= BLOCK && a == Wrap(address + j) && bus == Put(old(bus), address, buf[..j])
        invariant filePos == old(filePos)
      {
        PutAppends(old(bus), address, buf[..j], buf[j]);
        assert buf[..j + 1] == buf[..j] + [buf[j]];
        bus := bus[a := buf[j]];
        WrapNext(address, j);
        a := Wrap(a + 1);
        j := j + 1;
      }
      assert buf[..BLOCK] == buf;
      filePos := filePos + BLOCK;
    }

    /** tape_read: whole blocks while the buffer and the file last; the address is a word
        address.  Because the count comes from the file's size, the file never runs short. */
    method TapeRead(bufferPtr: word, requested: nat) returns (count: nat, status: nat, status1: nat)
      requires Valid() && fileIsOpen
      modifies this
      ensures Valid() && fileIsOpen && fileNo == old(fileNo)
      ensures (count, Where()) == Transfer(old(Where()), requested)
      ensures var items := FileItems(tape, fileNo, Blocks(tape, fileNo) - old(fileRemainingBlocks), count);
        && bus == Put(old(bus), Wrap(2 * bufferPtr), Data(items))
        && (status, status1) == ReadStatus(items, true, true)
    {
      hide Put, Data, FileItems, Blocks, Wrap;
      var address: word := Wrap(2 * bufferPtr);
      var blocksToRead := if requested > fileRemainingBlocks then fileRemainingBlocks else requested;
      ghost var start, first := filePos, Blocks(tape, fileNo) - fileRemainingBlocks;
      count := 0;
      BlocksFit(tape, fileNo);
      WrapZero(address);
      assert tape[fileNo][start..start] == [];
      PutNone(bus, address);
      while count < blocksToRead
        invariant 0 <= count <= blocksToRead && fileIsOpen && fileNo == old(fileNo) && Valid()
        invariant fileRemainingBlocks == old(fileRemainingBlocks) - count && filePos == start + count * BLOCK
        invariant filePos <= |tape[fileNo]|
        invariant address == Wrap(Wrap(2 * bufferPtr) + count * BLOCK)
        invariant bus == Put(old(bus), Wrap(2 * bufferPtr), tape[fileNo][start..filePos])
      {
        BlocksFit(tape, fileNo);
        ghost var was, pos := bus, filePos;
        CopyBlock(address);
        PutJoins(old(bus), Wrap(2 * bufferPtr), tape[fileNo][start..pos], tape[fileNo][pos..filePos]);
        assert tape[fileNo][start..pos] + tape[fileNo][pos..filePos] == tape[fileNo][start..filePos];
        WrapBlock(Wrap(2 * bufferPtr), count);
        address := Wrap(address + BLOCK);
        fileRemainingBlocks := fileRemainingBlocks - 1;
        count := count + 1;
      }
      DataOfFile(tape, fileNo, first, count);
      LastItem(tape, fileNo, first, count);
      status, status1 := COMPLETE, 0;
      if fileRemainingBlocks == 0 {
        if fileNo + 1 < |tape| {
          status, status1 := FILENMARK, S1_FILEMARK;
        } else {
          status, status1 := READEOT_TERM, S1_EOM;
        }
      }
    }

    /** READ.  The buffer length is in words; a length that is not whole blocks is refused.
        Where nothing can be opened the block count of the request is left as it was. */
    method Read(bufferPtr: word, bufferLen: word, numBlocks0: nat) returns (numBlocks: nat, status: nat, status1: nat)
      requires Valid()
      modifies this
      ensures Valid()
      ensures bufferLen % 256 != 0
        ==> Where() == old(Where()) && bus == old(bus) && numBlocks == numBlocks0
            && status == 0x2000 && status1 == (if readonly then 0x1000 else 0)
      ensures bufferLen % 256 == 0
        ==> var (got, e) := Tape.Read(tape, old(Where()), Wrap(2 * bufferLen) / BLOCK);
            && Where() == e
            && bus == Put(old(bus), Wrap(2 * bufferPtr), Data(got))
            && numBlocks == (if e.open then |Data(got)| / BLOCK % 0x1_0000 else numBlocks0)
            && var (st, st1) := ReadStatus(got, e.open, old(fileIsOpen));
               status == st && status1 == st1 + (if readonly then 0x1000 else 0)
    {
      hide Put, Data, FileItems, Blocks, ReadStatus;
      BlockLengths(bufferLen);
      numBlocks := numBlocks0;
      if Wrap(2 * bufferLen) % BLOCK != 0 {
        status, status1 := IPBPERR, 0;
      } else {
        var requested := Wrap(2 * bufferLen) / BLOCK;
        var wasOpen, nowOpen := fileIsOpen, true;
        if fileIsOpen {
          if fileRemainingBlocks == 0 {
            fileIsOpen := false;
            fileNo := fileNo + 1;
            nowOpen := OpenFileR(fileNo);
          }
        } else {
          nowOpen := OpenFileR(fileNo);
        }
        assert nowOpen == Opened(tape, old(Where())).open && Valid() && Where() == Opened(tape, old(Where()));
        if nowOpen {
          ghost var first := Blocks(tape, fileNo) - fileRemainingBlocks;
          var count;
          count, status, status1 := TapeRead(bufferPtr, requested);
          DataLength(tape, fileNo, first, count);
          OpenStatus(FileItems(tape, fileNo, first, count), wasOpen);
          numBlocks := count % 0x1_0000;
        } else {
          NothingPut(bus, Wrap(2 * bufferPtr), wasOpen);
          status, status1 := if wasOpen then READEOT_TERM else EOD, S1_EOM;
        }
      }
      status1 := if readonly then status1 + S1_WRITEPROT else status1;
    }

    /** SKIP reports the end of the data exactly when no file is left to read. */
    method Skip(numBlocks: nat) returns (status: nat, status1: nat)
      requires Valid()
      modifies this
      ensures Valid() && Where() == Tape.Skip(tape, old(Where()), numBlocks) && bus == old(bus)
      ensures status == (if fileNo == |tape| then 0xC000 else 0x8000)
      ensures status1 == (if fileNo == |tape| then 0x0800 else 0) + (if readonly then 0x1000 else 0)
    {
      var atEOF := if fileRemainingBlocks == 0 && fileIsOpen then 1 else 0;
      fileIsOpen := false;
      var i := numBlocks + atEOF;
      while i > 0 && fileNo < |tape|
        invariant i >= 0 && fileNo <= |tape| && fileNo + i == old(fileNo) + numBlocks + atEOF
        invariant !fileIsOpen && bus == old(bus)
      {
        i := i - 1;
        fileNo := fileNo + 1;
      }
      status, status1 := COMPLETE, 0;
      if i > 0 {
        status := COMPLETE + EOD;
      }
      if fileNo >= |tape| {
        status := COMPLETE + EOD;
        status1 := S1_EORM;
      }
      status1 := if readonly then status1 + S1_WRITEPROT else status1;
    }

    method Rewind() returns (status: nat, status1: nat)
      requires Valid()
      modifies this
      ensures Valid() && Where() == REWOUND && bus == old(bus)
      ensures status == 0x8000 && status1 == (if readonly then 0x9088 else 0x0088)
    {
      status, status1 := COMPLETE, S1_STAT1BIT + S1_BOM;
      fileIsOpen := false;
      fileNo := 0;
      if readonly {
        status1 := status1 + S1_STAT0BYTE;
      }
      status1 := if readonly then status1 + S1_WRITEPROT else status1;
    }
  }

  lemma WrapZero(a: word)
    ensures Wrap(a + 0) == a
  {
  }

  lemma WrapNext(a: int, j: int)
    ensures Wrap(Wrap(a + j) + 1) == Wrap(a + (j + 1))
  {
  }

  lemma WrapBlock(a: int, n: int)
    ensures Wrap(Wrap(a + n * BLOCK) + BLOCK) == Wrap(a + (n + 1) * BLOCK)
  {
  }

  lemma BlocksFit(tape: Files, f: nat)
    requires f < |tape|
    ensures Blocks(tape, f) * BLOCK <= |tape[f]|
  {
  }

  lemma LastItem(tape: Files, f: nat, b: nat, k: nat)
    requires f < |tape| && b + k <= Blocks(tape, f)
    ensures var items := FileItems(tape, f, b, k);
      ReadStatus(items, true, true)
      == if b + k < Blocks(tape, f) then (COMPLETE, 0)
         else if f + 1 < |tape| then (FILENMARK, S1_FILEMARK) else (READEOT_TERM, S1_EOM)
    decreases k
  {
    if k > 0 { LastItem(tape, f, b + 1, k - 1); }
  }

  lemma BlockLengths(bufferLen: word)
    ensures Wrap(2 * bufferLen) % BLOCK == 0 <==> bufferLen % 256 == 0
  {
  }

  lemma DataLength(tape: Files, f: nat, b: nat, k: nat)
    requires f < |tape| && b + k <= Blocks(tape, f)
    ensures |Data(FileItems(tape, f, b, k))| / BLOCK == k
  {
    DataOfFile(tape, f, b, k);
  }

  lemma OpenStatus(got: seq<Item>, wasOpen: bool)
    ensures ReadStatus(got, true, wasOpen) == ReadStatus(got, true, true)
  {
  }

  lemma NothingPut(m: map<word, byte>, a: word, wasOpen: bool)
    ensures Put(m, a, Data([])) == m
    ensures ReadStatus([], false, wasOpen) == (if wasOpen then READEOT_TERM else EOD, S1_EOM)
  {
  }
}
