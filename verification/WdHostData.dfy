/**
 Commands whose data comes from the host, byte by byte through the same register as the command
 block, with DMA off.  The host sends the block, and then the data, each byte of it once the status
 shows that the register is empty again.  The command starts with the last byte it is owed and with
 no earlier one, and from there on goes the way of every other command.
 */
module WdHostData {
  import opened WdController
  import opened WdInterrupts
  import opened WdTranscript
  import opened Words

  /** How many bytes of data a command of class 0 or 1 is owed: the parameters of MODE SELECT, a
      buffer of 1024 bytes, the parameters of SEND DIAGNOSTIC, at most two blocks of a WRITE, and
      the defect list of FORMAT.  The list of the short FORMAT carries its own length, as a big
      endian number behind two reserved bytes. */
  function Owed(cdb: seq<byte>, data: seq<byte>): nat
    requires |cdb| == (if cdb != [] && cdb[0] < 0x20 then 6 else 10)
  {
    var op := cdb[0];
    if op == 0x15 || op == 0x35 then cdb[4]
    else if op == 0x13 || op == 0x33 then 1024
    else if op == 0x1D || op == 0x3D then AtMost1024(256 * (cdb[3] as int) + cdb[4])
    else if op == 0x0A || op == 0x2A then AtMost1024(512 * (cdb[4] as int))
    else if op == 0x04 then
      (if cdb[1] / 16 % 2 == 0 then 0 else if |data| < 4 then 4 else 4 + 256 * (data[2] as int) + data[3])
    else if op == 0x24 then (if cdb[1] / 16 % 2 == 0 then 0 else 4) + 256 * (cdb[8] as int) + cdb[9]
    else 0
  }

  function AtMost1024(n: nat): nat { if n <= 1024 then n else 0 }

  /** A block of class 0 or 1 that is owed data, with as much of it as the host has, and no more. */
  ghost predicate IsOwedData(cdb: seq<byte>, data: seq<byte>) {
    && IsCommandBlock(cdb) && cdb[0] < 0x40 && |cdb| == (if cdb[0] < 0x20 then 6 else 10)
    && |data| <= Owed(cdb, data) && Owed(cdb, data) > 0 && |cdb| + |data| <= SCSICMD_MAX
  }

  /** The host sees that its last byte has been taken. */
  predicate OutputShown(l: Ladder): (shown: bool)
    ensures shown <==> l.statusReg.outEmpty && !l.ctl.srst
  {
    StatusIsShown(l);
    IsSet(ReadStatus(l), 0x02)
  }

  /** Bytes of the block may be sent at any time; those of the data only when that is shown. */
  ghost predicate MayFeed(c: Session, m: Move, cdb: seq<byte>, data: seq<byte>) {
    MayMove(c, m, cdb + data) && (m == Send && c.sent >= |cdb| ==> OutputShown(c.l))
  }

  /** What the controller expects after k bytes of the data. */
  lemma ExpectedAfter(buf: seq<byte>, cdb: seq<byte>, data: seq<byte>, k: nat, ctl: Control)
    requires IsOwedData(cdb, data) && k <= |data| && !ctl.seqEn && |buf| == SCSICMD_MAX
    requires buf[..|cdb| + k] == cdb + data[..k]
    ensures var n := HostDataLength(buf, |cdb| + k, ctl);
      && (k == 0 ==> n > 0) && (k > 0 ==> n != k - 1) && (k > 0 ==> (n == k <==> k == Owed(cdb, data)))
  {
    var d := cdb + data[..k];
    assert forall i :: 0 <= i < |cdb| + k ==> buf[i] == d[i];
    assert cdb[0] % 32 == (if cdb[0] < 0x20 then cdb[0] else cdb[0] - 0x20);
  }

  // ---------------------------------------------------------------- the stages

  /** The block is on its way. */
  ghost predicate Arriving(c: Session, cdb: seq<byte>) { Sending(c, cdb) && c.sent < |cdb| && !c.l.ctl.seqEn }

  /** The block has arrived, and part of the data; the last byte is to be taken, is taken but the
      register does not show it yet, or it does. */
  ghost predicate Feeding(c: Session, cdb: seq<byte>, data: seq<byte>)
    requires IsOwedData(cdb, data)
  {
    && c.l.phase == Idle && c.l.selected != 0 && c.got == [] && !c.l.ctl.seqEn && !c.l.statusReg.inpFull
    && |cdb| <= c.sent == c.l.scsiIdx <= |cdb| + |data|
    && c.sent <= |c.l.scsiBuf| && c.l.scsiBuf[..c.sent] == (cdb + data)[..c.sent]
    && var k := c.sent - |cdb|;
      if c.l.cmdCounter > 0 && c.l.currCommand == ProcessScsiCmd then
        c.l.cmdCounter <= CMD_COUNT && !c.l.statusReg.outEmpty && c.l.dataIdx == (if k == 0 then 0 else k - 1)
      else
        && c.l.dataIdx == k < Owed(cdb, data)
        && (if c.l.cmdCounter == 0 then c.l.statusReg.outEmpty
            else c.l.cmdCounter <= 2 * CMD_COUNT && !c.l.statusReg.outEmpty && c.l.currCommand == ResetOutRegFull)
  }

  ghost predicate OnWay(c: Session, cdb: seq<byte>, data: seq<byte>, o: Outcome)
    requires IsOwedData(cdb, data)
  {
    var all := cdb + data;
    && WellFormed(c.l)
    && (|| Arriving(c, cdb) || Feeding(c, cdb, data)
        || (|data| == Owed(cdb, data)
            && (InMessage(c, all) || InComplete(c, all, o) || InData(c, all, o)
                || InStatus(c, all, o) || InMessageByte(c, all, o) || Done(c, all, o))))
  }

  /** Moves still ahead; while the host is slow with the data it waits. */
  ghost function Ahead(c: Session, cdb: seq<byte>, data: seq<byte>, o: Outcome): nat {
    var all := cdb + data;
    var base := 16 + 3 * |o.reply|;
    if c.l.phase != Idle || c.l.selected == 0 then Remaining(c, all, o)
    else if c.sent < |cdb| then base + 9 * |data| + 9 + (|cdb| - c.sent)
    else
      var k := if c.sent <= |all| then |all| - c.sent else 0;
      base + 9 * k + c.l.cmdCounter + (if c.l.cmdCounter > 0 && c.l.currCommand == ProcessScsiCmd then 6 else 0)
  }

  ghost predicate Pausing(c: Session, m: Move, cdb: seq<byte>, data: seq<byte>) {
    m == Time &&
    (c.sent < |cdb| || (c.sent < |cdb| + |data| && c.l.cmdCounter == 0) || c.l.statusReg.inpFull || c.l.selected == 0)
  }

  ghost predicate Advances(c: Session, r: Session, m: Move, cdb: seq<byte>, data: seq<byte>, o: Outcome)
    requires IsOwedData(cdb, data)
  {
    WellFormed(r.l) && r.l.ctl == c.l.ctl
    && Ahead(r, cdb, data, o) <= Ahead(c, cdb, data, o)
    && (Pausing(c, m, cdb, data) || |data| < Owed(cdb, data) || Ahead(r, cdb, data, o) < Ahead(c, cdb, data, o))
  }

  lemma ArrivingMoves(c: Session, m: Move, cdb: seq<byte>, data: seq<byte>, o: Outcome)
    requires IsOwedData(cdb, data) && WellFormed(c.l) && Arriving(c, cdb) && MayFeed(c, m, cdb, data)
    ensures var r := Do(c, m, cdb + data, o);
      (Arriving(r, cdb) || Feeding(r, cdb, data)) && Advances(c, r, m, cdb, data, o)
  {
    var all := cdb + data;
    assert forall i :: 0 <= i < |cdb| ==> all[i] == cdb[i];
    if m == Time {
      var l1 := IdleTick(c.l, o);
      if l1.cmdCounter == 1 && l1.currCommand == ProcessScsiCmd {
        TakeIncompleteBlock(c, l1.(cmdCounter := CMD_COUNT, currCommand := ResetOutRegFull), cdb);
      }
    }
  }

  /** The bytes that have arrived, at the moment the controller takes the last of them. */
  lemma TakesByte(c: Session, l: Ladder, cdb: seq<byte>, data: seq<byte>)
    requires IsOwedData(cdb, data) && WellFormed(l) && !l.ctl.seqEn && |cdb| <= c.sent == l.scsiIdx <= |cdb| + |data|
    requires c.sent <= |l.scsiBuf| && l.scsiBuf[..c.sent] == (cdb + data)[..c.sent]
    requires var k := c.sent - |cdb|; l.dataIdx == if k == 0 then 0 else k - 1
    ensures var k := c.sent - |cdb|;
      ProcessScsi(l) == if k == 0 then l.(cmdCounter := 2 * CMD_COUNT, statusReg := l.statusReg.(scmd := false))
                        else if k == Owed(cdb, data) then StartMessage(l.(dataIdx := k))
                        else l.(dataIdx := k)
  {
    var k := c.sent - |cdb|;
    assert (cdb + data)[..c.sent] == cdb + data[..k];
    ExpectedAfter(l.scsiBuf, cdb, data, k, l.ctl);
    BlockInPlace(l.scsiBuf, cdb, data, k);
    hide HostDataLength, Owed;
  }

  lemma BlockInPlace(buf: seq<byte>, cdb: seq<byte>, data: seq<byte>, k: nat)
    requires IsOwedData(cdb, data) && k <= |data| && |buf| == SCSICMD_MAX && buf[..|cdb| + k] == cdb + data[..k]
    ensures buf[0] == cdb[0] && buf[1] == cdb[1] && Class(buf[0]) <= 1 && CdbLength(buf[0]) == |cdb|
  {
    var d := cdb + data[..k];
    assert buf[0] == buf[..|cdb| + k][0] == d[0] && buf[1] == buf[..|cdb| + k][1] == d[1];
  }

  lemma FeedingTime(c: Session, cdb: seq<byte>, data: seq<byte>, o: Outcome)
    requires IsOwedData(cdb, data) && WellFormed(c.l) && Feeding(c, cdb, data)
    ensures var r := Do(c, Time, cdb + data, o);
      && (Feeding(r, cdb, data) || (|data| == Owed(cdb, data) && InMessage(r, cdb + data)))
      && Advances(c, r, Time, cdb, data, o)
  {
    hide Owed;
    var l1 := IdleTick(c.l, o);
    if l1.cmdCounter == 1 && l1.currCommand == ProcessScsiCmd {
      var l2 := l1.(cmdCounter := CMD_COUNT, currCommand := ResetOutRegFull);
      TakesByte(c, l2, cdb, data);
      assert TickLadder(c.l, o) == ProcessScsi(l2);
      if c.sent - |cdb| == Owed(cdb, data) { assert (cdb + data)[..c.sent] == cdb + data; }
    }
  }

  lemma FeedingSend(c: Session, cdb: seq<byte>, data: seq<byte>, o: Outcome)
    requires IsOwedData(cdb, data) && WellFormed(c.l) && Feeding(c, cdb, data) && MayFeed(c, Send, cdb, data)
    ensures var r := Do(c, Send, cdb + data, o); Feeding(r, cdb, data) && Advances(c, r, Send, cdb, data, o)
  {
    hide Owed;
  }

  /** From the message phase on a session with data is like any other. */
  lemma RunningMoves(c: Session, m: Move, cdb: seq<byte>, data: seq<byte>, o: Outcome)
    requires IsOwedData(cdb, data) && OnWay(c, cdb, data, o) && !Arriving(c, cdb) && !Feeding(c, cdb, data)
    requires MayFeed(c, m, cdb, data)
    ensures OnWay(Do(c, m, cdb + data, o), cdb, data, o) && Advances(c, Do(c, m, cdb + data, o), m, cdb, data, o)
  {
    hide Owed;
    var all := cdb + data;
    assert Executable(all);
    if InMessage(c, all) {
      FromMessage(c, m, all, o);
    } else if InComplete(c, all, o) {
      FromComplete(c, m, all, o);
    } else if InData(c, all, o) {
      FromData(c, m, all, o);
    } else if InStatus(c, all, o) {
      FromStatus(c, m, all, o);
    } else if InMessageByte(c, all, o) {
      FromMessageByte(c, m, all, o);
    } else {
      FromDone(c, m, all, o);
    }
  }

  lemma StaysOnWay(c: Session, m: Move, cdb: seq<byte>, data: seq<byte>, o: Outcome)
    requires IsOwedData(cdb, data) && OnWay(c, cdb, data, o) && MayFeed(c, m, cdb, data)
    ensures OnWay(Do(c, m, cdb + data, o), cdb, data, o) && Advances(c, Do(c, m, cdb + data, o), m, cdb, data, o)
  {
    hide Owed, Do, Ahead, Pausing;
    if Arriving(c, cdb) {
      ArrivingMoves(c, m, cdb, data, o);
    } else if Feeding(c, cdb, data) {
      assert m != Read;
      if m == Time { FeedingTime(c, cdb, data, o); } else { FeedingSend(c, cdb, data, o); }
    } else {
      RunningMoves(c, m, cdb, data, o);
    }
  }

  // ---------------------------------------------------------------- whole sessions

  /** The data is sent as the status allows. */
  ghost predicate Fed(c: Session, ms: seq<Move>, cdb: seq<byte>, data: seq<byte>, o: Outcome)
    requires Disciplined(c, ms, cdb + data, o)
    decreases |ms|
  {
    ms == [] || (MayFeed(c, ms[0], cdb, data) && Fed(Do(c, ms[0], cdb + data, o), ms[1..], cdb, data, o))
  }

  ghost predicate IsFed(c: Session, ms: seq<Move>, cdb: seq<byte>, data: seq<byte>, o: Outcome) {
    Disciplined(c, ms, cdb + data, o) && Fed(c, ms, cdb, data, o)
  }

  lemma {:induction false} FeedInvariant(c: Session, ms: seq<Move>, cdb: seq<byte>, data: seq<byte>, o: Outcome)
    requires IsOwedData(cdb, data) && OnWay(c, cdb, data, o) && IsFed(c, ms, cdb, data, o)
    ensures var r := After(c, ms, cdb + data, o); OnWay(r, cdb, data, o) && r.l.ctl == c.l.ctl
    decreases |ms|
  {
    hide Owed, OnWay, Ahead, Pausing, Do, MayFeed;
    if ms != [] {
      StaysOnWay(c, ms[0], cdb, data, o);
      FeedInvariant(Do(c, ms[0], cdb + data, o), ms[1..], cdb, data, o);
    }
  }

  lemma StartsOnWay(l: Ladder, v: byte, cdb: seq<byte>, data: seq<byte>, o: Outcome)
    requires WellFormed(l) && l.phase == Idle && v != 0 && !l.ctl.seqEn && IsOwedData(cdb, data)
    ensures OnWay(Selected(l, v), cdb, data, o)
  {
    hide Owed;
    assert Arriving(Selected(l, v), cdb);
  }

  /** The command starts with the last byte it is owed and with none before: as long as one is
      missing the bus stays idle and nothing is handed over.  After that, whatever the schedule,
      the host reads a prefix of the transcript, and all of it by the time the bus is free. */
  lemma HostDataTranscript(l: Ladder, v: byte, ms: seq<Move>, cdb: seq<byte>, data: seq<byte>, o: Outcome)
    requires WellFormed(l) && l.phase == Idle && v != 0 && !l.ctl.seqEn && IsOwedData(cdb, data)
    requires IsFed(Selected(l, v), ms, cdb, data, o)
    ensures var r := After(Selected(l, v), ms, cdb + data, o);
      && (r.sent < |cdb| + Owed(cdb, data) ==> r.l.phase == Idle && r.l.selected != 0 && r.got == [])
      && r.got <= Transcript(o)
      && (r.l.selected == 0 <==> r.got == Transcript(o) && r.l.phase == Idle)
  {
    hide Owed;
    StartsOnWay(l, v, cdb, data, o);
    FeedInvariant(Selected(l, v), ms, cdb, data, o);
    var r := After(Selected(l, v), ms, cdb + data, o);
    if InData(r, cdb + data, o) { assert Transcript(o) == r.got + (r.l.toRead + [o.status, 0]); }
  }

  /** And it does start with it: two turns of device time after the last byte was sent the
      controller is in the message phase. */
  lemma StartsWithLastByte(c: Session, cdb: seq<byte>, data: seq<byte>, o: Outcome)
    requires IsOwedData(cdb, data) && WellFormed(c.l) && Feeding(c, cdb, data)
    requires c.sent == |cdb| + Owed(cdb, data)
    ensures var c1 := Do(c, Time, cdb + data, o);
      WellFormed(c1.l) && (c1.l.phase == Message || Do(c1, Time, cdb + data, o).l.phase == Message)
  {
    hide Owed, Advances;
    var c1 := Do(c, Time, cdb + data, o);
    FeedingTime(c, cdb, data, o);
    OneTurn(c, cdb, data, o);
    if Feeding(c1, cdb, data) {
      OneTurn(c1, cdb, data, o);
      FeedingTime(c1, cdb, data, o);
    }
  }

  /** While the last byte waits to be taken a turn counts down or takes it. */
  lemma OneTurn(c: Session, cdb: seq<byte>, data: seq<byte>, o: Outcome)
    requires IsOwedData(cdb, data) && WellFormed(c.l) && Feeding(c, cdb, data)
    requires c.sent == |cdb| + Owed(cdb, data)
    ensures var r := Do(c, Time, cdb + data, o);
      if c.l.cmdCounter == 1 then r.l.phase == Message
      else r.sent == c.sent && r.l.phase == Idle && r.l.cmdCounter == 1
  {
    hide Owed;
    var l1 := IdleTick(c.l, o);
    if l1.cmdCounter == 1 {
      TakesByte(c, l1.(cmdCounter := CMD_COUNT, currCommand := ResetOutRegFull), cdb, data);
    }
  }

  /** Without a held reset some move always acts until the bus is free, if the host has all the data
      that is owed; and only so many moves act. */
  lemma {:induction false} FedScheduleFinishes(c: Session, cdb: seq<byte>, data: seq<byte>, o: Outcome)
    returns (ms: seq<Move>)
    requires IsOwedData(cdb, data) && |data| == Owed(cdb, data) && !c.l.ctl.srst && OnWay(c, cdb, data, o)
    ensures IsFed(c, ms, cdb, data, o) && After(c, ms, cdb + data, o).l.selected == 0
    ensures |ms| <= Ahead(c, cdb, data, o)
    decreases Ahead(c, cdb, data, o)
  {
    if c.l.selected == 0 {
      ms := [];
    } else {
      var m := NextMove(c, cdb, data, o);
      StaysOnWay(c, m, cdb, data, o);
      hide Owed, OnWay, Ahead, Do, MayFeed;
      var rest := FedScheduleFinishes(Do(c, m, cdb + data, o), cdb, data, o);
      ms := [m] + rest;
      assert ms[1..] == rest;
    }
  }

  lemma NextMove(c: Session, cdb: seq<byte>, data: seq<byte>, o: Outcome) returns (m: Move)
    requires IsOwedData(cdb, data) && |data| == Owed(cdb, data) && !c.l.ctl.srst && OnWay(c, cdb, data, o)
    requires c.l.selected != 0
    ensures MayFeed(c, m, cdb, data) && !Pausing(c, m, cdb, data)
  {
    hide Owed;
    m := if MayFeed(c, Send, cdb, data) then Send else if MayFeed(c, Read, cdb, data) then Read else Time;
  }

  /** How many moves of a session were not mere pausing. */
  ghost function FedEffort(c: Session, ms: seq<Move>, cdb: seq<byte>, data: seq<byte>, o: Outcome): nat
    requires Disciplined(c, ms, cdb + data, o)
    decreases |ms|
  {
    if ms == [] then 0
    else (if Pausing(c, ms[0], cdb, data) then 0 else 1)
         + FedEffort(Do(c, ms[0], cdb + data, o), ms[1..], cdb, data, o)
  }

  lemma {:induction false} EffortIsBounded(c: Session, ms: seq<Move>, cdb: seq<byte>, data: seq<byte>, o: Outcome)
    requires IsOwedData(cdb, data) && |data| == Owed(cdb, data)
    requires OnWay(c, cdb, data, o) && IsFed(c, ms, cdb, data, o)
    ensures FedEffort(c, ms, cdb, data, o) + Ahead(After(c, ms, cdb + data, o), cdb, data, o) <= Ahead(c, cdb, data, o)
    decreases |ms|
  {
    hide Owed, OnWay, Ahead, Pausing, Do, MayFeed;
    if ms != [] {
      StaysOnWay(c, ms[0], cdb, data, o);
      EffortIsBounded(Do(c, ms[0], cdb + data, o), ms[1..], cdb, data, o);
    }
  }

  /** Only so much happens, and unless the reset is held some move does until the bus is free: so a
      command with all its data ends. */
  lemma HostDataEnds(l: Ladder, v: byte, ms: seq<Move>, cdb: seq<byte>, data: seq<byte>, o: Outcome)
    requires WellFormed(l) && l.phase == Idle && v != 0 && !l.ctl.seqEn
    requires IsOwedData(cdb, data) && |data| == Owed(cdb, data) && IsFed(Selected(l, v), ms, cdb, data, o)
    ensures FedEffort(Selected(l, v), ms, cdb, data, o) <= 35 + 9 * |data| + 3 * |o.reply|
    ensures var r := After(Selected(l, v), ms, cdb + data, o);
      !l.ctl.srst && r.l.selected != 0 ==> exists m :: MayFeed(r, m, cdb, data) && !Pausing(r, m, cdb, data)
  {
    hide Owed, MayFeed, Pausing, OnWay;
    var c := Selected(l, v);
    StartsOnWay(l, v, cdb, data, o);
    EffortIsBounded(c, ms, cdb, data, o);
    FeedInvariant(c, ms, cdb, data, o);
    var r := After(c, ms, cdb + data, o);
    if !l.ctl.srst && r.l.selected != 0 { var m := NextMove(r, cdb, data, o); }
  }

  // ---------------------------------------------------------------- how much data it takes

  ghost predicate FinishesFed(c: Session, ms: seq<Move>, cdb: seq<byte>, data: seq<byte>, o: Outcome) {
    IsFed(c, ms, cdb, data, o) && After(c, ms, cdb + data, o).l.selected == 0
  }

  /** Under a held reset the host never sees that a byte was taken, so it sends no data. */
  lemma {:induction false} HeldResetStarves(
      c: Session, ms: seq<Move>, cdb: seq<byte>, data: seq<byte>, o: Outcome)
    requires IsOwedData(cdb, data) && OnWay(c, cdb, data, o) && IsFed(c, ms, cdb, data, o)
    requires c.l.ctl.srst && c.sent <= |cdb| && (Arriving(c, cdb) || Feeding(c, cdb, data))
    ensures After(c, ms, cdb + data, o).l.selected != 0
    decreases |ms|
  {
    hide Owed;
    if ms != [] {
      StaysOnWay(c, ms[0], cdb, data, o);
      HeldResetStarves(Do(c, ms[0], cdb + data, o), ms[1..], cdb, data, o);
    }
  }

  /** Exactly as many bytes as the command is owed lead back to the free bus, by a host that does not
      hold the reset bit; with fewer it waits for ever. */
  lemma EndsIffFed(l: Ladder, v: byte, cdb: seq<byte>, data: seq<byte>, o: Outcome)
    requires WellFormed(l) && l.phase == Idle && v != 0 && !l.ctl.seqEn && IsOwedData(cdb, data)
    ensures (exists ms :: FinishesFed(Selected(l, v), ms, cdb, data, o))
      <==> |data| == Owed(cdb, data) && !l.ctl.srst
  {
    hide Owed, OnWay, Fed, After, Disciplined;
    var c := Selected(l, v);
    StartsOnWay(l, v, cdb, data, o);
    if |data| == Owed(cdb, data) && !l.ctl.srst {
      var ms := FedScheduleFinishes(c, cdb, data, o);
      assert FinishesFed(c, ms, cdb, data, o);
    } else {
      forall ms ensures !FinishesFed(c, ms, cdb, data, o) {
        if IsFed(c, ms, cdb, data, o) {
          if l.ctl.srst {
            Arrives(c, cdb);
            HeldResetStarves(c, ms, cdb, data, o);
          } else {
            NotEnough(l, v, ms, cdb, data, o);
          }
        }
      }
    }
  }

  lemma Arrives(c: Session, cdb: seq<byte>)
    requires WellFormed(c.l) && IsCommandBlock(cdb) && c.sent == 0 && c == Selected(c.l, c.l.selected)
    requires c.l.selected != 0 && c.l.phase == Idle && !c.l.ctl.seqEn
    ensures Arriving(c, cdb)
  {
  }

  lemma NotEnough(l: Ladder, v: byte, ms: seq<Move>, cdb: seq<byte>, data: seq<byte>, o: Outcome)
    requires WellFormed(l) && l.phase == Idle && v != 0 && !l.ctl.seqEn && IsOwedData(cdb, data)
    requires IsFed(Selected(l, v), ms, cdb, data, o) && |data| < Owed(cdb, data)
    ensures After(Selected(l, v), ms, cdb + data, o).l.selected != 0
  {
    hide Owed;
    StartsOnWay(l, v, cdb, data, o);
    FeedInvariant(Selected(l, v), ms, cdb, data, o);
  }

  /** Which blocks run as they are, in terms of the block. */
  lemma RunsIffNothingOwed(cdb: seq<byte>, ctl: Control)
    requires IsCommandBlock(cdb) && cdb[0] < 0x40 && |cdb| == (if cdb[0] < 0x20 then 6 else 10)
    ensures Runs(cdb, ctl) <==> ctl.seqEn || Owed(cdb, []) == 0
  {
    assert cdb[0] % 32 == (if cdb[0] < 0x20 then cdb[0] else cdb[0] - 0x20);
  }

  // ---------------------------------------------------------------- a host that does not wait

  /** A MODE SELECT that is owed two bytes, and two bytes for it. */
  const TWO_OWED: seq<byte> := [0x15, 0, 0, 0, 2, 0]
  const TWO: seq<byte> := [1, 2]

  function Times(m: Move, n: nat): seq<Move> { if n == 0 then [] else [m] + Times(m, n - 1) }

  ghost predicate Bursting(c: Session) {
    && WellFormed(c.l) && c.l.phase == Idle && c.l.selected != 0 && !c.l.ctl.seqEn
    && c.sent == c.l.scsiIdx <= 8 && c.l.dataIdx == 0
    && c.l.scsiBuf[..c.sent] == (TWO_OWED + TWO)[..c.sent]
    && (c.sent > 0 ==> c.l.cmdCounter > 0 && c.l.currCommand == ProcessScsiCmd)
  }

  lemma BurstSend(c: Session, o: Outcome)
    requires Bursting(c) && c.sent < 8
    ensures var r := Do(c, Send, TWO_OWED + TWO, o); Bursting(r) && r.sent == c.sent + 1
  {
    var all := TWO_OWED + TWO;
    assert all == [0x15, 0, 0, 0, 2, 0, 1, 2];
    assert all[..c.sent + 1] == all[..c.sent] + [all[c.sent]];
  }

  /** All eight bytes are there; at most one of the two data bytes was counted. */
  ghost predicate Lost(c: Session) {
    && WellFormed(c.l) && c.l.phase == Idle && c.l.selected != 0 && !c.l.ctl.seqEn
    && c.sent == c.l.scsiIdx == 8 && c.l.scsiBuf[..8] == TWO_OWED + TWO
    && (if c.l.dataIdx == 0 then c.l.cmdCounter > 0 && c.l.currCommand == ProcessScsiCmd
        else c.l.dataIdx == 1 && c.l.currCommand == ResetOutRegFull)
  }

  lemma LostStays(c: Session, o: Outcome)
    requires Lost(c)
    ensures Lost(Do(c, Time, TWO_OWED + TWO, o))
  {
    var l1 := IdleTick(c.l, o);
    var l2 := l1.(cmdCounter := CMD_COUNT, currCommand := ResetOutRegFull);
    assert l2.scsiBuf[0] == l2.scsiBuf[..8][0] == 0x15 && l2.scsiBuf[4] == l2.scsiBuf[..8][4] == 2;
    if l1.cmdCounter == 1 && l1.currCommand == ProcessScsiCmd {
      assert ProcessScsi(l2) == l2.(dataIdx := 1);
    }
  }

  lemma {:induction false} LostForever(c: Session, n: nat, o: Outcome)
    requires Lost(c)
    ensures Disciplined(c, Times(Time, n), TWO_OWED + TWO, o)
    ensures Lost(After(c, Times(Time, n), TWO_OWED + TWO, o))
    decreases n
  {
    hide Lost, Do;
    LostIsIdle(c);
    if n > 0 {
      LostStays(c, o);
      LostForever(Do(c, Time, TWO_OWED + TWO, o), n - 1, o);
      assert Times(Time, n)[1..] == Times(Time, n - 1);
    }
  }

  lemma {:induction false} BurstThenLost(c: Session, k: nat, n: nat, o: Outcome)
    requires Bursting(c) && c.sent + k == 8
    ensures Disciplined(c, Times(Send, k) + Times(Time, n), TWO_OWED + TWO, o)
    ensures Lost(After(c, Times(Send, k) + Times(Time, n), TWO_OWED + TWO, o))
    decreases k
  {
    var ms := Times(Send, k) + Times(Time, n);
    if k == 0 {
      assert (TWO_OWED + TWO)[..8] == TWO_OWED + TWO;
      assert ms == Times(Time, n);
      LostForever(c, n, o);
    } else {
      BurstSend(c, o);
      assert ms[0] == Send && ms[1..] == Times(Send, k - 1) + Times(Time, n);
      BurstThenLost(Do(c, Send, TWO_OWED + TWO, o), k - 1, n, o);
    }
  }

  /** A host that sends its data without waiting for the register loses bytes: after the block
      15 00 00 00 02 00 and two bytes right behind it the command is still waiting for one, however
      much time passes. */
  lemma BurstLosesBytes(l: Ladder, v: byte, n: nat, o: Outcome)
    requires WellFormed(l) && l.phase == Idle && v != 0 && !l.ctl.seqEn
    ensures IsOwedData(TWO_OWED, TWO) && |TWO| == Owed(TWO_OWED, TWO)
    ensures var ms := Times(Send, 8) + Times(Time, n);
      && Disciplined(Selected(l, v), ms, TWO_OWED + TWO, o)
      && After(Selected(l, v), ms, TWO_OWED + TWO, o).l.phase == Idle
      && After(Selected(l, v), ms, TWO_OWED + TWO, o).l.selected != 0
  {
    BurstThenLost(Selected(l, v), 8, n, o);
    LostIsIdle(After(Selected(l, v), Times(Send, 8) + Times(Time, n), TWO_OWED + TWO, o));
  }

  lemma LostIsIdle(c: Session)
    requires Lost(c)
    ensures WellFormed(c.l) && c.l.phase == Idle && c.l.selected != 0
  {
  }
}
