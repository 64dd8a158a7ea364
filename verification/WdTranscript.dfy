/**
 One command from select to bus free, seen from the host.  The host sends one command block
 and reads the input register only while the status byte it can read says that a byte is
 there; device time passes in between in any way it likes.  A host that holds the reset bit
 of the control register never sees such a status byte: the command then runs as far as its
 first byte for the host and stays there.
 */
module WdTranscript {
  import opened WdController
  import opened WdInterrupts
  import opened Words

  datatype Move = Time | Send | Read

  /** The controller together with how much of the block was sent and what was read. */
  datatype Session = Session(l: Ladder, sent: nat, got: seq<byte>)

  /** A block the controller accepts as one complete command that needs no further data. */
  ghost predicate IsCommandBlock(cdb: seq<byte>) {
    |cdb| in {6, 10} && cdb[1] / 32 < 2
  }

  ghost function HostDataFor(cdb: seq<byte>, ctl: Control): nat
    requires IsCommandBlock(cdb)
  {
    HostDataLength(if |cdb| == 6 then cdb + [0, 0, 0, 0] else cdb, |cdb|, ctl)
  }

  /** The controller runs the block as soon as it has arrived. */
  ghost predicate Runs(cdb: seq<byte>, ctl: Control)
    requires IsCommandBlock(cdb)
  {
    Class(cdb[0]) <= 1 && |cdb| == CdbLength(cdb[0]) && HostDataFor(cdb, ctl) == 0
  }

  /** It runs, and the host can see when to take what it hands over. */
  ghost predicate Completes(cdb: seq<byte>, ctl: Control)
    requires IsCommandBlock(cdb)
  {
    Runs(cdb, ctl) && !ctl.srst
  }

  ghost predicate MayMove(c: Session, m: Move, cdb: seq<byte>) {
    match m
    case Time => true
    case Send => c.sent < |cdb|
    case Read => InputShown(c.l)
  }

  ghost function Do(c: Session, m: Move, cdb: seq<byte>, o: Outcome): Session
    requires WellFormed(c.l) && MayMove(c, m, cdb)
  {
    match m
    case Time => c.(l := TickLadder(c.l, o))
    case Send => c.(l := HostWrite(c.l, cdb[c.sent], NOT_PROBED), sent := c.sent + 1)
    case Read => c.(l := ReadInput(c.l).0, got := c.got + [ReadInput(c.l).1])
  }

  /** Everything a command hands to the host: its reply, its status, the message byte. */
  function Transcript(o: Outcome): seq<byte> { o.reply + [o.status, 0] }

  // ---------------------------------------------------------------- the stages of a command

  ghost predicate Sending(c: Session, cdb: seq<byte>) {
    && c.l.phase == Idle && c.l.selected != 0 && c.got == []
    && c.sent == c.l.scsiIdx <= |cdb| && c.l.dataIdx == 0
    && c.sent <= |c.l.scsiBuf| && c.l.scsiBuf[..c.sent] == cdb[..c.sent]
    && !c.l.statusReg.inpFull
    && c.l.cmdCounter <= CMD_COUNT
    && (c.l.cmdCounter > 0 ==> c.l.currCommand in {ProcessScsiCmd, ResetOutRegFull})
    && (c.sent == |cdb| ==> c.l.cmdCounter > 0 && c.l.currCommand == ProcessScsiCmd)
  }

  ghost predicate Started(c: Session, cdb: seq<byte>) {
    && c.l.selected != 0 && c.got == []
    && c.sent == |cdb| <= |c.l.scsiBuf| && c.l.scsiBuf[..c.sent] == cdb
    && !c.l.statusReg.inpFull
    && 0 < c.l.stateCounter <= PHASE_COUNT
  }

  ghost predicate InMessage(c: Session, cdb: seq<byte>) {
    && Started(c, cdb) && c.l.phase == Message
    && c.l.cmdCounter + 3 <= (if c.l.stateCounter > 3 then c.l.stateCounter else 3)
    && c.l.currCommand == ResetOutRegFull
  }

  /** The block is still in place and its opcode is the addressed unit's last command. */
  ghost predicate Identified(l: Ladder, cdb: seq<byte>) {
    && 1 < |cdb| <= |l.scsiBuf| && l.scsiBuf[..|cdb|] == cdb
    && cdb[1] / 32 < |l.lastCmd| && l.lastCmd[cdb[1] / 32] == cdb[0] % 64
  }

  ghost predicate InComplete(c: Session, cdb: seq<byte>, o: Outcome) {
    && Started(c, cdb) && c.l.phase == Complete && Identified(c.l, cdb)
    && c.l.cmdCounter == 0
    && c.l.toRead == o.reply && c.l.statusByte == o.status
  }

  /** Between a read and the next byte the countdown runs and INPFULL is off; otherwise the
      status register shows `full` and the next byte waits. */
  ghost predicate Handshake(l: Ladder, full: StatusReg) {
    && l.selected != 0 && l.stateCounter == 0 && l.cmdCounter <= CMD_COUNT
    && (if l.cmdCounter == 0 then l.statusReg == full
        else l.statusReg == full.(inpFull := false) && l.currCommand == SetInpFull)
  }

  ghost predicate InData(c: Session, cdb: seq<byte>, o: Outcome) {
    && c.l.phase == ReadResults && c.sent == |cdb| && Handshake(c.l, DATA_IN) && Identified(c.l, cdb)
    && c.got + c.l.toRead == o.reply && c.l.statusByte == o.status
    && (c.l.cmdCounter == 0 ==> c.l.toRead != [])
  }

  ghost predicate InStatus(c: Session, cdb: seq<byte>, o: Outcome) {
    && c.l.phase == Status && c.sent == |cdb| && Handshake(c.l, STATUS_PHASE)
    && c.l.toRead == (if c.l.cmdCounter == 0 then [o.status] else [])
    && c.got == (if c.l.cmdCounter == 0 then o.reply else o.reply + [o.status])
  }

  ghost predicate InMessageByte(c: Session, cdb: seq<byte>, o: Outcome) {
    && c.l.phase == MessageByte && c.sent == |cdb| && Handshake(c.l, MESSAGE_PHASE)
    && c.l.toRead == [] && c.l.readInpReg == 0
    && c.got == (if c.l.cmdCounter == 0 then o.reply + [o.status] else Transcript(o))
  }

  ghost predicate Done(c: Session, cdb: seq<byte>, o: Outcome) {
    && c.l.phase == Idle && c.sent == |cdb|
    && c.l.selected == 0 && c.l.statusReg == BUS_FREE && c.l.hostWriteReg == 0
    && c.l.stateCounter == 0 && c.l.cmdCounter == 0
    && c.got == Transcript(o)
  }

  ghost predicate OnTrack(c: Session, cdb: seq<byte>, o: Outcome) {
    WellFormed(c.l) &&
    (Sending(c, cdb) || InMessage(c, cdb) || InComplete(c, cdb, o) || InData(c, cdb, o)
     || InStatus(c, cdb, o) || InMessageByte(c, cdb, o) || Done(c, cdb, o))
  }

  // ---------------------------------------------------------------- how much is left

  /** Moves still ahead of the session, counting device time only while it moves things. */
  ghost function Remaining(c: Session, cdb: seq<byte>, o: Outcome): nat {
    var left := 3 * |c.l.toRead| + c.l.cmdCounter;
    match c.l.phase
    case Idle =>
      if c.l.selected == 0 then 0
      else if c.sent < |cdb| then 19 + 3 * |o.reply| + (|cdb| - c.sent)
      else 16 + 3 * |o.reply| + c.l.cmdCounter
    case Message => 11 + 3 * |o.reply| + c.l.stateCounter
    case Complete => 6 + 3 * |o.reply| + c.l.stateCounter
    case ReadResults => 6 + left
    case Status => 3 + left
    case MessageByte => if c.l.cmdCounter == 0 then 3 else c.l.cmdCounter
  }

  /** Device time changes nothing that matters: it is the host's turn, or all is done. */
  ghost predicate Waiting(c: Session, m: Move, cdb: seq<byte>) {
    m == Time && (MayMove(c, Send, cdb) || c.l.statusReg.inpFull || c.l.selected == 0)
  }

  ghost predicate Progress(c: Session, r: Session, m: Move, cdb: seq<byte>, o: Outcome) {
    WellFormed(r.l) && r.l.ctl == c.l.ctl &&
    (Waiting(c, m, cdb) || Remaining(r, cdb, o) < Remaining(c, cdb, o))
  }

  lemma HostDataOfPrefix(buf: seq<byte>, cdb: seq<byte>, ctl: Control)
    requires IsCommandBlock(cdb) && |buf| == SCSICMD_MAX && buf[..|cdb|] == cdb
    ensures HostDataLength(buf, |cdb|, ctl) == HostDataFor(cdb, ctl)
    ensures buf[0] == cdb[0]
  {
  }

  lemma SendFromSending(c: Session, cdb: seq<byte>, o: Outcome)
    requires WellFormed(c.l) && IsCommandBlock(cdb)
    requires Sending(c, cdb) && c.sent < |cdb|
    ensures var r := Do(c, Send, cdb, o); Sending(r, cdb) && Progress(c, r, Send, cdb, o)
  {
  }

  /** On the idle bus the phase countdown has no effect. */
  lemma IdleTick(l: Ladder, o: Outcome) returns (l1: Ladder)
    requires WellFormed(l) && l.phase == Idle
    ensures WellFormed(l1) && l1 == l.(stateCounter := l1.stateCounter)
    ensures TickLadder(l, o) == TickCommand(l1, o)
  {
    l1 := TickState(l, o);
  }

  lemma TimeFromSending(c: Session, cdb: seq<byte>, o: Outcome)
    requires WellFormed(c.l) && IsCommandBlock(cdb) && Runs(cdb, c.l.ctl)
    requires Sending(c, cdb)
    ensures var r := Do(c, Time, cdb, o); (Sending(r, cdb) || InMessage(r, cdb)) && Progress(c, r, Time, cdb, o)
  {
    var l1 := IdleTick(c.l, o);
    if l1.cmdCounter == 1 && l1.currCommand == ProcessScsiCmd {
      var l2 := l1.(cmdCounter := CMD_COUNT, currCommand := ResetOutRegFull);
      if c.sent == |cdb| {
        HostDataOfPrefix(l2.scsiBuf, cdb, l2.ctl);
        assert cdb[..c.sent] == cdb;
        assert TickLadder(c.l, o) == StartMessage(l2);
      } else {
        TakeIncompleteBlock(c, l2, cdb);
        assert TickLadder(c.l, o) == l2;
      }
    }
  }

  /** A block that is still too short is left alone. */
  lemma TakeIncompleteBlock(c: Session, l: Ladder, cdb: seq<byte>)
    requires WellFormed(l) && IsCommandBlock(cdb) && |cdb| == CdbLength(cdb[0])
    requires c.sent == l.scsiIdx < |cdb| && l.scsiBuf[..c.sent] == cdb[..c.sent]
    ensures ProcessScsi(l) == l
  {
  }

  /** What was sent names a unit and a command of a class that is executed. */
  ghost predicate Executable(sent: seq<byte>) {
    2 <= |sent| <= SCSICMD_MAX && sent[1] / 32 < 2 && Class(sent[0]) <= 1
  }

  lemma PrefixGivesUnit(l: Ladder, cdb: seq<byte>)
    requires WellFormed(l) && 2 <= |cdb| <= SCSICMD_MAX && l.scsiBuf[..|cdb|] == cdb
    ensures l.scsiBuf[0] == cdb[0] && UnitOf(l) == cdb[1] / 32
  {
  }

  lemma FromMessage(c: Session, m: Move, cdb: seq<byte>, o: Outcome)
    requires WellFormed(c.l) && Executable(cdb)
    requires InMessage(c, cdb) && MayMove(c, m, cdb)
    ensures var r := Do(c, m, cdb, o); (InMessage(r, cdb) || InComplete(r, cdb, o)) && Progress(c, r, m, cdb, o)
  {
    PrefixGivesUnit(c.l, cdb);
  }

  lemma FromComplete(c: Session, m: Move, cdb: seq<byte>, o: Outcome)
    requires WellFormed(c.l)
    requires InComplete(c, cdb, o) && MayMove(c, m, cdb)
    ensures var r := Do(c, m, cdb, o);
      (InComplete(r, cdb, o) || InData(r, cdb, o) || InStatus(r, cdb, o)) && Progress(c, r, m, cdb, o)
  {
  }

  lemma FromData(c: Session, m: Move, cdb: seq<byte>, o: Outcome)
    requires WellFormed(c.l)
    requires InData(c, cdb, o) && MayMove(c, m, cdb)
    ensures var r := Do(c, m, cdb, o); (InData(r, cdb, o) || InStatus(r, cdb, o)) && Progress(c, r, m, cdb, o)
  {
    if m == Read {
      var r := Do(c, m, cdb, o);
      assert r.got + r.l.toRead == c.got + c.l.toRead;
    }
  }

  lemma FromStatus(c: Session, m: Move, cdb: seq<byte>, o: Outcome)
    requires WellFormed(c.l)
    requires InStatus(c, cdb, o) && MayMove(c, m, cdb)
    ensures var r := Do(c, m, cdb, o); (InStatus(r, cdb, o) || InMessageByte(r, cdb, o)) && Progress(c, r, m, cdb, o)
  {
  }

  lemma FromMessageByte(c: Session, m: Move, cdb: seq<byte>, o: Outcome)
    requires WellFormed(c.l)
    requires InMessageByte(c, cdb, o) && MayMove(c, m, cdb)
    ensures var r := Do(c, m, cdb, o); (InMessageByte(r, cdb, o) || Done(r, cdb, o)) && Progress(c, r, m, cdb, o)
  {
  }

  lemma FromDone(c: Session, m: Move, cdb: seq<byte>, o: Outcome)
    requires WellFormed(c.l)
    requires Done(c, cdb, o) && MayMove(c, m, cdb)
    ensures m == Time && Do(c, m, cdb, o) == c
  {
  }

  lemma StaysOnTrack(c: Session, m: Move, cdb: seq<byte>, o: Outcome)
    requires IsCommandBlock(cdb) && Runs(cdb, c.l.ctl)
    requires OnTrack(c, cdb, o) && MayMove(c, m, cdb)
    ensures OnTrack(Do(c, m, cdb, o), cdb, o) && Progress(c, Do(c, m, cdb, o), m, cdb, o)
  {
    if Sending(c, cdb) {
      if m == Send { SendFromSending(c, cdb, o); } else { TimeFromSending(c, cdb, o); }
    } else if InMessage(c, cdb) {
      FromMessage(c, m, cdb, o);
    } else if InComplete(c, cdb, o) {
      FromComplete(c, m, cdb, o);
    } else if InData(c, cdb, o) {
      FromData(c, m, cdb, o);
    } else if InStatus(c, cdb, o) {
      FromStatus(c, m, cdb, o);
    } else if InMessageByte(c, cdb, o) {
      FromMessageByte(c, m, cdb, o);
    } else {
      FromDone(c, m, cdb, o);
    }
  }

  // ---------------------------------------------------------------- whole sessions

  /** The session's moves, each one open to the host when it is made. */
  ghost predicate Disciplined(c: Session, ms: seq<Move>, cdb: seq<byte>, o: Outcome)
    decreases |ms|
  {
    WellFormed(c.l) &&
    (ms == [] || (MayMove(c, ms[0], cdb) && Disciplined(Do(c, ms[0], cdb, o), ms[1..], cdb, o)))
  }

  ghost function After(c: Session, ms: seq<Move>, cdb: seq<byte>, o: Outcome): Session
    requires Disciplined(c, ms, cdb, o)
    decreases |ms|
  {
    if ms == [] then c else After(Do(c, ms[0], cdb, o), ms[1..], cdb, o)
  }

  /** How many of the moves were not mere waiting. */
  ghost function Effort(c: Session, ms: seq<Move>, cdb: seq<byte>, o: Outcome): nat
    requires Disciplined(c, ms, cdb, o)
    decreases |ms|
  {
    if ms == [] then 0
    else (if Waiting(c, ms[0], cdb) then 0 else 1) + Effort(Do(c, ms[0], cdb, o), ms[1..], cdb, o)
  }

  lemma WaitingKeepsRemaining(c: Session, m: Move, cdb: seq<byte>, o: Outcome)
    requires IsCommandBlock(cdb) && Runs(cdb, c.l.ctl)
    requires OnTrack(c, cdb, o) && Waiting(c, m, cdb)
    ensures Remaining(Do(c, m, cdb, o), cdb, o) <= Remaining(c, cdb, o)
  {
    StaysOnTrack(c, m, cdb, o);
  }

  lemma {:induction false} SessionInvariant(c: Session, ms: seq<Move>, cdb: seq<byte>, o: Outcome)
    requires IsCommandBlock(cdb) && Runs(cdb, c.l.ctl)
    requires OnTrack(c, cdb, o) && Disciplined(c, ms, cdb, o)
    ensures var r := After(c, ms, cdb, o); OnTrack(r, cdb, o) && r.l.ctl == c.l.ctl
    ensures Effort(c, ms, cdb, o) + Remaining(After(c, ms, cdb, o), cdb, o) <= Remaining(c, cdb, o)
    decreases |ms|
  {
    if ms != [] {
      StaysOnTrack(c, ms[0], cdb, o);
      if Waiting(c, ms[0], cdb) { WaitingKeepsRemaining(c, ms[0], cdb, o); }
      SessionInvariant(Do(c, ms[0], cdb, o), ms[1..], cdb, o);
    }
  }

  /** The session right after the host selected the controller on the free bus. */
  ghost function Selected(l: Ladder, v: byte): Session { Session(Select(l, v), 0, []) }

  /** Whatever the interleaving of host and device time, what the host has read is a prefix
      of the transcript; once the bus is free again it is the whole transcript, and the
      controller is idle and deselected with status 0. */
  lemma TranscriptIsExact(l: Ladder, v: byte, ms: seq<Move>, cdb: seq<byte>, o: Outcome)
    requires WellFormed(l) && l.phase == Idle && v != 0
    requires IsCommandBlock(cdb) && Runs(cdb, l.ctl)
    requires Disciplined(Selected(l, v), ms, cdb, o)
    ensures var r := After(Selected(l, v), ms, cdb, o);
      && r.got <= Transcript(o)
      && (r.l.selected == 0 <==> r.got == Transcript(o) && r.l.phase == Idle)
      && (r.l.selected == 0 ==> r.sent == |cdb| && r.l.statusReg.Value() == 0 && r.l.hostWriteReg == 0)
  {
    var c := Selected(l, v);
    assert Sending(c, cdb);
    SessionInvariant(c, ms, cdb, o);
    var r := After(c, ms, cdb, o);
    if InData(r, cdb, o) {
      assert Transcript(o) == r.got + (r.l.toRead + [o.status, 0]);
    }
  }

  /** In the data-in, status and message phases the host sees 0x48, 0xcc and 0xe8, with
      INPFULL off exactly while the next byte is on its way; before them it never sees INPFULL.
      Under a held reset it sees 0x10 or 0x11 all the way. */
  lemma PhaseStatusValues(l: Ladder, v: byte, ms: seq<Move>, cdb: seq<byte>, o: Outcome)
    requires WellFormed(l) && l.phase == Idle && v != 0
    requires IsCommandBlock(cdb) && Runs(cdb, l.ctl)
    requires Disciplined(Selected(l, v), ms, cdb, o)
    ensures var r := After(Selected(l, v), ms, cdb, o).l;
      var shown := ReadStatus(r);
      if l.ctl.srst then shown in {0x10, 0x11}
      else
        && (r.phase == ReadResults ==> shown == (if r.cmdCounter == 0 then 0x48 else 0x40))
        && (r.phase == Status ==> shown == (if r.cmdCounter == 0 then 0xcc else 0xc4))
        && (r.phase == MessageByte ==> shown == (if r.cmdCounter == 0 then 0xe8 else 0xe0))
        && (r.phase in {Idle, Message, Complete} ==> !IsSet(shown, 0x08))
  {
    assert Sending(Selected(l, v), cdb);
    SessionInvariant(Selected(l, v), ms, cdb, o);
    StatusIsShown(After(Selected(l, v), ms, cdb, o).l);
  }

  /** Only so much happens: however the session is scheduled, at most 29 + 3 * |reply| moves
      do anything.  Unless the reset is held, some move does as long as the bus is not free,
      so the command ends. */
  lemma CommandEnds(l: Ladder, v: byte, ms: seq<Move>, cdb: seq<byte>, o: Outcome)
    requires WellFormed(l) && l.phase == Idle && v != 0
    requires IsCommandBlock(cdb) && Runs(cdb, l.ctl)
    requires Disciplined(Selected(l, v), ms, cdb, o)
    ensures Effort(Selected(l, v), ms, cdb, o) <= 29 + 3 * |o.reply|
    ensures var r := After(Selected(l, v), ms, cdb, o);
      !l.ctl.srst && r.l.selected != 0 ==> exists m :: MayMove(r, m, cdb) && !Waiting(r, m, cdb)
  {
    var c := Selected(l, v);
    assert Sending(c, cdb);
    SessionInvariant(c, ms, cdb, o);
    var r := After(c, ms, cdb, o);
    assert MayMove(r, Time, cdb);
    if !l.ctl.srst && r.l.selected != 0 && Waiting(r, Time, cdb) {
      assert !Waiting(r, Send, cdb) && !Waiting(r, Read, cdb);
    }
  }

  // ---------------------------------------------------------------- which blocks complete

  /** The lemma above leaves a schedule to find: always make a move that does something. */
  lemma {:induction false} SomeScheduleFinishes(c: Session, cdb: seq<byte>, o: Outcome) returns (ms: seq<Move>)
    requires IsCommandBlock(cdb) && Completes(cdb, c.l.ctl) && OnTrack(c, cdb, o)
    ensures Disciplined(c, ms, cdb, o) && After(c, ms, cdb, o).l.selected == 0
    decreases Remaining(c, cdb, o)
  {
    if c.l.selected == 0 { return []; }
    var m := if MayMove(c, Send, cdb) then Send else if MayMove(c, Read, cdb) then Read else Time;
    StaysOnTrack(c, m, cdb, o);
    var rest := SomeScheduleFinishes(Do(c, m, cdb, o), cdb, o);
    ms := [m] + rest;
    assert ms[1..] == rest;
  }

  /** Blocks that never run: an invalid class, or a command that wants data from the host. */
  ghost predicate Stalled(c: Session, cdb: seq<byte>) {
    && WellFormed(c.l)
    && c.l.phase == Idle && c.l.selected != 0 && c.got == []
    && c.sent == c.l.scsiIdx <= |cdb| && c.l.scsiBuf[..c.sent] == cdb[..c.sent]
    && !c.l.statusReg.inpFull
    && (c.l.cmdCounter > 0 ==> c.l.currCommand in {ProcessScsiCmd, ResetOutRegFull})
  }

  lemma StallSend(c: Session, cdb: seq<byte>, o: Outcome)
    requires IsCommandBlock(cdb) && Stalled(c, cdb) && c.sent < |cdb|
    ensures Stalled(Do(c, Send, cdb, o), cdb) && Do(c, Send, cdb, o).l.ctl == c.l.ctl
  {
  }

  /** Whatever part of a block that never completes has arrived, taking it changes at most
      the countdown and the command bit of the status register. */
  lemma TakeStalledBlock(c: Session, l: Ladder, cdb: seq<byte>)
    requires WellFormed(l) && IsCommandBlock(cdb) && |cdb| == CdbLength(cdb[0]) && !Runs(cdb, l.ctl)
    requires c.sent == l.scsiIdx <= |cdb| && l.scsiBuf[..c.sent] == cdb[..c.sent]
    ensures ProcessScsi(l) in {l, l.(cmdCounter := 2 * CMD_COUNT, statusReg := l.statusReg.(scmd := false))}
  {
  }

  lemma StallTime(c: Session, cdb: seq<byte>, o: Outcome)
    requires IsCommandBlock(cdb) && |cdb| == CdbLength(cdb[0]) && !Runs(cdb, c.l.ctl)
    requires Stalled(c, cdb)
    ensures Stalled(Do(c, Time, cdb, o), cdb) && Do(c, Time, cdb, o).l.ctl == c.l.ctl
  {
    var l1 := IdleTick(c.l, o);
    TakeStalledBlock(c, l1.(cmdCounter := CMD_COUNT, currCommand := ResetOutRegFull), cdb);
  }

  lemma {:induction false} StalledForever(c: Session, ms: seq<Move>, cdb: seq<byte>, o: Outcome)
    requires IsCommandBlock(cdb) && |cdb| == CdbLength(cdb[0]) && !Runs(cdb, c.l.ctl)
    requires Stalled(c, cdb) && Disciplined(c, ms, cdb, o)
    ensures Stalled(After(c, ms, cdb, o), cdb)
    decreases |ms|
  {
    if ms != [] {
      if ms[0] == Send { StallSend(c, cdb, o); } else { StallTime(c, cdb, o); }
      StalledForever(Do(c, ms[0], cdb, o), ms[1..], cdb, o);
    }
  }

  /** Under a held reset no session ever reads, so none gets past the first byte. */
  lemma {:induction false} HeldResetHidesAll(c: Session, ms: seq<Move>, cdb: seq<byte>, o: Outcome)
    requires IsCommandBlock(cdb) && Runs(cdb, c.l.ctl) && c.l.ctl.srst
    requires OnTrack(c, cdb, o) && Disciplined(c, ms, cdb, o)
    ensures After(c, ms, cdb, o).got == c.got
    decreases |ms|
  {
    if ms != [] {
      StaysOnTrack(c, ms[0], cdb, o);
      HeldResetHidesAll(Do(c, ms[0], cdb, o), ms[1..], cdb, o);
    }
  }

  ghost predicate Finishes(c: Session, ms: seq<Move>, cdb: seq<byte>, o: Outcome) {
    Disciplined(c, ms, cdb, o) && After(c, ms, cdb, o).l.selected == 0
  }

  lemma NeverFinishes(l: Ladder, v: byte, ms: seq<Move>, cdb: seq<byte>, o: Outcome)
    requires WellFormed(l) && l.phase == Idle && v != 0
    requires IsCommandBlock(cdb) && |cdb| == CdbLength(cdb[0]) && !Completes(cdb, l.ctl)
    ensures !Finishes(Selected(l, v), ms, cdb, o)
  {
    var c := Selected(l, v);
    if Disciplined(c, ms, cdb, o) {
      if Runs(cdb, l.ctl) {
        assert Sending(c, cdb);
        HeldResetHidesAll(c, ms, cdb, o);
        TranscriptIsExact(l, v, ms, cdb, o);
      } else {
        StalledForever(c, ms, cdb, o);
      }
    }
  }

  /** Exactly which command blocks lead back to the free bus on their own: those of class 0
      or 1 that want no further data from the host, sent by a host that does not hold the
      reset bit. */
  lemma EndsIffCompletes(l: Ladder, v: byte, cdb: seq<byte>, o: Outcome)
    requires WellFormed(l) && l.phase == Idle && v != 0
    requires IsCommandBlock(cdb) && |cdb| == CdbLength(cdb[0])
    ensures (exists ms :: Finishes(Selected(l, v), ms, cdb, o)) <==> Completes(cdb, l.ctl)
  {
    var c := Selected(l, v);
    if Completes(cdb, l.ctl) {
      assert Sending(c, cdb);
      var ms := SomeScheduleFinishes(c, cdb, o);
      assert Finishes(c, ms, cdb, o);
    } else {
      forall ms ensures !Finishes(c, ms, cdb, o) { NeverFinishes(l, v, ms, cdb, o); }
    }
  }

  /** The reset bit makes the difference: after power-on and a write of 0x01 to the control
      register, the block 00 00 00 00 00 00 runs, but no session ever frees the bus. */
  lemma HeldResetNeverEnds(v: byte, ms: seq<Move>, o: Outcome)
    requires v != 0
    ensures var l := Run(PowerOn(), [EWriteControl(0x01)]).l;
      var cdb := [0, 0, 0, 0, 0, 0];
      && IsCommandBlock(cdb) && Runs(cdb, l.ctl)
      && !Finishes(Selected(l, v), ms, cdb, o)
  {
    var e := [EWriteControl(0x01)];
    assert e[1..] == [];
    var l := Run(PowerOn(), e).l;
    assert l == WriteControl(PowerOn(), 0x01).l;
    NeverFinishes(l, v, ms, [0, 0, 0, 0, 0, 0], o);
  }

  // ---------------------------------------------------------------- its interrupts

  /** The interrupts a command asks for, read off its block and the control register. */
  ghost function Asked(cdb: seq<byte>, ctl: Control): set<Flag>
    requires IsCommandBlock(cdb)
  {
    var u := cdb[1] / 32;
    (if ctl.intEn then {Completion(u)} else {}) +
    (if cdb[0] % 64 == SCSI_SEEK && ctl.SeekEnabled(u) then {Seek(u)} else {})
  }

  ghost predicate StatusReached(c: Session) { c.l.phase in {Status, MessageByte} || c.l.selected == 0 }

  /** The arbiter beside a session: device time is the only move that concerns it. */
  ghost function Arbited(a: Arbiter, c: Session, m: Move, cdb: seq<byte>, o: Outcome): Arbiter
    requires WellFormed(c.l) && MayMove(c, m, cdb)
  {
    if m == Time then Tick(Wd(c.l, a, 0), o).a else a
  }

  ghost function ArbiterAfter(a: Arbiter, c: Session, ms: seq<Move>, cdb: seq<byte>, o: Outcome): Arbiter
    requires Disciplined(c, ms, cdb, o)
    decreases |ms|
  {
    if ms == [] then a
    else ArbiterAfter(Arbited(a, c, ms[0], cdb, o), Do(c, ms[0], cdb, o), ms[1..], cdb, o)
  }

  ghost predicate Enters(before: Ladder, after: Ladder) { after.phase == Status && before.phase != Status }

  lemma EntryInComplete(c: Session, cdb: seq<byte>, o: Outcome)
    requires WellFormed(c.l) && InComplete(c, cdb, o)
    ensures var l1 := TickState(c.l, o); Identified(l1, cdb) && l1.ctl == c.l.ctl && TickCommand(l1, o) == l1
  {
  }

  lemma EntryInData(c: Session, cdb: seq<byte>, o: Outcome)
    requires WellFormed(c.l) && InData(c, cdb, o)
    ensures TickState(c.l, o) == c.l
    ensures var l2 := TickCommand(c.l, o); Identified(l2, cdb) && l2.ctl == c.l.ctl
  {
  }

  lemma NoEntryOtherwise(c: Session, cdb: seq<byte>, o: Outcome)
    requires WellFormed(c.l) && IsCommandBlock(cdb) && Runs(cdb, c.l.ctl)
    requires OnTrack(c, cdb, o) && !InComplete(c, cdb, o) && !InData(c, cdb, o)
    ensures var l1 := TickState(c.l, o); !Enters(c.l, l1) && !Enters(l1, TickCommand(l1, o))
  {
    if InMessage(c, cdb) {
      PrefixGivesUnit(c.l, cdb);
    } else if Sending(c, cdb) {
      TimeFromSending(c, cdb, o);
    }
  }

  ghost function AskedBy(c: Session, r: Session, cdb: seq<byte>): set<Flag>
    requires IsCommandBlock(cdb)
  {
    if StatusReached(r) && !StatusReached(c) then Asked(cdb, c.l.ctl) else {}
  }

  lemma NotifyAsks(a: Arbiter, before: Ladder, after: Ladder, cdb: seq<byte>)
    requires ArbiterInv(a) && WellFormed(after) && IsCommandBlock(cdb)
    requires Enters(before, after) ==> Identified(after, cdb)
    ensures ArbiterInv(Notify(a, before, after))
    ensures Notify(a, before, after).pending
      == a.pending + (if Enters(before, after) then Asked(cdb, after.ctl) else {})
  {
  }

  lemma TickAsks(a: Arbiter, c: Session, cdb: seq<byte>, o: Outcome)
    requires IsCommandBlock(cdb) && Runs(cdb, c.l.ctl)
    requires OnTrack(c, cdb, o) && ArbiterInv(a)
    ensures ArbiterInv(Arbited(a, c, Time, cdb, o))
    ensures Arbited(a, c, Time, cdb, o).pending == a.pending + AskedBy(c, Do(c, Time, cdb, o), cdb)
  {
    var l1 := TickState(c.l, o);
    var l2 := TickCommand(l1, o);
    if InComplete(c, cdb, o) {
      EntryInComplete(c, cdb, o);
      FromComplete(c, Time, cdb, o);
    } else if InData(c, cdb, o) {
      EntryInData(c, cdb, o);
      FromData(c, Time, cdb, o);
    } else {
      NoEntryOtherwise(c, cdb, o);
      AskedOnlyOnEntry(c, Time, cdb, o);
    }
    NotifyAsks(a, c.l, l1, cdb);
    NotifyAsks(Notify(a, c.l, l1), l1, l2, cdb);
    ArbiterTickKeepsInv(Notify(Notify(a, c.l, l1), l1, l2));
  }

  lemma AskedOnlyOnEntry(c: Session, m: Move, cdb: seq<byte>, o: Outcome)
    requires IsCommandBlock(cdb) && Runs(cdb, c.l.ctl) && MayMove(c, m, cdb)
    requires OnTrack(c, cdb, o) && (m != Time || (!InComplete(c, cdb, o) && !InData(c, cdb, o)))
    ensures StatusReached(Do(c, m, cdb, o)) <==> StatusReached(c)
  {
    if Sending(c, cdb) {
      if m == Send { SendFromSending(c, cdb, o); } else { TimeFromSending(c, cdb, o); }
    } else if InMessage(c, cdb) {
      FromMessage(c, m, cdb, o);
    } else if InStatus(c, cdb, o) {
      FromStatus(c, m, cdb, o);
    } else if InMessageByte(c, cdb, o) {
      FromMessageByte(c, m, cdb, o);
    }
  }

  lemma {:induction false} SessionAsks(a: Arbiter, c: Session, ms: seq<Move>, cdb: seq<byte>, o: Outcome)
    requires IsCommandBlock(cdb) && Runs(cdb, c.l.ctl)
    requires OnTrack(c, cdb, o) && ArbiterInv(a) && Disciplined(c, ms, cdb, o)
    ensures ArbiterAfter(a, c, ms, cdb, o).pending == a.pending + AskedBy(c, After(c, ms, cdb, o), cdb)
    decreases |ms|
  {
    hide OnTrack, ArbiterInv, Asked, StatusReached, Do, Remaining, Runs;
    if ms != [] {
      var r := Do(c, ms[0], cdb, o);
      StaysOnTrack(c, ms[0], cdb, o);
      if ms[0] == Time { TickAsks(a, c, cdb, o); } else { AskedOnlyOnEntry(c, ms[0], cdb, o); }
      if StatusReached(c) { StatusIsFinal(c, ms[0], cdb, o); }
      SessionAsks(Arbited(a, c, ms[0], cdb, o), r, ms[1..], cdb, o);
      SessionStatusIsFinal(r, ms[1..], cdb, o);
      SessionStatusIsFinal(c, ms, cdb, o);
    }
  }

  lemma StatusIsFinal(c: Session, m: Move, cdb: seq<byte>, o: Outcome)
    requires IsCommandBlock(cdb) && Runs(cdb, c.l.ctl)
    requires OnTrack(c, cdb, o) && MayMove(c, m, cdb) && StatusReached(c)
    ensures StatusReached(Do(c, m, cdb, o))
  {
    AskedOnlyOnEntry(c, m, cdb, o);
  }

  lemma {:induction false} SessionStatusIsFinal(c: Session, ms: seq<Move>, cdb: seq<byte>, o: Outcome)
    requires IsCommandBlock(cdb) && Runs(cdb, c.l.ctl)
    requires OnTrack(c, cdb, o) && Disciplined(c, ms, cdb, o)
    ensures StatusReached(c) ==> StatusReached(After(c, ms, cdb, o))
    decreases |ms|
  {
    if ms != [] {
      StaysOnTrack(c, ms[0], cdb, o);
      if StatusReached(c) { StatusIsFinal(c, ms[0], cdb, o); }
      SessionStatusIsFinal(Do(c, ms[0], cdb, o), ms[1..], cdb, o);
    }
  }

  /** A command asks for its interrupts once: whatever was pending before, a finished session
      has added the completion of the addressed unit iff interrupts were enabled, and its
      seek completion iff the command was an enabled SEEK, and nothing else. */
  lemma CommandAsksForItsInterrupts(a: Arbiter, l: Ladder, v: byte, ms: seq<Move>, cdb: seq<byte>, o: Outcome)
    requires WellFormed(l) && l.phase == Idle && v != 0 && ArbiterInv(a)
    requires IsCommandBlock(cdb) && Runs(cdb, l.ctl)
    requires Disciplined(Selected(l, v), ms, cdb, o)
    ensures After(Selected(l, v), ms, cdb, o).l.selected == 0 ==>
      ArbiterAfter(a, Selected(l, v), ms, cdb, o).pending == a.pending + Asked(cdb, l.ctl)
  {
    var c := Selected(l, v);
    assert Sending(c, cdb);
    SessionAsks(a, c, ms, cdb, o);
  }
}
