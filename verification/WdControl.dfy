/**
 The control register of src/wd.c in terms of the bytes the host writes and reads: what reads back, what
 a reset does, when enabling interrupts reports a bus error that waited.
 */
module WdControl {
  import opened WdController
  import opened WdInterrupts
  import opened Words

  /** The six low bits read back as they were written; the two others show the seeks that are
      pending. */
  lemma ControlReadsBack(s: Wd, v: byte)
    ensures var (z, c) := (WriteControl(s, v), ReadControl(WriteControl(s, v)));
      && c < 256 && c % 64 == v % 64
      && (c / 64 % 2 == 1 <==> Seek(0) in z.a.pending) && (c / 128 == 1 <==> Seek(1) in z.a.pending)
  {
    BitsMakeUp(v);
    var (z, b0, b1) := (WriteControl(s, v), Bit(Seek(0) in WriteControl(s, v).a.pending, 1),
                        Bit(Seek(1) in WriteControl(s, v).a.pending, 1));
    assert ReadControl(z) == v % 64 + 64 * (b0 + 2 * b1);
  }

  lemma BitsMakeUp(v: byte)
    ensures ControlOf(v).Value() == v % 64
  {
    hide Bit;
    var (a, b, c, d, e) := (v / 2, v / 4, v / 8, v / 16, v / 32);
    Quotients(v);
    OneBit(v, 1, a);
    OneBit(a, 2, b);
    OneBit(b, 4, c);
    OneBit(c, 8, d);
    OneBit(d, 16, e);
    OneBit(e, 32, v / 64);
    assert ControlOf(v).Value() == (v - 2 * a) + (2 * a - 4 * b) + (4 * b - 8 * c) + (8 * c - 16 * d)
        + (16 * d - 32 * e) + (32 * e - 64 * (v / 64));
  }

  lemma Quotients(v: nat)
    ensures v / 4 == v / 2 / 2 && v / 8 == v / 4 / 2 && v / 16 == v / 8 / 2
    ensures v / 32 == v / 16 / 2 && v / 64 == v / 32 / 2
  {
  }

  /** The lowest bit of a number, given the half of it. */
  lemma OneBit(x: nat, weight: nat, half: nat)
    requires half == x / 2
    ensures Bit(x % 2 == 1, weight) == weight * (x - 2 * half)
  {
    assert x - 2 * half == x % 2;
  }

  /** Bit 0 drops all flags and the line.  A bus error that waited is flagged and raised by the write
      that sets bit 2 where it was clear. */
  lemma ControlInterrupts(s: Wd, v: byte)
    ensures var (z, reported) := (WriteControl(s, v).a, v / 4 % 2 == 1 && !s.l.ctl.intEn && s.l.statusReg.busErr);
      && z.pending == (if v % 2 == 1 then {} else s.a.pending) + (if reported then {BusErr} else {})
      && z.asserted == (reported || (v % 2 == 0 && s.a.asserted))
      && z.counter == s.a.counter
  {
  }

  /** The byte written last to the control register; a reset of the CPU clears it. */
  function LastControl(evs: seq<Event>, was: byte): byte
    decreases |evs|
  {
    if evs == [] then was
    else LastControl(evs[1..], if evs[0].EPulseReset? then 0 else if evs[0].EWriteControl? then evs[0].c else was)
  }

  /** And to the vector register. */
  function LastVector(evs: seq<Event>, was: byte): byte
    decreases |evs|
  {
    if evs == [] then was
    else LastVector(evs[1..], if evs[0].EPulseReset? then 0 else if evs[0].EWriteVector? then evs[0].v else was)
  }

  lemma LadderKeepsControl(l: Ladder, o: Outcome)
    requires WellFormed(l)
    ensures NextPhase(l, o).ctl == l.ctl && ProcessScsi(l).ctl == l.ctl
  {
    hide HostDataLength;
  }

  lemma TickKeepsControl(l: Ladder, o: Outcome)
    requires WellFormed(l)
    ensures TickState(l, o).ctl == l.ctl && TickCommand(l, o).ctl == l.ctl
  {
    hide NextPhase, ProcessScsi;
    LadderKeepsControl(l.(stateCounter := 0), o);
    LadderKeepsControl(l.(cmdCounter := 0), o);
    LadderKeepsControl(l.(currCommand := ResetOutRegFull, cmdCounter := CMD_COUNT), o);
  }

  lemma RegistersStep(s: Wd, e: Event)
    requires WellFormed(s.l) && Allowed(s, e)
    ensures Step(s, e).l.ctl
      == if e.EPulseReset? then ControlOf(0) else if e.EWriteControl? then ControlOf(e.c) else s.l.ctl
    ensures Step(s, e).intVector == if e.EPulseReset? then 0 else if e.EWriteVector? then e.v else s.intVector
  {
    hide ControlOf, TickState, TickCommand;
    if e.ETick? {
      TickKeepsControl(s.l, e.o);
      TickKeepsControl(TickState(s.l, e.o), e.o);
    }
  }

  lemma {:induction false} RegistersRun(s: Wd, evs: seq<Event>, c: byte)
    requires WellFormed(s.l) && Possible(s, evs) && s.l.ctl == ControlOf(c)
    ensures Run(s, evs).l.ctl == ControlOf(LastControl(evs, c)) && Run(s, evs).intVector == LastVector(evs, s.intVector)
    decreases |evs|
  {
    hide Step, Allowed, ControlOf;
    if evs != [] {
      RegistersStep(s, evs[0]);
      RegistersRun(Step(s, evs[0]), evs[1..],
                   if evs[0].EPulseReset? then 0 else if evs[0].EWriteControl? then evs[0].c else c);
    }
  }

  /** Over any run from power-on the machine goes by the byte written last to the control register: 0x01
      reset, 0x04 completion and bus error interrupts, 0x08 DMA, 0x10 and 0x20 the seek interrupts of
      the units; the host reads its six low bits back; and the vector is the one written last. */
  lemma RegistersAreLast(evs: seq<Event>)
    requires Possible(PowerOn(), evs)
    ensures var (z, v) := (Run(PowerOn(), evs), LastControl(evs, 0));
      && (z.l.ctl.srst <==> v % 2 == 1) && (z.l.ctl.intEn <==> v / 4 % 2 == 1) && (z.l.ctl.seqEn <==> v / 8 % 2 == 1)
      && (z.l.ctl.SeekEnabled(0) <==> v / 16 % 2 == 1) && (z.l.ctl.SeekEnabled(1) <==> v / 32 % 2 == 1)
      && z.l.ctl.Value() == v % 64 && ReadControl(z) % 64 == v % 64
      && z.intVector == LastVector(evs, 0)
  {
    hide Run, Possible, ReadControl, Control.Value;
    PowerOnIsWellFormed();
    hide PowerOn, WellFormed;
    RegistersRun(PowerOn(), evs, 0);
    BitsMakeUp(LastControl(evs, 0));
    UpperBits(Run(PowerOn(), evs));
  }

  lemma PowerOnIsWellFormed()
    ensures WellFormed(PowerOn().l) && PowerOn().l.ctl == ControlOf(0) && PowerOn().intVector == 0
  {
  }

  lemma UpperBits(s: Wd)
    ensures ReadControl(s) % 64 == s.l.ctl.Value() % 64
  {
    var (b0, b1) := (Bit(Seek(0) in s.a.pending, 1), Bit(Seek(1) in s.a.pending, 1));
    assert ReadControl(s) == s.l.ctl.Value() + 64 * (b0 + 2 * b1);
  }

  /** A reset frees the bus whatever went on before: two turns later, and with bit 0 clear again, the
      host reads the status byte 0, nothing is selected, nothing pending and the next block starts
      afresh. */
  lemma ResetFreesBus(s: Wd, v: byte, o: Outcome, o': Outcome, w: byte)
    requires WellFormed(s.l) && v % 2 == 1 && w % 2 == 0
    ensures var r := WriteControl(s, v);
      && WellFormed(r.l)
      && var z := WriteControl(Tick(Tick(r, o), o'), w);
        && ReadStatus(z.l) == 0 && z.l.selected == 0 && z.l.phase == Idle
        && z.l.scsiIdx == 0 && z.l.dataIdx == 0 && z.l.toRead == []
  {
  }

  /** Selection and power-on show 0xc2; power-on leaves everything else at zero, and so does the reset of
      the CPU but for the last commands of the units and the re-arm counter. */
  lemma ResetsLeave(s: Wd, v: byte)
    requires WellFormed(s.l)
    ensures var r := Select(s.l, v);
      && r.selected == v && r.scsiIdx == 0 && r.dataIdx == 0 && r.cmdCounter == 0
      && (!s.l.ctl.srst ==> ReadStatus(r) == 0xc2)
    ensures var p := PowerOn();
      && ReadStatus(p.l) == 0xc2 && p.l.selected == 0 && p.l.phase == Idle && p.l.ctl == ControlOf(0)
      && p.l.scsiIdx == 0 && p.l.dataIdx == 0 && p.l.stateCounter == 0 && p.l.cmdCounter == 0
      && p.l.toRead == [] && p.l.probed == [] && p.l.hostWriteReg == 0 && p.l.lastCmd == [0, 0]
      && p.l.readInpReg == 0 && p.l.statusByte == 0 && (forall k :: 0 <= k < SCSICMD_MAX ==> p.l.scsiBuf[k] == 0)
      && p.a.pending == {} && !p.a.asserted && p.a.counter == 0 && p.intVector == 0
      && PulseReset(s) == p.(l := p.l.(lastCmd := s.l.lastCmd), a := p.a.(counter := s.a.counter))
  {
  }

  // ---------------------------------------------------------------- around the execution of a command

  /** Two states that show the same but for bit 5 and bit 0. */
  predicate SameButMessageAndBusError(l: Ladder, r: Ladder) {
    && r.statusReg.scmd == l.statusReg.scmd && r.statusReg.busy == l.statusReg.busy
    && r.statusReg.inpFull == l.statusReg.inpFull && r.statusReg.opComp == l.statusReg.opComp
    && r.statusReg.outEmpty == l.statusReg.outEmpty && r.ctl == l.ctl
  }

  /** A command that starts shows it in bit 5 of the status byte at once, and is run five turns later. */
  lemma StartShows(l: Ladder)
    requires WellFormed(l) && l.phase == Idle && ProcessScsi(l).phase == Message
    ensures var r := ProcessScsi(l);
      && r.stateCounter == 5 && SameButMessageAndBusError(l, r) && r.statusReg.busErr == l.statusReg.busErr
      && (!l.ctl.srst ==> IsSet(ReadStatus(r), 0x20))
  {
    hide IsSet, HostDataLength;
    StatusIsShown(ProcessScsi(l));
  }

  /** When it is run, its reply waits for the host, its status byte is kept, and an address that was not
      valid shows in bit 0, until the next phase begins five turns later. */
  lemma RunShows(l: Ladder, o: Outcome)
    requires WellFormed(l) && l.phase == Message && l.scsiBuf[0] < 64
    ensures var r := NextPhase(l, o);
      && r.phase == Complete && r.stateCounter == 5 && r.toRead == o.reply && r.statusByte == o.status
      && SameButMessageAndBusError(l, r) && r.statusReg.msg == l.statusReg.msg
      && (IsSet(ReadStatus(r), 0x01) <==> l.statusReg.busErr || o.busErr)
      && (forall u :: 0 <= u < 2 ==>
            r.lastCmd[u] == if u == l.scsiBuf[1] / 32 then l.scsiBuf[0] % 64 else l.lastCmd[u])
  {
    hide IsSet;
    StatusIsShown(NextPhase(l, o));
  }

  /** A block that the host has overwritten with an opcode of another class meanwhile is not run: the
      status phase hands over the status byte of the command before. */
  lemma OverwrittenIsNotRun(l: Ladder, o: Outcome)
    requires WellFormed(l) && l.phase == Message && l.scsiBuf[0] >= 64
    ensures var r := NextPhase(l, o);
      && r.phase == Status && r.toRead == [l.statusByte] && r.lastCmd == l.lastCmd
      && (!l.ctl.srst ==> ReadStatus(r) == 0xcc)
  {
  }

  /** A host that reads while there is nothing to read, before or while a command runs, changes nothing
      but the byte count. */
  lemma EarlyReadIsIdle(l: Ladder, o: Outcome)
    requires WellFormed(l) && l.phase in {Idle, Message} && l.toRead == [] && l.currCommand == SetInpFull
    ensures ProcessCommand(l, o) == l
  {
  }

  // ---------------------------------------------------------------- single accesses

  /** On the free bus the host reads what it wrote last; with DMA the high byte of the probed word comes
      first, unless the DMA address was written in between. */
  lemma FreeBusReads(s: Wd, v: byte, p: Probe)
    requires WellFormed(s.l) && p.Valid() && s.l.selected == 0 && s.l.scsiIdx != 1
    ensures var z := Step(s, EHostWrite(v, p));
      if s.l.ctl.seqEn then ReadInput(z.l).1 == p.word / 256 && ReadInput(Step(z, EWriteDma).l).1 == v
      else
        && z == s.(l := s.l.(hostWriteReg := v))
        && (s.l.probed == [] ==> ReadInput(z.l).1 == v && Step(z, EReadInput) == z)
  {
  }

  /** While it is selected the controller stores each byte in turn, up to 9226 of them: ten of a block and
      a buffer of 18 sectors. */
  lemma BytesAreStored(s: Wd, v: byte, p: Probe)
    requires WellFormed(s.l) && p.Valid() && s.l.selected != 0 && (s.l.scsiIdx == 1 ==> v / 32 < 2)
    ensures var l := Step(s, EHostWrite(v, p)).l;
      && (s.l.scsiIdx < 9226 ==>
            && l.scsiBuf == s.l.scsiBuf[s.l.scsiIdx := v] && l.scsiIdx == s.l.scsiIdx + 1
            && !l.statusReg.outEmpty && l.cmdCounter == 2 && l.currCommand == ProcessScsiCmd)
      && (s.l.scsiIdx >= 9226 ==> l == s.l.(hostWriteReg := v))
  {
  }

  /** What the status phase flags, for unit u of the block: a completion with bit 2 of the control register
      set, and after a SEEK, opcode 0x0B, with the unit's own bit set a seek; a counter that stood at zero
      starts from 2, or from 6 for a seek alone. */
  lemma StatusPhaseFlags(a: Arbiter, before: Ladder, l: Ladder)
    requires WellFormed(l) && l.phase == Status && before.phase != Status
    ensures var (r, u) := (Notify(a, before, l), l.scsiBuf[1] / 32);
      var seek := l.lastCmd[u] == 0x0B && (if u == 0 then l.ctl.intEnD0 else l.ctl.intEnD1);
      && r.asserted == a.asserted
      && r.pending == a.pending + (if l.ctl.intEn then {Completion(u)} else {}) + (if seek then {Seek(u)} else {})
      && r.counter == if a.counter > 0 then a.counter else if l.ctl.intEn then 2 else if seek then 6 else 0
  {
  }

  /** A read by the host that selected the controller starts the counts of block and data afresh; where
      it takes a byte it ends the wait for the next phase as well and asks for the next byte in two
      turns. */
  lemma ReadStartsAfresh(s: Wd)
    requires WellFormed(s.l) && s.l.selected != 0
    ensures var (r, b) := (Step(s, EReadInput), ReadInput(s.l).1);
      && r.a == s.a && r.intVector == s.intVector && r.l.scsiIdx == 0 && r.l.dataIdx == 0
      && (s.l.toRead != [] ==>
            && b == s.l.toRead[0] && r.l.toRead == s.l.toRead[1..] && !r.l.statusReg.inpFull
            && r.l.stateCounter == 0 && r.l.cmdCounter == 2 && r.l.currCommand == SetInpFull)
      && (s.l.toRead == [] ==> b == s.l.readInpReg && r.l.toRead == [])
  {
  }

  /** A write to the register for it clears bit 0 of the status byte and no other. */
  lemma BusErrorIsCleared(s: Wd)
    requires WellFormed(s.l)
    ensures var z := Step(s, EClearBusError);
      && !IsSet(ReadStatus(z.l), 0x01) && z.a == s.a
      && z.l.statusReg.(busErr := s.l.statusReg.busErr) == s.l.statusReg && z.l.ctl == s.l.ctl
  {
    hide IsSet;
    StatusIsShown(Step(s, EClearBusError).l);
  }

  // ---------------------------------------------------------------- the arbiter's turn

  predicate UnitsExist(a: Arbiter) { forall f :: f in a.pending && !f.BusErr? ==> f.u < 2 }

  /** The counter counts down and stops; where it ends with nothing to report, the arbiter rests, where a
      line is up it waits two more turns, and where a flag waits the line goes up.  A bus error is
      dropped as it is raised there, all other flags stay. */
  lemma ArbiterTurn(a: Arbiter)
    ensures var r := TickArbiter(a);
      && (a.counter == 0 ==> r == a)
      && (a.counter > 1 ==> r == a.(counter := a.counter - 1))
      && (a.counter == 1 && a.asserted ==> r == a.(counter := 2))
      && (a.counter == 1 && !a.asserted && a.pending == {} ==> r == a.(counter := 0))
      && (a.counter == 1 && !a.asserted && a.pending != {} && UnitsExist(a) ==>
            r.asserted && r.counter == 2 && r.pending == a.pending - {BusErr})
  {
    if a.counter == 1 && !a.asserted && a.pending != {} && UnitsExist(a) && BusErr !in a.pending {
      var f :| f in a.pending;
      assert !f.BusErr? && f.u < 2;
      assert First(a.pending).Some?;
      assert a.pending - {BusErr} == a.pending;
    }
  }
}
