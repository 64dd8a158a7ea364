/**
 The controller's registers as src/wd.c keeps them, updated in place.  Every method is
 proved to do what the state machine of WdController says, so the results about sessions
 and interrupts are results about these methods.
 */
module WinchesterRegisters {
  import opened Options
  import opened WdController
  import Lines = IrqLines
  import opened Words

  /** The interrupt flags, the request line and the re-arm counter. */
  class InterruptArbiter {
    const cpu: Lines.Cpu
    var intPendingSeek: seq<bool>      // per unit
    var intPendingComplete: seq<bool>
    var busErrorIntPending: bool
    var intAsserted: bool
    var intrCounter: nat
    ghost var pending: set<Flag>       // the flags that are set

    ghost predicate Valid()
      reads this, cpu
    {
      FlagsValid() && Lines.WellFormed(cpu.Contents()) && cpu.virqState[INT_LEVEL] == intAsserted
    }

    /** The flags of the two units are the pending set. */
    ghost predicate FlagsValid()
      reads this
    {
      && |intPendingSeek| == |intPendingComplete| == 2
      && (forall f :: f in pending ==> f.BusErr? || f.u < 2)
      && (BusErr in pending <==> busErrorIntPending)
      && (Completion(0) in pending <==> intPendingComplete[0]) && (Completion(1) in pending <==> intPendingComplete[1])
      && (Seek(0) in pending <==> intPendingSeek[0]) && (Seek(1) in pending <==> intPendingSeek[1])
    }

    /** The CPU's line before and after: driven as the flag says. */
    twostate predicate Drove()
      requires old(Valid())
      reads this, cpu
    {
      cpu.Contents() == Lines.SetLine(old(cpu.Contents()), INT_LEVEL, intAsserted)
    }

    ghost function A(): Arbiter
      reads this
    {
      Arbiter(pending, intAsserted, intrCounter)
    }

    constructor (cpu: Lines.Cpu)
      requires Lines.WellFormed(cpu.Contents()) && !cpu.virqState[INT_LEVEL]
      ensures Valid() && A() == PowerOn().a && this.cpu == cpu
    {
      this.cpu := cpu;
      intPendingSeek, intPendingComplete := [false, false], [false, false];
      busErrorIntPending, intAsserted, intrCounter := false, false, 0;
      pending := {};
    }

    /** A line that is left alone is as if driven again. */
    lemma LineIsKept()
      requires Valid()
      ensures cpu.Contents() == Lines.SetLine(cpu.Contents(), INT_LEVEL, intAsserted)
    {
      Lines.SetLineMeans(cpu.Contents(), INT_LEVEL, intAsserted);
    }

    method UpdateIrq(assertIt: bool)
      requires Valid()
      modifies this`intAsserted, cpu
      ensures Valid() && intAsserted == assertIt && Drove()
    {
      Lines.SetLineMeans(cpu.Contents(), INT_LEVEL, assertIt);
      cpu.SetVirq(INT_LEVEL, assertIt);
      intAsserted := assertIt;
    }

    method FlagComplete(unit: nat)
      requires Valid() && unit < 2
      modifies this`intPendingComplete, this`intrCounter, this`pending
      ensures Valid() && A() == Arm(old(A()), Completion(unit), INT_COMPLETE_COUNT)
    {
      hide Lines.WellFormed;
      intPendingComplete := intPendingComplete[unit := true];
      pending := pending + {Completion(unit)};
      if intrCounter == 0 { intrCounter := INT_COMPLETE_COUNT; }
    }

    method FlagSeek(unit: nat)
      requires Valid() && unit < 2
      modifies this`intPendingSeek, this`intrCounter, this`pending
      ensures Valid() && A() == Arm(old(A()), Seek(unit), INT_SEEK_COUNT)
    {
      hide Lines.WellFormed;
      intPendingSeek := intPendingSeek[unit := true];
      pending := pending + {Seek(unit)};
      if intrCounter == 0 { intrCounter := INT_SEEK_COUNT; }
    }

    /** Flags what a finished command of the unit asks for, given its control register. */
    method SetRaiseFlags(unit: nat, ctlReg2: Control, lastScsiCmd: byte, ghost l: Ladder)
      requires Valid() && WellFormed(l) && unit == UnitOf(l) && ctlReg2 == l.ctl && lastScsiCmd == l.lastCmd[unit]
      modifies this`intPendingComplete, this`intPendingSeek, this`intrCounter, this`pending
      ensures Valid() && A() == WdController.SetRaiseFlags(old(A()), l)
    {
      hide FlagsValid, Lines.WellFormed, Arm;
      if ctlReg2.intEn { FlagComplete(unit); }
      var seekInterruptEnabled := false;
      if lastScsiCmd == SCSI_SEEK {
        if unit == 0 {
          if ctlReg2.intEnD0 { seekInterruptEnabled := true; }
        } else {
          if ctlReg2.intEnD1 { seekInterruptEnabled := true; }
        }
        if seekInterruptEnabled { FlagSeek(unit); }
      }
    }

    method BusErrorInterrupt()
      requires Valid()
      modifies this`busErrorIntPending, this`intAsserted, this`pending, cpu
      ensures Valid() && A() == old(A()).(pending := old(pending) + {BusErr}, asserted := true) && Drove()
    {
      busErrorIntPending := true;
      pending := pending + {BusErr};
      UpdateIrq(true);
    }

    method ClearOutstanding()
      requires Valid()
      modifies this, cpu
      ensures Valid() && A() == old(A()).(pending := {}, asserted := false) && Drove()
    {
      Lines.SetLineMeans(cpu.Contents(), INT_LEVEL, false);
      if intAsserted { UpdateIrq(false); }
      ghost var a0 := A();
      ghost var lines := cpu.Contents();
      for unit := 0 to 2
        invariant |intPendingSeek| == |intPendingComplete| == 2
        invariant forall v :: 0 <= v < unit ==> !intPendingSeek[v] && !intPendingComplete[v]
        invariant A() == a0 && cpu.Contents() == lines
      {
        intPendingSeek := intPendingSeek[unit := false];
        intPendingComplete := intPendingComplete[unit := false];
      }
      intAsserted := false;
      busErrorIntPending := false;
      pending := {};
    }

    method ProcessPendingInterrupts()
      requires Valid()
      modifies this`busErrorIntPending, this`intAsserted, this`intrCounter, this`pending, cpu
      ensures Valid() && A() == Arbitrate(old(A())) && Drove()
    {
      LineIsKept();
      if intAsserted {
        intrCounter := INT_COMPLETE_COUNT;
        return;
      }
      for u := 0 to 2
        invariant Valid() && A() == old(A()) && cpu.Contents() == old(cpu.Contents()) && !intAsserted
        invariant u > 0 ==> !busErrorIntPending
        invariant forall v :: 0 <= v < u ==> !intPendingComplete[v]
      {
        if busErrorIntPending {
          busErrorIntPending := false;
          pending := pending - {BusErr};
          UpdateIrq(true);
          intrCounter := INT_COMPLETE_COUNT;
          return;
        }
        if intPendingComplete[u] {
          assert Completion(u) in pending;
          UpdateIrq(true);
          intrCounter := INT_COMPLETE_COUNT;
          return;
        }
      }
      for u := 0 to 2
        invariant Valid() && A() == old(A()) && cpu.Contents() == old(cpu.Contents())
        invariant !intAsserted && !busErrorIntPending
        invariant !intPendingComplete[0] && !intPendingComplete[1]
        invariant forall v :: 0 <= v < u ==> !intPendingSeek[v]
      {
        if intPendingSeek[u] {
          assert Seek(u) in pending;
          UpdateIrq(true);
          intrCounter := INT_COMPLETE_COUNT;
          return;
        }
      }
    }

    method ClaimBusError()
      requires Valid()
      modifies this`busErrorIntPending, this`intAsserted, this`pending, cpu
      ensures Valid() && A() == old(A()).(pending := old(pending) - {BusErr}, asserted := false) && Drove()
    {
      busErrorIntPending := false;
      pending := pending - {BusErr};
      UpdateIrq(false);
    }

    method ClaimComplete(u: nat)
      requires Valid() && u < 2
      modifies this`intPendingComplete, this`intAsserted, this`pending, cpu
      ensures Valid() && A() == old(A()).(pending := old(pending) - {Completion(u)}, asserted := false) && Drove()
    {
      intPendingComplete := intPendingComplete[u := false];
      pending := pending - {Completion(u)};
      UpdateIrq(false);
    }

    method ClaimSeek(u: nat)
      requires Valid() && u < 2
      modifies this`intPendingSeek, this`intAsserted, this`pending, cpu
      ensures Valid() && A() == old(A()).(pending := old(pending) - {Seek(u)}, asserted := false) && Drove()
    {
      intPendingSeek := intPendingSeek[u := false];
      pending := pending - {Seek(u)};
      UpdateIrq(false);
    }

    /** Acknowledge at a level: true when a flag was claimed, false when spurious. */
    method IrqAck(level: nat) returns (claimed: bool)
      requires Valid()
      modifies this`busErrorIntPending, this`intPendingComplete, this`intPendingSeek, this`intAsserted,
               this`pending, cpu
      ensures Valid() && A() == Acknowledge(old(A()), level).0 && Drove()
      ensures claimed == Acknowledge(old(A()), level).1.Some?
    {
      hide Lines.WellFormed, Lines.SetLine;
      LineIsKept();
      if level != INT_LEVEL { return false; }
      if busErrorIntPending {
        ClaimBusError();
        return true;
      }
      for u := 0 to 2
        invariant Valid() && A() == old(A()) && cpu.Contents() == old(cpu.Contents()) && !busErrorIntPending
        invariant forall v :: 0 <= v < u ==> !intPendingComplete[v]
      {
        if intPendingComplete[u] {
          ClaimComplete(u);
          return true;
        }
      }
      for u := 0 to 2
        invariant Valid() && A() == old(A()) && cpu.Contents() == old(cpu.Contents()) && !busErrorIntPending
        invariant !intPendingComplete[0] && !intPendingComplete[1]
        invariant forall v :: 0 <= v < u ==> !intPendingSeek[v]
      {
        if intPendingSeek[u] {
          ClaimSeek(u);
          return true;
        }
      }
      return false;
    }

    /** The arbiter's share of device time. */
    method Continue()
      requires Valid()
      modifies this, cpu
      ensures Valid() && A() == TickArbiter(old(A())) && Drove()
    {
      LineIsKept();
      if intrCounter != 0 {
        intrCounter := intrCounter - 1;
        if intrCounter == 0 { ProcessPendingInterrupts(); }
      }
    }
  }

  class Winchester {
    var phase: Phase
    var statusReg: StatusReg
    var stateCounter: nat
    var cmdCounter: nat
    var currCommand: Cmd
    var selected: byte
    var readInpReg: byte
    var hostWriteReg: byte
    var scsiBuf: seq<byte>
    var scsiIdx: nat
    var dataIdx: nat
    var replyBuffer: seq<byte>
    var replyBytePos: nat
    var replyBytesLeft: nat
    var statusByte: byte
    var ctlReg2: Control
    var lastScsiCmd: seq<byte>   // per unit
    var dmaTestWordRead: nat     // what a DMA probe found
    var dmaTestCount: nat        // and how many bytes of it are to be read
    var intVector: byte
    const arb: InterruptArbiter

    ghost predicate Valid()
      reads this, arb, arb.cpu
    {
      && arb.Valid() && WellFormed(L())
      && |replyBuffer| == DATABUF_LEN && replyBytePos + replyBytesLeft <= DATABUF_LEN
      && dmaTestCount <= 2 && dmaTestWordRead < 0x1_0000
    }

    /** The ladder's abstract state; of the reply buffer only the unread part matters. */
    ghost function L(): Ladder
      reads this
    {
      Ladder(phase, statusReg, stateCounter, cmdCounter, currCommand, selected, readInpReg, hostWriteReg,
             scsiBuf, scsiIdx, dataIdx, Unread(), statusByte, ctlReg2, lastScsiCmd, Probed())
    }

    ghost function Probed(): seq<byte>
      reads this`dmaTestWordRead, this`dmaTestCount
    {
      if dmaTestWordRead >= 0x1_0000 then []
      else if dmaTestCount == 2 then [dmaTestWordRead / 256, dmaTestWordRead % 256]
      else if dmaTestCount == 1 then [dmaTestWordRead % 256]
      else []
    }

    ghost function Unread(): seq<byte>
      reads this`replyBuffer, this`replyBytePos, this`replyBytesLeft
    {
      if replyBytePos + replyBytesLeft <= |replyBuffer|
      then replyBuffer[replyBytePos..replyBytePos + replyBytesLeft] else []
    }

    ghost function S(): Wd
      reads this, arb
    {
      Wd(L(), arb.A(), intVector)
    }

    constructor (cpu: Lines.Cpu)
      requires Lines.WellFormed(cpu.Contents()) && !cpu.virqState[INT_LEVEL]
      ensures Valid() && fresh(arb) && arb.cpu == cpu
      ensures S() == PowerOn()
    {
      phase, statusReg, stateCounter, cmdCounter, currCommand := Idle, SELECTED, 0, 0, CmdReset;
      selected, readInpReg, hostWriteReg, scsiIdx, dataIdx := 0, 0, 0, 0, 0;
      replyBytePos, replyBytesLeft, statusByte, ctlReg2 := 0, 0, 0, ControlOf(0);
      lastScsiCmd, intVector, dmaTestWordRead, dmaTestCount := [0, 0], 0, 0, 0;
      scsiBuf := seq(SCSICMD_MAX, i => 0);
      replyBuffer := seq(DATABUF_LEN, i => 0);
      arb := new InterruptArbiter(cpu);
    }

    // -------------------------------------------------------------- phase ladder

    /** The status byte is the one byte to hand over. */
    method LoadStatus()
      requires Valid()
      modifies this`replyBytePos, this`replyBytesLeft, this`replyBuffer
      ensures Valid() && L() == old(L()).(toRead := [statusByte])
    {
      hide Probed, InterruptArbiter.Valid;
      replyBuffer := replyBuffer[0 := statusByte];
      replyBytePos := 0;
      replyBytesLeft := 1;
    }

    method EnterStatus(unit: nat)
      requires Valid() && unit == UnitOf(L())
      modifies this`replyBytePos, this`replyBytesLeft, this`statusReg, this`phase, this`replyBuffer, arb
      ensures Valid() && L() == WdController.EnterStatus(old(L()))
      ensures arb.A() == WdController.SetRaiseFlags(old(arb.A()), L())
    {
      hide Probed, InterruptArbiter.Valid, Unread;
      LoadStatus();
      statusReg := STATUS_PHASE;
      phase := Status;
      arb.SetRaiseFlags(unit, ctlReg2, lastScsiCmd[unit], L());
    }

    method EnterMessage()
      requires Valid()
      modifies this`replyBytesLeft, this`readInpReg, this`statusReg, this`phase
      ensures Valid()
      ensures L() == old(L()).(toRead := [], readInpReg := 0, statusReg := MESSAGE_PHASE, phase := MessageByte)
    {
      hide Probed, InterruptArbiter.Valid;
      replyBytesLeft := 0;
      readInpReg := 0;
      statusReg := MESSAGE_PHASE;
      phase := MessageByte;
    }

    method Deselect()
      requires Valid()
      modifies this`statusReg, this`phase, this`selected, this`hostWriteReg
      ensures Valid()
      ensures L() == old(L()).(statusReg := BUS_FREE, phase := Idle, selected := 0, hostWriteReg := 0)
    {
      hide Probed, InterruptArbiter.Valid, Unread;
      statusReg := BUS_FREE;
      phase := Idle;
      selected := 0;
      hostWriteReg := 0;
    }

    method LoadReply(reply: seq<byte>)
      requires Valid() && |reply| <= DATABUF_LEN
      modifies this`replyBytePos, this`replyBytesLeft, this`replyBuffer
      ensures Valid() && L() == old(L()).(toRead := reply)
    {
      hide Probed, InterruptArbiter.Valid;
      replyBytePos := 0;
      replyBytesLeft := |reply|;
      replyBuffer := reply + replyBuffer[|reply|..];
      assert Unread() == reply;
    }

    /** What the command switch leaves of a command. */
    method TakeOutcome(o: Outcome)
      requires Valid() && |o.reply| <= DATABUF_LEN
      modifies this`readInpReg, this`replyBytePos, this`replyBytesLeft, this`statusByte, this`statusReg,
               this`replyBuffer
      ensures Valid()
      ensures L() == old(L()).(readInpReg := 0, toRead := o.reply, statusByte := o.status,
        statusReg := if o.busErr then old(statusReg).(busErr := true) else old(statusReg))
    {
      hide Probed, InterruptArbiter.Valid, Unread;
      readInpReg := 0;
      LoadReply(o.reply);
      statusByte := o.status;
      if o.busErr { statusReg := statusReg.(busErr := true); }
    }

    method Execute(o: Outcome)
      requires Valid() && |o.reply| <= DATABUF_LEN && Class(scsiBuf[0]) <= 1
      modifies this`readInpReg, this`replyBytePos, this`replyBytesLeft, this`statusByte, this`lastScsiCmd,
               this`statusReg, this`phase, this`stateCounter, this`replyBuffer
      ensures Valid() && L() == WdController.Execute(old(L()), o)
    {
      hide Probed, InterruptArbiter.Valid, Unread;
      var unit: nat := scsiBuf[1] / 32;
      TakeOutcome(o);
      lastScsiCmd := lastScsiCmd[unit := scsiBuf[0] % 64];
      phase := Complete;
      stateCounter := PHASE_COUNT;
    }

    /** The end of the message phase: an opcode of an invalid class goes straight to status. */
    method RunCommand(unit: nat, o: Outcome)
      requires Valid() && |o.reply| <= DATABUF_LEN && unit == UnitOf(L()) && phase == Message
      modifies this`readInpReg, this`replyBytePos, this`replyBytesLeft, this`statusByte, this`lastScsiCmd,
               this`statusReg, this`phase, this`stateCounter, this`replyBuffer, arb
      ensures Valid() && L() == WdController.Execute(old(L()), o)
      ensures arb.A() == Notify(old(arb.A()), old(L()), L())
    {
      hide Probed, InterruptArbiter.Valid, Unread, WdController.SetRaiseFlags;
      if Class(scsiBuf[0]) > 1 {
        EnterStatus(unit);
      } else {
        Execute(o);
      }
    }

    method NextPhase(o: Outcome)
      requires Valid() && |o.reply| <= DATABUF_LEN
      modifies this, arb
      ensures Valid() && L() == WdController.NextPhase(old(L()), o)
      ensures arb.A() == Notify(old(arb.A()), old(L()), L()) && intVector == old(intVector)
    {
      hide Probed, InterruptArbiter.Valid, WdController.SetRaiseFlags;
      var unit: nat := scsiBuf[1] / 32;
      if phase == Idle { return; }
      if phase == Complete {
        if replyBytesLeft != 0 {
          statusReg := DATA_IN;
          phase := ReadResults;
        } else {
          EnterStatus(unit);
        }
        return;
      } else if phase == ReadResults {
        EnterStatus(unit);
        return;
      } else if phase == Status {
        EnterMessage();
        return;
      } else if phase == MessageByte {
        Deselect();
        return;
      }
      RunCommand(unit, o);
    }

    method StartMessage()
      requires Valid()
      modifies this`phase, this`statusReg, this`stateCounter
      ensures Valid() && L() == WdController.StartMessage(old(L()))
    {
      hide Probed, InterruptArbiter.Valid, Unread;
      phase := Message;
      statusReg := statusReg.(msg := true);
      stateCounter := PHASE_COUNT;
    }

    method ProcessScsiCommand()
      requires Valid()
      modifies this`phase, this`statusReg, this`stateCounter, this`cmdCounter, this`dataIdx
      ensures Valid() && L() == ProcessScsi(old(L()))
    {
      hide Probed, InterruptArbiter.Valid, Unread, HostDataLength;
      if scsiIdx < 6 || Class(scsiBuf[0]) > 1 { return; }
      var len := CdbLength(scsiBuf[0]);
      var expected := HostDataLength(scsiBuf, scsiIdx, ctlReg2);
      if scsiIdx > len {
        var dataLen: int := expected - dataIdx;
        if dataLen != 0 {
          dataIdx := dataIdx + 1;
          dataLen := dataLen - 1;
        }
        if dataLen == 0 { StartMessage(); }
      }
      if scsiIdx == len {
        if expected != 0 {
          cmdCounter := 2 * CMD_COUNT;
          statusReg := statusReg.(scmd := false);
          return;
        }
        StartMessage();
      }
    }

    lemma SomethingUnread()
      requires Valid()
      ensures replyBytesLeft != 0 <==> L().toRead != []
    {
    }

    method OutRegTaken()
      requires Valid()
      modifies this`currCommand, this`cmdCounter
      ensures Valid() && L() == old(L()).(currCommand := ResetOutRegFull, cmdCounter := CMD_COUNT)
    {
      hide Probed, InterruptArbiter.Valid, Unread;
      currCommand := ResetOutRegFull;
      cmdCounter := CMD_COUNT;
    }

    method ProcessCommand(o: Outcome)
      requires Valid() && |o.reply| <= DATABUF_LEN
      modifies this, arb
      ensures Valid() && L() == WdController.ProcessCommand(old(L()), o)
      ensures arb.A() == Notify(old(arb.A()), old(L()), L()) && intVector == old(intVector)
    {
      hide Probed, InterruptArbiter.Valid, Unread;
      SomethingUnread();
      match currCommand {
        case CmdReset =>
          statusReg := BUS_FREE;
        case ResetOutRegFull =>
          statusReg := statusReg.(outEmpty := true);
        case ProcessScsiCmd =>
          OutRegTaken();
          ProcessScsiCommand();
        case SetInpFull =>
          if replyBytesLeft != 0 {
            statusReg := statusReg.(inpFull := true);
          } else if phase != Idle && phase != Message {
            NextPhase(o);
          }
      }
    }

    /** Device time: called every few instructions with the outcome a command would have now. */
    method ProcessContinue(o: Outcome)
      requires Valid() && |o.reply| <= DATABUF_LEN
      modifies this, arb, arb.cpu
      ensures Valid() && S() == Tick(old(S()), o) && arb.Drove()
    {
      hide Probed, InterruptArbiter.Valid, Unread, WellFormed;
      ContinueState(o);
      ContinueCommand(o);
      arb.Continue();
    }

    method ContinueState(o: Outcome)
      requires Valid() && |o.reply| <= DATABUF_LEN
      modifies this, arb
      ensures Valid() && L() == TickState(old(L()), o)
      ensures arb.A() == Notify(old(arb.A()), old(L()), L()) && intVector == old(intVector)
    {
      hide Probed, InterruptArbiter.Valid, Unread;
      if stateCounter != 0 {
        stateCounter := stateCounter - 1;
        if stateCounter == 0 { NextPhase(o); }
      }
    }

    method ContinueCommand(o: Outcome)
      requires Valid() && |o.reply| <= DATABUF_LEN
      modifies this, arb
      ensures Valid() && L() == TickCommand(old(L()), o)
      ensures arb.A() == Notify(old(arb.A()), old(L()), L()) && intVector == old(intVector)
    {
      hide Probed, InterruptArbiter.Valid, Unread;
      if cmdCounter != 0 {
        cmdCounter := cmdCounter - 1;
        assert L() == old(L()).(cmdCounter := cmdCounter);
        if cmdCounter == 0 { ProcessCommand(o); }
      }
    }

    // -------------------------------------------------------------- host registers

    method ClearIndices()
      requires Valid()
      modifies this`scsiIdx, this`dataIdx
      ensures Valid() && L() == old(L()).(scsiIdx := 0, dataIdx := 0)
    {
      hide Probed, InterruptArbiter.Valid, Unread;
      scsiIdx := 0;
      dataIdx := 0;
    }

    method WriteSelect(v: byte)
      requires Valid()
      modifies this`selected, this`scsiIdx, this`dataIdx, this`statusReg, this`cmdCounter
      ensures Valid() && S() == old(S()).(l := Select(old(L()), v))
    {
      hide Probed, InterruptArbiter.Valid, Unread;
      selected := v;
      ClearIndices();
      statusReg := SELECTED;
      cmdCounter := 0;
    }

    method StoreByte(v: byte)
      requires Valid() && scsiIdx < SCSICMD_MAX && (scsiIdx == 1 ==> v / 32 < 2)
      modifies this`scsiIdx, this`scsiBuf
      ensures Valid() && L() == old(L()).(scsiBuf := old(scsiBuf)[old(scsiIdx) := v], scsiIdx := old(scsiIdx) + 1)
    {
      hide Probed, InterruptArbiter.Valid, Unread;
      scsiBuf := scsiBuf[scsiIdx := v];
      scsiIdx := scsiIdx + 1;
    }

    method TakeByte(v: byte)
      requires Valid() && scsiIdx < SCSICMD_MAX && (scsiIdx == 1 ==> v / 32 < 2)
      modifies this`scsiIdx, this`cmdCounter, this`currCommand, this`statusReg, this`scsiBuf
      ensures Valid()
      ensures L() == old(L()).(scsiBuf := old(scsiBuf)[old(scsiIdx) := v], scsiIdx := old(scsiIdx) + 1,
        cmdCounter := CMD_COUNT, currCommand := ProcessScsiCmd, statusReg := old(statusReg).(outEmpty := false))
    {
      hide Probed, InterruptArbiter.Valid, Unread;
      StoreByte(v);
      cmdCounter := CMD_COUNT;
      currCommand := ProcessScsiCmd;
      statusReg := statusReg.(outEmpty := false);
    }

    method KeepProbe(word: nat)
      requires Valid() && word < 0x1_0000
      modifies this`dmaTestWordRead, this`dmaTestCount
      ensures Valid() && L() == old(L()).(probed := [word / 256, word % 256])
    {
      hide InterruptArbiter.Valid, Unread;
      dmaTestWordRead := word;
      dmaTestCount := 2;
    }

    method WriteHost(v: byte, p: Probe)
      requires Valid() && p.Valid() && (scsiIdx == 1 ==> v / 32 < 2)
      modifies this`hostWriteReg, this`scsiIdx, this`cmdCounter, this`currCommand, this`statusReg, this`scsiBuf,
               this`dmaTestWordRead, this`dmaTestCount
      ensures Valid() && S() == old(S()).(l := HostWrite(old(L()), v, p))
    {
      hide Probed, InterruptArbiter.Valid, Unread;
      hostWriteReg := v;
      if selected != 0 {
        if scsiIdx < SCSICMD_MAX {
          TakeByte(v);
        }
      } else if ctlReg2.seqEn {
        KeepProbe(p.word);
        if !p.ok { statusReg := statusReg.(busErr := true); }
      }
    }

    /** A write to one of the three DMA address registers; the address itself is the engine's. */
    method ForgetProbe()
      requires Valid()
      modifies this`dmaTestCount
      ensures Valid() && S() == old(S()).(l := WriteDma(old(L())))
    {
      hide InterruptArbiter.Valid, Unread;
      dmaTestCount := 0;
    }

    /** The input register is empty; the next byte follows when the countdown ends. */
    method InputTaken()
      requires Valid()
      modifies this`statusReg, this`cmdCounter, this`stateCounter, this`currCommand
      ensures Valid()
      ensures L() == old(L()).(statusReg := old(statusReg).(inpFull := false), cmdCounter := CMD_COUNT,
                               stateCounter := 0, currCommand := SetInpFull)
    {
      hide Probed, InterruptArbiter.Valid, Unread;
      statusReg := statusReg.(inpFull := false);
      cmdCounter := CMD_COUNT;
      stateCounter := 0;
      currCommand := SetInpFull;
    }

    method NextReplyByte() returns (value: byte)
      requires Valid() && replyBytesLeft != 0
      modifies this`replyBytesLeft, this`replyBytePos
      ensures Valid() && old(L()).toRead != [] && value == old(L()).toRead[0]
      ensures L() == old(L()).(toRead := old(L()).toRead[1..])
    {
      hide Probed, InterruptArbiter.Valid;
      value := replyBuffer[replyBytePos];
      replyBytesLeft := replyBytesLeft - 1;
      replyBytePos := replyBytePos + 1;
    }

    /** The probe's word, high byte first, or else the byte the host wrote. */
    method ReadFreeBus() returns (value: byte)
      requires Valid() && selected == 0
      modifies this`dmaTestCount
      ensures Valid() && S() == old(S()).(l := ReadInput(old(L())).0)
      ensures value == ReadInput(old(L())).1
    {
      hide InterruptArbiter.Valid, Unread;
      if dmaTestCount == 2 {
        dmaTestCount := 1;
        value := dmaTestWordRead / 256;
      } else if dmaTestCount == 1 {
        dmaTestCount := 0;
        value := dmaTestWordRead % 256;
      } else {
        value := hostWriteReg;
      }
    }

    method ReadInputRegister() returns (value: byte)
      requires Valid()
      modifies this`scsiIdx, this`dataIdx, this`replyBytesLeft, this`replyBytePos, this`statusReg,
               this`cmdCounter, this`stateCounter, this`currCommand, this`dmaTestCount
      ensures Valid() && S() == old(S()).(l := ReadInput(old(L())).0)
      ensures value == ReadInput(old(L())).1
    {
      hide Probed, InterruptArbiter.Valid;
      if selected == 0 {
        value := ReadFreeBus();
        return;
      }
      ClearIndices();
      if replyBytesLeft != 0 {
        value := NextReplyByte();
        InputTaken();
      } else {
        value := readInpReg;
        if phase == MessageByte { InputTaken(); }
      }
    }

    method EmptyBus()
      requires Valid()
      modifies this`phase, this`replyBytesLeft, this`selected
      ensures Valid() && L() == old(L()).(phase := Idle, toRead := [], selected := 0)
    {
      hide Probed, InterruptArbiter.Valid;
      phase := Idle;
      replyBytesLeft := 0;
      selected := 0;
    }

    method ResetBus()
      requires Valid()
      modifies this`cmdCounter, this`phase, this`replyBytesLeft, this`currCommand, this`scsiIdx, this`dataIdx,
               this`selected
      ensures Valid() && L() == ResetLadder(old(L()))
    {
      hide Probed, InterruptArbiter.Valid, Unread;
      cmdCounter := CMD_COUNT;
      currCommand := CmdReset;
      ClearIndices();
      EmptyBus();
    }

    /** Reset of the bus and of everything outstanding. */
    method SoftReset()
      requires Valid()
      modifies this`cmdCounter, this`phase, this`replyBytesLeft, this`currCommand, this`scsiIdx, this`dataIdx,
               this`selected, arb, arb.cpu
      ensures Valid() && L() == ResetLadder(old(L())) && arb.A() == old(arb.A()).(pending := {}, asserted := false)
      ensures arb.Drove()
    {
      hide Probed, InterruptArbiter.Valid, Unread, WellFormed;
      ResetBus();
      arb.ClearOutstanding();
    }

    /** Enabling interrupts under a standing bus error raises its interrupt at once. */
    method RaiseWaitingBusError(c: Control)
      requires Valid()
      modifies arb, arb.cpu
      ensures Valid() && arb.Drove()
      ensures arb.A() == if c.intEn && !ctlReg2.intEn && statusReg.busErr
        then old(arb.A()).(pending := old(arb.A()).pending + {BusErr}, asserted := true)
        else old(arb.A())
    {
      hide Probed, InterruptArbiter.Valid, Unread, Lines.SetLine, WellFormed;
      arb.LineIsKept();
      if c.intEn && !ctlReg2.intEn && statusReg.busErr {
        arb.BusErrorInterrupt();
      }
    }

    method SetControl(c: Control)
      requires Valid()
      modifies this`ctlReg2
      ensures Valid() && L() == old(L()).(ctl := c)
    {
      hide Probed, InterruptArbiter.Valid, Unread;
      ctlReg2 := c;
    }

    method ResetIfAsked(c: Control)
      requires Valid()
      modifies this`cmdCounter, this`phase, this`replyBytesLeft, this`currCommand, this`scsiIdx, this`dataIdx,
               this`selected, arb, arb.cpu
      ensures Valid() && L() == if c.srst then ResetLadder(old(L())) else old(L())
      ensures arb.A() == if c.srst then old(arb.A()).(pending := {}, asserted := false) else old(arb.A())
      ensures arb.Drove()
    {
      hide Probed, InterruptArbiter.Valid, Unread, WellFormed, ResetLadder, Lines.SetLine;
      arb.LineIsKept();
      if c.srst { SoftReset(); }
    }

    method WriteControlRegister(v: byte)
      requires Valid()
      modifies this, arb, arb.cpu
      ensures Valid() && S() == WriteControl(old(S()), v) && arb.Drove()
    {
      hide Probed, InterruptArbiter.Valid, Unread, Lines.SetLine, ControlOf, WellFormed;
      var c := ControlOf(v);
      arb.LineIsKept();
      ResetIfAsked(c);
      ghost var asserted := arb.intAsserted;
      RaiseWaitingBusError(c);
      Lines.SetLineTwice(old(arb.cpu.Contents()), INT_LEVEL, asserted, arb.intAsserted);
      SetControl(c);
    }

    method ClearReply()
      requires Valid()
      modifies this`replyBytePos, this`replyBytesLeft, this`replyBuffer
      ensures Valid() && L() == old(L()).(toRead := [])
    {
      hide Probed, InterruptArbiter.Valid;
      replyBuffer := seq(DATABUF_LEN, i => 0);
      replyBytesLeft := 0;
      replyBytePos := 0;
    }

    method ClearBuffers()
      requires Valid()
      modifies this`scsiBuf, this`replyBytePos, this`replyBytesLeft, this`replyBuffer, this`statusByte
      ensures Valid()
      ensures L() == old(L()).(scsiBuf := PowerOn().l.scsiBuf, toRead := [], statusByte := 0)
    {
      hide Probed, InterruptArbiter.Valid, Unread;
      ClearReply();
      scsiBuf := seq(SCSICMD_MAX, i => 0);
      statusByte := 0;
    }

    method ClearLadder()
      requires Valid()
      modifies this
      ensures Valid() && L() == PowerOn().l.(lastCmd := old(lastScsiCmd)) && intVector == old(intVector)
    {
      hide Probed, InterruptArbiter.Valid, Unread;
      ClearBuffers();
      Deselect();
      statusReg := SELECTED;
      ClearCounters();
      readInpReg := 0;
      ForgetProbe();
      SetControl(ControlOf(0));
    }

    method ClearCounters()
      requires Valid()
      modifies this`stateCounter, this`cmdCounter, this`currCommand, this`scsiIdx, this`dataIdx
      ensures Valid()
      ensures L() == old(L()).(stateCounter := 0, cmdCounter := 0, currCommand := CmdReset, scsiIdx := 0, dataIdx := 0)
    {
      hide Probed, InterruptArbiter.Valid, Unread;
      ClearIndices();
      stateCounter := 0;
      cmdCounter := 0;
      currCommand := CmdReset;
    }

    /** The CPU's reset, which leaves the units' last commands and the re-arm counter. */
    method PulseReset()
      requires Valid()
      modifies this, arb, arb.cpu
      ensures Valid() && S() == WdController.PulseReset(old(S())) && arb.Drove()
    {
      hide Probed, InterruptArbiter.Valid, Lines.SetLine;
      arb.ClearOutstanding();
      ClearLadder();
      intVector := 0;
    }

    method ReadControlRegister() returns (value: byte)
      requires Valid()
      ensures value == ReadControl(S())
    {
      value := ctlReg2.Value();
      if arb.intPendingSeek[0] { value := value + 0x40; }
      if arb.intPendingSeek[1] { value := value + 0x80; }
    }

    /** Bit by bit: the bus error always shows, bit 4 says that the reset is held, and every
        other bit shows its flag exactly while it is not. */
    method ReadStatusRegister() returns (value: byte)
      requires Valid()
      ensures value == ReadStatus(L())
      ensures IsSet(value, 0x01) <==> statusReg.busErr
      ensures IsSet(value, 0x10) <==> ctlReg2.srst
      ensures IsSet(value, 0x08) <==> statusReg.inpFull && !ctlReg2.srst
      ensures IsSet(value, 0x02) <==> statusReg.outEmpty && !ctlReg2.srst
      ensures IsSet(value, 0x04) <==> statusReg.opComp && !ctlReg2.srst
      ensures IsSet(value, 0x20) <==> statusReg.msg && !ctlReg2.srst
      ensures IsSet(value, 0x40) <==> statusReg.busy && !ctlReg2.srst
      ensures IsSet(value, 0x80) <==> statusReg.scmd && !ctlReg2.srst
    {
      hide Probed, InterruptArbiter.Valid, IsSet, Unread, WellFormed;
      StatusIsShown(L());
      value := statusReg.Value();
      if ctlReg2.srst { value := 0x10 + Bit(statusReg.busErr, 0x01); }
    }

    method WriteClearBusError()
      requires Valid()
      modifies this`statusReg
      ensures Valid() && S() == old(S()).(l := ClearBusError(old(L())))
    {
      hide Probed, InterruptArbiter.Valid, Unread;
      statusReg := statusReg.(busErr := false);
    }

    /** The vector handed to the CPU, or None for a spurious acknowledge. */
    method IrqAck(level: nat) returns (vector: Option<byte>)
      requires Valid()
      modifies arb, arb.cpu
      ensures Valid() && S() == old(S()).(a := Acknowledge(old(arb.A()), level).0) && arb.Drove()
      ensures vector == (if Acknowledge(old(arb.A()), level).1.Some? then Some(intVector) else None)
    {
      hide Probed, InterruptArbiter.Valid;
      var claimed := arb.IrqAck(level);
      vector := if claimed then Some(intVector) else None;
    }
  }
}
