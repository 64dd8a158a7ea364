/** The boards' registers and the table of waiting completions, updated in place. */
module FourWayBoards {
  import opened FourWay
  import Lines = IrqLines
  import opened Options
  import opened Words

  class Boards {
    const cpu: Lines.Cpu
    const fw: array<Board>
    const pendingComplete: array<Option<nat>>
    var numPendingComplete: int
    var fwIntPending: nat        // board + 1, or 0 when the line is free
    var fwIntVector: nat
    ghost var current: Option<Req>
    ghost var tally: Tally

    ghost predicate Valid()
      reads this, cpu
    {
      && Lines.WellFormed(cpu.Contents()) && cpu.virqState[LEVEL] == current.Some?
      && fw.Length == BOARDS && pendingComplete.Length == SLOTS
      && (current.Some? ==> IsReq(current.value))
      && fwIntPending == (if current.Some? then current.value.n + 1 else 0)
    }

    ghost function S(): (s: Fw)
      requires Valid()
      reads this, cpu, fw, pendingComplete
      ensures WellFormed(s)
    {
      Fw(fw[..], pendingComplete[..], numPendingComplete, current, fwIntVector, tally)
    }

    /** The CPU's line before and after: driven as there is a request on it. */
    twostate predicate Drove()
      requires old(Valid())
      reads this, cpu
    {
      cpu.Contents() == Lines.SetLine(old(cpu.Contents()), LEVEL, current.Some?)
    }

    lemma LineIsKept()
      requires Valid()
      ensures cpu.Contents() == Lines.SetLine(cpu.Contents(), LEVEL, current.Some?)
    {
      Lines.SetLineMeans(cpu.Contents(), LEVEL, current.Some?);
    }

    constructor (cpu: Lines.Cpu)
      requires Lines.WellFormed(cpu.Contents()) && !cpu.virqState[LEVEL]
      ensures Valid() && S() == PowerOn() && fresh(fw) && fresh(pendingComplete) && this.cpu == cpu
    {
      this.cpu := cpu;
      fw := new Board[BOARDS](i => AFTER_RESET);
      pendingComplete := new Option<nat>[SLOTS](i => None);
      numPendingComplete, fwIntPending, fwIntVector := 0, 0, 0;
      current, tally := None, Tally(multiset{}, multiset{}, multiset{}, multiset{});
    }

    method AddPendingComplete(n: nat, port: nat, condition: nat)
      requires Valid() && IsReq(Req(n, port, condition))
      modifies this`numPendingComplete, this`tally, pendingComplete
      ensures Valid() && S() == AddPending(old(S()), Req(n, port, condition))
    {
      hide Lines.WellFormed;
      var idx := PORTS * n + port;
      tally := tally.(overwritten := tally.overwritten + Entry(pendingComplete[..], idx));
      if pendingComplete[idx].None? { numPendingComplete := numPendingComplete + 1; }
      pendingComplete[idx] := Some(condition);
    }

    method CompleteCommand(n: nat, port: nat, condition: nat)
      requires Valid() && IsReq(Req(n, port, condition))
      modifies this, cpu, pendingComplete
      ensures Valid() && S() == Complete(old(S()), Req(n, port, condition)) && Drove()
    {
      LineIsKept();
      Lines.SetLineMeans(cpu.Contents(), LEVEL, true);
      if fw[n].Inhibited() {
        tally := tally.(inhibited := tally.inhibited + multiset{Req(n, port, condition)});
        return;
      }
      var intVector := (fw[n].base + port * 4 + condition) % 256;
      if fwIntPending != 0 {
        AddPendingComplete(n, port, condition);
        return;
      }
      fwIntVector := intVector;
      fwIntPending := n + 1;
      current := Some(Req(n, port, condition));
      cpu.SetVirq(LEVEL, true);
    }

    method InstructionWrite(n: nat, value: nat)
      requires Valid() && n < BOARDS
      modifies this, cpu, fw, pendingComplete
      ensures Valid() && S() == InstrWrite(old(S()), n, value) && Drove()
    {
      LineIsKept();
      fw[n] := fw[n].(instr := value % 256);
      match fw[n].init {
        case CblockLow => fw[n] := fw[n].(init := CblockHigh, busy := true, cmdBlock := value % 0x1_0000);
        case CblockHigh =>
          fw[n] := fw[n].(init := AwaitVector, busy := true,
                          cmdBlock := fw[n].cmdBlock % 0x1_0000 + 0x1_0000 * (value % 256));
        case AwaitVector => fw[n] := fw[n].(init := Ready, busy := true, base := value % 256);
        case Ready => RunCommands(n, value);
      }
    }

    method RunCommands(n: nat, value: nat)
      requires Valid() && n < BOARDS
      modifies this, cpu, pendingComplete
      ensures Valid() && S() == RunPorts(old(S()), n, value, 0) && Drove()
    {
      hide Complete, Lines.SetLine;
      LineIsKept();
      ghost var lines := cpu.Contents();
      var port, ready := 0, 1;
      while port < PORTS
        invariant port <= PORTS && ready == Pow2(port) && Valid()
        invariant RunPorts(S(), n, value, port) == RunPorts(old(S()), n, value, 0)
        invariant cpu.Contents() == Lines.SetLine(lines, LEVEL, current.Some?)
      {
        if value / ready % 2 == 1 {
          tally := tally.(requested := tally.requested + multiset{Req(n, port, VEC_CMDEXECUTED)});
          ghost var was := current.Some?;
          CompleteCommand(n, port, VEC_CMDEXECUTED);
          Lines.SetLineTwice(lines, LEVEL, was, current.Some?);
        }
        port, ready := port + 1, 2 * ready;
      }
    }

    method ProcessPendingCompletes(rx: seq<Option<byte>>)
      requires Valid() && |rx| == SLOTS
      modifies this, cpu, fw, pendingComplete
      ensures Valid() && S() == Process(old(S()), rx) && Drove()
    {
      LineIsKept();
      if fwIntPending != 0 { return; }
      if numPendingComplete == 0 {
        var numAdded := PollPorts(rx);
        if numAdded == 0 { return; }
      }
      TakeFirstWaiting();
    }

    method PollPorts(rx: seq<Option<byte>>) returns (numAdded: nat)
      requires Valid() && |rx| == SLOTS
      modifies this`numPendingComplete, this`tally, fw, pendingComplete
      ensures Valid() && (S(), numAdded) == Poll(old(S()), rx, 0)
    {
      hide AddPending, Requested, Lines.WellFormed;
      var i := 0;
      numAdded := 0;
      while i < SLOTS
        invariant i <= SLOTS && Valid()
        invariant var (t, added) := Poll(S(), rx, i); (t, numAdded + added) == Poll(old(S()), rx, 0)
      {
        var n := i / PORTS;
        if fw[n].init == Ready && !fw[n].recvFull && rx[i].Some? {
          Receive(i, rx[i].value);
          numAdded := numAdded + 1;
        }
        i := i + 1;
      }
    }

    /** A character has arrived for the port of slot i: queue its interrupt. */
    method Receive(i: nat, c: byte)
      requires Valid() && i < SLOTS
      modifies this`numPendingComplete, this`tally, fw, pendingComplete
      ensures Valid()
      ensures var b, r := old(S()).boards[i / PORTS].(recvFull := true, recvData := c), At(i, VEC_RXCHAR);
        S() == AddPending(Requested(old(S()).(boards := old(S()).boards[i / PORTS := b]), r), r)
    {
      var n := i / PORTS;
      fw[n] := fw[n].(recvFull := true, recvData := c);
      tally := tally.(requested := tally.requested + multiset{At(i, VEC_RXCHAR)});
      AddPendingComplete(n, i % PORTS, VEC_RXCHAR);
    }

    method TakeFirstWaiting()
      requires Valid()
      modifies this, cpu, pendingComplete
      ensures Valid() && S() == TakeFirst(old(S())) && Drove()
    {
      LineIsKept();
      var i := 0;
      while i < SLOTS
        invariant i <= SLOTS && Valid() && S() == old(S()) && cpu.Contents() == old(cpu.Contents())
        invariant FirstWaiting(pendingComplete[..], i) == FirstWaiting(pendingComplete[..], 0)
      {
        if pendingComplete[i].Some? {
          var condition := pendingComplete[i].value;
          pendingComplete[i] := None;
          numPendingComplete := numPendingComplete - 1;
          CompleteCommand(i / PORTS, i % PORTS, condition);
          return;
        }
        i := i + 1;
      }
    }

    method AckInterrupt(level: nat) returns (vector: Option<nat>)
      requires Valid()
      modifies this`fwIntPending, this`current, this`tally, cpu
      ensures Valid() && (S(), vector) == IrqAck(old(S()), level) && Drove()
    {
      LineIsKept();
      Lines.SetLineMeans(cpu.Contents(), LEVEL, false);
      if level != LEVEL || fwIntPending == 0 { return None; }
      tally := tally.(acked := tally.acked + multiset{current.value});
      current := None;
      fwIntPending := 0;
      cpu.SetVirq(LEVEL, false);
      return Some(fwIntVector);
    }

    /** The status shows what of the handshake is missing, the address of the command block or the
        vector, and whether the board was handed something since it was last read. */
    method ReadStatus(n: nat, dsr: nat) returns (value: nat)
      requires Valid() && n < BOARDS && dsr < 0x100 && dsr % 0x10 == 0
      modifies fw
      ensures Valid() && S() == StatusRead(old(S()), n)
      ensures value < 0x100 && value / 0x10 * 0x10 == dsr
      ensures value % 2 == 1 <==> old(fw[n]).busy
      ensures value / 4 % 2 == 1 <==> fw[n].init in {CblockLow, CblockHigh}
      ensures value / 8 % 2 == 1 <==> fw[n].init != Ready
    {
      hide Lines.WellFormed, Board.Status;
      value := fw[n].Status(dsr);
      fw[n].StatusBits(dsr);
      fw[n] := fw[n].(busy := false);
    }

    method ReadReceived(n: nat) returns (c: byte)
      requires Valid() && n < BOARDS
      modifies fw
      ensures Valid() && S() == RecvRead(old(S()), n)
      ensures c == old(fw[n]).recvData
    {
      c := fw[n].recvData;
      fw[n] := fw[n].(recvFull := false);
    }

    method PulseReset()
      requires Valid()
      modifies this`fwIntPending, this`current, this`numPendingComplete, cpu, fw
      ensures Valid() && S() == Reset(old(S())) && Drove()
    {
      Lines.SetLineMeans(cpu.Contents(), LEVEL, false);
      for i := 0 to BOARDS
        invariant forall k :: 0 <= k < i ==> fw[k] == AFTER_RESET
        invariant Valid() && S() == old(S()).(boards := fw[..]) && cpu.Contents() == old(cpu.Contents())
      {
        fw[i] := AFTER_RESET;
      }
      fwIntPending := 0;
      numPendingComplete := 0;
      current := None;
      cpu.SetVirq(LEVEL, false);
    }
  }
}
