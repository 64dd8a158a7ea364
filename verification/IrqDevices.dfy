/**
 The timer, its host clock, the serial chip and the floppy's interrupt as they run, each holding
 the CPU whose line it drives: src/pit.c, the catch-up loop of src/sim.c, src/scc.c and src/fd.c,
 proved against modules `Pit`, `Scc` and `Floppy`.
 */
module IrqDevices {
  import opened IrqLines
  import opened Options
  import opened Words
  import F = Floppy
  import Pit
  import Registers
  import Scc

  class PitTimer {
    const cpu: Cpu
    var tcr: byte
    var zds: bool                    // bit 0 of the timer status register
    var counterValue: word
    var counterPreloadValue: word
    var pitIntAsserted: bool

    ghost predicate Valid()
      reads this, cpu
    {
      |cpu.virqState| == 8
    }

    ghost function Timer(): Pit.Timer
      reads this
    {
      Pit.Timer(tcr, zds, counterValue, counterPreloadValue, pitIntAsserted)
    }

    /** The line before and after: driven only if the record of it changes. */
    twostate predicate Drove()
      requires old(Valid())
      reads this, cpu
    {
      cpu.Contents() == Follow(old(cpu.Contents()), Pit.TIMER_LINE, old(pitIntAsserted), pitIntAsserted)
    }

    /** The CPU's line, the record of it and what the timer wants are one. */
    ghost predicate Agrees()
      reads this, cpu
    {
      Valid() && cpu.virqState[Pit.TIMER_LINE] == pitIntAsserted == Timer().Want()
    }

    constructor (cpu: Cpu)
      ensures this.cpu == cpu && Timer() == Pit.RESET
    {
      this.cpu := cpu;
      tcr, zds, counterValue, counterPreloadValue, pitIntAsserted := 0, false, 0, 0, false;
    }

    method PulseReset()
      requires Valid()
      modifies this, cpu
      ensures Agrees() && Timer() == Pit.RESET
      ensures cpu.Contents() == SetLine(old(cpu.Contents()), Pit.TIMER_LINE, false)
    {
      tcr, zds, counterValue, counterPreloadValue, pitIntAsserted := 0, false, 0, 0, false;
      cpu.SetVirq(Pit.TIMER_LINE, false);
    }

    method UpdateIrq()
      requires Valid()
      modifies this`pitIntAsserted, cpu
      ensures Valid() && Timer() == Pit.Update(old(Timer())) && Drove()
    {
      var toutcontrol := tcr / 32;
      var assertIt := tcr % 2 == 1 && zds && (toutcontrol == 5 || toutcontrol == 7);
      if assertIt != pitIntAsserted {
        pitIntAsserted := assertIt;
        cpu.SetVirq(Pit.TIMER_LINE, assertIt);
      }
    }

    method CheckInterrupt()
      requires Valid()
      modifies this, cpu
      ensures Valid() && Timer() == Pit.Check(old(Timer())) && Drove()
    {
      if tcr % 2 == 1 {
        var toutcontrol := tcr / 32;
        if counterValue == 0 {
          if toutcontrol == 5 || toutcontrol == 7 {
            zds := true;
            UpdateIrq();
          }
        }
      }
    }

    method SetReg(reg: nat, value: byte)
      requires Valid()
      modifies this, cpu
      ensures Valid() && Timer() == Pit.SetReg(old(Timer()), reg, value) && Drove()
      ensures old(Agrees()) ==> Agrees()
    {
      hide Registers.SetHigh, Registers.SetMid, Registers.SetLow, Pit.WithoutBit3, Pit.Timer.Want;
      ghost var t, i := Timer(), cpu.Contents();
      if Agrees() { Pit.RecordIsKept(t, reg, value); }
      hide SetLine, Follow;
      if reg == Pit.TCR {
        SetControl(value);
      } else if reg == Pit.TSR {
        if value % 2 == 1 {
          zds := false;
        }
        UpdateIrq();
      } else if reg == Pit.CPRH {
        counterPreloadValue := Registers.SetHigh(counterPreloadValue, value);
      } else if reg == Pit.CPRM {
        counterPreloadValue := Registers.SetMid(counterPreloadValue, value);
      } else if reg == Pit.CPRL {
        counterPreloadValue := Registers.SetLow(counterPreloadValue, value);
      } else if reg == Pit.CNTRH {
        counterValue := Registers.SetHigh(counterValue, value);
      } else if reg == Pit.CNTRM {
        counterValue := Registers.SetMid(counterValue, value);
      } else if reg == Pit.CNTRL {
        counterValue := Registers.SetLow(counterValue, value);
      }
      if i.lines[Pit.TIMER_LINE] == t.asserted { FollowTracks(i, Pit.TIMER_LINE, t.asserted, pitIntAsserted); }
    }

    /** Switching the timer on loads the counter, unless it rolls over. */
    method SetControl(value: byte)
      requires Valid()
      modifies this, cpu
      ensures Valid() && Timer() == Pit.SetReg(old(Timer()), Pit.TCR, value) && Drove()
    {
      hide Pit.WithoutBit3, SetLine;
      if tcr % 2 == 0 && value % 2 == 1 {
        tcr := Pit.WithoutBit3(value);
        if value / 16 % 2 == 0 {
          counterValue := counterPreloadValue;
        }
        CheckInterrupt();
      } else {
        tcr := Pit.WithoutBit3(value);
      }
      UpdateIrq();
    }

    method PulseCounter()
      requires Valid()
      modifies this, cpu
      ensures Valid() && Timer() == Pit.Pulse(old(Timer())) && Drove()
      ensures old(Agrees()) ==> Agrees()
    {
      ghost var t, i := Timer(), cpu.Contents();
      if Agrees() { Pit.RecordIsKept(t, 0, 0); }
      if tcr % 2 == 1 {
        if counterValue == 0 {
          counterValue := if tcr / 16 % 2 == 1 then 0xff_ffff else counterPreloadValue;
        }
        counterValue := Wrap(counterValue - 1);
        if counterValue == 0 {
          CheckInterrupt();
        }
      }
      if i.lines[Pit.TIMER_LINE] == t.asserted { FollowTracks(i, Pit.TIMER_LINE, t.asserted, pitIntAsserted); }
    }

    /** The timer is autovectored: it answers its own level and takes nothing back.  As long as
        line and record agree it answers exactly while the CPU's line 6 is set, and then it is
        the timer that wants it: enabled, with a zero detected in an interrupt mode. */
    method IrqAck(level: nat) returns (autovector: bool)
      ensures autovector ==> level == Pit.TIMER_LINE
      ensures level == Pit.TIMER_LINE && Agrees() ==> (autovector <==> cpu.virqState[Pit.TIMER_LINE])
      ensures autovector && Agrees() ==> tcr % 2 == 1 && zds && tcr / 32 in {5, 7}
    {
      autovector := level == Pit.TIMER_LINE && pitIntAsserted;
    }
  }

  /** The part of sys_device_tick that drives the timer from the host clock. */
  class HostClock {
    const pit: PitTimer
    var timerInstrCount: nat
    var pitDue: nat

    constructor (pit: PitTimer)
      ensures this.pit == pit && pitDue == 0 && timerInstrCount == 0
    {
      this.pit, timerInstrCount, pitDue := pit, 0, 0;
    }

    /** A turn of the run loop: a look at the clock while idle or on every 64th, and then a
        count for every period that has come due. */
    method DeviceTick(idle: bool, now: nat) returns (counts: nat)
      requires pit.Valid()
      modifies this, pit, pit.cpu
      ensures pit.Valid()
      ensures idle || old(timerInstrCount) + 1 >= 64
        ==> (counts, pitDue) == Pit.Poll(old(pitDue), now) && timerInstrCount == 0
      ensures !(idle || old(timerInstrCount) + 1 >= 64)
        ==> counts == 0 && pitDue == old(pitDue) && timerInstrCount == old(timerInstrCount) + 1
      ensures pit.Timer() == Pit.Pulses(old(pit.Timer()), counts).0
    {
      hide Pit.Pulse, SetLine;
      timerInstrCount := timerInstrCount + 1;
      counts := 0;
      if idle || timerInstrCount >= 64 {
        timerInstrCount := 0;
        if pitDue == 0 || now > pitDue + Pit.RESYNC_NS {
          pitDue := now;
        }
        ghost var start := pitDue;
        while pitDue <= now
          invariant pit.Valid() && timerInstrCount == 0
          invariant pitDue == start + counts * Pit.PERIOD_NS && (counts > 0 ==> pitDue <= now + Pit.PERIOD_NS)
          invariant pit.Timer() == Pit.Pulses(old(pit.Timer()), counts).0
          decreases now + 1 - pitDue
        {
          pit.PulseCounter();
          pitDue := pitDue + Pit.PERIOD_NS;
          counts := counts + 1;
        }
      }
    }
  }

  class SerialChip {
    const cpu: Cpu
    var ch: seq<Scc.Channel>
    var sccWr9: byte
    var asserted: bool
    var file: Option<seq<byte>>   // what is left of the file for port B

    ghost predicate Valid()
      reads this, cpu
    {
      |cpu.virqState| == 8 && Chip().Valid()
    }

    ghost function Chip(): Scc.Chip
      reads this
    {
      Scc.Chip(ch, sccWr9, asserted, file)
    }

    twostate predicate Drove()
      requires old(Valid())
      reads this, cpu
    {
      cpu.Contents() == Follow(old(cpu.Contents()), Scc.SCC_LINE, old(asserted), asserted)
    }

    constructor (cpu: Cpu)
      ensures this.cpu == cpu && Chip() == Scc.RESET
    {
      this.cpu := cpu;
      ch, sccWr9, asserted, file := [Scc.IDLE, Scc.IDLE], 0, false, None;
    }

    method PulseReset()
      requires Valid()
      modifies this, cpu
      ensures Valid() && Chip() == Scc.HardReset(old(Chip()))
      ensures cpu.Contents() == SetLine(old(cpu.Contents()), Scc.SCC_LINE, false)
    {
      ch, sccWr9 := [Scc.IDLE, Scc.IDLE], 0;
      cpu.SetVirq(Scc.SCC_LINE, false);
    }

    method UpdateIrq()
      requires Valid()
      modifies this`asserted, cpu
      ensures Valid() && Chip() == Scc.Update(old(Chip())) && Drove()
    {
      var want := sccWr9 / 8 % 2 == 1 && (ch[0].txPend || ch[1].txPend || ch[0].rxPend || ch[1].rxPend);
      if want != asserted {
        asserted := want;
        cpu.SetVirq(Scc.SCC_LINE, want);
      }
    }

    method CmdWrite(port: nat, value: byte)
      requires Valid() && port < 2
      modifies this, cpu
      ensures Valid() && Chip() == Scc.CmdWrite(old(Chip()), port, value) && Drove()
    {
      hide SetLine, Scc.Pointer, Scc.PointerReset, Scc.Command, Scc.MasterWrite;
      var idx := Scc.Pointer(ch[port]);
      ch := ch[port := Scc.PointerReset(ch[port])];
      if idx == 0 {
        Command(port, value);
      }
      if !(idx == 0 && value == 0) {
        ch := ch[port := ch[port].(wr := ch[port].wr[idx := value])];
      }
      if idx == 9 {
        MasterWrite(value);
      }
    }

    /** Register 9 is shared by the channels and can reset either. */
    method MasterWrite(value: byte)
      requires Valid()
      modifies this, cpu
      ensures Valid() && Chip() == Scc.MasterWrite(old(Chip()), value) && Drove()
    {
      hide SetLine, Scc.ChannelReset;
      sccWr9 := value;
      if value / 128 == 1 {
        ch := ch[0 := Scc.ChannelReset(ch[0])];
      }
      if value / 64 % 2 == 1 {
        ch := ch[1 := Scc.ChannelReset(ch[1])];
      }
      UpdateIrq();
    }

    method Command(port: nat, value: byte)
      requires Valid() && port < 2
      modifies this, cpu
      ensures Valid() && Chip() == Scc.Command(old(Chip()), port, value) && Drove()
    {
      hide SetLine;
      if value / 8 % 8 == 5 {
        ch := ch[port := ch[port].(txPend := false)];
        UpdateIrq();
      } else if value / 8 % 8 == 7 {
        if ch[0].rxPend {
          ch := ch[0 := ch[0].(rxPend := false)];
        } else if ch[0].txPend {
          ch := ch[0 := ch[0].(txPend := false)];
        } else if ch[1].rxPend {
          ch := ch[1 := ch[1].(rxPend := false)];
        } else if ch[1].txPend {
          ch := ch[1 := ch[1].(txPend := false)];
        }
        UpdateIrq();
      }
    }

    method DataWrite(port: nat, value: byte)
      requires Valid() && port < 2
      modifies this, cpu
      ensures Valid() && Chip() == Scc.DataWrite(old(Chip()), port, value) && Drove()
    {
      hide SetLine;
      if Scc.Loopback(ch[port]) {
        ch := ch[port := ch[port].(recBuf := Scc.LoopedBack(ch[port], value), rxAvailable := true)];
      } else if ch[port].wr[1] / 2 % 2 == 1 {
        ch := ch[port := ch[port].(txPend := true)];
        UpdateIrq();
      }
    }

    /** Past the end of the file the source hands out whatever lies behind its buffer. */
    method DataRead(port: nat) returns (v: byte)
      requires Valid() && port < 2
      modifies this, cpu
      ensures Valid() && Chip() == Scc.DataRead(old(Chip()), port) && Drove()
      ensures (Scc.FromFile(old(Chip()), port) ==> old(file).value != []) ==> v == Scc.Taken(old(Chip()), port)
    {
      hide SetLine;
      if !ch[port].rxAvailable {
        return 0;
      }
      v := ch[port].recBuf;
      ch := ch[port := ch[port].(rxAvailable := false, rxPend := false)];
      UpdateIrq();
      if port == 1 && !Scc.Loopback(ch[1]) && file.Some? && file.value != [] {
        v := file.value[0];
        file := Some(file.value[1..]);
      }
    }

    method LoadFile(data: seq<byte>)
      requires Valid()
      modifies this`file
      ensures Valid() && Chip() == old(Chip()).(file := Some(data))
    {
      file := Some(data);
    }

    method Receive(port: nat, c: byte)
      requires Valid() && port < 2
      modifies this, cpu
      ensures Valid() && Chip() == Scc.Receive(old(Chip()), port, c) && Drove()
    {
      hide SetLine;
      if !Scc.Loopback(ch[port]) {
        ch := ch[port := ch[port].(rxAvailable := true, recBuf := c)];
        if ch[port].wr[1] / 8 % 4 != 0 {
          ch := ch[port := ch[port].(rxPend := true)];
          UpdateIrq();
        }
      }
    }

    /** A read of the command port. */
    method CmdRead(port: nat) returns (v: nat)
      requires Valid() && port < 2
      modifies this`ch
      ensures Valid() && (Chip(), v) == Scc.CmdRead(old(Chip()), port)
    {
      var idx := Scc.Pointer(ch[port]);
      v := if idx == 0 then (if ch[port].rxAvailable then 5 else 4) else 0;
      if idx == 3 && port == 0 {
        v := (if ch[0].rxPend then 32 else 0) + (if ch[0].txPend then 16 else 0)
           + (if ch[1].rxPend then 4 else 0) + (if ch[1].txPend then 2 else 0);
      }
      if idx == 2 && port == 1 {
        var code := 3;
        if ch[0].rxPend { code := 6; }
        else if ch[0].txPend { code := 4; }
        else if ch[1].rxPend { code := 2; }
        else if ch[1].txPend { code := 0; }
        v := ch[0].wr[2] / 16 * 16 + ch[0].wr[2] % 2 + code * 2;
      }
      var x := Scc.PointerReset(ch[port]);
      if idx == 0 && port == 1 && file.Some? && file.value != [] {
        x := x.(wr := x.wr[0 := x.wr[0] / 2 * 2 + 1]);
      }
      ch := ch[port := x];
    }
  }

  /** The floppy's interrupt request. */
  class FloppyIrq {
    const cpu: Cpu
    var fdIntAsserted: bool
    var intFlags: nat
    var flpopt: byte

    ghost predicate Valid()
      reads this, cpu
    {
      |cpu.virqState| == 8
    }

    ghost function S(): F.Driven
      reads this, cpu
    {
      F.Driven(F.Drive(fdIntAsserted, intFlags, flpopt), cpu.Contents())
    }

    constructor (cpu: Cpu)
      ensures this.cpu == cpu && S() == F.Driven(F.POWER_ON, cpu.Contents())
    {
      this.cpu := cpu;
      fdIntAsserted, intFlags, flpopt := false, 0, 0xff;
    }

    method UpdateIrq(want: bool)
      requires Valid()
      modifies this`fdIntAsserted, cpu
      ensures Valid() && S() == F.Update(old(S()), want)
    {
      if want != fdIntAsserted {
        fdIntAsserted := want;
        cpu.SetVirq(F.FD_LINE, want);
      }
    }

    method GenInterrupt(kind: F.Kind)
      requires Valid()
      modifies this`fdIntAsserted, cpu
      ensures Valid() && S() == F.Generate(old(S()), kind)
    {
      hide SetLine;
      match kind {
        case CmdStart =>
          if intFlags / 2 % 2 == 1 && flpopt / 4 % 2 == 1 { UpdateIrq(true); }
        case CmdComplete =>
          if flpopt / 4 % 2 == 1 { UpdateIrq(true); }
        case IndexPulse =>
          if intFlags / 4 % 2 == 1 && flpopt / 4 % 2 == 1 { UpdateIrq(true); }
        case Immediate =>
          if intFlags / 8 % 2 == 1 && flpopt / 4 % 2 == 1 { UpdateIrq(true); }
      }
    }

    method ForceInterrupt(cmd: byte)
      requires Valid()
      modifies this, cpu
      ensures Valid() && S() == F.Force(old(S()), cmd)
    {
      hide SetLine;
      intFlags := cmd % 16;
      UpdateIrq(false);
      if intFlags / 8 % 2 == 1 { GenInterrupt(F.Immediate); }
    }

    method WriteOption(value: byte)
      requires Valid()
      modifies this, cpu
      ensures Valid() && S() == F.WriteOption(old(S()), value)
    {
      hide SetLine;
      var last := flpopt;
      flpopt := value;
      if value / 128 == 1 && last / 128 == 0 { GenInterrupt(F.CmdStart); }
    }

    method IrqAck(level: nat) returns (autovector: bool)
      requires Valid()
      modifies this`fdIntAsserted, cpu
      ensures Valid() && S() == F.Acknowledge(old(S()), level)
      ensures autovector <==> level == F.FD_LINE && old(fdIntAsserted)
    {
      if fdIntAsserted && level == F.FD_LINE {
        UpdateIrq(false);
        return true;
      }
      return false;
    }

    method PulseReset()
      requires Valid()
      modifies this
      ensures Valid() && S() == F.Driven(F.Reset(old(S()).d), old(cpu.Contents()))
    {
      intFlags, flpopt := 0, 0xff;
    }
  }
}
