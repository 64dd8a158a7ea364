/**
 The interrupt fabric: the timer, the serial chip, the Winchester controller, the 4-Way boards and
 the floppy, each with its own machine, and the lines they drive.  What holds over any run after
 power-on: which line means which device, what level the CPU sees, and what an acknowledge takes
 back.
 */
module IrqFabric {
  import opened IrqLines
  import opened Options
  import opened Words
  import F = Floppy
  import Fw = FourWay
  import Pit
  import Scc
  import W = WdController
  import WI = WdInterrupts

  const TAPE_LEVEL: nat := 4
  const TAPE_VECTOR: nat := 0xC0

  /** The cartridge tape: interrupts not acknowledged yet, and the vector its INIT command set, if
      any. */
  datatype Tape = Tape(count: nat, vector: byte)
  {
    function Vector(): nat { if vector != 0 then vector else TAPE_VECTOR }
  }

  datatype Board = Board(
    pit: Pit.Timer, scc: Scc.Chip, wd: W.Wd, fw: Fw.Fw, fd: F.Drive, tape: Tape,
    halted: bool,    // the CPU, until the next reset
    irq: Irq)
  {
    ghost predicate Valid() {
      |irq.lines| == 8 && scc.Valid() && W.WellFormed(wd.l) && Fw.WellFormed(fw)
    }
  }

  function PowerOn(): (b: Board)
    ensures b.Valid()
  {
    Board(Pit.RESET, Scc.RESET, W.PowerOn(), Fw.PowerOn(), F.POWER_ON, Tape(0, 0), false, QUIET)
  }

  datatype TimerEvent = PitWrite(reg: nat, v: byte) | PitPulse | PitReset

  datatype ChipEvent =
    | SccCommand(port: nat, v: byte)
    | SccData(port: nat, v: byte)
    | SccRead(port: nat)
    | SccStatus(port: nat)
    | SccReceive(port: nat, v: byte)
    | SccFile(port: nat, data: seq<byte>)

  datatype FloppyEvent = FdGenerate(kind: F.Kind) | FdForce(cmd: byte) | FdOption(v: byte)

  datatype Event =
    | Timer(t: TimerEvent)
    | Chip(c: ChipEvent)
    | Disk(d: W.Event)
    | Boards(f: Fw.Event)
    | Floppy(x: FloppyEvent)
    | TapeInit(v: byte)
    | TapeDone
    | Halt
    | Ack(level: nat)
    | SystemReset

  function WithPit(b: Board, t: Pit.Timer): Board
    requires |b.irq.lines| == 8
  {
    b.(pit := t, irq := Follow(b.irq, Pit.TIMER_LINE, b.pit.asserted, t.asserted))
  }

  function WithScc(b: Board, c: Scc.Chip): Board
    requires |b.irq.lines| == 8
  {
    b.(scc := c, irq := Follow(b.irq, Scc.SCC_LINE, b.scc.asserted, c.asserted))
  }

  function WithDisk(b: Board, d: W.Wd): Board
    requires |b.irq.lines| == 8
  {
    b.(wd := d, irq := SetLine(b.irq, W.INT_LEVEL, d.a.asserted))
  }

  function WithBoards(b: Board, f: Fw.Fw): Board
    requires |b.irq.lines| == 8
  {
    b.(fw := f, irq := SetLine(b.irq, Fw.LEVEL, f.current.Some?))
  }

  function Fd(b: Board): F.Driven { F.Driven(b.fd, b.irq) }

  function WithFd(b: Board, s: F.Driven): Board { b.(fd := s.d, irq := s.irq) }

  /** Events name existing channels, boards and units; acknowledges come from the CPU, as
      `Ack`, while it is not halted. */
  predicate Allowed(b: Board, e: Event) {
    match e
    case Chip(c) => c.port < 2
    case Disk(d) => W.Allowed(b.wd, d) && !d.EAck? && !d.EPulseReset?
    case Boards(f) => Fw.Possible(f) && !f.EAck?
    case Ack(_) => !b.halted
    case _ => true
  }

  datatype Answer = Vector(v: nat) | Autovector

  /** The acknowledge cycle asks tape, disk, 4-Way, timer and floppy in turn; whoever has no vector
      to give is autovectored, the serial chip among them. */
  function Acknowledge(b: Board, level: nat): (r: (Board, Answer))
    requires b.Valid()
    ensures r.0.Valid()
  {
    var (a, claimed) := W.Acknowledge(b.wd.a, level);
    var (f, vector) := Fw.IrqAck(b.fw, level);
    if b.tape.count > 0 && level == TAPE_LEVEL then
      (b.(tape := b.tape.(count := b.tape.count - 1)), Vector(b.tape.Vector()))
    else if claimed.Some? then (WithDisk(b, b.wd.(a := a)), Vector(b.wd.intVector))
    else if vector.Some? then (WithBoards(b, f), Vector(vector.value))
    else if level == Pit.TIMER_LINE && b.pit.asserted then (b, Autovector)
    else (WithFd(b, F.Acknowledge(Fd(b), level)), Autovector)
  }

  /** The reset of the whole system.  The floppy's record of its line is the one thing nobody
      clears. */
  function Reset(b: Board): (r: Board)
    requires b.Valid()
    ensures r.Valid()
  {
    Board(Pit.RESET, Scc.HardReset(b.scc), W.PulseReset(b.wd), Fw.Reset(b.fw), F.Reset(b.fd), Tape(0, 0), false,
          QUIET.(nmi := b.irq.nmi))
  }

  function TimerStep(b: Board, e: TimerEvent): (r: Board)
    requires b.Valid()
    ensures r.Valid()
  {
    match e
    case PitWrite(reg, v) => WithPit(b, Pit.SetReg(b.pit, reg, v))
    case PitPulse => WithPit(b, Pit.Pulse(b.pit))
    case PitReset => b.(pit := Pit.RESET, irq := SetLine(b.irq, Pit.TIMER_LINE, false))
  }

  function ChipStep(b: Board, e: ChipEvent): (r: Board)
    requires b.Valid() && e.port < 2
    ensures r.Valid()
  {
    match e
    case SccCommand(p, v) => WithScc(b, Scc.CmdWrite(b.scc, p, v))
    case SccData(p, v) => WithScc(b, Scc.DataWrite(b.scc, p, v))
    case SccRead(p) => WithScc(b, Scc.DataRead(b.scc, p))
    case SccStatus(p) => WithScc(b, Scc.CmdRead(b.scc, p).0)
    case SccReceive(p, v) => WithScc(b, Scc.Receive(b.scc, p, v))
    case SccFile(_, data) => WithScc(b, b.scc.(file := Some(data)))
  }

  function FloppyStep(b: Board, e: FloppyEvent): (r: Board)
    requires b.Valid()
    ensures r.Valid()
  {
    match e
    case FdGenerate(kind) => WithFd(b, F.Generate(Fd(b), kind))
    case FdForce(cmd) => WithFd(b, F.Force(Fd(b), cmd))
    case FdOption(v) => WithFd(b, F.WriteOption(Fd(b), v))
  }

  /** A tape command that asks for it pulses the CPU, past the lines and past the mask: the CPU
      acknowledges on the spot, unless it is halted. */
  function TapePulse(b: Board): (r: (Board, Option<Answer>))
    requires b.Valid()
    ensures r.0.Valid()
  {
    var t := b.(tape := b.tape.(count := b.tape.count + 1));
    if b.halted then (t, None) else var (z, answer) := Acknowledge(t, TAPE_LEVEL); (z, Some(answer))
  }

  function Step(b: Board, e: Event): (r: Board)
    requires b.Valid() && Allowed(b, e)
    ensures r.Valid()
  {
    match e
    case Timer(t) => TimerStep(b, t)
    case Chip(c) => ChipStep(b, c)
    case Disk(d) => WithDisk(b, W.Step(b.wd, d))
    case Boards(f) => WithBoards(b, Fw.Step(b.fw, f))
    case Floppy(x) => FloppyStep(b, x)
    case TapeInit(v) => b.(tape := b.tape.(vector := v))
    case TapeDone => TapePulse(b).0
    case Halt => b.(halted := true)
    case Ack(level) => Acknowledge(b, level).0
    case SystemReset => Reset(b)
  }

  ghost predicate Reaches(b: Board, es: seq<Event>, z: Board)
    decreases |es|
  {
    if es == [] then b == z
    else b.Valid() && Allowed(b, es[0]) && Reaches(Step(b, es[0]), es[1..], z)
  }

  // ---------------------------------------------------------------- every line means its device

  /** What each device keeps by itself. */
  ghost predicate DevicesAgree(b: Board) {
    b.pit.asserted == b.pit.Want() && Scc.Agrees(b.scc) && WI.ArbiterInv(b.wd.a)
  }

  /** Every line but the floppy's says what its device says. */
  predicate OthersAgree(b: Board)
    requires |b.irq.lines| == 8 && |b.scc.ch| == 2
  {
    && b.irq.lines[Pit.TIMER_LINE] == b.pit.asserted && b.irq.lines[Scc.SCC_LINE] == b.scc.Want()
    && b.irq.lines[W.INT_LEVEL] == b.wd.a.asserted && b.irq.lines[Fw.LEVEL] == b.fw.current.Some?
    && !b.irq.lines[0] && !b.irq.lines[1] && !b.irq.lines[7]
  }

  /** The record of the floppy is what its line is. */
  predicate Tells(s: F.Driven)
    requires |s.irq.lines| == 8
  {
    s.irq.lines[F.FD_LINE] == s.d.asserted
  }

  predicate FloppyAgrees(b: Board)
    requires |b.irq.lines| == 8
  {
    Tells(Fd(b))
  }

  ghost predicate Inv(b: Board) {
    && b.Valid() && !b.irq.nmi && DevicesAgree(b) && OthersAgree(b) && F.Honest(Fd(b))
    && (!b.halted ==> b.tape.count == 0)
  }

  lemma PitKeeps(b: Board, t: Pit.Timer)
    requires Inv(b) && t.asserted == t.Want()
    ensures Inv(WithPit(b, t)) && Inv(b.(pit := Pit.RESET, irq := SetLine(b.irq, Pit.TIMER_LINE, false)))
  {
    hide W.WellFormed, Fw.WellFormed, Scc.Agrees, WI.ArbiterInv, SetLine, WellFormed;
    SetLineMeans(b.irq, Pit.TIMER_LINE, t.asserted);
    SetLineMeans(b.irq, Pit.TIMER_LINE, false);
  }

  lemma SccKeeps(b: Board, c: Scc.Chip)
    requires Inv(b) && Scc.Follows(b.scc, c)
    ensures Inv(WithScc(b, c))
  {
    hide W.WellFormed, Fw.WellFormed, WI.ArbiterInv, SetLine, WellFormed;
    SetLineMeans(b.irq, Scc.SCC_LINE, c.asserted);
  }

  lemma DiskKeeps(b: Board, d: W.Wd)
    requires Inv(b) && W.WellFormed(d.l) && WI.ArbiterInv(d.a)
    ensures Inv(WithDisk(b, d))
  {
    hide W.WellFormed, Fw.WellFormed, Scc.Agrees, WI.ArbiterInv, SetLine, WellFormed;
    SetLineMeans(b.irq, W.INT_LEVEL, d.a.asserted);
  }

  lemma BoardsKeep(b: Board, f: Fw.Fw)
    requires Inv(b) && Fw.WellFormed(f)
    ensures Inv(WithBoards(b, f))
  {
    hide W.WellFormed, Fw.WellFormed, Scc.Agrees, WI.ArbiterInv, SetLine, WellFormed;
    SetLineMeans(b.irq, Fw.LEVEL, f.current.Some?);
  }

  lemma FdKeeps(b: Board, s: F.Driven)
    requires Inv(b) && F.OnlyOwnLine(Fd(b), s) && F.Honest(s)
    ensures Inv(WithFd(b, s))
  {
    hide W.WellFormed, Fw.WellFormed, Scc.Agrees, WI.ArbiterInv, WellFormed;
  }

  lemma FdEventsKeep(s: F.Driven, kind: F.Kind, v: byte, level: nat)
    requires F.Honest(s)
    ensures F.OnlyOwnLine(s, F.Generate(s, kind)) && F.Honest(F.Generate(s, kind))
    ensures F.OnlyOwnLine(s, F.Force(s, v)) && F.Honest(F.Force(s, v))
    ensures F.OnlyOwnLine(s, F.WriteOption(s, v)) && F.Honest(F.WriteOption(s, v))
    ensures F.OnlyOwnLine(s, F.Acknowledge(s, level)) && F.Honest(F.Acknowledge(s, level))
  {
    hide F.Update, F.Generate, WellFormed;
    var flagged := s.(d := s.d.(intFlags := v % 16));
    F.UpdateKeeps(s, s.d.asserted);
    F.GenerateKeeps(s, kind);
    F.UpdateKeeps(flagged, false);
    F.GenerateKeeps(F.Update(flagged, false), F.Immediate);
    F.GenerateKeeps(s.(d := s.d.(option := v)), F.CmdStart);
    F.UpdateKeeps(s, false);
  }

  lemma AcknowledgeKeeps(b: Board, level: nat)
    requires Inv(b) && !b.halted
    ensures Inv(Acknowledge(b, level).0)
  {
    hide W.Acknowledge, Fw.IrqAck, F.Acknowledge, WithDisk, WithBoards, WithFd;
    InvMeans(b);
    WI.AcknowledgeKeepsInv(b.wd.a, level);
    hide Inv;
    DiskKeeps(b, b.wd.(a := W.Acknowledge(b.wd.a, level).0));
    BoardsKeep(b, Fw.IrqAck(b.fw, level).0);
    FdEventsKeep(Fd(b), F.CmdStart, 0, level);
    FdKeeps(b, F.Acknowledge(Fd(b), level));
  }

  lemma ResetKeeps(b: Board)
    requires Inv(b)
    ensures Inv(Reset(b))
  {
    WI.FirstOfPending({});
  }

  lemma InvMeans(b: Board)
    requires Inv(b)
    ensures b.Valid() && DevicesAgree(b) && F.Honest(Fd(b))
  {
  }

  lemma ChipKeeps(b: Board, e: ChipEvent)
    requires Inv(b) && e.port < 2
    ensures b.Valid() && Inv(ChipStep(b, e))
  {
    hide Scc.CmdWrite, Scc.DataWrite, Scc.DataRead, Scc.CmdRead, Scc.Receive, Scc.Follows, Scc.Agrees, WithScc;
    InvMeans(b);
    hide Inv, W.WellFormed, Fw.WellFormed;
    Scc.AccessesAgree(b.scc, e.port, if e.SccRead? || e.SccStatus? || e.SccFile? then 0 else e.v);
    match e
    case SccCommand(p, v) => SccKeeps(b, Scc.CmdWrite(b.scc, p, v));
    case SccData(p, v) => SccKeeps(b, Scc.DataWrite(b.scc, p, v));
    case SccRead(p) => SccKeeps(b, Scc.DataRead(b.scc, p));
    case SccStatus(p) => SccKeeps(b, Scc.CmdRead(b.scc, p).0);
    case SccReceive(p, v) => SccKeeps(b, Scc.Receive(b.scc, p, v));
    case SccFile(_, data) =>
      Scc.FileAgrees(b.scc, data);
      SccKeeps(b, b.scc.(file := Some(data)));
  }

  lemma FloppyKeeps(b: Board, e: FloppyEvent)
    requires Inv(b)
    ensures b.Valid() && Inv(FloppyStep(b, e))
  {
    hide F.Generate, F.Force, F.WriteOption, WithFd, F.OnlyOwnLine;
    InvMeans(b);
    hide Inv, F.Honest, W.WellFormed, Fw.WellFormed;
    match e
    case FdGenerate(kind) => FdEventsKeep(Fd(b), kind, 0, 0); FdKeeps(b, F.Generate(Fd(b), kind));
    case FdForce(cmd) => FdEventsKeep(Fd(b), F.CmdStart, cmd, 0); FdKeeps(b, F.Force(Fd(b), cmd));
    case FdOption(v) => FdEventsKeep(Fd(b), F.CmdStart, v, 0); FdKeeps(b, F.WriteOption(Fd(b), v));
  }

  lemma TimerKeeps(b: Board, e: TimerEvent)
    requires Inv(b)
    ensures b.Valid() && Inv(TimerStep(b, e))
  {
    hide Pit.SetReg, Pit.Pulse, SetLine, WithPit;
    InvMeans(b);
    hide Inv, W.WellFormed, Fw.WellFormed;
    match e
    case PitWrite(reg, v) => Pit.RecordIsKept(b.pit, reg, v); PitKeeps(b, Pit.SetReg(b.pit, reg, v));
    case PitPulse => Pit.RecordIsKept(b.pit, 0, 0); PitKeeps(b, Pit.Pulse(b.pit));
    case PitReset => PitKeeps(b, b.pit);
  }

  lemma TapeKeeps(b: Board, v: byte)
    requires Inv(b)
    ensures Inv(b.(tape := b.tape.(vector := v))) && Inv(b.(halted := true)) && Inv(TapePulse(b).0)
  {
    hide W.WellFormed, Fw.WellFormed, Scc.Agrees, WI.ArbiterInv, WellFormed;
  }

  lemma StepKeeps(b: Board, e: Event)
    requires Inv(b) && Allowed(b, e)
    ensures b.Valid() && Inv(Step(b, e))
  {
    hide TimerStep, ChipStep, FloppyStep, WithDisk, WithBoards, W.Step, Fw.Step, Acknowledge, Reset;
    InvMeans(b);
    hide Inv, W.WellFormed, Fw.WellFormed, WI.ArbiterInv, W.Allowed, Fw.Possible, Scc.Agrees;
    match e
    case Timer(t) => TimerKeeps(b, t);
    case Chip(c) => ChipKeeps(b, c);
    case Disk(d) => WI.StepKeepsInv(b.wd, d); DiskKeeps(b, W.Step(b.wd, d));
    case Boards(f) => BoardsKeep(b, Fw.Step(b.fw, f));
    case Floppy(x) => FloppyKeeps(b, x);
    case TapeInit(v) => TapeKeeps(b, v);
    case TapeDone => TapeKeeps(b, 0);
    case Halt => TapeKeeps(b, 0);
    case Ack(level) => AcknowledgeKeeps(b, level);
    case SystemReset => ResetKeeps(b);
  }

  lemma {:induction false} RunKeeps(b: Board, es: seq<Event>, z: Board)
    requires Inv(b) && Reaches(b, es, z)
    ensures Inv(z)
    decreases |es|
  {
    hide Inv, Step, Board.Valid;
    if es != [] {
      StepKeeps(b, es[0]);
      RunKeeps(Step(b, es[0]), es[1..], z);
    }
  }

  lemma PowerOnHolds()
    ensures Inv(PowerOn())
  {
    WI.FirstOfPending({});
  }

  lemma Reachable(es: seq<Event>, z: Board)
    requires Reaches(PowerOn(), es, z)
    ensures Inv(z)
  {
    hide Inv, PowerOn;
    PowerOnHolds();
    RunKeeps(PowerOn(), es, z);
  }

  lemma LevelOfLines(z: Board)
    requires Inv(z)
    ensures z.irq.lines
      == [false, false, z.wd.a.asserted, z.irq.lines[F.FD_LINE], z.fw.current.Some?, z.scc.Want(), z.pit.Want(), false]
    ensures z.irq.level
      == if z.pit.Want() then 6 else if z.scc.Want() then 5 else if z.fw.current.Some? then 4
         else if z.irq.lines[F.FD_LINE] then 3 else if z.wd.a.asserted then 2 else 0
  {
    assert Highest(z.irq.lines, 7) == Highest(z.irq.lines, 6);
    assert Highest(z.irq.lines, 1) == 0;
  }

  /** A channel with a character or an empty transmitter to report. */
  predicate Waits(x: Scc.Channel) { x.rxPend || x.txPend }

  /** In every state reachable from power-on, through whatever resets, each line is set exactly
      when its device asks: the timer enabled with a zero detected in an interrupt mode, the
      serial chip enabled with something pending, the 4-Way with a request on the line and the
      disk's arbiter; the floppy's is set only if the floppy asks, and exactly then where
      FloppyIsHeardIff says; and the CPU sees the highest of them, never a level 7. */
  lemma LinesFollowDevices(es: seq<Event>, z: Board)
    requires Reaches(PowerOn(), es, z)
    ensures z.Valid()
    ensures z.irq.lines[6] <==> z.pit.zds && z.pit.tcr % 2 == 1 && z.pit.tcr / 32 in {5, 7}
    ensures z.irq.lines[5] <==> z.scc.wr9 / 8 % 2 == 1 && exists p :: 0 <= p < 2 && Waits(z.scc.ch[p])
    ensures z.irq.lines[4] <==> z.fw.current.Some?
    ensures z.irq.lines[3] ==> z.fd.asserted
    ensures z.irq.lines[2] <==> z.wd.a.asserted
    ensures !z.irq.lines[0] && !z.irq.lines[1] && !z.irq.lines[7] && !z.irq.nmi
    ensures z.irq.level < 7 && (z.irq.level > 0 ==> z.irq.lines[z.irq.level])
    ensures forall k :: z.irq.level < k < 8 ==> !z.irq.lines[k]
  {
    Reachable(es, z);
    LevelOfLines(z);
    assert z.scc.AnyPending() <==> Waits(z.scc.ch[0]) || Waits(z.scc.ch[1]);
  }

  // ---------------------------------------------------------------- acknowledges

  /** Disk and 4-Way hand over their vector and free their line, and the disk gives up a flag; the
      floppy is autovectored and frees its line; the timer and the serial chip are autovectored
      and take nothing back, so their lines stay set. */
  ghost predicate TakesBack(z: Board, level: nat, r: Board, answer: Answer)
    requires |z.irq.lines| == 8
  {
    && (level in {5, 6} ==> r == z && answer == Autovector && z.irq.lines[level])
    && (level in {2, 3, 4} ==> r.irq.lines == z.irq.lines[level := false])
    && (level == 4 ==> answer == Vector(z.fw.vector) && r.fw.current.None?)
    && (level == 3 ==> answer == Autovector && !r.fd.asserted)
    && (level == 2 ==> answer == Vector(z.wd.intVector) && r.wd.a.pending < z.wd.a.pending)
  }

  /** What the acknowledge of the level the CPU sees does, on every reachable board. */
  lemma AcknowledgeAnswers(es: seq<Event>, z: Board)
    requires Reaches(PowerOn(), es, z) && !z.halted
    ensures z.Valid()
    ensures TakesBack(z, z.irq.level, Acknowledge(z, z.irq.level).0, Acknowledge(z, z.irq.level).1)
  {
    hide SetLine, W.WellFormed, Fw.WellFormed, Scc.Agrees, Reaches, PowerOn;
    Reachable(es, z);
    SetLineMeans(z.irq, W.INT_LEVEL, false);
    SetLineMeans(z.irq, Fw.LEVEL, false);
    SetLineMeans(z.irq, F.FD_LINE, false);
    WI.FirstOfPending(z.wd.a.pending);
  }

  /** The vector that the tape was told last since the latest reset; 0 if none. */
  function LastVector(es: seq<Event>, was: byte): byte
    decreases |es|
  {
    if es == [] then was
    else LastVector(es[1..], if es[0].SystemReset? then 0 else if es[0].TapeInit? then es[0].v else was)
  }

  /** Whether the CPU was halted since the latest reset. */
  predicate LastHalted(es: seq<Event>, was: bool)
    decreases |es|
  {
    if es == [] then was else LastHalted(es[1..], if es[0].SystemReset? then false else es[0].Halt? || was)
  }

  lemma TapeStep(b: Board, e: Event)
    requires b.Valid() && Allowed(b, e)
    ensures Step(b, e).tape.vector == if e.SystemReset? then 0 else if e.TapeInit? then e.v else b.tape.vector
    ensures Step(b, e).halted == if e.SystemReset? then false else e.Halt? || b.halted
  {
    hide Scc.CmdWrite, Scc.DataWrite, Scc.DataRead, Scc.CmdRead, Scc.Receive, W.Step, Fw.Step, Pit.SetReg, Pit.Pulse;
    hide SetLine, W.WellFormed, Fw.WellFormed, F.Generate, F.Force, F.WriteOption, F.Acknowledge;
    hide W.Acknowledge, Fw.IrqAck;
  }

  lemma {:induction false} TapeRun(b: Board, es: seq<Event>, z: Board)
    requires b.Valid() && Reaches(b, es, z)
    ensures z.tape.vector == LastVector(es, b.tape.vector) && (z.halted <==> LastHalted(es, b.halted))
    decreases |es|
  {
    hide Step, Board.Valid, Allowed;
    if es != [] {
      TapeStep(b, es[0]);
      TapeRun(Step(b, es[0]), es[1..], z);
    }
  }

  /** The tape's pulse is answered with the tape's own vector, the one it was told last or 0xC0, and takes
      nothing back from anybody, not even from a 4-Way board that asks on the same level.  A CPU that
      was halted since the latest reset does not answer, and the pulse is counted. */
  lemma TapeTakesItsOwn(es: seq<Event>, z: Board)
    requires Reaches(PowerOn(), es, z)
    ensures z.Valid()
    ensures var v := LastVector(es, 0);
      TapePulse(z) == if LastHalted(es, false) then (z.(tape := z.tape.(count := z.tape.count + 1)), None)
                      else (z, Some(Vector(if v == 0 then 0xC0 else v)))
  {
    hide Reaches;
    Reachable(es, z);
    TapeRun(PowerOn(), es, z);
  }

  /** A counted pulse is answered by the next acknowledge of level 4, before the 4-Way, and by no other. */
  lemma CountedPulseAnswers(b: Board, level: nat)
    requires b.Valid() && b.tape.count > 0
    ensures var (z, answer) := Acknowledge(b, level);
      if level == 4 then z == b.(tape := b.tape.(count := b.tape.count - 1)) && answer.Vector?
      else z.tape == b.tape
  {
    hide SetLine, W.Acknowledge, Fw.IrqAck, F.Acknowledge;
  }

  // ---------------------------------------------------------------- the reset

  /** The system reset leaves every line saying what its device says exactly if the floppy was
      not interrupting. */
  lemma ResetIsCleanIff(b: Board)
    requires Inv(b)
    ensures b.Valid() && OthersAgree(Reset(b)) && (FloppyAgrees(Reset(b)) <==> !b.fd.asserted)
  {
  }

  /** What power-on and the reset leave beside the devices: no line set, no level, a tape without requests
      and without a vector, and a CPU that runs. */
  lemma ResetLeaves(b: Board)
    requires b.Valid()
    ensures var r := Reset(b);
      && r.irq.lines == seq(8, i => false) && r.irq.level == 0 && r.irq.nmi == b.irq.nmi
      && r.tape.count == 0 && r.tape.vector == 0 && !r.halted
    ensures var p := PowerOn();
      && p.irq.lines == seq(8, i => false) && p.irq.level == 0 && !p.irq.nmi
      && p.tape.count == 0 && p.tape.vector == 0 && !p.halted
  {
  }

  predicate IsForced(e: Event) { e.Floppy? && e.x.FdForce? }

  /** Every acknowledge is for the level the CPU sees. */
  ghost predicate Seen(b: Board, es: seq<Event>, z: Board)
    requires Reaches(b, es, z)
    decreases |es|
  {
    es == [] || ((es[0].Ack? ==> es[0].level == b.irq.level) && Seen(Step(b, es[0]), es[1..], z))
  }

  /** Whether the floppy's line is heard after an event, given whether it was before. */
  predicate HeardAfter(b: Board, e: Event, heard: bool) {
    if e.SystemReset? then !b.fd.asserted else IsForced(e) || heard
  }

  /** Whether the latest forced interrupt or system reset of a run, if there is one, is a forced
      interrupt or found the floppy not interrupting. */
  ghost predicate Heard(b: Board, es: seq<Event>, z: Board, heard: bool)
    requires Reaches(b, es, z)
    decreases |es|
  {
    if es == [] then heard else Heard(Step(b, es[0]), es[1..], z, HeardAfter(b, es[0], heard))
  }

  lemma OtherLines(irq: Irq)
    requires WellFormed(irq)
    ensures forall line, on :: line in {2, 4, 5, 6} ==> SetLine(irq, line, on).lines[F.FD_LINE] == irq.lines[F.FD_LINE]
    ensures irq.level == F.FD_LINE ==> irq.lines[F.FD_LINE]
  {
    hide SetLine;
    forall line, on | line in {2, 4, 5, 6} ensures SetLine(irq, line, on).lines[F.FD_LINE] == irq.lines[F.FD_LINE] {
      SetLineMeans(irq, line, on);
    }
  }

  /** Whatever does not concern the floppy leaves its line and its record alone. */
  lemma OtherEvents(b: Board, e: Event)
    requires b.Valid() && WellFormed(b.irq) && Allowed(b, e) && !e.Floppy? && !e.SystemReset? && !e.Ack? && !e.TapeDone?
    ensures Step(b, e).fd == b.fd && Step(b, e).irq.lines[F.FD_LINE] == b.irq.lines[F.FD_LINE]
    ensures WellFormed(Step(b, e).irq)
  {
    hide SetLine, W.WellFormed, Fw.WellFormed, W.Step, Fw.Step, Pit.SetReg, Pit.Pulse;
    hide Scc.CmdWrite, Scc.DataWrite, Scc.DataRead, Scc.CmdRead, Scc.Receive;
    OtherLines(b.irq);
  }

  /** An acknowledge of another level does so too, and one of its own takes both back. */
  lemma AcknowledgeHeard(b: Board, level: nat)
    requires b.Valid() && WellFormed(b.irq)
    ensures var r := Acknowledge(b, level).0;
      && WellFormed(r.irq)
      && (level != F.FD_LINE ==> r.fd == b.fd && r.irq.lines[F.FD_LINE] == b.irq.lines[F.FD_LINE])
      && (level == F.FD_LINE ==> Tells(Fd(r)) || (!b.fd.asserted && Fd(r) == Fd(b)))
  {
    hide SetLine;
    OtherLines(b.irq);
    SetLineMeans(b.irq, F.FD_LINE, false);
  }

  lemma HeardStep(b: Board, e: Event)
    requires Inv(b) && Allowed(b, e) && (e.Ack? ==> e.level == b.irq.level)
    ensures b.Valid() && (FloppyAgrees(Step(b, e)) <==> HeardAfter(b, e, FloppyAgrees(b)))
  {
    hide Acknowledge, ChipStep, TimerStep, W.Step, Fw.Step, SetLine, DevicesAgree, OthersAgree;
    hide F.Generate, F.Force, F.WriteOption;
    OtherLines(b.irq);
    if e.Floppy? {
      FloppyHeard(Fd(b), e.x);
    } else if e.Ack? {
      AcknowledgeHeard(b, e.level);
    } else if e.TapeDone? {
      AcknowledgeHeard(b.(tape := b.tape.(count := b.tape.count + 1)), TAPE_LEVEL);
    } else if !e.SystemReset? {
      OtherEvents(b, e);
    }
  }

  lemma FloppyHeard(s: F.Driven, e: FloppyEvent)
    requires F.Honest(s)
    ensures e.FdForce? ==> Tells(F.Force(s, e.cmd))
    ensures e.FdGenerate? ==> (Tells(F.Generate(s, e.kind)) <==> Tells(s))
    ensures e.FdOption? ==> (Tells(F.WriteOption(s, e.v)) <==> Tells(s))
  {
  }

  lemma {:induction false} HeardRun(b: Board, es: seq<Event>, z: Board, heard: bool)
    requires Inv(b) && Reaches(b, es, z) && Seen(b, es, z)
    requires FloppyAgrees(b) <==> heard
    ensures Inv(z) && (FloppyAgrees(z) <==> Heard(b, es, z, heard))
    decreases |es|
  {
    hide Inv, Step, Board.Valid;
    if es != [] {
      StepKeeps(b, es[0]);
      HeardStep(b, es[0]);
      HeardRun(Step(b, es[0]), es[1..], z, HeardAfter(b, es[0], heard));
    }
  }

  /** After any run from power-on with a CPU that acknowledges the level it sees, the floppy's
      line says what the floppy asks for if and only if the latest forced interrupt or system
      reset, if there was one, was a forced interrupt or found the floppy not interrupting. */
  lemma FloppyIsHeardIff(es: seq<Event>, z: Board)
    requires Reaches(PowerOn(), es, z) && Seen(PowerOn(), es, z)
    ensures |z.irq.lines| == 8
    ensures z.irq.lines[F.FD_LINE] == z.fd.asserted <==> Heard(PowerOn(), es, z, true)
  {
    hide Inv, PowerOn;
    PowerOnHolds();
    PowerOnIsHeard();
    HeardRun(PowerOn(), es, z, true);
    InvMeans(z);
  }

  lemma PowerOnIsHeard()
    ensures FloppyAgrees(PowerOn())
  {
  }

  /** A floppy whose record says that the line is driven when it is not. */
  ghost predicate Silent(b: Board) {
    b.Valid() && WellFormed(b.irq) && b.fd.asserted && !b.irq.lines[F.FD_LINE]
  }

  lemma SilentStays(b: Board, e: Event)
    requires Silent(b) && Allowed(b, e) && !IsForced(e) && (e.Ack? ==> e.level == b.irq.level)
    ensures Silent(Step(b, e))
  {
    hide Acknowledge, ChipStep, TimerStep, W.Step, Fw.Step, SetLine;
    OtherLines(b.irq);
    if e.Ack? {
      AcknowledgeHeard(b, e.level);
    } else if e.TapeDone? {
      AcknowledgeHeard(b.(tape := b.tape.(count := b.tape.count + 1)), TAPE_LEVEL);
    } else if !e.SystemReset? && !e.Floppy? {
      OtherEvents(b, e);
    }
  }

  /** Otherwise the floppy is silenced: however often it asks, whatever the rest of the board
      does and however often the system is reset again, its line stays clear until a command
      forces an interrupt. */
  lemma {:induction false} ResetSilencesFloppy(b: Board, es: seq<Event>, z: Board)
    requires Silent(b) && Reaches(b, es, z) && Seen(b, es, z) && forall e :: e in es ==> !IsForced(e)
    ensures Silent(z) && z.irq.level != F.FD_LINE
    decreases |es|
  {
    hide Step, Allowed, Board.Valid, F.Driven.Valid, IsForced;
    if es == [] {
      OtherLines(z.irq);
    } else {
      SilentStays(b, es[0]);
      ResetSilencesFloppy(Step(b, es[0]), es[1..], z);
    }
  }

  lemma ResetOfBusyFloppyIsSilent(b: Board)
    requires Inv(b) && b.fd.asserted
    ensures b.Valid() && Silent(Reset(b))
  {
  }

  /** The forced interrupt ends it: the record is taken back first, and line and record agree
      from then on. */
  lemma ForcedInterruptRecovers(b: Board, cmd: byte)
    requires Silent(b)
    ensures F.Agrees(Fd(FloppyStep(b, FdForce(cmd))))
    ensures FloppyStep(b, FdForce(cmd)).irq.lines[F.FD_LINE] <==> cmd / 8 % 2 == 1 && b.fd.Enabled()
  {
    hide SetLine, F.Update, WellFormed;
    var s := Fd(b).(d := b.fd.(intFlags := cmd % 16));
    F.UpdateKeeps(s, false);
    F.GenerateKeeps(F.Update(s, false), F.Immediate);
    assert F.Update(s, false).d == s.d.(asserted := false) && F.Update(F.Update(s, false), true).d.asserted by {
      UpdateSets(s, false);
      UpdateSets(F.Update(s, false), true);
    }
    assert cmd % 16 / 8 % 2 == cmd / 8 % 2;
  }

  lemma UpdateSets(s: F.Driven, want: bool)
    requires s.Valid()
    ensures F.Update(s, want).d == s.d.(asserted := want)
  {
  }

  /** From power-on to a silenced floppy: one finished command, and a reset before its interrupt
      is acknowledged. */
  lemma FloppyCanBeSilenced()
    ensures var busy := Step(PowerOn(), Floppy(FdGenerate(F.CmdComplete)));
      && Reaches(PowerOn(), [Floppy(FdGenerate(F.CmdComplete))], busy)
      && Inv(busy) && !FloppyAgrees(Reset(busy)) && Silent(Reset(busy))
  {
    var e := Floppy(FdGenerate(F.CmdComplete));
    var busy := Step(PowerOn(), e);
    PowerOnHolds();
    assert busy.fd.asserted;
    hide Inv, PowerOn, Step, Silent, Reset;
    StepKeeps(PowerOn(), e);
    assert [e][1..] == [];
    ResetIsCleanIff(busy);
    ResetOfBusyFloppyIsSilent(busy);
  }
}
