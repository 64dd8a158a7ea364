/**
 The Winchester controller of src/wd.c as a state machine: the SCSI phase ladder with its
 host registers, and the interrupt arbiter beside it.  One function per entry point gives
 the new abstract state; class `Winchester` (Winchester.dfy) updates the real fields in
 place and is proved to follow these functions.

 What a command does to disk, memory and reply buffer enters as an `Outcome`, so every
 result below holds for whatever the command switch computes.
 */
module WdController {
  import opened Options
  import opened Words

  /** The status register, bit by bit; `Value` is the byte on the bus. */
  datatype StatusReg = StatusReg(
    scmd: bool,      // 0x80, command, status or message phase
    busy: bool,      // 0x40
    msg: bool,       // 0x20
    inpFull: bool,   // 0x08, a byte waits in the input register
    opComp: bool,    // 0x04
    outEmpty: bool,  // 0x02
    busErr: bool)    // 0x01
  {
    function Value(): byte {
      Bit(scmd, 0x80) + Bit(busy, 0x40) + Bit(msg, 0x20) + Bit(inpFull, 0x08)
      + Bit(opComp, 0x04) + Bit(outEmpty, 0x02) + Bit(busErr, 0x01)
    }
  }

  const BUS_FREE := StatusReg(false, false, false, false, false, false, false)      // 0x00
  const SELECTED := StatusReg(true, true, false, false, false, true, false)         // 0xc2
  const DATA_IN := StatusReg(false, true, false, true, false, false, false)         // 0x48
  const STATUS_PHASE := StatusReg(true, true, false, true, true, false, false)      // 0xcc
  const MESSAGE_PHASE := StatusReg(true, true, true, true, false, false, false)     // 0xe8

  /** The writable bits of the control register. */
  datatype Control = Control(
    srst: bool,      // 0x01, reset
    led: bool,       // 0x02
    intEn: bool,     // 0x04, completion and bus error interrupts
    seqEn: bool,     // 0x08, DMA
    intEnD0: bool,   // 0x10, seek interrupts of unit 0
    intEnD1: bool)   // 0x20, and of unit 1
  {
    function Value(): (v: byte)
      ensures v < 0x40
    {
      Bit(srst, 0x01) + Bit(led, 0x02) + Bit(intEn, 0x04) + Bit(seqEn, 0x08) + Bit(intEnD0, 0x10) + Bit(intEnD1, 0x20)
    }

    predicate SeekEnabled(u: nat) { if u == 0 then intEnD0 else intEnD1 }
  }

  function Bit(b: bool, weight: nat): (r: nat)
    ensures r <= weight
  {
    if b then weight else 0
  }

  function ControlOf(v: byte): Control {
    Control(v % 2 == 1, v / 2 % 2 == 1, v / 4 % 2 == 1, v / 8 % 2 == 1, v / 16 % 2 == 1, v / 32 % 2 == 1)
  }

  const SCSI_SEEK: byte := 0x0B

  const PHASE_COUNT: nat := 5
  const CMD_COUNT: nat := 2
  const INT_COMPLETE_COUNT: nat := 2
  const INT_SEEK_COUNT: nat := 6
  const INT_LEVEL: nat := 2

  const DATABUF_LEN: nat := 18 * 512
  const DATABUF_LEN_MAX: nat := 1024
  const SCSICMD_MAX: nat := DATABUF_LEN + 10

  datatype Phase = Idle | Message | Complete | ReadResults | Status | MessageByte

  datatype Cmd = CmdReset | ResetOutRegFull | ProcessScsiCmd | SetInpFull

  /** What executing a command leaves behind: its status byte, the bytes for the data-in
      phase, and whether a transfer met an invalid address. */
  datatype Outcome = Outcome(status: byte, reply: seq<byte>, busErr: bool)

  datatype Ladder = Ladder(
    phase: Phase,
    statusReg: StatusReg,
    stateCounter: nat,
    cmdCounter: nat,
    currCommand: Cmd,
    selected: byte,
    readInpReg: byte,
    hostWriteReg: byte,
    scsiBuf: seq<byte>,
    scsiIdx: nat,
    dataIdx: nat,
    toRead: seq<byte>,   // the reply bytes the host has not read yet
    statusByte: byte,
    ctl: Control,
    lastCmd: seq<byte>,  // per unit
    probed: seq<byte>)   // what the host has not read yet of the word a DMA probe found

  datatype Flag = BusErr | Completion(u: nat) | Seek(u: nat)

  datatype Arbiter = Arbiter(
    pending: set<Flag>,
    asserted: bool,      // the request line
    counter: nat)        // counts down to the next arbitration, 0 when stopped

  datatype Wd = Wd(l: Ladder, a: Arbiter, intVector: byte)

  /** What every entry point relies on.  The last conjunct keeps the unit number within the
      two units the controller has. */
  ghost predicate WellFormed(l: Ladder) {
    && |l.scsiBuf| == SCSICMD_MAX
    && l.scsiIdx <= SCSICMD_MAX
    && |l.lastCmd| == 2
    && l.scsiBuf[1] / 32 < 2
  }

  // ---------------------------------------------------------------- command decoding

  function Class(opcode: byte): nat { opcode / 32 }

  function CdbLength(opcode: byte): nat { if Class(opcode) == 0 then 6 else 10 }

  function UnitOf(l: Ladder): (u: nat)
    requires WellFormed(l)
    ensures u < 2
  {
    l.scsiBuf[1] / 32
  }

  /** How many bytes the host still has to send after a command block received up to `idx`.
      The source keeps five bits of the opcode here, which makes its own WRITE2 and
      WRITEVERIFY arms unreachable: those opcodes are taken for WRITE and for 0x0E. */
  function HostDataLength(buf: seq<byte>, idx: nat, ctl: Control): nat
    requires |buf| >= 10
  {
    if ctl.seqEn then 0 else
    match buf[0] % 32
    case 0x04 =>
      (if idx > 1 && buf[1] / 16 % 2 == 1 then 4 else 0) +
      (if idx > 8 then buf[9] as int + 256 * (buf[8] as int) else 0)
    case 0x0A => WithinBuffer(512 * (buf[4] as int))
    case 0x13 => 1024
    case 0x15 => buf[4]
    case 0x1D => WithinBuffer(256 * (buf[3] as int) + buf[4] as int)
    case _ => 0
  }

  function WithinBuffer(n: nat): nat { if n > DATABUF_LEN_MAX then 0 else n }

  function StartMessage(l: Ladder): Ladder {
    l.(phase := Message, statusReg := l.statusReg.(msg := true), stateCounter := PHASE_COUNT)
  }

  /** The controller takes the byte most recently written by the host. */
  function ProcessScsi(l: Ladder): (r: Ladder)
    requires WellFormed(l)
    ensures WellFormed(r)
  {
    if l.scsiIdx < 6 || Class(l.scsiBuf[0]) > 1 then l else
    var len := CdbLength(l.scsiBuf[0]);
    var expected := HostDataLength(l.scsiBuf, l.scsiIdx, l.ctl);
    if l.scsiIdx > len then
      if expected == l.dataIdx then StartMessage(l)
      else if expected == l.dataIdx + 1 then StartMessage(l.(dataIdx := l.dataIdx + 1))
      else l.(dataIdx := l.dataIdx + 1)
    else if l.scsiIdx == len then
      if expected != 0 then l.(cmdCounter := 2 * CMD_COUNT, statusReg := l.statusReg.(scmd := false))
      else StartMessage(l)
    else l
  }

  // ---------------------------------------------------------------- phase ladder

  function EnterStatus(l: Ladder): Ladder {
    l.(toRead := [l.statusByte], statusReg := STATUS_PHASE, phase := Status)
  }

  /** Runs the received command.  An opcode of class 2 or above can only get here when the
      host overwrote the block after it was taken; the source then goes straight to status
      with the previous status byte. */
  function Execute(l: Ladder, o: Outcome): Ladder
    requires WellFormed(l)
  {
    if Class(l.scsiBuf[0]) > 1 then EnterStatus(l)
    else
      l.(lastCmd := l.lastCmd[UnitOf(l) := l.scsiBuf[0] % 64],
         readInpReg := 0, toRead := o.reply, statusByte := o.status,
         statusReg := if o.busErr then l.statusReg.(busErr := true) else l.statusReg,
         phase := Complete, stateCounter := PHASE_COUNT)
  }

  function NextPhase(l: Ladder, o: Outcome): (r: Ladder)
    requires WellFormed(l)
    ensures WellFormed(r)
  {
    match l.phase
    case Idle => l
    case Message => Execute(l, o)
    case Complete =>
      if l.toRead != [] then l.(statusReg := DATA_IN, phase := ReadResults) else EnterStatus(l)
    case ReadResults => EnterStatus(l)
    case Status => l.(toRead := [], readInpReg := 0, statusReg := MESSAGE_PHASE, phase := MessageByte)
    case MessageByte => l.(statusReg := BUS_FREE, phase := Idle, selected := 0, hostWriteReg := 0)
  }

  function ProcessCommand(l: Ladder, o: Outcome): (r: Ladder)
    requires WellFormed(l)
    ensures WellFormed(r)
  {
    match l.currCommand
    case CmdReset => l.(statusReg := BUS_FREE)
    case ResetOutRegFull => l.(statusReg := l.statusReg.(outEmpty := true))
    case ProcessScsiCmd => ProcessScsi(l.(currCommand := ResetOutRegFull, cmdCounter := CMD_COUNT))
    case SetInpFull =>
      if l.toRead != [] then l.(statusReg := l.statusReg.(inpFull := true))
      else if l.phase != Idle && l.phase != Message then NextPhase(l, o)
      else l
  }

  /** The two countdowns of the ladder, each acting when it reaches zero. */
  function TickState(l: Ladder, o: Outcome): (r: Ladder)
    requires WellFormed(l)
    ensures WellFormed(r)
  {
    if l.stateCounter == 0 then l
    else if l.stateCounter == 1 then NextPhase(l.(stateCounter := 0), o)
    else l.(stateCounter := l.stateCounter - 1)
  }

  function TickCommand(l: Ladder, o: Outcome): (r: Ladder)
    requires WellFormed(l)
    ensures WellFormed(r)
  {
    if l.cmdCounter == 0 then l
    else if l.cmdCounter == 1 then ProcessCommand(l.(cmdCounter := 0), o)
    else l.(cmdCounter := l.cmdCounter - 1)
  }

  function TickLadder(l: Ladder, o: Outcome): (r: Ladder)
    requires WellFormed(l)
    ensures WellFormed(r)
  {
    TickCommand(TickState(l, o), o)
  }

  // ---------------------------------------------------------------- interrupt arbiter

  function Arm(a: Arbiter, f: Flag, count: nat): Arbiter {
    a.(pending := a.pending + {f}, counter := if a.counter == 0 then count else a.counter)
  }

  /** Flags for the interrupts a finished command asks for; the line follows later. */
  function SetRaiseFlags(a: Arbiter, l: Ladder): Arbiter
    requires WellFormed(l)
  {
    var u := UnitOf(l);
    var a1 := if l.ctl.intEn then Arm(a, Completion(u), INT_COMPLETE_COUNT) else a;
    if l.lastCmd[u] == SCSI_SEEK && l.ctl.SeekEnabled(u)
    then Arm(a1, Seek(u), INT_SEEK_COUNT)
    else a1
  }

  /** The ladder asks for interrupts exactly when it enters the status phase. */
  function Notify(a: Arbiter, before: Ladder, after: Ladder): Arbiter
    requires WellFormed(after)
  {
    if after.phase == Status && before.phase != Status then SetRaiseFlags(a, after) else a
  }

  /** The arbiter's turn: with the line free, raise it for whatever is pending. */
  function Arbitrate(a: Arbiter): Arbiter {
    if a.asserted then a.(counter := INT_COMPLETE_COUNT)
    else if BusErr in a.pending then Arbiter(a.pending - {BusErr}, true, INT_COMPLETE_COUNT)
    else if First(a.pending).Some? then a.(asserted := true, counter := INT_COMPLETE_COUNT)
    else a
  }

  /** The flag an acknowledge claims: bus error, then completions, then seeks. */
  function First(pending: set<Flag>): Option<Flag> {
    if BusErr in pending then Some(BusErr)
    else if Completion(0) in pending then Some(Completion(0))
    else if Completion(1) in pending then Some(Completion(1))
    else if Seek(0) in pending then Some(Seek(0))
    else if Seek(1) in pending then Some(Seek(1))
    else None
  }

  function TickArbiter(a: Arbiter): Arbiter {
    if a.counter == 0 then a
    else if a.counter == 1 then Arbitrate(a.(counter := 0))
    else a.(counter := a.counter - 1)
  }

  /** Interrupt acknowledge at a level: the new arbiter and the flag it claimed. */
  function Acknowledge(a: Arbiter, level: nat): (Arbiter, Option<Flag>) {
    var claimed := if level == INT_LEVEL then First(a.pending) else None;
    (if claimed.Some? then a.(pending := a.pending - {claimed.value}, asserted := false) else a, claimed)
  }

  // ---------------------------------------------------------------- host registers

  function Select(l: Ladder, v: byte): Ladder {
    l.(selected := v, scsiIdx := 0, dataIdx := 0, statusReg := SELECTED, cmdCounter := 0)
  }

  /** What a probe of memory finds: whether the DMA address was valid, and the word there. */
  datatype Probe = Probe(ok: bool, word: nat)
  {
    predicate Valid() { word < 0x1_0000 }
  }

  /** For a byte that probes nothing. */
  const NOT_PROBED := Probe(true, 0)

  /** A byte for the controller.  On the free bus with DMA enabled this is the DMA probe, which
      keeps the word it finds and notes an invalid DMA address. */
  function HostWrite(l: Ladder, v: byte, p: Probe): Ladder
    requires WellFormed(l) && p.Valid()
  {
    if l.selected != 0 then
      if l.scsiIdx < SCSICMD_MAX then
        l.(hostWriteReg := v, scsiBuf := l.scsiBuf[l.scsiIdx := v], scsiIdx := l.scsiIdx + 1,
           cmdCounter := CMD_COUNT, currCommand := ProcessScsiCmd, statusReg := l.statusReg.(outEmpty := false))
      else l.(hostWriteReg := v)
    else if l.ctl.seqEn then
      l.(hostWriteReg := v, probed := [p.word / 256, p.word % 256],
         statusReg := if p.ok then l.statusReg else l.statusReg.(busErr := true))
    else l.(hostWriteReg := v)
  }

  /** The host reads the input register. */
  function ReadInput(l: Ladder): (r: (Ladder, byte)) {
    if l.selected == 0 then
      if l.probed != [] then (l.(probed := l.probed[1..]), l.probed[0]) else (l, l.hostWriteReg)
    else
    var l1 := l.(scsiIdx := 0, dataIdx := 0);
    var l2 := l1.(statusReg := l.statusReg.(inpFull := false), cmdCounter := CMD_COUNT,
                  stateCounter := 0, currCommand := SetInpFull);
    if l.toRead != [] then (l2.(toRead := l.toRead[1..]), l.toRead[0])
    else if l.phase == MessageByte then (l2, l.readInpReg)
    else (l1, l.readInpReg)
  }

  /** A write to the DMA address forgets the probe. */
  function WriteDma(l: Ladder): Ladder { l.(probed := []) }

  /** On the free bus with DMA on the host reads back the word a probe found, high byte first, and
      then the byte it wrote; an invalid address shows as a bus error. */
  lemma ProbeReadsBack(l: Ladder, v: byte, p: Probe)
    requires WellFormed(l) && p.Valid() && l.selected == 0 && l.ctl.seqEn
    ensures var l1 := HostWrite(l, v, p);
      var (l2, high) := ReadInput(l1);
      var (l3, low) := ReadInput(l2);
      && 256 * high + low == p.word && ReadInput(l3).1 == v
      && l1.statusReg.busErr == (l.statusReg.busErr || !p.ok)
  {
  }

  function ResetLadder(l: Ladder): Ladder {
    l.(cmdCounter := CMD_COUNT, phase := Idle, toRead := [], currCommand := CmdReset,
       scsiIdx := 0, dataIdx := 0, selected := 0)
  }

  function WriteControl(s: Wd, v: byte): Wd {
    var c := ControlOf(v);
    var l1 := if c.srst then ResetLadder(s.l) else s.l;
    var a1 := if c.srst then s.a.(pending := {}, asserted := false) else s.a;
    var a2 := if c.intEn && !l1.ctl.intEn && l1.statusReg.busErr
              then a1.(pending := a1.pending + {BusErr}, asserted := true)
              else a1;
    s.(l := l1.(ctl := c), a := a2)
  }

  /** The control register as the host reads it: pending seeks in the two top bits. */
  function ReadControl(s: Wd): byte {
    s.l.ctl.Value() + Bit(Seek(0) in s.a.pending, 0x40) + Bit(Seek(1) in s.a.pending, 0x80)
  }

  /** The status byte on the bus: a held reset hides everything but the bus error. */
  function ReadStatus(l: Ladder): byte {
    if l.ctl.srst then 0x10 + Bit(l.statusReg.busErr, 0x01) else l.statusReg.Value()
  }

  predicate IsSet(v: nat, weight: nat)
    requires weight > 0
  {
    v / weight % 2 == 1
  }

  /** What the eight bits of a status byte tell the host. */
  predicate ShowsStatus(l: Ladder, v: byte) {
    && (IsSet(v, 0x01) <==> l.statusReg.busErr)
    && (IsSet(v, 0x02) <==> !l.ctl.srst && l.statusReg.outEmpty)
    && (IsSet(v, 0x04) <==> !l.ctl.srst && l.statusReg.opComp)
    && (IsSet(v, 0x08) <==> !l.ctl.srst && l.statusReg.inpFull)
    && (IsSet(v, 0x10) <==> l.ctl.srst)
    && (IsSet(v, 0x20) <==> !l.ctl.srst && l.statusReg.msg)
    && (IsSet(v, 0x40) <==> !l.ctl.srst && l.statusReg.busy)
    && (IsSet(v, 0x80) <==> !l.ctl.srst && l.statusReg.scmd)
  }

  lemma FourBits(v: nat, b3: bool, b2: bool, b1: bool, b0: bool)
    requires v == Bit(b3, 8) + Bit(b2, 4) + Bit(b1, 2) + Bit(b0, 1)
    ensures (IsSet(v, 8) <==> b3) && (IsSet(v, 4) <==> b2) && (IsSet(v, 2) <==> b1) && (IsSet(v, 1) <==> b0)
  {
  }

  lemma LowBits(v: nat, high: nat, low: nat)
    requires v == 16 * high + low && low < 16
    ensures IsSet(v, 1) == IsSet(low, 1) && IsSet(v, 2) == IsSet(low, 2)
    ensures IsSet(v, 4) == IsSet(low, 4) && IsSet(v, 8) == IsSet(low, 8)
  {
    assert v / 2 == 8 * high + low / 2 && (8 * high + low / 2) % 2 == low / 2 % 2;
    assert v / 4 == 4 * high + low / 4 && (4 * high + low / 4) % 2 == low / 4 % 2;
    assert v / 8 == 2 * high + low / 8 && (2 * high + low / 8) % 2 == low / 8 % 2;
  }

  lemma HighBits(v: nat, high: nat, low: nat)
    requires v == 16 * high + low && low < 16
    ensures IsSet(v, 0x10) == IsSet(high, 1) && IsSet(v, 0x20) == IsSet(high, 2)
    ensures IsSet(v, 0x40) == IsSet(high, 4) && IsSet(v, 0x80) == IsSet(high, 8)
  {
    assert v / 16 == high && v / 32 == high / 2;
    assert v / 64 == high / 4 && v / 128 == high / 8;
  }

  /** A byte with the given bits, by halves. */
  lemma FreeStatusIsShown(l: Ladder)
    requires !l.ctl.srst
    ensures ShowsStatus(l, ReadStatus(l))
  {
    hide IsSet;
    var s := l.statusReg;
    var high := Bit(s.scmd, 8) + Bit(s.busy, 4) + Bit(s.msg, 2);
    var low := Bit(s.inpFull, 8) + Bit(s.opComp, 4) + Bit(s.outEmpty, 2) + Bit(s.busErr, 1);
    assert ReadStatus(l) == 16 * high + low;
    FourBits(high, s.scmd, s.busy, s.msg, false);
    FourBits(low, s.inpFull, s.opComp, s.outEmpty, s.busErr);
    LowBits(ReadStatus(l), high, low);
    HighBits(ReadStatus(l), high, low);
  }

  lemma StatusIsShown(l: Ladder)
    ensures ShowsStatus(l, ReadStatus(l))
  {
    if l.ctl.srst {
      assert ReadStatus(l) in {0x10, 0x11};
    } else {
      FreeStatusIsShown(l);
    }
  }

  /** The host sees a byte waiting in the input register. */
  predicate InputShown(l: Ladder): (shown: bool)
    ensures shown <==> l.statusReg.inpFull && !l.ctl.srst
  {
    StatusIsShown(l);
    IsSet(ReadStatus(l), 0x08)
  }

  function ClearBusError(l: Ladder): Ladder { l.(statusReg := l.statusReg.(busErr := false)) }

  /** The state after the power-on reset. */
  function PowerOn(): (s: Wd)
    ensures WellFormed(s.l)
  {
    Wd(Ladder(Idle, SELECTED, 0, 0, CmdReset, 0, 0, 0, seq(SCSICMD_MAX, i => 0), 0, 0, [], 0, ControlOf(0), [0, 0], []),
       Arbiter({}, false, 0), 0)
  }

  /** The CPU's reset: everything but the last commands of the units and the re-arm counter. */
  function PulseReset(s: Wd): (r: Wd)
    requires WellFormed(s.l)
    ensures WellFormed(r.l)
  {
    PowerOn().(l := PowerOn().l.(lastCmd := s.l.lastCmd), a := Arbiter({}, false, s.a.counter))
  }

  /** One turn of device time. */
  function Tick(s: Wd, o: Outcome): Wd
    requires WellFormed(s.l)
  {
    var l1 := TickState(s.l, o);
    var l2 := TickCommand(l1, o);
    s.(l := l2, a := TickArbiter(Notify(Notify(s.a, s.l, l1), l1, l2)))
  }

  // ---------------------------------------------------------------- runs

  datatype Event =
    | ETick(o: Outcome)
    | ESelect(v: byte)
    | EHostWrite(v: byte, probe: Probe)
    | EWriteDma
    | EReadInput
    | EWriteControl(c: byte)
    | EClearBusError
    | EWriteVector(v: byte)
    | EAck(level: nat)
    | EPulseReset

  /** Everything the machine can do, except naming a unit the controller does not have. */
  predicate Allowed(s: Wd, e: Event) {
    e.EHostWrite? ==> e.probe.Valid() && (s.l.scsiIdx == 1 ==> e.v / 32 < 2)
  }

  function Step(s: Wd, e: Event): (r: Wd)
    requires WellFormed(s.l) && Allowed(s, e)
    ensures WellFormed(r.l)
  {
    match e
    case ETick(o) => Tick(s, o)
    case ESelect(v) => s.(l := Select(s.l, v))
    case EHostWrite(v, p) => s.(l := HostWrite(s.l, v, p))
    case EWriteDma => s.(l := WriteDma(s.l))
    case EReadInput => s.(l := ReadInput(s.l).0)
    case EWriteControl(c) => WriteControl(s, c)
    case EClearBusError => s.(l := ClearBusError(s.l))
    case EWriteVector(v) => s.(intVector := v)
    case EAck(level) => s.(a := Acknowledge(s.a, level).0)
    case EPulseReset => PulseReset(s)
  }
}
