/**
 The completion interrupts of the two 4-Way boards (src/fourway.c).  Eight ports share one
 interrupt line; what cannot be raised at once waits in a slot per port.  The tally keeps,
 as multisets of requests, what became of everything that was ever asked for.
 */
module FourWay {
  import opened Options
  import opened Words

  const BOARDS: nat := 2
  const PORTS: nat := 4
  const SLOTS: nat := 8
  const LEVEL: nat := 4
  const VEC_RXCHAR: nat := 1
  const VEC_CMDEXECUTED: nat := 3

  /** A request for an interrupt: board, port and condition. */
  datatype Req = Req(n: nat, port: nat, cond: nat)

  datatype InitState = CblockLow | CblockHigh | AwaitVector | Ready

  datatype Board = Board(
    init: InitState, instr: nat, base: nat,
    cmdBlock: nat,      // word address of the command block
    busy: bool,         // something was handed over since the status was last read
    recvFull: bool,     // a received character waits for the host
    recvData: byte)
  {
    predicate Inhibited() { instr / 128 % 2 == 1 }

    /** The status the host reads, with the data set ready bits of the four ports in its upper
        half. */
    function Status(dsr: nat): nat {
      (if busy then 0x01 else 0) + (if init.CblockLow? || init.CblockHigh? then 0x04 else 0)
      + (if init.Ready? then 0 else 0x08) + dsr
    }

    lemma StatusBits(dsr: nat)
      requires dsr < 0x100 && dsr % 0x10 == 0
      ensures var v := Status(dsr);
        && v < 0x100 && v / 0x10 * 0x10 == dsr && (v % 2 == 1 <==> busy)
        && (v / 4 % 2 == 1 <==> init in {CblockLow, CblockHigh}) && (v / 8 % 2 == 1 <==> init != Ready)
    {
    }
  }

  const AFTER_RESET := Board(CblockLow, 0, 0, 0, false, false, 0)

  datatype Tally = Tally(
    requested: multiset<Req>, acked: multiset<Req>, inhibited: multiset<Req>, overwritten: multiset<Req>)

  datatype Fw = Fw(
    boards: seq<Board>,
    slots: seq<Option<nat>>,  // the condition waiting for each port
    num: int,                 // numPendingComplete
    current: Option<Req>,     // the request on the line
    vector: nat,              // and the vector fixed for it
    tally: Tally)

  ghost predicate WellFormed(s: Fw) {
    && |s.boards| == BOARDS && |s.slots| == SLOTS
    && (s.current.Some? ==> s.current.value.n < BOARDS && s.current.value.port < PORTS)
  }

  predicate IsReq(r: Req) { r.n < BOARDS && r.port < PORTS }

  function Index(r: Req): (i: nat)
    requires IsReq(r)
    ensures i < SLOTS
  {
    PORTS * r.n + r.port
  }

  function At(i: nat, cond: nat): Req { Req(i / PORTS, i % PORTS, cond) }

  function VectorFor(s: Fw, r: Req): (v: nat)
    requires IsReq(r) && |s.boards| == BOARDS
    ensures v < 256
  {
    (s.boards[r.n].base + 4 * r.port + r.cond) % 256
  }

  /** The request waiting in a slot, if any. */
  function Entry(slots: seq<Option<nat>>, i: nat): multiset<Req>
    requires i < |slots|
  {
    if slots[i].Some? then multiset{At(i, slots[i].value)} else multiset{}
  }

  function AddPending(s: Fw, r: Req): (t: Fw)
    requires WellFormed(s) && IsReq(r)
    ensures WellFormed(t)
  {
    var i := Index(r);
    s.(slots := s.slots[i := Some(r.cond)],
       num := if s.slots[i].Some? then s.num else s.num + 1,
       tally := s.tally.(overwritten := s.tally.overwritten + Entry(s.slots, i)))
  }

  /** A request meets the line: dropped when its board inhibits interrupts, queued when the
      line is taken, raised otherwise. */
  function Complete(s: Fw, r: Req): (t: Fw)
    requires WellFormed(s) && IsReq(r)
    ensures WellFormed(t)
  {
    if s.boards[r.n].Inhibited() then s.(tally := s.tally.(inhibited := s.tally.inhibited + multiset{r}))
    else if s.current.Some? then AddPending(s, r)
    else s.(current := Some(r), vector := VectorFor(s, r))
  }

  function Requested(s: Fw, r: Req): Fw {
    s.(tally := s.tally.(requested := s.tally.requested + multiset{r}))
  }

  predicate Named(value: nat, port: nat) { value / Pow2(port) % 2 == 1 }

  /** The commands of the ports an instruction write names, from a port on.  Every command
      ends in exactly one completion. */
  function RunPorts(s: Fw, n: nat, value: nat, port: nat): (t: Fw)
    requires WellFormed(s) && n < BOARDS && port <= PORTS
    ensures WellFormed(t)
    decreases PORTS - port
  {
    if port == PORTS then s else
    var r := Req(n, port, VEC_CMDEXECUTED);
    RunPorts(if Named(value, port) then Complete(Requested(s, r), r) else s, n, value, port + 1)
  }

  /** A write to the instruction register: three steps of the handshake, then commands. */
  function InstrWrite(s: Fw, n: nat, value: nat): (t: Fw)
    requires WellFormed(s) && n < BOARDS
    ensures WellFormed(t)
  {
    var b := s.boards[n].(instr := value % 256);
    match b.init
    case CblockLow => s.(boards := s.boards[n := b.(init := CblockHigh, busy := true, cmdBlock := value % 0x1_0000)])
    case CblockHigh =>
      s.(boards := s.boards[n := b.(init := AwaitVector, busy := true,
                                    cmdBlock := b.cmdBlock % 0x1_0000 + 0x1_0000 * (value % 256))])
    case AwaitVector => s.(boards := s.boards[n := b.(init := Ready, busy := true, base := value % 256)])
    case Ready => RunPorts(s.(boards := s.boards[n := b]), n, value, 0)
  }

  /** Looks for received characters from slot i on; one per board until the host reads it. */
  function Poll(s: Fw, rx: seq<Option<byte>>, i: nat): (r: (Fw, nat))
    requires WellFormed(s) && |rx| == SLOTS && i <= SLOTS
    ensures WellFormed(r.0)
    decreases SLOTS - i
  {
    if i == SLOTS then (s, 0) else
    var n := i / PORTS;
    if s.boards[n].init == Ready && !s.boards[n].recvFull && rx[i].Some? then
      var r := At(i, VEC_RXCHAR);
      var b := s.boards[n].(recvFull := true, recvData := rx[i].value);
      var (t, added) := Poll(AddPending(Requested(s.(boards := s.boards[n := b]), r), r), rx, i + 1);
      (t, added + 1)
    else Poll(s, rx, i + 1)
  }

  function FirstWaiting(slots: seq<Option<nat>>, i: nat): (k: nat)
    requires i <= |slots|
    ensures i <= k <= |slots| && (k < |slots| ==> slots[k].Some?)
    ensures forall j :: i <= j < k ==> slots[j].None?
    decreases |slots| - i
  {
    if i == |slots| || slots[i].Some? then i else FirstWaiting(slots, i + 1)
  }

  /** Takes the first waiting request to the line. */
  function TakeFirst(s: Fw): (t: Fw)
    requires WellFormed(s)
    ensures WellFormed(t)
  {
    var i := FirstWaiting(s.slots, 0);
    if i == SLOTS then s
    else Complete(s.(slots := s.slots[i := None], num := s.num - 1), At(i, s.slots[i].value))
  }

  /** Called regularly, with what the sockets have to offer. */
  function Process(s: Fw, rx: seq<Option<byte>>): (t: Fw)
    requires WellFormed(s) && |rx| == SLOTS
    ensures WellFormed(t)
  {
    if s.current.Some? then s
    else if s.num == 0 then
      var (t, added) := Poll(s, rx, 0);
      if added == 0 then t else TakeFirst(t)
    else TakeFirst(s)
  }

  function IrqAck(s: Fw, level: nat): (r: (Fw, Option<nat>))
    requires WellFormed(s)
    ensures WellFormed(r.0)
  {
    if level != LEVEL || s.current.None? then (s, None)
    else (s.(current := None, tally := s.tally.(acked := s.tally.acked + multiset{s.current.value})), Some(s.vector))
  }

  function RecvRead(s: Fw, n: nat): Fw
    requires WellFormed(s) && n < BOARDS
  {
    s.(boards := s.boards[n := s.boards[n].(recvFull := false)])
  }

  /** The board has taken what it was handed by the time the host looks again. */
  function StatusRead(s: Fw, n: nat): Fw
    requires WellFormed(s) && n < BOARDS
  {
    s.(boards := s.boards[n := s.boards[n].(busy := false)])
  }

  /** The reset leaves the table of waiting requests as it is. */
  function Reset(s: Fw): (t: Fw)
    requires WellFormed(s)
    ensures WellFormed(t)
  {
    s.(boards := [AFTER_RESET, AFTER_RESET], num := 0, current := None)
  }

  function PowerOn(): (s: Fw)
    ensures WellFormed(s)
  {
    Fw([AFTER_RESET, AFTER_RESET], seq(SLOTS, i => None), 0, None, 0,
       Tally(multiset{}, multiset{}, multiset{}, multiset{}))
  }

  // ---------------------------------------------------------------- runs

  datatype Event =
    | EInstr(n: nat, value: nat)
    | EProcess(rx: seq<Option<byte>>)
    | EAck(level: nat)
    | ERecvRead(n: nat)
    | EStatusRead(n: nat)

  predicate Possible(e: Event) {
    && (e.EInstr? || e.ERecvRead? || e.EStatusRead? ==> e.n < BOARDS)
    && (e.EProcess? ==> |e.rx| == SLOTS)
  }

  function Step(s: Fw, e: Event): (t: Fw)
    requires WellFormed(s) && Possible(e)
    ensures WellFormed(t)
  {
    match e
    case EInstr(n, value) => InstrWrite(s, n, value)
    case EProcess(rx) => Process(s, rx)
    case EAck(level) => IrqAck(s, level).0
    case ERecvRead(n) => RecvRead(s, n)
    case EStatusRead(n) => StatusRead(s, n)
  }

  ghost function Run(s: Fw, evs: seq<Event>): (t: Fw)
    requires WellFormed(s) && forall e :: e in evs ==> Possible(e)
    ensures WellFormed(t)
    decreases |evs|
  {
    if evs == [] then s else Run(Step(s, evs[0]), evs[1..])
  }
}
