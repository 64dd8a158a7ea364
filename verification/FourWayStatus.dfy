/**
 What a board shows of its state: over any history after a reset, how far the handshake has got and
 whether the board is busy, told from the accesses of the host alone.
 */
module FourWayStatus {
  import opened FourWay
  import opened FourWayDelivery
  import opened Options
  import opened Words

  /** How often the host wrote to the instruction register of board n. */
  function WritesTo(es: seq<Event>, n: nat): nat
    decreases |es|
  {
    if es == [] then 0 else
    WritesTo(es[..|es| - 1], n) + if es[|es| - 1].EInstr? && es[|es| - 1].n == n then 1 else 0
  }

  /** The last value written there, if any. */
  function LastWritten(es: seq<Event>, n: nat): nat
    decreases |es|
  {
    if es == [] then 0 else
    var e := es[|es| - 1];
    if e.EInstr? && e.n == n then e.value % 256 else LastWritten(es[..|es| - 1], n)
  }

  function Stage(k: nat): InitState {
    if k == 0 then CblockLow else if k == 1 then CblockHigh else if k == 2 then AwaitVector else Ready
  }

  lemma CompleteKeepsBoards(s: Fw, r: Req)
    requires WellFormed(s) && IsReq(r)
    ensures WellFormed(Requested(s, r))
    ensures Complete(s, r).boards == s.boards && Complete(Requested(s, r), r).boards == s.boards
  {
  }

  lemma {:induction false} PortsKeepBoards(s: Fw, n: nat, value: nat, port: nat)
    requires WellFormed(s) && n < BOARDS && port <= PORTS
    ensures RunPorts(s, n, value, port).boards == s.boards
    decreases PORTS - port
  {
    hide Complete, Requested, Named;
    if port < PORTS {
      var r := Req(n, port, VEC_CMDEXECUTED);
      CompleteKeepsBoards(s, r);
      PortsKeepBoards(if Named(value, port) then Complete(Requested(s, r), r) else s, n, value, port + 1);
    }
  }

  /** What no character and no acknowledge changes. */
  predicate SameHandshake(a: Board, b: Board) {
    a.init == b.init && a.instr == b.instr && a.base == b.base && a.cmdBlock == b.cmdBlock && a.busy == b.busy
  }

  lemma {:induction false} PollKeepsHandshake(s: Fw, rx: seq<Option<byte>>, i: nat, n: nat)
    requires WellFormed(s) && |rx| == SLOTS && i <= SLOTS && n < BOARDS
    ensures SameHandshake(s.boards[n], Poll(s, rx, i).0.boards[n])
    decreases SLOTS - i
  {
    hide AddPending, Requested, At;
    if i < SLOTS {
      var m := i / PORTS;
      if s.boards[m].init == Ready && !s.boards[m].recvFull && rx[i].Some? {
        var b := s.boards[m].(recvFull := true, recvData := rx[i].value);
        var s1 := s.(boards := s.boards[m := b]);
        AddsOnly(s1, i);
        PollKeepsHandshake(AddPending(Requested(s1, At(i, VEC_RXCHAR)), At(i, VEC_RXCHAR)), rx, i + 1, n);
      } else {
        PollKeepsHandshake(s, rx, i + 1, n);
      }
    }
  }

  lemma AddsOnly(s: Fw, i: nat)
    requires WellFormed(s) && i < SLOTS
    ensures var r := At(i, VEC_RXCHAR);
      IsReq(r) && WellFormed(Requested(s, r)) && AddPending(Requested(s, r), r).boards == s.boards
  {
  }

  lemma TakeKeepsBoards(s: Fw)
    requires WellFormed(s)
    ensures TakeFirst(s).boards == s.boards
  {
  }

  lemma HandshakeStep(s: Fw, e: Event, n: nat, k: nat)
    requires WellFormed(s) && Possible(e) && n < BOARDS && s.boards[n].init == Stage(k)
    ensures var (b, c, mine) := (s.boards[n], Step(s, e).boards[n], e.EInstr? && e.n == n);
      && c.init == Stage(if mine then k + 1 else k)
      && c.instr == (if mine then e.value % 256 else b.instr)
      && c.busy == (if mine && k < 3 then true else if e.EStatusRead? && e.n == n then false else b.busy)
      && c.base == (if mine && k == 2 then e.value % 256 else b.base)
  {
    hide Poll, TakeFirst, RunPorts;
    match e
    case EInstr(m, value) =>
      var b := s.boards[m].(instr := value % 256);
      PortsKeepBoards(s.(boards := s.boards[m := b]), m, value, 0);
    case EProcess(rx) =>
      PollKeepsHandshake(s, rx, 0, n);
      TakeKeepsBoards(s);
      TakeKeepsBoards(Poll(s, rx, 0).0);
    case _ =>
  }

  /** The write that takes a step of the handshake of board n: one of the first three. */
  predicate HandedOver(es: seq<Event>, i: nat, n: nat)
    requires i < |es|
  {
    es[i].EInstr? && es[i].n == n && WritesTo(es[..i], n) < 3
  }

  predicate NotLooked(es: seq<Event>, i: nat, n: nat) { forall j :: i < j < |es| ==> es[j] != EStatusRead(n) }

  lemma Last(s: Fw, es: seq<Event>)
    requires WellFormed(s) && es != [] && forall e :: e in es ==> Possible(e)
    ensures forall e :: e in es[..|es| - 1] ==> Possible(e)
    ensures Run(s, es) == Step(Run(s, es[..|es| - 1]), es[|es| - 1])
  {
    hide Step, Run, Possible, WellFormed;
    var (xs, e) := (es[..|es| - 1], es[|es| - 1]);
    forall x | x in xs ensures Possible(x) { assert x in es; }
    assert es == xs + [e];
    RunsJoin(s, xs, e);
  }

  /** A board straight out of a reset. */
  predicate Fresh(s: Fw, n: nat)
    requires WellFormed(s) && n < BOARDS
  {
    s.boards[n] == Board(CblockLow, 0, 0, 0, false, false, 0)
  }

  lemma ResetsAreFresh(s: Fw, n: nat)
    requires WellFormed(s) && n < BOARDS
    ensures Fresh(Reset(s), n) && Fresh(PowerOn(), n)
    ensures Reset(s).slots == s.slots && Reset(s).current.None? && Reset(s).num == 0
    ensures PowerOn().current.None? && PowerOn().num == 0 && forall i :: 0 <= i < SLOTS ==> PowerOn().slots[i].None?
  {
  }

  lemma {:induction false} HandshakeCounts(s: Fw, es: seq<Event>, n: nat)
    requires WellFormed(s) && n < BOARDS && Fresh(s, n) && forall e :: e in es ==> Possible(e)
    ensures Run(s, es).boards[n].init == Stage(WritesTo(es, n)) && Run(s, es).boards[n].instr == LastWritten(es, n)
    decreases |es|
  {
    hide Step, Possible;
    if es != [] {
      Last(s, es);
      HandshakeCounts(s, es[..|es| - 1], n);
      HandshakeStep(Run(s, es[..|es| - 1]), es[|es| - 1], n, WritesTo(es[..|es| - 1], n));
    }
  }

  lemma Earlier(es: seq<Event>, n: nat)
    requires es != []
    ensures var (k, e) := (|es| - 1, es[|es| - 1]);
      forall i: nat :: i < k ==>
        && HandedOver(es, i, n) == HandedOver(es[..k], i, n)
        && (NotLooked(es, i, n) <==> NotLooked(es[..k], i, n) && e != EStatusRead(n))
  {
    hide WritesTo;
    assert forall i: nat :: i < |es| ==> es[..|es| - 1][..i] == es[..i];
  }

  /** A board is busy if and only if it was handed a step of the handshake and the status was not
      looked at since. */
  lemma {:induction false} BusyIff(s: Fw, es: seq<Event>, n: nat)
    requires WellFormed(s) && n < BOARDS && Fresh(s, n) && forall e :: e in es ==> Possible(e)
    ensures Run(s, es).boards[n].busy <==> exists i: nat :: i < |es| && HandedOver(es, i, n) && NotLooked(es, i, n)
    decreases |es|
  {
    hide Step, Possible, WellFormed;
    if es != [] {
      var (k, e) := (|es| - 1, es[|es| - 1]);
      Last(s, es);
      BusyIff(s, es[..k], n);
      HandshakeCounts(s, es[..k], n);
      HandshakeStep(Run(s, es[..k]), e, n, WritesTo(es[..k], n));
      hide Run;
      Earlier(es, n);
      assert NotLooked(es, k, n);
      assert HandedOver(es, k, n) <==> e.EInstr? && e.n == n && WritesTo(es[..k], n) < 3;
      hide HandedOver, NotLooked;
    }
  }

  /** So the status byte, the data set ready bits of the ports apart, shows in bit 0 whether there is
      something the host has not looked after, and in bits 2 and 3 whether the command block and the
      vector are still missing: two and three writes. */
  lemma StatusShows(s: Fw, es: seq<Event>, n: nat, dsr: nat)
    requires WellFormed(s) && n < BOARDS && Fresh(s, n) && forall e :: e in es ==> Possible(e)
    requires dsr < 0x100 && dsr % 0x10 == 0
    ensures var v := Run(s, es).boards[n].Status(dsr);
      && v / 16 * 16 == dsr
      && (v % 2 == 1 <==> exists i: nat :: i < |es| && HandedOver(es, i, n) && NotLooked(es, i, n))
      && (v / 4 % 2 == 1 <==> WritesTo(es, n) < 2) && (v / 8 % 2 == 1 <==> WritesTo(es, n) < 3)
  {
    hide Run, HandedOver, NotLooked, WritesTo;
    BusyIff(s, es, n);
    HandshakeCounts(s, es, n);
    StatusOf(Run(s, es).boards[n], dsr);
  }

  lemma StatusOf(b: Board, dsr: nat)
    requires dsr < 0x100 && dsr % 0x10 == 0
    ensures var v := b.Status(dsr);
      && v / 16 * 16 == dsr && (v % 2 == 1 <==> b.busy)
      && (v / 4 % 2 == 1 <==> b.init in {CblockLow, CblockHigh}) && (v / 8 % 2 == 1 <==> b.init != Ready)
  {
    b.StatusBits(dsr);
  }
}
