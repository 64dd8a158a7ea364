/** Nothing a port asked for is lost or invented on its way through the 4-Way boards. */
module FourWayDelivery {
  import opened FourWay
  import opened Options
  import opened Words

  /** The requests waiting in the first k slots, and how many there are. */
  ghost function Waiting(slots: seq<Option<nat>>, k: nat): multiset<Req>
    requires k <= |slots|
  {
    if k == 0 then multiset{} else Waiting(slots, k - 1) + Entry(slots, k - 1)
  }

  ghost function OnLine(s: Fw): multiset<Req> {
    if s.current.Some? then multiset{s.current.value} else multiset{}
  }

  /** Every request is acknowledged, on the line, waiting, inhibited or overwritten by a later
      one of its own port. */
  ghost predicate Balanced(s: Fw)
    requires WellFormed(s)
  {
    s.tally.requested
    == s.tally.acked + OnLine(s) + Waiting(s.slots, SLOTS) + s.tally.inhibited + s.tally.overwritten
  }

  ghost predicate Counted(s: Fw)
    requires WellFormed(s)
  {
    s.num == |Waiting(s.slots, SLOTS)|
  }

  /** Interrupts come from initialised boards only, and the vector on the line is the one its
      board still stands for. */
  ghost predicate Vectored(s: Fw)
    requires WellFormed(s)
  {
    && (s.current.Some? ==> s.vector == VectorFor(s, s.current.value) && s.boards[s.current.value.n].init == Ready)
    && (forall i :: 0 <= i < SLOTS && s.slots[i].Some? ==> s.boards[i / PORTS].init == Ready)
  }

  ghost predicate Inv(s: Fw) { WellFormed(s) && Balanced(s) && Counted(s) && Vectored(s) }

  /** Two facts about sums of bags, count by count. */
  lemma AddToBoth(a: multiset<Req>, x: multiset<Req>, b: multiset<Req>, y: multiset<Req>, z: multiset<Req>)
    requires a + x == b + y
    ensures a + z + x == b + z + y
  {
    forall r ensures (a + z + x)[r] == (b + z + y)[r] {
      assert (a + x)[r] == (b + y)[r];
    }
  }

  lemma Swap(a: multiset<Req>, x: multiset<Req>, y: multiset<Req>)
    ensures a + x + y == a + y + x
  {
  }

  lemma {:induction false} SlotBeyond(slots: seq<Option<nat>>, i: nat, e: Option<nat>, k: nat)
    requires k <= i < |slots|
    ensures Waiting(slots[i := e], k) == Waiting(slots, k)
  {
    if k > 0 { SlotBeyond(slots, i, e, k - 1); }
  }

  lemma {:induction false} SlotChanges(slots: seq<Option<nat>>, i: nat, e: Option<nat>, k: nat)
    requires i < k <= |slots|
    ensures Waiting(slots[i := e], k) + Entry(slots, i) == Waiting(slots, k) + Entry(slots[i := e], i)
  {
    var last, last' := Entry(slots, k - 1), Entry(slots[i := e], k - 1);
    hide Entry;
    if i == k - 1 {
      SlotBeyond(slots, i, e, k - 1);
      Swap(Waiting(slots, k - 1), last, last');
    } else {
      SlotChanges(slots, i, e, k - 1);
      EntryElsewhere(slots, i, e, k - 1);
      AddToBoth(Waiting(slots[i := e], k - 1), Entry(slots, i), Waiting(slots, k - 1), Entry(slots[i := e], i), last);
    }
  }

  lemma EntryElsewhere(slots: seq<Option<nat>>, i: nat, e: Option<nat>, j: nat)
    requires i < |slots| && j < |slots| && i != j
    ensures Entry(slots[i := e], j) == Entry(slots, j)
  {
  }

  lemma QueueBalances(q: multiset<Req>, a: multiset<Req>, l: multiset<Req>, w: multiset<Req>, h: multiset<Req>,
                      o: multiset<Req>, x: multiset<Req>, w2: multiset<Req>, e: multiset<Req>)
    requires q == a + l + w + h + o && w2 + e == w + x
    ensures q + x == a + l + w2 + h + (o + e)
    ensures |w2| + |e| == |w| + |x|
  {
    assert |w2 + e| == |w + x|;
    forall r ensures (q + x)[r] == (a + l + w2 + h + (o + e))[r] {
      assert (w2 + e)[r] == (w + x)[r];
    }
  }

  lemma AddPendingBalances(s: Fw, r: Req)
    requires WellFormed(s) && Balanced(s) && Counted(s) && IsReq(r)
    ensures Balanced(AddPending(Requested(s, r), r)) && Counted(AddPending(Requested(s, r), r))
  {
    hide Waiting;
    var i := Index(r);
    var t := AddPending(Requested(s, r), r);
    SlotChanges(s.slots, i, Some(r.cond), SLOTS);
    assert Entry(t.slots, i) == multiset{r};
    QueueBalances(s.tally.requested, s.tally.acked, OnLine(s), Waiting(s.slots, SLOTS), s.tally.inhibited,
                  s.tally.overwritten, multiset{r}, Waiting(t.slots, SLOTS), Entry(s.slots, i));
  }

  lemma AddPendingKeeps(s: Fw, r: Req)
    requires Inv(s) && IsReq(r) && s.boards[r.n].init == Ready
    ensures Inv(AddPending(Requested(s, r), r)) && AddPending(Requested(s, r), r).current == s.current
  {
    hide Balanced, Counted;
    AddPendingBalances(s, r);
  }

  lemma DropKeeps(s: Fw, r: Req)
    requires Inv(s) && IsReq(r) && s.boards[r.n].Inhibited()
    ensures Inv(Complete(Requested(s, r), r))
  {
    hide Waiting, Balanced, Counted;
    DropBalances(s, r);
  }

  lemma DropBalances(s: Fw, r: Req)
    requires WellFormed(s) && Balanced(s) && Counted(s) && IsReq(r) && s.boards[r.n].Inhibited()
    ensures var t := Complete(Requested(s, r), r); Balanced(t) && Counted(t)
  {
    hide Waiting;
  }

  lemma RaiseKeeps(s: Fw, r: Req)
    requires Inv(s) && IsReq(r) && s.boards[r.n].init == Ready && !s.boards[r.n].Inhibited() && s.current.None?
    ensures Inv(Complete(Requested(s, r), r))
  {
    hide Waiting, Balanced, Counted;
    RaiseBalances(s, r);
  }

  lemma RaiseBalances(s: Fw, r: Req)
    requires WellFormed(s) && Balanced(s) && Counted(s) && IsReq(r) && !s.boards[r.n].Inhibited() && s.current.None?
    ensures var t := Complete(Requested(s, r), r); Balanced(t) && Counted(t)
  {
    hide Waiting;
  }

  lemma CompleteKeeps(s: Fw, r: Req)
    requires Inv(s) && IsReq(r) && s.boards[r.n].init == Ready
    ensures Inv(Complete(Requested(s, r), r))
  {
    hide Balanced, Counted, Vectored, AddPending;
    if s.boards[r.n].Inhibited() {
      DropKeeps(s, r);
    } else if s.current.Some? {
      AddPendingKeeps(s, r);
    } else {
      RaiseKeeps(s, r);
    }
  }

  lemma {:induction false} RunPortsKeeps(s: Fw, n: nat, value: nat, port: nat)
    requires Inv(s) && n < BOARDS && port <= PORTS && s.boards[n].init == Ready
    ensures Inv(RunPorts(s, n, value, port))
    decreases PORTS - port
  {
    hide Balanced, Counted, Vectored, Complete, Named;
    if port < PORTS {
      var r := Req(n, port, VEC_CMDEXECUTED);
      CompleteKeeps(s, r);
      CompleteLeavesBoards(Requested(s, r), r);
      RunPortsKeeps(if Named(value, port) then Complete(Requested(s, r), r) else s, n, value, port + 1);
    }
  }

  lemma CompleteLeavesBoards(s: Fw, r: Req)
    requires WellFormed(s) && IsReq(r)
    ensures Complete(s, r).boards == s.boards
  {
  }

  lemma BoardChangeKeeps(s: Fw, n: nat, b: Board)
    requires Inv(s) && n < BOARDS
    requires s.boards[n].init == Ready ==> b.init == Ready && b.base == s.boards[n].base
    ensures Inv(s.(boards := s.boards[n := b]))
  {
  }

  lemma {:induction false} PollKeeps(s: Fw, rx: seq<Option<byte>>, i: nat)
    requires Inv(s) && |rx| == SLOTS && i <= SLOTS
    ensures Inv(Poll(s, rx, i).0) && Poll(s, rx, i).0.current == s.current
    decreases SLOTS - i
  {
    hide Balanced, Counted, Vectored, AddPending;
    if i < SLOTS {
      var n := i / PORTS;
      if s.boards[n].init == Ready && !s.boards[n].recvFull && rx[i].Some? {
        var b := s.boards[n].(recvFull := true, recvData := rx[i].value);
        BoardChangeKeeps(s, n, b);
        var s1, r := s.(boards := s.boards[n := b]), At(i, VEC_RXCHAR);
        AddPendingKeeps(s1, r);
        PollKeeps(AddPending(Requested(s1, r), r), rx, i + 1);
      } else {
        PollKeeps(s, rx, i + 1);
      }
    }
  }

  lemma LeaveBalances(q: multiset<Req>, a: multiset<Req>, l: multiset<Req>, w: multiset<Req>, h: multiset<Req>,
                      o: multiset<Req>, x: multiset<Req>, w2: multiset<Req>)
    requires q == a + l + w + h + o && w2 + x == w && l == multiset{}
    ensures q == a + x + w2 + h + o && q == a + l + w2 + (h + x) + o
    ensures |w2| + |x| == |w|
  {
  }

  lemma LeaveSlotBalances(s: Fw, i: nat)
    requires WellFormed(s) && Balanced(s) && Counted(s) && s.current.None? && i < SLOTS && s.slots[i].Some?
    ensures var r := At(i, s.slots[i].value);
      var t := Complete(s.(slots := s.slots[i := None], num := s.num - 1), r);
      Balanced(t) && Counted(t)
  {
    hide Waiting;
    var r := At(i, s.slots[i].value);
    var slots := s.slots[i := None];
    SlotChanges(s.slots, i, None, SLOTS);
    assert Waiting(slots, SLOTS) + multiset{r} == Waiting(s.slots, SLOTS);
    LeaveBalances(s.tally.requested, s.tally.acked, OnLine(s), Waiting(s.slots, SLOTS), s.tally.inhibited,
                  s.tally.overwritten, multiset{r}, Waiting(slots, SLOTS));
  }

  lemma TakeFirstKeeps(s: Fw)
    requires Inv(s) && s.current.None?
    ensures Inv(TakeFirst(s))
  {
    hide Balanced, Counted;
    var i := FirstWaiting(s.slots, 0);
    if i < SLOTS { LeaveSlotBalances(s, i); }
  }

  lemma InitStepKeeps(s: Fw, n: nat, value: nat)
    requires Inv(s) && n < BOARDS && s.boards[n].init != Ready
    ensures Inv(InstrWrite(s, n, value))
  {
    hide Balanced, Counted, Vectored, RunPorts;
    BoardChangeKeeps(s, n, InstrWrite(s, n, value).boards[n]);
  }

  lemma AckKeeps(s: Fw, level: nat)
    requires Inv(s)
    ensures Inv(IrqAck(s, level).0)
  {
  }

  lemma StepKeeps(s: Fw, e: Event)
    requires Inv(s) && Possible(e)
    ensures Inv(Step(s, e))
  {
    hide Balanced, Counted, Waiting, Poll, TakeFirst, RunPorts;
    match e
    case EInstr(n, value) =>
      var b := s.boards[n].(instr := value % 256);
      BoardChangeKeeps(s, n, b);
      var t := s.(boards := s.boards[n := b]);
      if b.init == Ready {
        RunPortsKeeps(t, n, value, 0);
      } else {
        InitStepKeeps(s, n, value);
      }
    case EProcess(rx) =>
      if s.current.None? {
        if s.num == 0 {
          PollKeeps(s, rx, 0);
          TakeFirstKeeps(Poll(s, rx, 0).0);
        } else {
          TakeFirstKeeps(s);
        }
      }
    case EAck(level) => AckKeeps(s, level);
    case ERecvRead(n) => BoardChangeKeeps(s, n, s.boards[n].(recvFull := false));
    case EStatusRead(n) => BoardChangeKeeps(s, n, s.boards[n].(busy := false));
  }

  lemma PowerOnHolds()
    ensures Inv(PowerOn())
  {
  }

  /** Over any run after power-on every request is accounted for. */
  lemma {:induction false} RequestsAreConserved(s: Fw, evs: seq<Event>)
    requires Inv(s) && forall e :: e in evs ==> Possible(e)
    ensures Inv(Run(s, evs))
    decreases |evs|
  {
    if evs != [] {
      StepKeeps(s, evs[0]);
      RequestsAreConserved(Step(s, evs[0]), evs[1..]);
    }
  }

  /** In every state reachable from power-on: what was requested is what was acknowledged, is on
      the line, waits, was inhibited or was overwritten; the counter counts the waiting; and
      the vector on the line is base + 4 * port + condition of its request. */
  lemma EveryRequestIsAccountedFor(evs: seq<Event>)
    requires forall e :: e in evs ==> Possible(e)
    ensures var z := Run(PowerOn(), evs);
      && z.tally.requested
         == z.tally.acked + OnLine(z) + Waiting(z.slots, SLOTS) + z.tally.inhibited + z.tally.overwritten
      && z.num == |Waiting(z.slots, SLOTS)|
      && (z.current.Some? ==>
            z.vector == (z.boards[z.current.value.n].base + 4 * z.current.value.port + z.current.value.cond) % 256)
  {
    hide Balanced, Counted, Vectored, Waiting, Run, PowerOn;
    PowerOnHolds();
    RequestsAreConserved(PowerOn(), evs);
    InvMeans(Run(PowerOn(), evs));
  }

  lemma InvMeans(z: Fw)
    requires Inv(z)
    ensures z.tally.requested
      == z.tally.acked + OnLine(z) + Waiting(z.slots, SLOTS) + z.tally.inhibited + z.tally.overwritten
    ensures z.num == |Waiting(z.slots, SLOTS)|
    ensures z.current.Some?
      ==> z.vector == (z.boards[z.current.value.n].base + 4 * z.current.value.port + z.current.value.cond) % 256
  {
  }

  /** The vector an acknowledge hands back is the one fixed when the line was raised: while a
      request is on the line no event but its own acknowledge changes it or its vector. */
  lemma VectorIsStable(s: Fw, e: Event)
    requires Inv(s) && Possible(e) && s.current.Some?
    ensures e == EAck(LEVEL) ==> IrqAck(s, LEVEL).1 == Some(s.vector) && Step(s, e).current.None?
    ensures e != EAck(LEVEL) ==> Step(s, e).current == s.current && Step(s, e).vector == s.vector
  {
    if e.EInstr? {
      var b := s.boards[e.n].(instr := e.value % 256);
      RunPortsLeavesLine(s.(boards := s.boards[e.n := b]), e.n, e.value, 0);
    }
  }

  lemma {:induction false} RunPortsLeavesLine(s: Fw, n: nat, value: nat, port: nat)
    requires WellFormed(s) && n < BOARDS && port <= PORTS && s.current.Some?
    ensures RunPorts(s, n, value, port).current == s.current && RunPorts(s, n, value, port).vector == s.vector
    decreases PORTS - port
  {
    if port < PORTS {
      var r := Req(n, port, VEC_CMDEXECUTED);
      RunPortsLeavesLine(if Named(value, port) then Complete(Requested(s, r), r) else s, n, value, port + 1);
    }
  }

  /** A reset keeps the books straight exactly when nothing is waiting or on the line. */
  lemma ResetIsCleanIff(s: Fw)
    requires Inv(s)
    ensures Inv(Reset(s)) <==> s.current.None? && s.num == 0
  {
    if s.num == 0 {
      NothingWaiting(s.slots, SLOTS);
      var settled := s.tally.acked + s.tally.inhibited + s.tally.overwritten;
      assert s.tally.requested == settled + OnLine(s);
      assert Balanced(Reset(s)) <==> s.tally.requested == settled;
    }
  }

  lemma {:induction false} NothingWaiting(slots: seq<Option<nat>>, k: nat)
    requires k <= |slots| && |Waiting(slots, k)| == 0
    ensures Waiting(slots, k) == multiset{}
    ensures forall i :: 0 <= i < k ==> slots[i].None?
  {
    if k > 0 {
      assert |Waiting(slots, k)| == |Waiting(slots, k - 1)| + |Entry(slots, k - 1)|;
      NothingWaiting(slots, k - 1);
    }
  }

  // ---------------------------------------------------------------- a reset that loses a request

  /** The handshake of the first board, then a command of its first port. */
  const FIRST_COMMAND: seq<Event> := [EInstr(0, 0), EInstr(0, 0), EInstr(0, 0x40), EInstr(0, 1)]

  lemma OnlyPortA(s: Fw)
    requires WellFormed(s)
    ensures RunPorts(s, 0, 1, 1) == s
  {
    assert RunPorts(s, 0, 1, 4) == s;
    assert !Named(1, 3) && RunPorts(s, 0, 1, 3) == s;
    assert !Named(1, 2) && RunPorts(s, 0, 1, 2) == s;
    assert !Named(1, 1);
  }

  lemma RunOfOne(s: Fw, e: Event)
    requires WellFormed(s) && Possible(e)
    ensures Run(s, [e]) == Step(s, e)
  {
    assert [e][1..] == [];
  }

  lemma {:induction false} RunsJoin(s: Fw, xs: seq<Event>, e: Event)
    requires WellFormed(s) && Possible(e) && forall x :: x in xs ==> Possible(x)
    ensures Run(s, xs + [e]) == Step(Run(s, xs), e)
    decreases |xs|
  {
    hide Step;
    if xs == [] {
      assert xs + [e] == [e];
      RunOfOne(s, e);
    } else {
      RunsJoin(Step(s, xs[0]), xs[1..], e);
      assert (xs + [e])[1..] == xs[1..] + [e];
    }
  }

  /** The handshake leaves the first board ready and the line free. */
  lemma HandshakeReadies()
    ensures var s := Run(PowerOn(), [EInstr(0, 0), EInstr(0, 0), EInstr(0, 0x40)]);
      s.boards[0].init == Ready && s.current.None?
  {
    var one, two := EInstr(0, 0), EInstr(0, 0x40);
    RunOfOne(PowerOn(), one);
    RunsJoin(PowerOn(), [one], one);
    RunsJoin(PowerOn(), [one] + [one], two);
    assert [one, one, two] == [one] + [one] + [two];
    hide Run;
    var s1 := Step(PowerOn(), one);
    assert s1.boards[0].init == CblockHigh && s1.current.None?;
    var s2 := Step(s1, one);
    assert s2.boards[0].init == AwaitVector && s2.current.None?;
  }

  lemma CommandOfPortA(s: Fw)
    requires WellFormed(s)
    ensures var r := Req(0, 0, VEC_CMDEXECUTED);
      RunPorts(s, 0, 1, 0) == Complete(Requested(s, r), r)
  {
    hide Complete;
    var r := Req(0, 0, VEC_CMDEXECUTED);
    assert Named(1, 0);
    OnlyPortA(Complete(Requested(s, r), r));
  }

  lemma CommandRaises(s: Fw)
    requires WellFormed(s) && s.boards[0].init == Ready && s.current.None?
    ensures Step(s, EInstr(0, 1)).current.Some? && Step(s, EInstr(0, 1)).boards[0].init == Ready
  {
    hide RunPorts;
    var b := s.(boards := s.boards[0 := s.boards[0].(instr := 1)]);
    assert !b.boards[0].Inhibited();
    CommandOfPortA(b);
  }

  lemma FirstCommandRaises()
    ensures Run(PowerOn(), FIRST_COMMAND).current.Some? && Run(PowerOn(), FIRST_COMMAND).boards[0].init == Ready
  {
    hide Step, Run, PowerOn;
    var handshake := [EInstr(0, 0), EInstr(0, 0), EInstr(0, 0x40)];
    HandshakeReadies();
    RunsJoin(PowerOn(), handshake, EInstr(0, 1));
    assert FIRST_COMMAND == handshake + [EInstr(0, 1)];
    CommandRaises(Run(PowerOn(), handshake));
  }

  /** From power-on to a reset that loses a request: initialise a board, give one command and
      reset before its interrupt is acknowledged. */
  lemma ResetLosesARequest()
    ensures Inv(Run(PowerOn(), FIRST_COMMAND)) && !Inv(Reset(Run(PowerOn(), FIRST_COMMAND)))
  {
    hide Inv, Run, PowerOn, Reset;
    PowerOnHolds();
    RequestsAreConserved(PowerOn(), FIRST_COMMAND);
    FirstCommandRaises();
    ResetIsCleanIff(Run(PowerOn(), FIRST_COMMAND));
  }

  // ---------------------------------------------------------------- what is overwritten

  /** The requests that commands of the ports an instruction names replace, from a port on: those
      waiting in the slots of ports whose turn comes with the line taken. */
  ghost function Replaced(slots: seq<Option<nat>>, taken: bool, n: nat, value: nat, port: nat): multiset<Req>
    requires |slots| == SLOTS && n < BOARDS && port <= PORTS
    decreases PORTS - port
  {
    if port == PORTS then multiset{}
    else
      (if taken && Named(value, port) then Entry(slots, PORTS * n + port) else multiset{})
      + Replaced(slots, taken || Named(value, port), n, value, port + 1)
  }

  lemma {:induction false} ReplacedAhead(slots: seq<Option<nat>>, taken: bool, n: nat, value: nat, port: nat, i: nat,
                                         e: Option<nat>)
    requires |slots| == SLOTS && n < BOARDS && port <= PORTS && i < PORTS * n + port && i < SLOTS
    ensures Replaced(slots[i := e], taken, n, value, port) == Replaced(slots, taken, n, value, port)
    decreases PORTS - port
  {
    if port < PORTS {
      hide Named, Entry, Replaced;
      ReplacedStep(slots, taken, n, value, port);
      ReplacedStep(slots[i := e], taken, n, value, port);
      ReplacedAhead(slots, taken || Named(value, port), n, value, port + 1, i, e);
      EntryElsewhere(slots, i, e, PORTS * n + port);
    }
  }

  /** A request overwrites what waits in its own slot, if the line is taken. */
  lemma CompleteOverwrites(s: Fw, r: Req)
    requires WellFormed(s) && IsReq(r)
    ensures var t, i := Complete(Requested(s, r), r), Index(r);
      && t.boards == s.boards
      && (s.boards[r.n].Inhibited() ==> t.tally.overwritten == s.tally.overwritten)
      && (!s.boards[r.n].Inhibited() ==>
            && t.current.Some? && t.slots == (if s.current.Some? then s.slots[i := Some(r.cond)] else s.slots)
            && t.tally.overwritten
               == s.tally.overwritten + (if s.current.Some? then Entry(s.slots, i) else multiset{}))
  {
  }

  /** The state after the command of one port, if it is named. */
  ghost function AfterPort(s: Fw, n: nat, value: nat, port: nat): (t: Fw)
    requires WellFormed(s) && n < BOARDS && port < PORTS
    ensures WellFormed(t)
  {
    var r := Req(n, port, VEC_CMDEXECUTED);
    if Named(value, port) then Complete(Requested(s, r), r) else s
  }

  lemma PortOverwrites(s: Fw, n: nat, value: nat, port: nat)
    requires WellFormed(s) && n < BOARDS && port < PORTS
    ensures var t, named, taken := AfterPort(s, n, value, port), Named(value, port), s.current.Some?;
      && t.boards == s.boards
      && (s.boards[n].Inhibited() ==> t.tally.overwritten == s.tally.overwritten)
      && (!s.boards[n].Inhibited() ==>
            && t.current.Some? == (taken || named)
            && Replaced(t.slots, t.current.Some?, n, value, port + 1)
               == Replaced(s.slots, taken || named, n, value, port + 1)
            && t.tally.overwritten == s.tally.overwritten
               + (if taken && named then Entry(s.slots, PORTS * n + port) else multiset{}))
  {
    hide Named, Complete, Entry, Replaced, Requested;
    var r := Req(n, port, VEC_CMDEXECUTED);
    CompleteOverwrites(s, r);
    ReplacedAhead(s.slots, true, n, value, port + 1, Index(r), Some(r.cond));
  }

  lemma {:induction false} RunPortsOverwrites(s: Fw, n: nat, value: nat, port: nat)
    requires WellFormed(s) && n < BOARDS && port <= PORTS
    ensures RunPorts(s, n, value, port).tally.overwritten
      == s.tally.overwritten
         + (if s.boards[n].Inhibited() then multiset{} else Replaced(s.slots, s.current.Some?, n, value, port))
    decreases PORTS - port
  {
    hide Named, Complete, Entry, Replaced, Board.Inhibited;
    if port == PORTS {
      ReplacedAtEnd(s.slots, s.current.Some?, n, value);
    } else {
      var t, taken := AfterPort(s, n, value, port), s.current.Some?;
      assert RunPorts(s, n, value, port) == RunPorts(t, n, value, port + 1);
      hide RunPorts, AfterPort, WellFormed;
      PortOverwrites(s, n, value, port);
      RunPortsOverwrites(t, n, value, port + 1);
      ReplacedStep(s.slots, taken, n, value, port);
      Regroup(s.tally.overwritten, if taken && Named(value, port) then Entry(s.slots, PORTS * n + port) else multiset{},
              Replaced(s.slots, taken || Named(value, port), n, value, port + 1));
    }
  }

  lemma ReplacedAtEnd(slots: seq<Option<nat>>, taken: bool, n: nat, value: nat)
    requires |slots| == SLOTS && n < BOARDS
    ensures Replaced(slots, taken, n, value, PORTS) == multiset{}
  {
  }

  lemma ReplacedStep(slots: seq<Option<nat>>, taken: bool, n: nat, value: nat, port: nat)
    requires |slots| == SLOTS && n < BOARDS && port < PORTS
    ensures Replaced(slots, taken, n, value, port)
      == (if taken && Named(value, port) then Entry(slots, PORTS * n + port) else multiset{})
         + Replaced(slots, taken || Named(value, port), n, value, port + 1)
    ensures Entry(slots, PORTS * n + port) != multiset{} <==> slots[PORTS * n + port].Some?
  {
  }

  lemma Regroup(a: multiset<Req>, b: multiset<Req>, c: multiset<Req>)
    ensures (a + b) + c == a + (b + c)
  {
  }

  lemma TakeFirstOverwritesNothing(s: Fw)
    requires WellFormed(s) && s.current.None?
    ensures TakeFirst(s).tally.overwritten == s.tally.overwritten
  {
  }

  lemma AddPendingToEmpty(s: Fw, i: nat)
    requires WellFormed(s) && i < SLOTS && s.slots[i].None?
    ensures var r := At(i, VEC_RXCHAR);
      var t := AddPending(Requested(s, r), r);
      && t.tally.overwritten == s.tally.overwritten && t.current == s.current
      && t.slots == s.slots[i := Some(VEC_RXCHAR)]
  {
  }

  lemma {:induction false} PollOverwritesNothing(s: Fw, rx: seq<Option<byte>>, i: nat)
    requires WellFormed(s) && |rx| == SLOTS && i <= SLOTS && forall j :: i <= j < SLOTS ==> s.slots[j].None?
    ensures Poll(s, rx, i).0.tally.overwritten == s.tally.overwritten && Poll(s, rx, i).0.current == s.current
    decreases SLOTS - i
  {
    hide AddPending, Requested;
    if i < SLOTS {
      var n := i / PORTS;
      if s.boards[n].init == Ready && !s.boards[n].recvFull && rx[i].Some? {
        var b := s.boards[n].(recvFull := true, recvData := rx[i].value);
        var s1, r := s.(boards := s.boards[n := b]), At(i, VEC_RXCHAR);
        AddPendingToEmpty(s1, i);
        RequestKeepsShape(s1, r);
        PollOverwritesNothing(AddPending(Requested(s1, r), r), rx, i + 1);
      } else {
        PollOverwritesNothing(s, rx, i + 1);
      }
    }
  }

  lemma RequestKeepsShape(s: Fw, r: Req)
    requires WellFormed(s)
    ensures WellFormed(Requested(s, r))
  {
  }

  /** An instruction write that commands ports of a board that lets interrupts through. */
  predicate Commands(s: Fw, e: Event)
    requires WellFormed(s) && Possible(e)
  {
    e.EInstr? && s.boards[e.n].init == Ready && e.value / 128 % 2 == 0
  }

  /** What a step overwrites, exactly: nothing, unless ports are commanded. */
  lemma OverwrittenExactly(s: Fw, e: Event)
    requires Inv(s) && Possible(e)
    ensures Step(s, e).tally.overwritten
      == s.tally.overwritten
         + (if Commands(s, e) then Replaced(s.slots, s.current.Some?, e.n, e.value, 0) else multiset{})
  {
    hide Balanced, Vectored, Waiting, Poll, TakeFirst, RunPorts, Replaced;
    match e
    case EInstr(n, value) =>
      var b := s.boards[n].(instr := value % 256);
      assert value % 256 / 128 % 2 == value / 128 % 2;
      RunPortsOverwrites(s.(boards := s.boards[n := b]), n, value, 0);
    case EProcess(rx) =>
      if s.current.None? {
        TakeFirstOverwritesNothing(s);
        if s.num == 0 {
          NothingWaiting(s.slots, SLOTS);
          PollOverwritesNothing(s, rx, 0);
          TakeFirstOverwritesNothing(Poll(s, rx, 0).0);
        }
      }
    case _ =>
  }

  /** A named port with a request waiting, that comes to its turn with the line taken: it was so
      before, or a port before it takes it. */
  predicate Hit(slots: seq<Option<nat>>, taken: bool, n: nat, value: nat, from: nat, port: nat)
    requires |slots| == SLOTS && n < BOARDS && port < PORTS
  {
    Named(value, port) && slots[PORTS * n + port].Some?
    && (taken || exists q: nat :: from <= q < port && Named(value, q))
  }

  lemma {:induction false} ReplacedIff(slots: seq<Option<nat>>, taken: bool, n: nat, value: nat, from: nat)
    requires |slots| == SLOTS && n < BOARDS && from <= PORTS
    ensures Replaced(slots, taken, n, value, from) != multiset{}
      <==> exists port: nat :: from <= port < PORTS && Hit(slots, taken, n, value, from, port)
    decreases PORTS - from
  {
    hide Replaced, Named, Hit, Entry;
    if from == PORTS {
      ReplacedAtEnd(slots, taken, n, value);
    } else {
      var on, next := taken || Named(value, from), from + 1;
      ReplacedStep(slots, taken, n, value, from);
      ReplacedIff(slots, on, n, value, next);
      EitherNonempty(if taken && Named(value, from) then Entry(slots, PORTS * n + from) else multiset{},
                     Replaced(slots, on, n, value, next));
      FirstHit(slots, taken, n, value, from);
      forall port: nat | from < port < PORTS
        ensures Hit(slots, taken, n, value, from, port) <==> Hit(slots, on, n, value, next, port)
      {
        LaterHit(slots, taken, n, value, from, port);
      }
      if port: nat :| next <= port < PORTS && Hit(slots, on, n, value, next, port) {
        assert Hit(slots, taken, n, value, from, port);
      }
    }
  }

  lemma EitherNonempty(a: multiset<Req>, b: multiset<Req>)
    ensures a + b != multiset{} <==> a != multiset{} || b != multiset{}
  {
    if r :| r in a + b { assert r in a || r in b; }
    if r :| r in a { assert r in a + b; }
    if r :| r in b { assert r in a + b; }
  }

  lemma FirstHit(slots: seq<Option<nat>>, taken: bool, n: nat, value: nat, from: nat)
    requires |slots| == SLOTS && n < BOARDS && from < PORTS
    ensures Hit(slots, taken, n, value, from, from) <==> taken && Named(value, from) && slots[PORTS * n + from].Some?
  {
  }

  lemma LaterHit(slots: seq<Option<nat>>, taken: bool, n: nat, value: nat, from: nat, port: nat)
    requires |slots| == SLOTS && n < BOARDS && from < port < PORTS
    ensures Hit(slots, taken, n, value, from, port)
      <==> Hit(slots, taken || Named(value, from), n, value, from + 1, port)
  {
    hide Named;
  }

  /** Ports of an uninhibited board are commanded, one of them with a request waiting and the line
      taken when its turn comes. */
  ghost predicate Overwrites(s: Fw, e: Event)
    requires WellFormed(s) && Possible(e)
  {
    Commands(s, e) && exists port: nat :: port < PORTS && Hit(s.slots, s.current.Some?, e.n, e.value, 0, port)
  }

  /** Exactly such a step overwrites a request. */
  lemma OverwritesIff(s: Fw, e: Event)
    requires Inv(s) && Possible(e)
    ensures Step(s, e).tally.overwritten != s.tally.overwritten <==> Overwrites(s, e)
  {
    hide Inv, Step, Hit, Replaced;
    InvIsWellFormed(s);
    OverwrittenExactly(s, e);
    if Commands(s, e) {
      ReplacedIff(s.slots, s.current.Some?, e.n, e.value, 0);
      GrowsIff(s.tally.overwritten, Replaced(s.slots, s.current.Some?, e.n, e.value, 0));
    }
  }

  ghost predicate Spares(s: Fw, evs: seq<Event>)
    requires WellFormed(s) && forall e :: e in evs ==> Possible(e)
    decreases |evs|
  {
    evs == [] || (!Overwrites(s, evs[0]) && Spares(Step(s, evs[0]), evs[1..]))
  }

  lemma {:induction false} SparedOverRun(s: Fw, evs: seq<Event>)
    requires Inv(s) && forall e :: e in evs ==> Possible(e)
    ensures Run(s, evs).tally.overwritten >= s.tally.overwritten
    ensures Run(s, evs).tally.overwritten == s.tally.overwritten <==> Spares(s, evs)
    decreases |evs|
  {
    hide Inv, Step, Overwrites, Replaced;
    InvIsWellFormed(s);
    if evs != [] {
      var t := Step(s, evs[0]);
      StepKeeps(s, evs[0]);
      OverwritesIff(s, evs[0]);
      OverwrittenExactly(s, evs[0]);
      SparedOverRun(t, evs[1..]);
      Between(s.tally.overwritten, t.tally.overwritten, Run(s, evs).tally.overwritten);
    }
  }

  lemma Between(a: multiset<Req>, b: multiset<Req>, c: multiset<Req>)
    requires a <= b <= c
    ensures a <= c && (a == c <==> a == b && b == c)
  {
  }

  /** In a run from power-on no request is ever overwritten if and only if no step of it commands a
      port whose request still waits, with the line taken. */
  lemma NothingOverwrittenIff(evs: seq<Event>)
    requires forall e :: e in evs ==> Possible(e)
    ensures Run(PowerOn(), evs).tally.overwritten == multiset{} <==> Spares(PowerOn(), evs)
  {
    hide Inv, Run, Spares;
    PowerOnHolds();
    SparedOverRun(PowerOn(), evs);
  }

  /** Commanding the same port three times in a row overwrites the second request. */
  const THREE_COMMANDS: seq<Event> := FIRST_COMMAND + [EInstr(0, 1)] + [EInstr(0, 1)]

  lemma SecondWaits(s: Fw)
    requires WellFormed(s) && s.boards[0].init == Ready && s.current.Some?
    ensures var t := Step(s, EInstr(0, 1));
      t.boards[0].init == Ready && t.current.Some? && t.slots[0].Some?
  {
    hide Complete, Requested, Named, RunPorts, Entry;
    var b := s.(boards := s.boards[0 := s.boards[0].(instr := 1)]);
    CommandOfPortA(b);
    CompleteOverwrites(b, Req(0, 0, VEC_CMDEXECUTED));
    assert !b.boards[0].Inhibited();
  }

  lemma ThirdOverwrites(s: Fw)
    requires WellFormed(s) && s.boards[0].init == Ready && s.current.Some? && s.slots[0].Some?
    ensures Overwrites(s, EInstr(0, 1))
  {
    assert Named(1, 0);
    assert Hit(s.slots, true, 0, 1, 0, 0);
  }

  /** From power-on to a request that is overwritten. */
  lemma ThirdCommandOverwrites()
    ensures Run(PowerOn(), THREE_COMMANDS).tally.overwritten != multiset{}
  {
    hide Inv, Step, Run, PowerOn, Overwrites, Spares;
    var two := FIRST_COMMAND + [EInstr(0, 1)];
    FirstCommandRaises();
    RunsJoin(PowerOn(), FIRST_COMMAND, EInstr(0, 1));
    SecondWaits(Run(PowerOn(), FIRST_COMMAND));
    RunsJoin(PowerOn(), two, EInstr(0, 1));
    ThirdOverwrites(Run(PowerOn(), two));
    PowerOnHolds();
    RequestsAreConserved(PowerOn(), two);
    OverwritesIff(Run(PowerOn(), two), EInstr(0, 1));
    SparedOverRun(PowerOn(), two);
    OverwrittenExactly(Run(PowerOn(), two), EInstr(0, 1));
  }

  lemma InvIsWellFormed(s: Fw)
    requires Inv(s)
    ensures WellFormed(s)
  {
  }

  lemma GrowsIff(m: multiset<Req>, x: multiset<Req>)
    ensures m + x != m <==> x != multiset{}
  {
    if r :| r in x { assert (m + x)[r] != m[r]; }
  }

  // ---------------------------------------------------------------- received characters

  lemma {:induction false} RunPortsLeavesBoards(s: Fw, n: nat, value: nat, port: nat)
    requires WellFormed(s) && n < BOARDS && port <= PORTS
    ensures RunPorts(s, n, value, port).boards == s.boards
    decreases PORTS - port
  {
    if port < PORTS {
      var r := Req(n, port, VEC_CMDEXECUTED);
      CompleteLeavesBoards(Requested(s, r), r);
      RunPortsLeavesBoards(if Named(value, port) then Complete(Requested(s, r), r) else s, n, value, port + 1);
    }
  }

  predicate Holds(s: Fw, n: nat, c: byte)
    requires WellFormed(s) && n < BOARDS
  {
    s.boards[n].recvFull && s.boards[n].recvData == c
  }

  lemma {:induction false} PollLeavesFull(s: Fw, rx: seq<Option<byte>>, i: nat, n: nat, c: byte)
    requires WellFormed(s) && |rx| == SLOTS && i <= SLOTS && n < BOARDS && Holds(s, n, c)
    ensures Holds(Poll(s, rx, i).0, n, c)
    decreases SLOTS - i
  {
    hide AddPending;
    if i < SLOTS {
      var m := i / PORTS;
      if s.boards[m].init == Ready && !s.boards[m].recvFull && rx[i].Some? {
        var r := At(i, VEC_RXCHAR);
        var t := Requested(s.(boards := s.boards[m := s.boards[m].(recvFull := true, recvData := rx[i].value)]), r);
        AddPendingLeavesBoards(t, r);
        PollLeavesFull(AddPending(t, r), rx, i + 1, n, c);
      } else {
        PollLeavesFull(s, rx, i + 1, n, c);
      }
    }
  }

  lemma AddPendingLeavesBoards(s: Fw, r: Req)
    requires WellFormed(s) && IsReq(r)
    ensures AddPending(s, r).boards == s.boards
  {
  }

  lemma TakeFirstLeavesBoards(s: Fw)
    requires WellFormed(s)
    ensures TakeFirst(s).boards == s.boards
  {
  }

  /** A received character waits for the host: no event but its own read takes or replaces
      it. */
  lemma CharacterWaits(s: Fw, e: Event, n: nat, c: byte)
    requires WellFormed(s) && Possible(e) && n < BOARDS && Holds(s, n, c)
    ensures e != ERecvRead(n) ==> Holds(Step(s, e), n, c)
    ensures e == ERecvRead(n) ==> !Step(s, e).boards[n].recvFull
  {
    hide Poll, RunPorts, TakeFirst;
    match e
    case EInstr(m, value) =>
      RunPortsLeavesBoards(s.(boards := s.boards[m := s.boards[m].(instr := value % 256)]), m, value, 0);
    case EProcess(rx) =>
      PollLeavesFull(s, rx, 0, n, c);
      TakeFirstLeavesBoards(Poll(s, rx, 0).0);
      TakeFirstLeavesBoards(s);
    case _ =>
  }
}
