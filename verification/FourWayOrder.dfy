/** The order in which waiting completions reach the host. */
module FourWayOrder {
  import opened FourWay
  import opened FourWayDelivery
  import opened Options
  import opened Words

  /** The vectors of the requests waiting in slot i and after, in slot order. */
  ghost function Queue(s: Fw, i: nat): seq<nat>
    requires WellFormed(s) && i <= SLOTS
    decreases SLOTS - i
  {
    if i == SLOTS then []
    else (if s.slots[i].Some? then [VectorFor(s, At(i, s.slots[i].value))] else []) + Queue(s, i + 1)
  }

  /** Everything still to come: the vector on the line, then the waiting ones. */
  ghost function Outstanding(s: Fw): seq<nat>
    requires WellFormed(s)
  {
    (if s.current.Some? then [s.vector] else []) + Queue(s, 0)
  }

  ghost predicate Uninhibited(s: Fw)
    requires WellFormed(s)
  {
    forall i :: 0 <= i < SLOTS && s.slots[i].Some? ==> !s.boards[i / PORTS].Inhibited()
  }

  /** Acknowledges and regular calls with nothing received: no new requests. */
  predicate IsDelivery(e: Event) {
    e.EAck? || (e.EProcess? && |e.rx| == SLOTS && forall i :: 0 <= i < SLOTS ==> e.rx[i].None?)
  }

  ghost predicate AllDeliveries(evs: seq<Event>)
    ensures AllDeliveries(evs) ==> forall e :: e in evs ==> Possible(e) && IsDelivery(e)
  {
    forall e :: e in evs ==> IsDelivery(e)
  }

  ghost function DeliveredBy(s: Fw, e: Event): seq<nat>
    requires WellFormed(s)
  {
    if e.EAck? && IrqAck(s, e.level).1.Some? then [IrqAck(s, e.level).1.value] else []
  }

  ghost function Delivered(s: Fw, evs: seq<Event>): seq<nat>
    requires WellFormed(s) && forall e :: e in evs ==> Possible(e)
    decreases |evs|
  {
    if evs == [] then [] else DeliveredBy(s, evs[0]) + Delivered(Step(s, evs[0]), evs[1..])
  }

  lemma {:induction false} QueueSame(s: Fw, t: Fw, i: nat)
    requires WellFormed(s) && WellFormed(t) && i <= SLOTS && s.boards == t.boards
    requires forall k :: i <= k < SLOTS ==> s.slots[k] == t.slots[k]
    ensures Queue(s, i) == Queue(t, i)
    decreases SLOTS - i
  {
    if i < SLOTS { QueueSame(s, t, i + 1); }
  }

  /** Skipping empty slots leaves the queue as it is. */
  lemma {:induction false} QueueFrom(s: Fw, i: nat, k: nat)
    requires WellFormed(s) && i <= k <= SLOTS && forall j :: i <= j < k ==> s.slots[j].None?
    ensures Queue(s, i) == Queue(s, k)
    decreases k - i
  {
    if i < k { QueueFrom(s, i + 1, k); }
  }

  lemma NoData(s: Fw, rx: seq<Option<byte>>, i: nat)
    requires WellFormed(s) && |rx| == SLOTS && i <= SLOTS && forall k :: 0 <= k < SLOTS ==> rx[k].None?
    ensures Poll(s, rx, i) == (s, 0)
    decreases SLOTS - i
  {
  }

  lemma TakeFirstRaises(s: Fw)
    requires WellFormed(s) && Uninhibited(s) && s.current.None?
    ensures var i := FirstWaiting(s.slots, 0);
      if i == SLOTS then TakeFirst(s) == s
      else
        var r := At(i, s.slots[i].value);
        TakeFirst(s) == s.(slots := s.slots[i := None], num := s.num - 1, current := Some(r), vector := VectorFor(s, r))
  {
  }

  lemma TakeFirstMovesHead(s: Fw)
    requires WellFormed(s) && Uninhibited(s) && s.current.None?
    ensures Outstanding(TakeFirst(s)) == Outstanding(s) && Uninhibited(TakeFirst(s))
    ensures Outstanding(s) != [] ==> TakeFirst(s).current.Some?
  {
    hide TakeFirst;
    TakeFirstRaises(s);
    var i := FirstWaiting(s.slots, 0);
    QueueFrom(s, 0, i);
    if i < SLOTS {
      var t := TakeFirst(s);
      QueueFrom(t, 0, i + 1);
      QueueSame(s, t, i + 1);
    }
  }

  /** A delivery step hands over the head of what is outstanding, or moves nothing. */
  lemma DeliveryStep(s: Fw, e: Event)
    requires Inv(s) && Uninhibited(s) && IsDelivery(e)
    ensures DeliveredBy(s, e) + Outstanding(Step(s, e)) == Outstanding(s)
    ensures Uninhibited(Step(s, e)) && Inv(Step(s, e))
    ensures e.EProcess? && Outstanding(s) != [] ==> Step(s, e).current.Some?
  {
    hide Inv, Outstanding, Uninhibited, DeliveredBy, Step;
    StepKeeps(s, e);
    if e.EAck? {
      AckDelivers(s, e.level);
    } else {
      ProcessDelivers(s, e.rx);
    }
  }

  lemma AckDelivers(s: Fw, level: nat)
    requires Inv(s) && Uninhibited(s)
    ensures var t := Step(s, EAck(level));
      DeliveredBy(s, EAck(level)) + Outstanding(t) == Outstanding(s) && Uninhibited(t)
  {
    hide Queue, Balanced, Counted, Vectored;
    var t := Step(s, EAck(level));
    QueueSame(s, t, 0);
    assert [] + Outstanding(s) == Outstanding(s);
    assert [s.vector] + ([] + Queue(s, 0)) == [s.vector] + Queue(s, 0);
  }

  lemma ProcessDelivers(s: Fw, rx: seq<Option<byte>>)
    requires Inv(s) && Uninhibited(s) && IsDelivery(EProcess(rx))
    ensures var t := Step(s, EProcess(rx));
      && DeliveredBy(s, EProcess(rx)) + Outstanding(t) == Outstanding(s) && Uninhibited(t)
      && (Outstanding(s) != [] ==> t.current.Some?)
  {
    hide Balanced, Counted, Vectored, TakeFirst, Poll, Outstanding, Uninhibited;
    var t := Step(s, EProcess(rx));
    assert [] + Outstanding(t) == Outstanding(t);
    if s.current.None? {
      NoData(s, rx, 0);
      TakeFirstMovesHead(s);
      if s.num == 0 { NothingOutstanding(s); }
    }
  }

  lemma NothingOutstanding(s: Fw)
    requires Inv(s) && s.num == 0 && s.current.None?
    ensures Outstanding(s) == []
  {
    NothingWaiting(s.slots, SLOTS);
    QueueFrom(s, 0, SLOTS);
  }

  /** However acknowledges and regular calls interleave, the vectors arrive in one fixed order,
      none twice and none left out. */
  lemma {:induction false} DeliveredInOrder(s: Fw, evs: seq<Event>)
    requires Inv(s) && Uninhibited(s) && AllDeliveries(evs)
    ensures Delivered(s, evs) + Outstanding(Run(s, evs)) == Outstanding(s)
    decreases |evs|
  {
    hide Balanced, Counted, Vectored, Outstanding, Uninhibited;
    if evs != [] {
      DeliveryStep(s, evs[0]);
      DeliveredInOrder(Step(s, evs[0]), evs[1..]);
    }
  }

  /** k rounds of an acknowledge and a regular call. */
  ghost function RoundsOf(rx: seq<Option<byte>>, k: nat): seq<Event> {
    if k == 0 then [] else [EAck(LEVEL), EProcess(rx)] + RoundsOf(rx, k - 1)
  }

  lemma OneRound(s: Fw, rx: seq<Option<byte>>) returns (t: Fw)
    requires Inv(s) && Uninhibited(s) && |rx| == SLOTS && (forall i :: 0 <= i < SLOTS ==> rx[i].None?)
    requires s.current.Some? || Outstanding(s) == []
    ensures t == Step(Step(s, EAck(LEVEL)), EProcess(rx))
    ensures Inv(t) && Uninhibited(t) && (t.current.Some? || Outstanding(t) == [])
    ensures Outstanding(s) != [] ==> |Outstanding(t)| == |Outstanding(s)| - 1
    ensures Outstanding(s) == [] ==> Outstanding(t) == []
  {
    hide Balanced, Counted, Vectored, Uninhibited, Process, Queue;
    DeliveryStep(s, EAck(LEVEL));
    DeliveryStep(Step(s, EAck(LEVEL)), EProcess(rx));
    t := Step(Step(s, EAck(LEVEL)), EProcess(rx));
  }

  lemma RunTwo(s: Fw, a: Event, b: Event, evs: seq<Event>)
    requires WellFormed(s) && Possible(a) && Possible(b) && forall e :: e in evs ==> Possible(e)
    ensures Run(s, [a, b] + evs) == Run(Step(Step(s, a), b), evs)
  {
  }

  lemma {:induction false} RoundsDrain(s: Fw, rx: seq<Option<byte>>, k: nat)
    requires Inv(s) && Uninhibited(s) && |rx| == SLOTS && (forall i :: 0 <= i < SLOTS ==> rx[i].None?)
    requires s.current.Some? || Outstanding(s) == []
    ensures AllDeliveries(RoundsOf(rx, k))
    ensures k >= |Outstanding(s)| ==> Outstanding(Run(s, RoundsOf(rx, k))) == []
    decreases k
  {
    hide Balanced, Counted, Vectored, Outstanding, Uninhibited, Step, Run;
    if k > 0 {
      var t := OneRound(s, rx);
      RoundsDrain(t, rx, k - 1);
      RunTwo(s, EAck(LEVEL), EProcess(rx), RoundsOf(rx, k - 1));
    } else {
      RunNone(s);
    }
  }

  lemma RunNone(s: Fw)
    requires WellFormed(s)
    ensures Run(s, []) == s
  {
  }

  // ---------------------------------------------------------------- one instruction write

  /** base + 4p + 3 for each named port, ascending. */
  ghost function Expected(base: nat, value: nat, port: nat): seq<nat>
    requires port <= PORTS
    decreases PORTS - port
  {
    if port == PORTS then []
    else (if Named(value, port) then [(base + 4 * port + 3) % 256] else []) + Expected(base, value, port + 1)
  }

  /** Nothing waits in slot i or after; with the line free nothing waits at all. */
  ghost predicate ClearFrom(s: Fw, i: nat)
    requires WellFormed(s)
  {
    (forall k :: i <= k < SLOTS ==> s.slots[k].None?)
    && (s.current.None? ==> forall k :: 0 <= k < SLOTS ==> s.slots[k].None?)
  }

  lemma {:induction false} QueueAppends(s: Fw, t: Fw, r: Req, i: nat)
    requires WellFormed(s) && IsReq(r) && WellFormed(t) && t.boards == s.boards
    requires t.slots == s.slots[Index(r) := Some(r.cond)] && i <= Index(r)
    requires forall k :: Index(r) <= k < SLOTS ==> s.slots[k].None?
    ensures Queue(t, i) == Queue(s, i) + [VectorFor(s, r)]
    decreases SLOTS - i
  {
    hide VectorFor;
    if i == Index(r) {
      assert At(i, r.cond) == r;
      QueueFrom(s, i, SLOTS);
      QueueFrom(t, i + 1, SLOTS);
      assert VectorFor(t, r) == VectorFor(s, r) by { SameVector(s, t, r); }
    } else {
      QueueAppends(s, t, r, i + 1);
      if s.slots[i].Some? { SameVector(s, t, At(i, s.slots[i].value)); }
    }
  }

  lemma SameVector(s: Fw, t: Fw, r: Req)
    requires IsReq(r) && |s.boards| == BOARDS && t.boards == s.boards
    ensures VectorFor(t, r) == VectorFor(s, r)
  {
  }

  lemma CompleteAppends(s: Fw, r: Req)
    requires WellFormed(s) && IsReq(r) && !s.boards[r.n].Inhibited() && ClearFrom(s, Index(r))
    ensures Outstanding(Complete(s, r)) == Outstanding(s) + [VectorFor(s, r)]
    ensures ClearFrom(Complete(s, r), Index(r) + 1) && Complete(s, r).boards == s.boards
  {
    if s.current.Some? {
      QueueAppends(s, Complete(s, r), r, 0);
    } else {
      QueueFrom(s, 0, SLOTS);
      QueueFrom(Complete(s, r), 0, SLOTS);
    }
  }

  lemma {:induction false} PortsAppend(s: Fw, n: nat, value: nat, port: nat)
    requires WellFormed(s) && n < BOARDS && port <= PORTS && !s.boards[n].Inhibited() && ClearFrom(s, PORTS * n + port)
    ensures Outstanding(RunPorts(s, n, value, port)) == Outstanding(s) + Expected(s.boards[n].base, value, port)
    decreases PORTS - port
  {
    hide Complete, Named, VectorFor, ClearFrom, Outstanding, Expected, RunPorts;
    RunsPort(s, n, value, port);
    ExpectsPort(s.boards[n].base, value, port);
    if port < PORTS {
      if Named(value, port) {
        var r := Req(n, port, VEC_CMDEXECUTED);
        var t := CommandAppends(s, r);
        PortsAppend(t, n, value, port + 1);
        assert Outstanding(s) + [(s.boards[n].base + 4 * port + 3) % 256] + Expected(s.boards[n].base, value, port + 1)
          == Outstanding(s) + ([(s.boards[n].base + 4 * port + 3) % 256] + Expected(s.boards[n].base, value, port + 1));
      } else {
        ClearLater(s, PORTS * n + port);
        PortsAppend(s, n, value, port + 1);
      }
    } else {
      assert Outstanding(s) + [] == Outstanding(s);
    }
  }

  lemma RunsPort(s: Fw, n: nat, value: nat, port: nat)
    requires WellFormed(s) && n < BOARDS && port <= PORTS
    ensures var r := Req(n, port, VEC_CMDEXECUTED);
      RunPorts(s, n, value, port)
      == if port == PORTS then s
         else RunPorts(if Named(value, port) then Complete(Requested(s, r), r) else s, n, value, port + 1)
  {
  }

  lemma ExpectsPort(base: nat, value: nat, port: nat)
    requires port <= PORTS
    ensures Expected(base, value, port)
      == if port == PORTS then []
         else (if Named(value, port) then [(base + 4 * port + 3) % 256] else []) + Expected(base, value, port + 1)
    ensures port < PORTS && !Named(value, port) ==> Expected(base, value, port) == Expected(base, value, port + 1)
  {
  }

  lemma CommandAppends(s: Fw, r: Req) returns (t: Fw)
    requires WellFormed(s) && IsReq(r) && !s.boards[r.n].Inhibited()
    requires ClearFrom(s, Index(r)) && r.cond == VEC_CMDEXECUTED
    ensures t == Complete(Requested(s, r), r)
    ensures Outstanding(t) == Outstanding(s) + [(s.boards[r.n].base + 4 * r.port + 3) % 256]
    ensures ClearFrom(t, Index(r) + 1) && t.boards == s.boards
  {
    hide Complete, ClearFrom, Outstanding;
    RequestWaits(s, r, Index(r));
    t := Complete(Requested(s, r), r);
    CompleteAppends(Requested(s, r), r);
  }

  lemma RequestWaits(s: Fw, r: Req, i: nat)
    requires WellFormed(s) && ClearFrom(s, i)
    ensures ClearFrom(Requested(s, r), i) && Outstanding(Requested(s, r)) == Outstanding(s)
  {
    QueueSame(s, Requested(s, r), 0);
  }

  lemma ClearLater(s: Fw, i: nat)
    requires WellFormed(s) && ClearFrom(s, i)
    ensures ClearFrom(s, i + 1)
  {
  }

  /** An instruction write that names ports on a quiet system, without the inhibit bit and
      with nothing received, gives one completion vector base + 4p + 3 per named port in
      ascending port order: whatever prefix has been delivered, the rest is outstanding, and
      as many rounds of acknowledge and regular call as there are named ports deliver all. */
  lemma CommandsCompleteInOrder(s: Fw, n: nat, value: nat, evs: seq<Event>, rx: seq<Option<byte>>, k: nat)
    requires Inv(s) && s.num == 0 && s.current.None?
    requires n < BOARDS && s.boards[n].init == Ready && value / 128 % 2 == 0
    requires AllDeliveries(evs)
    requires |rx| == SLOTS && forall i :: 0 <= i < SLOTS ==> rx[i].None?
    ensures var t := InstrWrite(s, n, value);
      var all := Expected(s.boards[n].base, value, 0);
      && Delivered(t, evs) + Outstanding(Run(t, evs)) == all
      && (k >= |all| ==>
            && AllDeliveries(RoundsOf(rx, k))
            && Delivered(t, RoundsOf(rx, k)) == all)
  {
    hide Balanced, Counted, Vectored, Expected, RunPorts;
    var s1 := s.(boards := s.boards[n := s.boards[n].(instr := value % 256)]);
    var t := InstrWrite(s, n, value);
    assert t == RunPorts(s1, n, value, 0);
    QuietIsClear(s, s1);
    assert ClearFrom(s1, PORTS * n + 0);
    PortsAppend(s1, n, value, 0);
    PortsUninhibited(s1, n, value, 0);
    StepKeeps(s, EInstr(n, value));
    DeliveredInOrder(t, evs);
    RoundsDrain(t, rx, k);
    DeliveredInOrder(t, RoundsOf(rx, k));
  }

  lemma QuietIsClear(s: Fw, t: Fw)
    requires Inv(s) && s.num == 0 && s.current.None? && WellFormed(t) && t.slots == s.slots && t.current == s.current
    ensures ClearFrom(t, 0) && Uninhibited(t) && Outstanding(t) == []
  {
    NothingWaiting(s.slots, SLOTS);
    QueueFrom(t, 0, SLOTS);
  }

  lemma {:induction false} PortsUninhibited(s: Fw, n: nat, value: nat, port: nat)
    requires WellFormed(s) && n < BOARDS && port <= PORTS && !s.boards[n].Inhibited() && Uninhibited(s)
    requires s.current.None? ==> forall k :: 0 <= k < SLOTS ==> s.slots[k].None?
    ensures var t := RunPorts(s, n, value, port);
      && Uninhibited(t) && (t.current.Some? || Outstanding(t) == [])
    decreases PORTS - port
  {
    if port < PORTS {
      var r := Req(n, port, VEC_CMDEXECUTED);
      PortsUninhibited(if Named(value, port) then Complete(Requested(s, r), r) else s, n, value, port + 1);
    } else if s.current.None? {
      QueueFrom(s, 0, SLOTS);
    }
  }
}
