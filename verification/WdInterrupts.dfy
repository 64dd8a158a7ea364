/**
 Delivery of Winchester interrupts.  The arbiter's invariant holds in every reachable
 state; from it follow that no flag is lost or delivered twice, and that a host which
 acknowledges whenever the line is up drains every flag within a fixed number of ticks.
 */
module WdInterrupts {
  import opened Options
  import opened WdController
  import opened Words

  const ALL_FLAGS: set<Flag> := {BusErr, Completion(0), Completion(1), Seek(0), Seek(1)}

  /** The line is up only for a flag an acknowledge will claim; a completion or seek waiting
      behind it keeps the re-arm counter running; a bus error holds the line itself. */
  ghost predicate ArbiterInv(a: Arbiter) {
    && a.pending <= ALL_FLAGS
    && (a.asserted ==> First(a.pending).Some?)
    && (a.pending - {BusErr} != {} ==> a.counter > 0)
    && (BusErr in a.pending ==> a.asserted)
    && a.counter <= INT_SEEK_COUNT
  }

  /** Events of a run, each possible in the state it meets. */
  ghost predicate Possible(s: Wd, evs: seq<Event>)
    requires WellFormed(s.l)
    decreases |evs|
  {
    evs == [] || (Allowed(s, evs[0]) && Possible(Step(s, evs[0]), evs[1..]))
  }

  ghost function Run(s: Wd, evs: seq<Event>): (r: Wd)
    requires WellFormed(s.l) && Possible(s, evs)
    ensures WellFormed(r.l)
    decreases |evs|
  {
    if evs == [] then s else Run(Step(s, evs[0]), evs[1..])
  }

  lemma FirstOfPending(p: set<Flag>)
    requires p <= ALL_FLAGS
    ensures First(p).Some? <==> p != {}
    ensures First(p).Some? ==> First(p).value in p
  {
  }

  lemma NotifyKeepsInv(a: Arbiter, before: Ladder, after: Ladder)
    requires ArbiterInv(a) && WellFormed(after)
    ensures ArbiterInv(Notify(a, before, after))
    ensures a.pending <= Notify(a, before, after).pending
  {
  }

  /** With the invariant in place the arbiter never moves a flag, it only raises the line. */
  lemma ArbiterTickKeepsInv(a: Arbiter)
    requires ArbiterInv(a)
    ensures ArbiterInv(TickArbiter(a)) && TickArbiter(a).pending == a.pending
  {
  }

  lemma AcknowledgeKeepsInv(a: Arbiter, level: nat)
    requires ArbiterInv(a)
    ensures ArbiterInv(Acknowledge(a, level).0)
  {
  }

  lemma StepKeepsInv(s: Wd, e: Event)
    requires WellFormed(s.l) && Allowed(s, e) && ArbiterInv(s.a)
    ensures ArbiterInv(Step(s, e).a)
  {
    match e
    case ETick(o) =>
      var l1 := TickState(s.l, o);
      var l2 := TickCommand(l1, o);
      NotifyKeepsInv(s.a, s.l, l1);
      NotifyKeepsInv(Notify(s.a, s.l, l1), l1, l2);
      ArbiterTickKeepsInv(Notify(Notify(s.a, s.l, l1), l1, l2));
    case EAck(level) => AcknowledgeKeepsInv(s.a, level);
    case EWriteControl(c) => FirstOfPending({});
    case EPulseReset => FirstOfPending({});
    case _ =>
  }

  /** The arbiter's invariant in every reachable state. */
  lemma {:induction false} ReachableStatesAreArbitrated(s: Wd, evs: seq<Event>)
    requires WellFormed(s.l) && ArbiterInv(s.a) && Possible(s, evs)
    ensures ArbiterInv(Run(s, evs).a)
    decreases |evs|
  {
    if evs != [] {
      StepKeepsInv(s, evs[0]);
      ReachableStatesAreArbitrated(Step(s, evs[0]), evs[1..]);
    }
  }

  lemma PowerOnIsArbitrated()
    ensures ArbiterInv(PowerOn().a)
  {
  }

  /** In every state reachable from power-on: the line is up only for a flag that the next
      acknowledge claims, a completion or seek flag keeps the re-arm counter running, and a
      bus error flag holds the line. */
  lemma LineAndFlagsAgree(evs: seq<Event>)
    requires WellFormed(PowerOn().l) && Possible(PowerOn(), evs)
    ensures var a := Run(PowerOn(), evs).a;
      && (a.asserted ==> Acknowledge(a, INT_LEVEL).1.Some? && Acknowledge(a, INT_LEVEL).1.value in a.pending)
      && (forall f :: f in a.pending && f != BusErr ==> a.counter > 0)
      && (BusErr in a.pending ==> a.asserted)
  {
    hide WellFormed, Possible, Run;
    PowerOnIsArbitrated();
    ReachableStatesAreArbitrated(PowerOn(), evs);
    ghost var a := Run(PowerOn(), evs).a;
    if f :| f in a.pending && f != BusErr {
      assert f in a.pending - {BusErr};
    }
  }

  // ---------------------------------------------------------------- exactly once

  /** The flag an event delivers to the host with the interrupt vector. */
  ghost function Delivered(s: Wd, e: Event): Option<Flag> {
    if e.EAck? then Acknowledge(s.a, e.level).1 else None
  }

  /** A reset by the host or by the CPU. */
  ghost predicate IsReset(e: Event) { e.EPulseReset? || (e.EWriteControl? && ControlOf(e.c).srst) }

  /** Flags set before or during an event. */
  ghost function Raised(s: Wd, e: Event): set<Flag>
    requires WellFormed(s.l) && Allowed(s, e)
  {
    Step(s, e).a.pending - (if IsReset(e) then {} else s.a.pending)
  }

  /** A flag leaves the pending set in two ways only: a reset, or the one acknowledge that
      claims it, which takes that flag alone, in priority order, and frees the line. */
  lemma FlagsLeaveOnce(s: Wd, e: Event)
    requires WellFormed(s.l) && Allowed(s, e) && ArbiterInv(s.a)
    ensures !IsReset(e) ==>
      Step(s, e).a.pending ==
        s.a.pending - (if Delivered(s, e).Some? then {Delivered(s, e).value} else {}) + Raised(s, e)
    ensures Delivered(s, e).Some?
      ==> Delivered(s, e).value in s.a.pending && Raised(s, e) == {} && !Step(s, e).a.asserted
    ensures e == EAck(INT_LEVEL) && s.a.asserted ==> Delivered(s, e).Some?
  {
    FirstOfPending(s.a.pending);
    if e.ETick? {
      var l1 := TickState(s.l, e.o);
      var l2 := TickCommand(l1, e.o);
      NotifyKeepsInv(s.a, s.l, l1);
      NotifyKeepsInv(Notify(s.a, s.l, l1), l1, l2);
      ArbiterTickKeepsInv(Notify(Notify(s.a, s.l, l1), l1, l2));
    }
  }

  function Bag(f: Option<Flag>): multiset<Flag> { if f.Some? then multiset{f.value} else multiset{} }

  /** The flags a run hands over, one for each acknowledge that claims one. */
  ghost function Deliveries(s: Wd, evs: seq<Event>): multiset<Flag>
    requires WellFormed(s.l) && Possible(s, evs)
    decreases |evs|
  {
    if evs == [] then multiset{}
    else Bag(Delivered(s, evs[0])) + Deliveries(Step(s, evs[0]), evs[1..])
  }

  /** The flags a run sets, each as often as it gets set. */
  ghost function Raises(s: Wd, evs: seq<Event>): multiset<Flag>
    requires WellFormed(s.l) && Possible(s, evs)
    decreases |evs|
  {
    if evs == [] then multiset{} else multiset(Raised(s, evs[0])) + Raises(Step(s, evs[0]), evs[1..])
  }

  /** The flags its resets discard. */
  ghost function Discards(s: Wd, evs: seq<Event>): multiset<Flag>
    requires WellFormed(s.l) && Possible(s, evs)
    decreases |evs|
  {
    if evs == [] then multiset{}
    else multiset(if IsReset(evs[0]) then s.a.pending else {}) + Discards(Step(s, evs[0]), evs[1..])
  }

  lemma BagsBalance(p: set<Flag>, claimed: Option<Flag>, raised: set<Flag>, r: set<Flag>)
    requires (claimed.Some? ==> claimed.value in p && raised == {}) && raised !! p
    requires r == p - (if claimed.Some? then {claimed.value} else {}) + raised
    ensures multiset(p) + multiset(raised) == multiset(r) + Bag(claimed)
  {
    forall f ensures (multiset(p) + multiset(raised))[f] == (multiset(r) + Bag(claimed))[f] {
      assert multiset(p)[f] == (if f in p then 1 else 0) && multiset(r)[f] == (if f in r then 1 else 0);
      assert multiset(raised)[f] == (if f in raised then 1 else 0);
    }
  }

  lemma StepConserves(s: Wd, e: Event)
    requires WellFormed(s.l) && Allowed(s, e) && ArbiterInv(s.a)
    ensures multiset(s.a.pending) + multiset(Raised(s, e))
         == multiset(Step(s, e).a.pending) + Bag(Delivered(s, e)) + multiset(if IsReset(e) then s.a.pending else {})
  {
    var p, raised, r, claimed := s.a.pending, Raised(s, e), Step(s, e).a.pending, Delivered(s, e);
    hide Acknowledge, ArbiterInv;
    if IsReset(e) {
      assert raised == r && claimed.None?;
    } else {
      FlagsLeaveOnce(s, e);
      BagsBalance(p, claimed, raised, r);
    }
  }

  /** Exactly once, flag by flag: over any run every flag that was pending or got set has been
      delivered by one acknowledge, was discarded by a reset, or is pending still. */
  lemma {:induction false} EachFlagDeliveredOnce(s: Wd, evs: seq<Event>)
    requires WellFormed(s.l) && ArbiterInv(s.a) && Possible(s, evs)
    ensures multiset(s.a.pending) + Raises(s, evs)
         == Deliveries(s, evs) + Discards(s, evs) + multiset(Run(s, evs).a.pending)
    decreases |evs|
  {
    hide Step, ArbiterInv, Raised, Delivered, IsReset;
    if evs != [] {
      var t := Step(s, evs[0]);
      StepKeepsInv(s, evs[0]);
      StepConserves(s, evs[0]);
      EachFlagDeliveredOnce(t, evs[1..]);
      RunBalances(multiset(s.a.pending), multiset(Raised(s, evs[0])), multiset(t.a.pending), Bag(Delivered(s, evs[0])),
                  multiset(if IsReset(evs[0]) then s.a.pending else {}), Raises(t, evs[1..]), Deliveries(t, evs[1..]),
                  Discards(t, evs[1..]), multiset(Run(s, evs).a.pending));
    }
  }

  /** The books of one step and those of the rest make up the books of both. */
  lemma RunBalances(p: multiset<Flag>, raised: multiset<Flag>, q: multiset<Flag>, given: multiset<Flag>,
                    dropped: multiset<Flag>, raises: multiset<Flag>, deliveries: multiset<Flag>,
                    discards: multiset<Flag>, z: multiset<Flag>)
    requires p + raised == q + given + dropped && q + raises == deliveries + discards + z
    ensures p + (raised + raises) == (given + deliveries) + (dropped + discards) + z
  {
    forall f ensures (p + (raised + raises))[f] == ((given + deliveries) + (dropped + discards) + z)[f] {
      assert (p + raised)[f] == (q + given + dropped)[f];
      assert (q + raises)[f] == (deliveries + discards + z)[f];
    }
  }

  // ---------------------------------------------------------------- draining

  /** One tick of device time, after which the host acknowledges if the line is up. */
  ghost function Round(a: Arbiter): (Arbiter, nat) {
    var a1 := TickArbiter(a);
    if a1.asserted then (Acknowledge(a1, INT_LEVEL).0, 1) else (a1, 0)
  }

  /** The arbiter and the number of vectors handed out after k rounds. */
  ghost function Rounds(a: Arbiter, k: nat): (Arbiter, nat)
    decreases k
  {
    if k == 0 then (a, 0) else
    var (a1, n1) := Round(a);
    var (a2, n2) := Rounds(a1, k - 1);
    (a2, n1 + n2)
  }

  /** With the ladder at rest, a round is exactly two steps of the machine. */
  lemma RoundIsTickThenAck(s: Wd, o: Outcome)
    requires WellFormed(s.l) && s.l.stateCounter == 0 && s.l.cmdCounter == 0
    ensures Step(s, ETick(o)).l == s.l
    ensures var s1 := Step(s, ETick(o));
      Round(s.a).0 == (if s1.a.asserted then Step(s1, EAck(INT_LEVEL)).a else s1.a)
  {
  }

  ghost function DrainBound(a: Arbiter): nat { if a.pending == {} then 0 else a.counter + 2 * |a.pending| }

  lemma RoundMakesProgress(a: Arbiter)
    requires ArbiterInv(a)
    ensures ArbiterInv(Round(a).0)
    ensures Round(a).0.pending <= a.pending && |Round(a).0.pending| + Round(a).1 == |a.pending|
    ensures a.pending != {} ==> DrainBound(Round(a).0) < DrainBound(a)
  {
    ArbiterTickKeepsInv(a);
    var a1 := TickArbiter(a);
    FirstOfPending(a1.pending);
    AcknowledgeKeepsInv(a1, INT_LEVEL);
    if a1.asserted {
      assert Round(a).0.pending == a.pending - {First(a.pending).value};
    } else if a.pending != {} {
      assert a.pending - {BusErr} == a.pending;
    }
  }

  /** A host that always acknowledges gets one vector for each pending flag and leaves
      nothing pending, within `counter + 2 * pending` rounds, 16 at most. */
  lemma {:induction false} AcknowledgingDrains(a: Arbiter, k: nat)
    requires ArbiterInv(a) && k >= DrainBound(a)
    ensures Rounds(a, k).0.pending == {} && !Rounds(a, k).0.asserted
    ensures Rounds(a, k).1 == |a.pending|
    ensures DrainBound(a) <= 16
    decreases k
  {
    DrainWithin16(a);
    if a.pending == {} {
      FirstOfPending(a.pending);
      NothingPendingStaysSo(a, k);
    } else {
      RoundMakesProgress(a);
      AcknowledgingDrains(Round(a).0, k - 1);
    }
  }

  lemma {:induction false} NothingPendingStaysSo(a: Arbiter, k: nat)
    requires ArbiterInv(a) && a.pending == {}
    ensures Rounds(a, k).0.pending == {} && !Rounds(a, k).0.asserted && Rounds(a, k).1 == 0
    decreases k
  {
    if k > 0 {
      RoundMakesProgress(a);
      NothingPendingStaysSo(Round(a).0, k - 1);
    }
  }

  lemma DrainWithin16(a: Arbiter)
    requires ArbiterInv(a)
    ensures DrainBound(a) <= 16
  {
    SubsetSize(a.pending, ALL_FLAGS);
  }

  lemma SubsetSize(p: set<Flag>, q: set<Flag>)
    requires p <= q
    ensures |p| <= |q|
  {
    assert |q - p| + |p| == |q| by { assert q == (q - p) + p; }
  }

  // ---------------------------------------------------------------- draining in any run

  /** No reset, and a tick that leaves the line up is followed by the acknowledge. */
  ghost predicate Attentive(s: Wd, evs: seq<Event>)
    requires WellFormed(s.l) && Possible(s, evs)
    decreases |evs|
  {
    evs == [] ||
    (var t := Step(s, evs[0]);
     && !IsReset(evs[0])
     && (evs[0].ETick? && t.a.asserted ==> |evs| > 1 && evs[1] == EAck(INT_LEVEL))
     && Attentive(t, evs[1..]))
  }

  ghost predicate Busy(s: Wd, e: Event)
    requires WellFormed(s.l) && Allowed(s, e)
  {
    e.ETick? && Step(s, e).a.pending != {}
  }

  /** The ticks of a run that find a flag pending. */
  ghost function BusyTicks(s: Wd, evs: seq<Event>): nat
    requires WellFormed(s.l) && Possible(s, evs)
    decreases |evs|
  {
    if evs == [] then 0 else (if Busy(s, evs[0]) then 1 else 0) + BusyTicks(Step(s, evs[0]), evs[1..])
  }

  lemma UnionSize(p: set<Flag>, q: set<Flag>)
    requires p <= q
    ensures |q| == |p| + |q - p|
  {
    SubsetSize(p, q);
    assert q == p + (q - p);
  }

  /** The flags an event raises lengthen the drain by at most eight rounds each. */
  lemma RaisingCosts(a: Arbiter, b: Arbiter)
    requires ArbiterInv(a) && ArbiterInv(b) && a.pending <= b.pending
    requires a.counter == b.counter || a.counter == 0
    requires b.pending == a.pending ==> b.counter == a.counter || a.pending == {}
    ensures DrainBound(b) <= DrainBound(a) + 8 * |b.pending - a.pending|
  {
    UnionSize(a.pending, b.pending);
  }

  lemma NotifyCosts(a: Arbiter, before: Ladder, after: Ladder)
    requires ArbiterInv(a) && WellFormed(after)
    ensures var b := Notify(a, before, after);
      ArbiterInv(b) && a.pending <= b.pending && DrainBound(b) <= DrainBound(a) + 8 * |b.pending - a.pending|
  {
    NotifyKeepsInv(a, before, after);
    RaisingCosts(a, Notify(a, before, after));
  }

  lemma SizesAdd(p: set<Flag>, q: set<Flag>, r: set<Flag>)
    requires p <= q <= r
    ensures |r - p| == |q - p| + |r - q|
  {
    assert r - p == (q - p) + (r - q);
  }

  /** The arbiter's part in a tick: twice the ladder may raise flags, then it counts down. */
  lemma TickParts(s: Wd, e: Event) returns (a1: Arbiter, a2: Arbiter)
    requires WellFormed(s.l) && ArbiterInv(s.a) && e.ETick?
    ensures ArbiterInv(a2) && s.a.pending <= a1.pending <= a2.pending
    ensures DrainBound(a1) <= DrainBound(s.a) + 8 * |a1.pending - s.a.pending|
    ensures DrainBound(a2) <= DrainBound(a1) + 8 * |a2.pending - a1.pending|
    ensures Step(s, e).a == TickArbiter(a2) && Step(s, e).a.pending == a2.pending
  {
    hide Notify, DrainBound, TickState, TickCommand, ArbiterInv, TickArbiter, WellFormed;
    var l1 := TickState(s.l, e.o);
    var l2 := TickCommand(l1, e.o);
    a1 := Notify(s.a, s.l, l1);
    a2 := Notify(a1, l1, l2);
    NotifyCosts(s.a, s.l, l1);
    NotifyCosts(a1, l1, l2);
    ArbiterTickKeepsInv(a2);
  }

  lemma TickThenAckIsRound(t: Wd, a: Arbiter)
    requires WellFormed(t.l) && t.a == TickArbiter(a)
    ensures Round(a).0 == if t.a.asserted then Step(t, EAck(INT_LEVEL)).a else t.a
  {
  }

  /** A tick, with its acknowledge if it leaves the line up, shortens the drain by a round. */
  lemma TickCosts(s: Wd, e: Event)
    requires WellFormed(s.l) && ArbiterInv(s.a) && e.ETick?
    ensures var t := Step(s, e);
      (if Busy(s, e) then 1 else 0)
        + DrainBound(if t.a.asserted then Step(t, EAck(INT_LEVEL)).a else t.a)
      <= DrainBound(s.a) + 8 * |Raised(s, e)|
  {
    hide Step, DrainBound, ArbiterInv, Round, TickArbiter;
    var a1, a2 := TickParts(s, e);
    SizesAdd(s.a.pending, a1.pending, a2.pending);
    TickThenAckIsRound(Step(s, e), a2);
    RoundShortens(a2);
  }

  lemma RoundShortens(a: Arbiter)
    requires ArbiterInv(a)
    ensures DrainBound(Round(a).0) + (if a.pending == {} then 0 else 1) <= DrainBound(a)
  {
    RoundMakesProgress(a);
  }

  /** Any other event costs nothing but what it raises. */
  lemma OtherCosts(s: Wd, e: Event)
    requires WellFormed(s.l) && Allowed(s, e) && ArbiterInv(s.a) && !e.ETick? && !IsReset(e)
    ensures DrainBound(Step(s, e).a) <= DrainBound(s.a) + 8 * |Raised(s, e)|
  {
    StepKeepsInv(s, e);
    if e.EAck? {
      AcknowledgeShortens(s.a, e.level);
    } else if e.EWriteControl? {
      RaisingCosts(s.a, Step(s, e).a);
    } else {
      assert Step(s, e).a == s.a;
    }
  }

  lemma AcknowledgeShortens(a: Arbiter, level: nat)
    requires ArbiterInv(a)
    ensures DrainBound(Acknowledge(a, level).0) <= DrainBound(a)
  {
    SubsetSize(Acknowledge(a, level).0.pending, a.pending);
  }

  /** A host that acknowledges whenever a tick leaves the line up keeps up with the whole
      machine, commands running or not: in any run without a reset, the ticks that find a
      flag pending number at most 16 and 8 more for every flag raised on the way. */
  lemma {:induction false} AttentiveHostDrains(s: Wd, evs: seq<Event>)
    requires WellFormed(s.l) && ArbiterInv(s.a) && Possible(s, evs) && Attentive(s, evs)
    ensures BusyTicks(s, evs) + DrainBound(Run(s, evs).a) <= DrainBound(s.a) + 8 * |Raises(s, evs)|
    ensures DrainBound(s.a) <= 16
    decreases |evs|
  {
    hide Step, DrainBound, ArbiterInv, Busy, Raised;
    DrainWithin16(s.a);
    if evs != [] {
      var t := Step(s, evs[0]);
      StepKeepsInv(s, evs[0]);
      if !evs[0].ETick? {
        OtherCosts(s, evs[0]);
        NotBusy(s, evs[0]);
        AttentiveHostDrains(t, evs[1..]);
      } else {
        TickCosts(s, evs[0]);
        if t.a.asserted {
          var rest := evs[1..];
          NotBusy(t, rest[0]);
          StepKeepsInv(t, rest[0]);
          AttentiveHostDrains(Step(t, rest[0]), rest[1..]);
        } else {
          AttentiveHostDrains(t, evs[1..]);
        }
      }
    }
  }

  lemma NotBusy(s: Wd, e: Event)
    requires WellFormed(s.l) && Allowed(s, e) && !e.ETick?
    ensures !Busy(s, e)
  {
  }

  ghost function Ticks(evs: seq<Event>): nat {
    if evs == [] then 0 else (if evs[0].ETick? then 1 else 0) + Ticks(evs[1..])
  }

  /** So a run with more ticks than that comes by a state with nothing pending. */
  lemma {:induction false} EveryFlagIsClaimed(s: Wd, evs: seq<Event>)
    requires WellFormed(s.l) && ArbiterInv(s.a) && Possible(s, evs) && Attentive(s, evs)
    requires Ticks(evs) > 16 + 8 * |Raises(s, evs)|
    ensures exists k :: 0 <= k <= |evs| && Possible(s, evs[..k]) && Run(s, evs[..k]).a.pending == {}
  {
    AttentiveHostDrains(s, evs);
    var k := QuietState(s, evs);
  }

  /** A run with an idle tick has a state with nothing pending. */
  lemma {:induction false} QuietState(s: Wd, evs: seq<Event>) returns (k: nat)
    requires WellFormed(s.l) && Possible(s, evs) && BusyTicks(s, evs) < Ticks(evs)
    ensures k <= |evs| && Possible(s, evs[..k]) && Run(s, evs[..k]).a.pending == {}
    decreases |evs|
  {
    var t := Step(s, evs[0]);
    if evs[0].ETick? && !Busy(s, evs[0]) {
      k := 1;
      assert evs[..1][1..] == [];
    } else {
      var j := QuietState(t, evs[1..]);
      k := j + 1;
      assert evs[..k][1..] == evs[1..][..j];
    }
  }
}
