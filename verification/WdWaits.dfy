/**
 How long a single Winchester interrupt waits.  Flags are delivered in priority order, so what a
 flag waits for is the re-arm counter and the flags preferred to it, those that are set on the
 way among them.  The host can keep setting a bus error; so a bound in ticks alone exists for
 the bus error and for no other flag.
 */
module WdWaits {
  import opened Options
  import opened WdController
  import opened WdInterrupts
  import opened Words

  /** The place of a flag in the order of delivery. */
  function Rank(f: Flag): nat {
    match f
    case BusErr => 0
    case Completion(u) => if u == 0 then 1 else 2
    case Seek(u) => if u == 0 then 3 else 4
  }

  lemma RankIsPreference(f: Flag, g: Flag)
    requires f in ALL_FLAGS && g in ALL_FLAGS && f != g
    ensures First({f, g}) == Some(f) <==> Rank(f) < Rank(g)
  {
  }

  /** How many flags of a bag are preferred to f. */
  function Ahead(m: multiset<Flag>, f: Flag): nat {
    var r := Rank(f);
    (if r > 0 then m[BusErr] else 0) + (if r > 1 then m[Completion(0)] else 0)
    + (if r > 2 then m[Completion(1)] else 0) + (if r > 3 then m[Seek(0)] else 0)
  }

  /** A flag stays pending through a whole run. */
  ghost predicate Waits(s: Wd, evs: seq<Event>, f: Flag)
    requires WellFormed(s.l) && Possible(s, evs)
    decreases |evs|
  {
    f in s.a.pending && (evs == [] || Waits(Step(s, evs[0]), evs[1..], f))
  }

  function WaitBound(a: Arbiter, f: Flag): nat { a.counter + 2 * Ahead(multiset(a.pending), f) }

  lemma WaitBoundByRank(a: Arbiter, f: Flag)
    requires ArbiterInv(a)
    ensures WaitBound(a, f) <= INT_SEEK_COUNT + 2 * Rank(f)
  {
    assert forall g :: multiset(a.pending)[g] <= 1;
  }

  /** Claiming the first flag leaves one less ahead. */
  lemma ClaimAdvances(a: Arbiter, f: Flag)
    requires ArbiterInv(a) && f in a.pending
    ensures var b := Acknowledge(a, INT_LEVEL).0;
      f in b.pending ==> Ahead(multiset(b.pending), f) + 1 == Ahead(multiset(a.pending), f)
  {
    var g := First(a.pending).value;
    assert multiset(a.pending - {g}) == multiset(a.pending) - multiset{g};
  }

  lemma NotifyLeavesCounter(a: Arbiter, before: Ladder, after: Ladder)
    requires WellFormed(after) && a.counter > 0
    ensures Notify(a, before, after).counter == a.counter
  {
  }

  lemma CounterRuns(a: Arbiter, f: Flag)
    requires ArbiterInv(a) && f in a.pending && f != BusErr
    ensures a.counter > 0
  {
    assert f in a.pending - {BusErr};
  }

  lemma RaisedCounts(p: set<Flag>, q: set<Flag>, f: Flag)
    requires p <= q
    ensures Ahead(multiset(q), f) == Ahead(multiset(p), f) + Ahead(multiset(q - p), f)
  {
    assert multiset(q) == multiset(p) + multiset(q - p);
  }

  /** What a tick raises leaves the counter alone; then the arbiter takes its turn. */
  lemma TickOfWaiting(s: Wd, o: Outcome, f: Flag) returns (a: Arbiter)
    requires WellFormed(s.l) && ArbiterInv(s.a) && f in s.a.pending && f != BusErr
    ensures ArbiterInv(a) && a.counter == s.a.counter && a.pending == Step(s, ETick(o)).a.pending >= s.a.pending
    ensures Step(s, ETick(o)).a == TickArbiter(a)
  {
    hide Notify, TickState, TickCommand, ArbiterInv, TickArbiter, WellFormed;
    var l1 := TickState(s.l, o);
    var l2 := TickCommand(l1, o);
    var a1 := Notify(s.a, s.l, l1);
    a := Notify(a1, l1, l2);
    CounterRuns(s.a, f);
    NotifyKeepsInv(s.a, s.l, l1);
    NotifyKeepsInv(a1, l1, l2);
    NotifyLeavesCounter(s.a, s.l, l1);
    NotifyLeavesCounter(a1, l1, l2);
    ArbiterTickKeepsInv(a);
  }

  lemma RoundServes(a: Arbiter, f: Flag)
    requires ArbiterInv(a) && f in a.pending && f != BusErr
    ensures f in Round(a).0.pending ==> WaitBound(Round(a).0, f) + 1 <= WaitBound(a, f)
  {
    hide Ahead;
    CounterRuns(a, f);
    ArbiterTickKeepsInv(a);
    ClaimAdvances(TickArbiter(a), f);
  }

  /** A tick, with its acknowledge if it leaves the line up, brings a waiting flag one step nearer. */
  lemma TickServes(s: Wd, o: Outcome, f: Flag)
    requires WellFormed(s.l) && ArbiterInv(s.a) && f in s.a.pending && f != BusErr
    ensures var t := Step(s, ETick(o));
      var u := if t.a.asserted then Step(t, EAck(INT_LEVEL)).a else t.a;
      f in u.pending ==>
        1 + WaitBound(u, f) <= WaitBound(s.a, f) + 2 * Ahead(multiset(Raised(s, ETick(o))), f)
  {
    hide Step, Ahead, ArbiterInv, Round, TickArbiter;
    var a := TickOfWaiting(s, o, f);
    RaisedCounts(s.a.pending, a.pending, f);
    TickThenAckIsRound(Step(s, ETick(o)), a);
    RoundServes(a, f);
  }

  /** Any other event costs it what it raises ahead of it. */
  lemma OtherServes(s: Wd, e: Event, f: Flag)
    requires WellFormed(s.l) && Allowed(s, e) && ArbiterInv(s.a) && !e.ETick? && !IsReset(e)
    requires f in s.a.pending && f in Step(s, e).a.pending && f != BusErr
    ensures WaitBound(Step(s, e).a, f) <= WaitBound(s.a, f) + 2 * Ahead(multiset(Raised(s, e)), f)
  {
    hide Ahead;
    if e.EAck? {
      if e.level == INT_LEVEL { ClaimAdvances(s.a, f); }
    } else {
      assert Step(s, e).a.counter == s.a.counter;
      RaisedCounts(s.a.pending, Step(s, e).a.pending, f);
    }
  }

  lemma AheadAdds(m: multiset<Flag>, n: multiset<Flag>, f: Flag)
    ensures Ahead(m + n, f) == Ahead(m, f) + Ahead(n, f)
  {
  }

  /** A bus error holds the line, so the next tick is followed by the acknowledge that claims it. */
  lemma {:induction false} BusErrorWaitsForNoTick(s: Wd, evs: seq<Event>)
    requires WellFormed(s.l) && ArbiterInv(s.a) && Possible(s, evs) && Attentive(s, evs) && Waits(s, evs, BusErr)
    ensures Ticks(evs) == 0
    decreases |evs|
  {
    hide ArbiterInv, TickArbiter, Notify, TickState, TickCommand;
    if evs != [] {
      StepKeepsInv(s, evs[0]);
      BusErrorHolds(s.a);
      BusErrorHolds(Step(s, evs[0]).a);
      if evs[0].ETick? {
        NoWaitBehindTheLine(Step(s, evs[0]), evs[1..]);
      } else {
        BusErrorWaitsForNoTick(Step(s, evs[0]), evs[1..]);
      }
    }
  }

  lemma NoWaitBehindTheLine(s: Wd, evs: seq<Event>)
    requires WellFormed(s.l) && Possible(s, evs) && evs != [] && evs[0] == EAck(INT_LEVEL)
    ensures !Waits(s, evs, BusErr)
  {
    if BusErr in s.a.pending {
      assert BusErr !in Step(s, evs[0]).a.pending;
      assert !Waits(Step(s, evs[0]), evs[1..], BusErr);
    }
  }

  lemma BusErrorHolds(a: Arbiter)
    requires ArbiterInv(a) && BusErr in a.pending
    ensures a.asserted
  {
  }

  lemma {:induction false} WaitIsSpent(s: Wd, evs: seq<Event>, f: Flag)
    requires WellFormed(s.l) && ArbiterInv(s.a) && Possible(s, evs) && Attentive(s, evs) && Waits(s, evs, f)
    requires f != BusErr
    ensures Ticks(evs) <= WaitBound(s.a, f) + 2 * Ahead(Raises(s, evs), f)
    decreases |evs|
  {
    hide Step, WaitBound, ArbiterInv, Raised, Ahead;
    if evs != [] {
      var e, t, rest := evs[0], Step(s, evs[0]), evs[1..];
      StepKeepsInv(s, e);
      AheadAdds(multiset(Raised(s, e)), Raises(t, rest), f);
      if !e.ETick? {
        assert f in t.a.pending;
        OtherServes(s, e, f);
        WaitIsSpent(t, rest, f);
      } else {
        TickServes(s, e.o, f);
        if t.a.asserted {
          StepKeepsInv(t, rest[0]);
          AheadAdds(multiset(Raised(t, rest[0])), Raises(Step(t, rest[0]), rest[1..]), f);
          WaitIsSpent(Step(t, rest[0]), rest[1..], f);
        } else {
          assert f in t.a.pending;
          WaitIsSpent(t, rest, f);
        }
      }
    }
  }

  /** The wait of one flag, in any run of the whole machine without a reset in which every tick
      that leaves the line up is followed by its acknowledge: while the flag stays pending there
      pass at most 6 ticks, 2 for each flag there is to prefer to it and 2 more for each time
      such a flag gets set on the way.  A bus error waits for no tick at all. */
  lemma WaitIsBounded(s: Wd, evs: seq<Event>, f: Flag)
    requires WellFormed(s.l) && ArbiterInv(s.a) && Possible(s, evs) && Attentive(s, evs) && Waits(s, evs, f)
    ensures Ticks(evs) <= INT_SEEK_COUNT + 2 * Rank(f) + 2 * Ahead(Raises(s, evs), f)
    ensures f == BusErr ==> Ticks(evs) == 0
  {
    hide Raises, Ahead;
    if f == BusErr {
      BusErrorWaitsForNoTick(s, evs);
    } else {
      WaitIsSpent(s, evs, f);
      WaitBoundByRank(s.a, f);
    }
  }

  /** So in a longer run the flag has been claimed. */
  lemma FlagIsClaimed(s: Wd, evs: seq<Event>, f: Flag)
    requires WellFormed(s.l) && ArbiterInv(s.a) && Possible(s, evs) && Attentive(s, evs)
    requires Ticks(evs) > INT_SEEK_COUNT + 2 * Rank(f) + 2 * Ahead(Raises(s, evs), f)
    ensures exists k :: 0 <= k <= |evs| && Possible(s, evs[..k]) && f !in Run(s, evs[..k]).a.pending
  {
    hide Ahead, Raises, ArbiterInv;
    if Waits(s, evs, f) {
      WaitIsBounded(s, evs, f);
    } else {
      var k := Claimed(s, evs, f);
    }
  }

  lemma {:induction false} Claimed(s: Wd, evs: seq<Event>, f: Flag) returns (k: nat)
    requires WellFormed(s.l) && Possible(s, evs) && !Waits(s, evs, f)
    ensures k <= |evs| && Possible(s, evs[..k]) && f !in Run(s, evs[..k]).a.pending
    decreases |evs|
  {
    hide Step;
    if f !in s.a.pending {
      k := 0;
    } else {
      var j := Claimed(Step(s, evs[0]), evs[1..], f);
      k := j + 1;
      assert evs[..k][1..] == evs[1..][..j];
    }
  }

  // ---------------------------------------------------------------- runs in pieces

  /** An attentive run from one state to another. */
  ghost predicate Leads(s: Wd, evs: seq<Event>, t: Wd) {
    WellFormed(s.l) && Possible(s, evs) && Attentive(s, evs) && Run(s, evs) == t
  }

  lemma LeadsByOne(s: Wd, e: Event)
    requires WellFormed(s.l) && Allowed(s, e) && !IsReset(e) && (e.ETick? ==> !Step(s, e).a.asserted)
    ensures Leads(s, [e], Step(s, e)) && Ticks([e]) == if e.ETick? then 1 else 0
  {
    assert [e][1..] == [];
  }

  lemma {:induction false} LeadsOn(s: Wd, xs: seq<Event>, t: Wd, ys: seq<Event>, z: Wd)
    requires Leads(s, xs, t) && Leads(t, ys, z)
    ensures Leads(s, xs + ys, z) && Ticks(xs + ys) == Ticks(xs) + Ticks(ys)
    ensures forall f :: Waits(s, xs, f) && Waits(t, ys, f) ==> Waits(s, xs + ys, f)
    decreases |xs|
  {
    hide Step, IsReset;
    if xs == [] {
      assert xs + ys == ys;
    } else {
      LeadsOn(Step(s, xs[0]), xs[1..], t, ys, z);
      assert (xs + ys)[0] == xs[0] && (xs + ys)[1..] == xs[1..] + ys;
    }
  }

  // ---------------------------------------------------------------- no bound in ticks alone

  const INT_ON: byte := 0x04
  const INT_OFF: byte := 0x00

  /** The host enables interrupts under a standing bus error, takes its interrupt and disables
      them again. */
  function Toggle(o: Outcome): seq<Event> { [EWriteControl(INT_ON), ETick(o), EAck(INT_LEVEL), EWriteControl(INT_OFF)] }

  /** A flag waits with the ladder at rest, interrupts off and a bus error standing. */
  ghost predicate Starving(s: Wd, f: Flag) {
    && WellFormed(s.l) && s.l.stateCounter == 0 && s.l.cmdCounter == 0
    && s.l.statusReg.busErr && s.l.ctl == ControlOf(INT_OFF)
    && ArbiterInv(s.a) && !s.a.asserted && f in s.a.pending && f != BusErr
  }

  lemma ToggledOn(s: Wd, f: Flag)
    requires Starving(s, f)
    ensures var t := Step(s, EWriteControl(INT_ON));
      && !IsReset(EWriteControl(INT_ON)) && ArbiterInv(t.a)
      && t == s.(l := s.l.(ctl := ControlOf(INT_ON)), a := s.a.(pending := s.a.pending + {BusErr}, asserted := true))
  {
    assert ControlOf(INT_ON) == Control(false, false, true, false, false, false);
    assert ControlOf(INT_OFF) == Control(false, false, false, false, false, false);
    StepKeepsInv(s, EWriteControl(INT_ON));
  }

  lemma ToggleTaken(s: Wd, o: Outcome, f: Flag)
    requires WellFormed(s.l) && s.l.stateCounter == 0 && s.l.cmdCounter == 0 && ArbiterInv(s.a)
    requires s.a.asserted && {BusErr, f} <= s.a.pending && f != BusErr
    ensures var t := Step(s, ETick(o));
      var u := Step(t, EAck(INT_LEVEL));
      && t.l == s.l && t.a.asserted && f in t.a.pending
      && u.l == s.l && ArbiterInv(u.a) && !u.a.asserted && f in u.a.pending
  {
    StepKeepsInv(s, ETick(o));
    StepKeepsInv(Step(s, ETick(o)), EAck(INT_LEVEL));
  }

  lemma ToggledOff(s: Wd, f: Flag)
    requires WellFormed(s.l) && s.l.stateCounter == 0 && s.l.cmdCounter == 0 && s.l.statusReg.busErr
    requires ArbiterInv(s.a) && !s.a.asserted && f in s.a.pending && f != BusErr
    ensures !IsReset(EWriteControl(INT_OFF)) && Starving(Step(s, EWriteControl(INT_OFF)), f)
  {
    assert ControlOf(INT_OFF) == Control(false, false, false, false, false, false);
  }

  lemma LeadsByTickAndAck(s: Wd, o: Outcome)
    requires WellFormed(s.l) && Step(s, ETick(o)).a.asserted
    ensures var t := Step(s, ETick(o));
      Leads(s, [ETick(o), EAck(INT_LEVEL)], Step(t, EAck(INT_LEVEL))) && Ticks([ETick(o), EAck(INT_LEVEL)]) == 1
  {
    var evs, t := [ETick(o), EAck(INT_LEVEL)], Step(s, ETick(o));
    LeadsByOne(t, EAck(INT_LEVEL));
    assert evs[1..] == [EAck(INT_LEVEL)];
  }

  lemma WaitsOne(s: Wd, e: Event, f: Flag)
    requires WellFormed(s.l) && Allowed(s, e) && f in s.a.pending && f in Step(s, e).a.pending
    ensures Possible(s, [e]) && Waits(s, [e], f)
  {
    assert [e][1..] == [];
  }

  /** One turn of the toggle: a tick passes, the host takes a bus error, the flag waits on. */
  lemma ToggleStarves(s: Wd, o: Outcome, f: Flag) returns (z: Wd)
    requires Starving(s, f)
    ensures Leads(s, Toggle(o), z) && Starving(z, f) && Waits(s, Toggle(o), f) && Ticks(Toggle(o)) == 1
  {
    var on, mid, off := EWriteControl(INT_ON), [ETick(o), EAck(INT_LEVEL)], EWriteControl(INT_OFF);
    var s1 := Step(s, on);
    var s2 := Step(s1, ETick(o));
    var s3 := Step(s2, EAck(INT_LEVEL));
    z := Step(s3, off);
    ToggledOn(s, f);
    ToggleTaken(s1, o, f);
    ToggledOff(s3, f);
    hide Step, ControlOf, Waits;
    LeadsByOne(s, on);
    LeadsByTickAndAck(s1, o);
    LeadsByOne(s3, off);
    WaitsOne(s, on, f);
    WaitsOne(s1, ETick(o), f);
    WaitsOne(s2, EAck(INT_LEVEL), f);
    WaitsOne(s3, off, f);
    WaitsTwo(s1, ETick(o), EAck(INT_LEVEL), f);
    LeadsOn(s, [on], s1, mid, s3);
    LeadsOn(s, [on] + mid, s3, [off], z);
    assert Toggle(o) == [on] + mid + [off];
  }

  lemma WaitsTwo(s: Wd, d: Event, e: Event, f: Flag)
    requires WellFormed(s.l) && Allowed(s, d) && Allowed(Step(s, d), e) && f in s.a.pending
    requires Waits(Step(s, d), [e], f)
    ensures Possible(s, [d, e]) && Waits(s, [d, e], f)
  {
    assert [d, e][1..] == [e];
  }

  function Turns(o: Outcome, n: nat): seq<Event> { if n == 0 then [] else Toggle(o) + Turns(o, n - 1) }

  lemma {:induction false} TurnsStarve(s: Wd, o: Outcome, f: Flag, n: nat) returns (z: Wd)
    requires Starving(s, f)
    ensures Leads(s, Turns(o, n), z) && Starving(z, f) && Waits(s, Turns(o, n), f) && Ticks(Turns(o, n)) == n
    decreases n
  {
    if n == 0 {
      z := s;
    } else {
      hide Leads, Starving, Waits, Ticks;
      var t := ToggleStarves(s, o, f);
      var rest := Turns(o, n - 1);
      z := TurnsStarve(t, o, f, n - 1);
      LeadsIsPossible(s, Toggle(o), t);
      LeadsIsPossible(t, rest, z);
      LeadsOn(s, Toggle(o), t, rest, z);
      LeadsIsPossible(s, Toggle(o) + rest, z);
    }
  }

  lemma LeadsIsPossible(s: Wd, evs: seq<Event>, t: Wd)
    requires Leads(s, evs, t)
    ensures WellFormed(s.l) && Possible(s, evs)
  {
  }

  // ---------------------------------------------------------------- from power-on

  /** The control byte that lets a finished SEEK ask for a flag, and for no other. */
  function Enabling(f: Flag): byte {
    match f
    case Seek(u) => if u == 0 then 0x10 else 0x20
    case _ => 0x04
  }

  function UnitNumber(f: Flag): nat { if f.BusErr? then 0 else f.u }

  /** A SEEK of the flag's unit. */
  function SeekBlock(f: Flag): seq<byte>
    requires f in ALL_FLAGS
  {
    [SCSI_SEEK, 32 * UnitNumber(f), 0, 0, 0, 0]
  }

  function Writes(bs: seq<byte>): seq<Event> {
    if bs == [] then [] else [EHostWrite(bs[0], NOT_PROBED)] + Writes(bs[1..])
  }

  /** What the host sends: interrupts, selection and the block. */
  function SeekSent(f: Flag): seq<Event>
    requires f in ALL_FLAGS
  {
    [EWriteControl(Enabling(f))] + [ESelect(1)] + Writes(SeekBlock(f))
  }

  const DONE := Outcome(0, [], false)

  function DoneTicks(n: nat): seq<Event> { if n == 0 then [] else [ETick(DONE)] + DoneTicks(n - 1) }

  /** It lets go of the bus, turns DMA on, probes an invalid address, as is the one a DMA register of
      zero stands for, and turns all off again. */
  const PROBE: seq<Event> := [ESelect(0), EWriteControl(0x08), EHostWrite(0, Probe(false, 0xffff)), EWriteControl(0x00)]

  /** The bus and the counters while the command runs. */
  datatype Point = Point(phase: Phase, st: nat, cm: nat, cmd: Cmd)

  ghost predicate Running(s: Wd, f: Flag, p: Point) {
    && f in ALL_FLAGS && f != BusErr && WellFormed(s.l)
    && s.l.scsiIdx == 6 && s.l.scsiBuf[0] == SCSI_SEEK && s.l.scsiBuf[1] == 32 * UnitNumber(f)
    && s.l.ctl == ControlOf(Enabling(f)) && s.l.toRead == [] && s.a == Arbiter({}, false, 0)
    && (s.l.phase == Complete ==> s.l.lastCmd[UnitNumber(f)] == SCSI_SEEK)
    && p == Point(s.l.phase, s.l.stateCounter, s.l.cmdCounter, s.l.currCommand)
  }

  /** One tick at a point of the command, up to the status phase. */
  function Onward(p: Point): Point {
    var q := if p.st == 0 then p
             else if p.st == 1 && p.phase == Message then p.(phase := Complete, st := PHASE_COUNT)
             else p.(st := p.st - 1);
    if q.cm == 0 then q
    else if q.cm == 1 && q.cmd == ProcessScsiCmd then Point(Message, PHASE_COUNT, CMD_COUNT, ResetOutRegFull)
    else q.(cm := q.cm - 1)
  }

  predicate OnTheWay(p: Point) {
    || (p.phase == Idle && p.st == 0 && p.cm > 0 && p.cmd == ProcessScsiCmd)
    || (p.phase == Message && p.st > 0 && p.cmd == ResetOutRegFull)
    || (p.phase == Complete && p.st > 1 && p.cm == 0)
  }

  lemma EnablingMeans(f: Flag)
    requires f in ALL_FLAGS && f != BusErr
    ensures Enabling(f) in {0x04, 0x10, 0x20}
    ensures var c := ControlOf(Enabling(f));
      && !c.srst && !c.seqEn && (c.intEn <==> f.Completion?)
      && forall u :: u < 2 ==> (c.SeekEnabled(u) <==> f == Seek(u))
  {
  }

  lemma OneOnward(s: Wd, f: Flag, p: Point)
    requires Running(s, f, p) && OnTheWay(p)
    ensures Running(Step(s, ETick(DONE)), f, Onward(p))
  {
    EnablingMeans(f);
  }

  function OnwardTimes(p: Point, n: nat): Point
    decreases n
  {
    if n == 0 then p else OnwardTimes(Onward(p), n - 1)
  }

  predicate StaysOnTheWay(p: Point, n: nat)
    decreases n
  {
    n == 0 || (OnTheWay(p) && StaysOnTheWay(Onward(p), n - 1))
  }

  const TAKEN := Point(Idle, 0, CMD_COUNT, ProcessScsiCmd)
  const READY := Point(Complete, 1, 0, ResetOutRegFull)

  lemma ElevenTicks()
    ensures StaysOnTheWay(TAKEN, 11) && OnwardTimes(TAKEN, 11) == READY
  {
    var p2 := Point(Message, PHASE_COUNT, CMD_COUNT, ResetOutRegFull);
    var p5 := Point(Message, 2, 0, ResetOutRegFull);
    var p8 := Point(Complete, 4, 0, ResetOutRegFull);
    assert StaysOnTheWay(p8, 3) && OnwardTimes(p8, 3) == READY;
    assert StaysOnTheWay(p5, 6) && OnwardTimes(p5, 6) == READY;
    assert StaysOnTheWay(p2, 9) && OnwardTimes(p2, 9) == READY;
  }

  lemma {:induction false} TicksOnward(s: Wd, f: Flag, p: Point, n: nat) returns (t: Wd)
    requires Running(s, f, p) && StaysOnTheWay(p, n)
    ensures Leads(s, DoneTicks(n), t) && Running(t, f, OnwardTimes(p, n))
    decreases n
  {
    hide Onward, OnTheWay;
    if n == 0 {
      t := s;
    } else {
      OneOnward(s, f, p);
      var s1 := Step(s, ETick(DONE));
      LeadsByOne(s, ETick(DONE));
      t := TicksOnward(s1, f, Onward(p), n - 1);
      LeadsOn(s, [ETick(DONE)], s1, DoneTicks(n - 1), t);
    }
  }

  /** Part of the block has been written. */
  ghost predicate Sending(s: Wd, f: Flag, bs: seq<byte>) {
    && f in ALL_FLAGS && f != BusErr && WellFormed(s.l) && s.l.selected == 1 && |bs| <= 6
    && s.l.scsiIdx == |bs| && s.l.scsiBuf[..|bs|] == bs && s.l.phase == Idle && s.l.stateCounter == 0
    && s.l.ctl == ControlOf(Enabling(f)) && s.l.toRead == [] && s.a == Arbiter({}, false, 0)
    && (bs != [] ==> s.l.cmdCounter == CMD_COUNT && s.l.currCommand == ProcessScsiCmd)
  }

  lemma ByteSent(s: Wd, f: Flag, bs: seq<byte>, v: byte)
    requires Sending(s, f, bs) && |bs| < 6 && (|bs| == 1 ==> v / 32 < 2)
    ensures Allowed(s, EHostWrite(v, NOT_PROBED)) && Sending(Step(s, EHostWrite(v, NOT_PROBED)), f, bs + [v])
  {
    var t := Step(s, EHostWrite(v, NOT_PROBED));
    assert t.l.scsiBuf[..|bs| + 1] == s.l.scsiBuf[..|bs|] + [v];
  }

  lemma {:induction false} BytesSent(s: Wd, f: Flag, bs: seq<byte>, more: seq<byte>) returns (t: Wd)
    requires Sending(s, f, bs) && |bs + more| == 6 && (bs + more)[1] / 32 < 2
    ensures Leads(s, Writes(more), t) && Sending(t, f, bs + more)
    decreases |more|
  {
    if more == [] {
      t := s;
      assert bs + more == bs;
    } else {
      ByteSent(s, f, bs, more[0]);
      hide Sending, Step;
      var e := EHostWrite(more[0], NOT_PROBED);
      assert bs + more == (bs + [more[0]]) + more[1..];
      t := BytesSent(Step(s, e), f, bs + [more[0]], more[1..]);
      SendingIsQuiet(Step(s, e), f, bs + [more[0]]);
      SendingIsQuiet(s, f, bs);
      LeadsByOne(s, e);
      LeadsOn(s, [e], Step(s, e), Writes(more[1..]), t);
    }
  }

  lemma SendingIsQuiet(s: Wd, f: Flag, bs: seq<byte>)
    requires Sending(s, f, bs)
    ensures WellFormed(s.l) && !s.a.asserted
  {
  }

  lemma SelectedForSeek(f: Flag)
    requires f in ALL_FLAGS && f != BusErr
    ensures !IsReset(EWriteControl(Enabling(f)))
    ensures Sending(Step(Step(PowerOn(), EWriteControl(Enabling(f))), ESelect(1)), f, [])
  {
    EnablingMeans(f);
  }

  lemma BlockTaken(f: Flag) returns (t: Wd)
    requires f in ALL_FLAGS && f != BusErr
    ensures Leads(PowerOn(), SeekSent(f), t) && Running(t, f, TAKEN)
  {
    var s0, on, select := PowerOn(), EWriteControl(Enabling(f)), ESelect(1);
    var s1 := Step(s0, on);
    var s2 := Step(s1, select);
    SelectedForSeek(f);
    t := BytesSent(s2, f, [], SeekBlock(f));
    SentIsTaken(t, f);
    hide Step, Sending, Running, PowerOn, IsReset;
    LeadsByOne(s0, on);
    LeadsByOne(s1, select);
    LeadsOn(s0, [on], s1, [select], s2);
    LeadsOn(s0, [on] + [select], s2, Writes(SeekBlock(f)), t);
  }

  lemma SentIsTaken(s: Wd, f: Flag)
    requires f in ALL_FLAGS && Sending(s, f, [] + SeekBlock(f))
    ensures Running(s, f, TAKEN)
  {
    assert s.l.scsiBuf[0] == s.l.scsiBuf[..6][0] && s.l.scsiBuf[1] == s.l.scsiBuf[..6][1];
  }

  /** The SEEK's flag is set with the status, and the line has not followed yet. */
  lemma StatusAsks(s: Wd, f: Flag)
    requires Running(s, f, READY)
    ensures WellFormed(s.l)
    ensures var t := Step(s, ETick(DONE));
      && t.l.stateCounter == 0 && t.l.cmdCounter == 0 && ArbiterInv(t.a) && !t.a.asserted && f in t.a.pending
  {
    EnablingMeans(f);
    FirstOfPending({});
    StepKeepsInv(s, ETick(DONE));
  }

  lemma ProbeStarves(s: Wd, f: Flag) returns (t: Wd)
    requires WellFormed(s.l) && s.l.stateCounter == 0 && s.l.cmdCounter == 0
    requires ArbiterInv(s.a) && !s.a.asserted && f in s.a.pending && f != BusErr
    ensures Leads(s, PROBE, t) && Starving(t, f)
  {
    t := Run(s, PROBE);
  }

  /** 24 events from power-on: a SEEK asks for the flag, and before the line is up for it the host
      turns interrupts off and provokes a bus error. */
  function Beginning(f: Flag): seq<Event>
    requires f in ALL_FLAGS
  {
    SeekSent(f) + DoneTicks(11) + [ETick(DONE)] + PROBE
  }

  lemma BeginningStarves(f: Flag) returns (t: Wd)
    requires f in ALL_FLAGS && f != BusErr
    ensures Leads(PowerOn(), Beginning(f), t) && Starving(t, f)
  {
    hide Running, PowerOn, Step, Starving, OnTheWay, Onward, StaysOnTheWay, OnwardTimes, ArbiterInv, WellFormed;
    hide Leads, SeekSent, PROBE;
    var s1 := BlockTaken(f);
    ElevenTicks();
    var s2 := TicksOnward(s1, f, TAKEN, 11);
    StatusAsks(s2, f);
    var e, s3 := ETick(DONE), Step(s2, ETick(DONE));
    LeadsByOne(s2, e);
    t := ProbeStarves(s3, f);
    LeadsOn(PowerOn(), SeekSent(f), s1, DoneTicks(11), s2);
    LeadsOn(PowerOn(), SeekSent(f) + DoneTicks(11), s2, [e], s3);
    LeadsOn(PowerOn(), SeekSent(f) + DoneTicks(11) + [e], s3, PROBE, t);
  }

  /** A flag stays pending through the second part of an attentive run from power-on. */
  ghost predicate WaitsAfter(before: seq<Event>, evs: seq<Event>, f: Flag) {
    && Possible(PowerOn(), before) && Attentive(PowerOn(), before)
    && var s := Run(PowerOn(), before);
      Possible(s, evs) && Attentive(s, evs) && Waits(s, evs, f)
  }

  /** From power-on, every flag but the bus error can be kept waiting for any number of ticks, by a
      host that acknowledges whenever a tick leaves the line up: with interrupts toggled under a
      bus error it takes bus error interrupts only.  Each turn sets a flag, as the bound above
      demands. */
  lemma FlagMayStarve(f: Flag, o: Outcome, n: nat)
    requires f in ALL_FLAGS && f != BusErr
    ensures WaitsAfter(Beginning(f), Turns(o, n), f) && Ticks(Turns(o, n)) == n
  {
    hide Starving, PowerOn, Beginning, Turns, Ticks, Waits, Possible, Attentive, Run;
    var s := BeginningStarves(f);
    var z := TurnsStarve(s, o, f, n);
  }

  /** No such wait takes more than n ticks. */
  ghost predicate WaitsAtMost(f: Flag, n: nat) {
    forall before, evs :: WaitsAfter(before, evs, f) ==> Ticks(evs) <= n
  }

  /** So a bound in ticks alone exists for the bus error, and for no other flag. */
  lemma OnlyBusErrorsHaveABound(f: Flag)
    requires f in ALL_FLAGS
    ensures (exists n: nat :: WaitsAtMost(f, n)) <==> f == BusErr
  {
    hide WaitsAfter, Ticks;
    if f == BusErr {
      forall before, evs | WaitsAfter(before, evs, f) ensures Ticks(evs) <= 0 {
        BusErrorAtOnce(before, evs);
      }
      assert WaitsAtMost(f, 0);
    } else {
      forall n: nat ensures !WaitsAtMost(f, n) {
        FlagMayStarve(f, DONE, n + 1);
      }
    }
  }

  lemma BusErrorAtOnce(before: seq<Event>, evs: seq<Event>)
    requires WaitsAfter(before, evs, BusErr)
    ensures Ticks(evs) == 0
  {
    hide PowerOn, ArbiterInv, Ticks, Raises, Ahead;
    PowerOnIsArbitrated();
    ReachableStatesAreArbitrated(PowerOn(), before);
    WaitIsBounded(Run(PowerOn(), before), evs, BusErr);
  }
}
