/**
 From what the host writes to what the host is handed: a board is initialised by three writes to its
 instruction register, and its vectors then follow from the third of them.
 */
module FourWayHandshake {
  import opened FourWay
  import opened FourWayDelivery
  import opened FourWayOrder
  import opened Options
  import opened Words

  function Writes(n: nat, x: nat, y: nat, v: nat): seq<Event> { [EInstr(n, x), EInstr(n, y), EInstr(n, v)] }

  lemma RunOfThree(s: Fw, a: Event, b: Event, e: Event)
    requires WellFormed(s) && Possible(a) && Possible(b) && Possible(e)
    ensures Run(s, [a, b, e]) == Step(Step(Step(s, a), b), e)
  {
    hide Step;
    RunOfOne(Step(Step(s, a), b), e);
    RunTwo(s, a, b, [e]);
    assert [a, b, e] == [a, b] + [e];
  }

  /** Three writes x, y and v after a reset give the board its command block, the low 16 bits from x and
      the next 8 from y, and its vector base v; nothing else changes. */
  lemma HandshakeStores(s: Fw, n: nat, x: nat, y: nat, v: nat)
    requires WellFormed(s) && n < BOARDS && s.boards[n].init == CblockLow
    ensures var t := Run(s, Writes(n, x, y, v));
      var b := t.boards[n];
      && b.init == Ready && b.base == v % 256 && b.cmdBlock == x % 0x1_0000 + 0x1_0000 * (y % 256)
      && b.busy && b.instr == v % 256 && b.recvFull == s.boards[n].recvFull && b.recvData == s.boards[n].recvData
      && t == s.(boards := s.boards[n := b])
  {
    hide RunPorts;
    RunOfThree(s, EInstr(n, x), EInstr(n, y), EInstr(n, v));
    var s1 := Step(s, EInstr(n, x));
    var s2 := Step(s1, EInstr(n, y));
    var s3 := Step(s2, EInstr(n, v));
    assert s1.boards[n].cmdBlock % 0x1_0000 == x % 0x1_0000;
    assert s3.boards == s.boards[n := s3.boards[n]];
  }

  /** A reset asks for the handshake of every board again. */
  lemma ResetAsksForHandshake(s: Fw, n: nat)
    requires WellFormed(s) && n < BOARDS
    ensures Reset(s).boards[n].init == CblockLow && Reset(s).current.None? && Reset(s).num == 0
    ensures PowerOn().boards[n].init == CblockLow
  {
  }

  /** The completion vectors of an instruction write, by its bits. */
  function CompletionVectors(v: nat, value: nat): seq<nat> {
    OneIf(value % 2 == 1, (v + 3) % 256) + OneIf(value / 2 % 2 == 1, (v + 7) % 256)
    + OneIf(value / 4 % 2 == 1, (v + 11) % 256) + OneIf(value / 8 % 2 == 1, (v + 15) % 256)
  }

  function OneIf(there: bool, v: nat): seq<nat> { if there then [v] else [] }

  lemma NamedByBit(value: nat)
    ensures (Named(value, 0) <==> value % 2 == 1) && (Named(value, 1) <==> value / 2 % 2 == 1)
    ensures (Named(value, 2) <==> value / 4 % 2 == 1) && (Named(value, 3) <==> value / 8 % 2 == 1)
  {
    assert Pow2(0) == 1 && Pow2(1) == 2 && Pow2(2) == 4 && Pow2(3) == 8;
  }

  lemma Shifted(v: nat, k: nat)
    ensures (v % 256 + k) % 256 == (v + k) % 256
  {
  }

  lemma ExpectedIsByBits(v: nat, value: nat)
    ensures Expected(v % 256, value, 0) == CompletionVectors(v, value)
  {
    hide Named, Expected, OneIf;
    NamedByBit(value);
    ExpectsOne(v, value, 0);
    ExpectsOne(v, value, 1);
    ExpectsOne(v, value, 2);
    ExpectsOne(v, value, 3);
    ExpectsPort(v % 256, value, 4);
  }

  lemma ExpectsOne(v: nat, value: nat, p: nat)
    requires p < PORTS
    ensures Expected(v % 256, value, p)
      == OneIf(Named(value, p), (v + 4 * p + 3) % 256) + Expected(v % 256, value, p + 1)
  {
    hide Named, Expected;
    ExpectsPort(v % 256, value, p);
    Shifted(v, 4 * p + 3);
  }

  /** A quiet board initialised by x, y and v, told to run ports by a further write, hands the host
      v + 3, v + 7, v + 11 and v + 15 for the ports named, in that order, each once and nothing
      else: whatever the host has got so far, the rest is outstanding, and four rounds deliver
      all. */
  lemma InitialisedBoardCompletes(s: Fw, n: nat, x: nat, y: nat, v: nat, value: nat,
                                  evs: seq<Event>, rx: seq<Option<byte>>)
    requires Inv(s) && s.num == 0 && s.current.None? && n < BOARDS && s.boards[n].init == CblockLow
    requires value / 128 % 2 == 0 && AllDeliveries(evs)
    requires |rx| == SLOTS && forall i :: 0 <= i < SLOTS ==> rx[i].None?
    ensures var t := Step(Run(s, Writes(n, x, y, v)), EInstr(n, value));
      && Delivered(t, evs) + Outstanding(Run(t, evs)) == CompletionVectors(v, value)
      && AllDeliveries(RoundsOf(rx, 4)) && Delivered(t, RoundsOf(rx, 4)) == CompletionVectors(v, value)
  {
    hide Inv, Step, Outstanding, Delivered, CompletionVectors, Expected, Run;
    InvIsWellFormed(s);
    HandshakeStores(s, n, x, y, v);
    RequestsAreConserved(s, Writes(n, x, y, v));
    var t := Run(s, Writes(n, x, y, v));
    CommandsCompleteInOrder(t, n, value, evs, rx, 4);
    ExpectedIsByBits(v, value);
    AtMostFour(v, value);
    WriteIsStep(t, n, value);
  }

  lemma WriteIsStep(s: Fw, n: nat, value: nat)
    requires WellFormed(s) && n < BOARDS
    ensures Step(s, EInstr(n, value)) == InstrWrite(s, n, value)
  {
  }

  lemma AtMostFour(v: nat, value: nat)
    ensures |CompletionVectors(v, value)| <= 4
  {
  }

  // ---------------------------------------------------------------- received characters

  /** One character, for port p of board n. */
  function OneCharacter(n: nat, p: nat, c: byte): (rx: seq<Option<byte>>)
    ensures |rx| == SLOTS
  {
    seq(SLOTS, i => if i == PORTS * n + p then Some(c) else None)
  }

  lemma {:induction false} PollSkips(s: Fw, rx: seq<Option<byte>>, i: nat, k: nat)
    requires WellFormed(s) && |rx| == SLOTS && i <= k <= SLOTS && forall j :: i <= j < k ==> rx[j].None?
    ensures Poll(s, rx, i) == Poll(s, rx, k)
    decreases k - i
  {
    if i < k { PollSkips(s, rx, i + 1, k); }
  }

  lemma OnlyOneWaits(slots: seq<Option<nat>>, i: nat)
    requires i < |slots| && slots[i].Some? && forall j :: 0 <= j < |slots| && j != i ==> slots[j].None?
    ensures FirstWaiting(slots, 0) == i
  {
  }

  lemma OneIsPolled(s: Fw, n: nat, p: nat, c: byte) returns (q: Fw)
    requires WellFormed(s) && n < BOARDS && p < PORTS && s.boards[n].init == Ready && !s.boards[n].recvFull
    requires forall j :: 0 <= j < SLOTS ==> s.slots[j].None?
    ensures WellFormed(q) && Poll(s, OneCharacter(n, p, c), 0) == (q, 1)
    ensures q.current == s.current && q.slots == s.slots[PORTS * n + p := Some(VEC_RXCHAR)]
    ensures q.boards == s.boards[n := s.boards[n].(recvFull := true, recvData := c)]
  {
    hide AddPending, Requested, At;
    var rx, i := OneCharacter(n, p, c), PORTS * n + p;
    PollSkips(s, rx, 0, i);
    var s1 := s.(boards := s.boards[n := s.boards[n].(recvFull := true, recvData := c)]);
    q := PolledOne(s1, n, p);
    assert Poll(s, rx, i) == (Poll(q, rx, i + 1).0, Poll(q, rx, i + 1).1 + 1);
    PollSkips(q, rx, i + 1, SLOTS);
  }

  lemma PolledOne(s: Fw, n: nat, p: nat) returns (q: Fw)
    requires WellFormed(s) && n < BOARDS && p < PORTS && s.slots[PORTS * n + p].None?
    ensures WellFormed(q) && IsReq(At(PORTS * n + p, VEC_RXCHAR))
    ensures q == AddPending(Requested(s, At(PORTS * n + p, VEC_RXCHAR)), At(PORTS * n + p, VEC_RXCHAR))
    ensures q.current == s.current && q.slots == s.slots[PORTS * n + p := Some(VEC_RXCHAR)] && q.boards == s.boards
  {
    var r := At(PORTS * n + p, VEC_RXCHAR);
    AddPendingToEmpty(s, PORTS * n + p);
    q := AddPending(Requested(s, r), r);
  }

  lemma TakesTheOnly(s: Fw, n: nat, p: nat)
    requires WellFormed(s) && n < BOARDS && p < PORTS && s.current.None? && s.boards[n].instr / 128 % 2 == 0
    requires s.slots[PORTS * n + p] == Some(VEC_RXCHAR)
    requires forall j :: 0 <= j < SLOTS && j != PORTS * n + p ==> s.slots[j].None?
    ensures var t := TakeFirst(s);
      t.boards == s.boards && IrqAck(t, LEVEL).1 == Some((s.boards[n].base + 4 * p + 1) % 256)
  {
    OnlyOneWaits(s.slots, PORTS * n + p);
  }

  /** On a quiet system a character received for a port of an initialised and uninhibited board is
      announced with v + 4p + 1 for the board's base v, and is the one that the host then reads. */
  lemma CharacterIsAnnounced(s: Fw, n: nat, p: nat, c: byte)
    requires Inv(s) && s.num == 0 && s.current.None? && n < BOARDS && p < PORTS
    requires s.boards[n].init == Ready && s.boards[n].instr / 128 % 2 == 0 && !s.boards[n].recvFull
    ensures var t := Step(s, EProcess(OneCharacter(n, p, c)));
      && IrqAck(t, LEVEL).1 == Some((s.boards[n].base + 4 * p + 1) % 256)
      && t.boards[n].recvFull && t.boards[n].recvData == c
  {
    hide Poll, TakeFirst, IrqAck, Balanced, Vectored, Waiting;
    NothingWaiting(s.slots, SLOTS);
    var q := OneIsPolled(s, n, p, c);
    TakesTheOnly(q, n, p);
  }
}
