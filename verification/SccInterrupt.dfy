/**
 When the serial chip interrupts, over whole histories of accesses, in terms of the bits of its
 registers; and how its registers get their values.
 */
module SccInterrupt {
  import opened Scc
  import opened Words
  import opened Options

  datatype Event =
    | Order(port: nat, v: byte)
    | Data(port: nat, v: byte)
    | TakeData(port: nat)
    | ReadStatus(port: nat)
    | Character(port: nat, v: byte)
    | Load(port: nat, data: seq<byte>)

  function Step(c: Chip, e: Event): (r: Chip)
    requires c.Valid()
    ensures r.Valid()
  {
    if e.port >= 2 then c else
    match e
    case Order(p, v) => CmdWrite(c, p, v)
    case Data(p, v) => DataWrite(c, p, v)
    case TakeData(p) => DataRead(c, p)
    case ReadStatus(p) => CmdRead(c, p).0
    case Character(p, v) => Receive(c, p, v)
    case Load(_, data) => c.(file := Some(data))
  }

  /** From a hardware reset on. */
  function Run(es: seq<Event>): (r: Chip)
    ensures r.Valid()
    decreases |es|
  {
    if es == [] then RESET else Step(Run(es[..|es| - 1]), es[|es| - 1])
  }

  // ---------------------------------------------------------------- what raises and what clears

  /** Bit 4 of register 14 loops the channel back, which keeps it from interrupting. */
  predicate OnTheLine(x: Channel)
    requires |x.wr| == 16
  {
    x.wr[14] / 16 % 2 == 0
  }

  /** A written byte empties the transmitter at once; bit 1 of register 1 asks to hear of it. */
  predicate RaisesTx(c: Chip, e: Event, q: nat)
    requires c.Valid() && q < 2
  {
    e.Data? && e.port == q && OnTheLine(c.ch[q]) && c.ch[q].wr[1] / 2 % 2 == 1
  }

  /** A character is reported if bit 3 or bit 4 of register 1 asks for it. */
  predicate RaisesRx(c: Chip, e: Event, q: nat)
    requires c.Valid() && q < 2
  {
    e.Character? && e.port == q && OnTheLine(c.ch[q]) && (c.ch[q].wr[1] / 8 % 2 == 1 || c.ch[q].wr[1] / 16 % 2 == 1)
  }

  /** Register 0 is the one a command reaches unless the last one selected another. */
  predicate Selects(x: Channel, n: nat)
    requires |x.wr| == 16
  {
    n == x.wr[0] % 8 + if x.wr[0] / 8 % 8 == 1 then 8 else 0
  }

  /** The reset of a channel through register 9: bit 7 for the first, bit 6 for the second. */
  predicate ResetsChannel(c: Chip, e: Event, q: nat)
    requires c.Valid() && q < 2
  {
    e.Order? && e.port < 2 && Selects(c.ch[e.port], 9) && e.v / (if q == 0 then 128 else 64) % 2 == 1
  }

  /** A command to register 0, by its bits 5 to 3. */
  predicate Commands(c: Chip, e: Event, code: nat)
    requires c.Valid()
  {
    e.Order? && e.port < 2 && Selects(c.ch[e.port], 0) && e.v / 8 % 8 == code
  }

  /** The transmit interrupt goes by command 5 to its channel, by command 7 if nothing ranks above
      it (receive above transmit, the first channel above the second) and by a channel reset. */
  predicate ClearsTx(c: Chip, e: Event, q: nat)
    requires c.Valid() && q < 2
  {
    || (Commands(c, e, 5) && e.port == q)
    || (Commands(c, e, 7) && !c.ch[0].rxPend && (q == 1 ==> !c.ch[0].txPend && !c.ch[1].rxPend))
    || ResetsChannel(c, e, q)
  }

  /** The receive interrupt goes by reading the character as well. */
  predicate ClearsRx(c: Chip, e: Event, q: nat)
    requires c.Valid() && q < 2
  {
    || (e.TakeData? && e.port == q && c.ch[q].rxAvailable)
    || (Commands(c, e, 7) && (q == 1 ==> !c.ch[0].rxPend && !c.ch[0].txPend))
    || ResetsChannel(c, e, q)
  }

  /** Neither interrupt of a channel. */
  predicate SamePending(c: Chip, r: Chip, q: nat)
    requires c.Valid() && r.Valid() && q < 2
  {
    && r.ch[q].txPend == c.ch[q].txPend && r.ch[q].rxPend == c.ch[q].rxPend
    && r.ch[q].rxAvailable == c.ch[q].rxAvailable && r.ch[q].recBuf == c.ch[q].recBuf
  }

  lemma OrderPending(c: Chip, port: nat, v: byte, q: nat)
    requires c.Valid() && port < 2 && q < 2
    ensures var (r, code) := (Scc.Command(c, port, v), v / 8 % 8);
      && r.ch[q].txPend == (c.ch[q].txPend && !(code == 5 && port == q)
         && !(code == 7 && !c.ch[0].rxPend && (q == 1 ==> !c.ch[0].txPend && !c.ch[1].rxPend)))
      && r.ch[q].rxPend == (c.ch[q].rxPend && !(code == 7 && (q == 1 ==> !c.ch[0].rxPend && !c.ch[0].txPend)))
      && r.ch[q].rxAvailable == c.ch[q].rxAvailable && r.ch[q].recBuf == c.ch[q].recBuf
  {
  }

  lemma MasterPending(c: Chip, v: byte, q: nat)
    requires c.Valid() && q < 2
    ensures var (r, hit) := (MasterWrite(c, v), v / (if q == 0 then 128 else 64) % 2 == 1);
      && r.ch[q].txPend == (c.ch[q].txPend && !hit) && r.ch[q].rxPend == (c.ch[q].rxPend && !hit)
      && r.ch[q].rxAvailable == c.ch[q].rxAvailable && r.ch[q].recBuf == c.ch[q].recBuf
  {
    assert v / 128 % 2 == v / 128;
  }

  /** What a write to the command port leaves of a channel's interrupts, given where it goes. */
  lemma OrderGoes(c: Chip, port: nat, v: byte, q: nat)
    requires c.Valid() && port < 2 && q < 2
    ensures var (r, d) := (CmdWrite(c, port, v), SetCh(c, port, PointerReset(c.ch[port])));
      && SamePending(c, d, 0) && SamePending(c, d, 1)
      && (Selects(c.ch[port], 0) ==> SamePending(Scc.Command(d, port, v), r, q))
      && (Selects(c.ch[port], 9) ==> exists f: Chip :: f.Valid() && SamePending(c, f, q) && r == MasterWrite(f, v))
      && (!Selects(c.ch[port], 0) && !Selects(c.ch[port], 9) ==> SamePending(c, r, q))
  {
    hide MasterWrite, Scc.Command, PointerReset;
    var idx := Pointer(c.ch[port]);
    assert forall n: nat :: Selects(c.ch[port], n) <==> n == idx;
    hide Selects, Pointer;
    var d := SetCh(c, port, PointerReset(c.ch[port]));
    var e := if idx == 0 then Scc.Command(d, port, v) else d;
    var f := if idx == 0 && v == 0 then e else SetCh(e, port, e.ch[port].(wr := e.ch[port].wr[idx := v]));
    assert SamePending(c, d, 0) && SamePending(c, d, 1) by { PointerIsApart(c, port); }
    assert CmdWrite(c, port, v) == if idx == 9 then MasterWrite(f, v) else f;
    hide CmdWrite;
    assert SamePending(e, f, q);
  }

  lemma OrderMeans(c: Chip, port: nat, v: byte, q: nat)
    requires c.Valid() && port < 2 && q < 2
    ensures var (r, e) := (CmdWrite(c, port, v), Order(port, v));
      && r.ch[q].txPend == (c.ch[q].txPend && !ClearsTx(c, e, q))
      && r.ch[q].rxPend == (c.ch[q].rxPend && !ClearsRx(c, e, q))
  {
    hide MasterWrite, Scc.Command, PointerReset, CmdWrite;
    var x := c.ch[port];
    assert !(Selects(x, 0) && Selects(x, 9));
    OrderGoes(c, port, v, q);
    hide Selects;
    if Selects(x, 0) {
      OrderPending(SetCh(c, port, PointerReset(x)), port, v, q);
    } else if Selects(x, 9) {
      var f: Chip :| f.Valid() && SamePending(c, f, q) && CmdWrite(c, port, v) == MasterWrite(f, v);
      MasterPending(f, v, q);
    }
  }

  lemma PointerIsApart(c: Chip, port: nat)
    requires c.Valid() && port < 2
    ensures var d := SetCh(c, port, PointerReset(c.ch[port]));
      forall k :: 0 <= k < 2 ==> SamePending(c, d, k)
  {
  }

  lemma PendingStep(c: Chip, e: Event, q: nat)
    requires c.Valid() && q < 2
    ensures Step(c, e).ch[q].txPend <==> RaisesTx(c, e, q) || (c.ch[q].txPend && !ClearsTx(c, e, q))
    ensures Step(c, e).ch[q].rxPend <==> RaisesRx(c, e, q) || (c.ch[q].rxPend && !ClearsRx(c, e, q))
  {
    hide CmdWrite, CmdRead, DataRead, Receive, DataWrite, Selects;
    if e.port < 2 {
      match e
      case Order(p, v) => OrderMeans(c, p, v, q);
      case TakeData(p) => TakenMeans(c, p, q);
      case ReadStatus(p) => StatusMeans(c, p, q);
      case Data(p, v) => DataMeans(c, p, v, q);
      case Character(p, v) => CharacterMeans(c, p, v, q);
      case Load(_, _) =>
    }
  }

  lemma TakenMeans(c: Chip, port: nat, q: nat)
    requires c.Valid() && port < 2 && q < 2
    ensures var r := DataRead(c, port);
      && r.ch[q].txPend == c.ch[q].txPend
      && r.ch[q].rxPend == (c.ch[q].rxPend && !(port == q && c.ch[q].rxAvailable))
  {
  }

  lemma StatusMeans(c: Chip, port: nat, q: nat)
    requires c.Valid() && port < 2 && q < 2
    ensures SamePending(c, CmdRead(c, port).0, q)
  {
    hide Misdirects, Vector, Pending;
  }

  lemma DataMeans(c: Chip, port: nat, v: byte, q: nat)
    requires c.Valid() && port < 2 && q < 2
    ensures var r := DataWrite(c, port, v);
      && r.ch[q].txPend == (RaisesTx(c, Data(port, v), q) || c.ch[q].txPend) && r.ch[q].rxPend == c.ch[q].rxPend
  {
    hide LoopedBack;
  }

  lemma CharacterMeans(c: Chip, port: nat, v: byte, q: nat)
    requires c.Valid() && port < 2 && q < 2
    ensures var r := Receive(c, port, v);
      && r.ch[q].rxPend == (RaisesRx(c, Character(port, v), q) || c.ch[q].rxPend) && r.ch[q].txPend == c.ch[q].txPend
  {
    TwoBits(c.ch[q].wr[1]);
  }

  lemma TwoBits(w: byte)
    ensures w / 8 % 4 != 0 <==> w / 8 % 2 == 1 || w / 16 % 2 == 1
  {
  }

  // ---------------------------------------------------------------- over whole histories

  predicate TxAt(es: seq<Event>, i: nat, q: nat)
    requires i < |es| && q < 2
  {
    RaisesTx(Run(es[..i]), es[i], q)
  }

  predicate TxSince(es: seq<Event>, i: nat, q: nat)
    requires q < 2
  {
    forall j :: i < j < |es| ==> !ClearsTx(Run(es[..j]), es[j], q)
  }

  predicate RxAt(es: seq<Event>, i: nat, q: nat)
    requires i < |es| && q < 2
  {
    RaisesRx(Run(es[..i]), es[i], q)
  }

  predicate RxSince(es: seq<Event>, i: nat, q: nat)
    requires q < 2
  {
    forall j :: i < j < |es| ==> !ClearsRx(Run(es[..j]), es[j], q)
  }

  lemma EarlierTx(es: seq<Event>, q: nat)
    requires es != [] && q < 2
    ensures var (n, last) := (|es| - 1, Run(es[..|es| - 1]));
      && (TxAt(es, n, q) <==> RaisesTx(last, es[n], q))
      && forall i: nat :: i < n ==>
        && TxAt(es, i, q) == TxAt(es[..n], i, q)
        && (TxSince(es, i, q) <==> TxSince(es[..n], i, q) && !ClearsTx(last, es[n], q))
  {
    hide RaisesTx, ClearsTx, Run;
    assert forall i: nat :: i < |es| ==> es[..|es| - 1][..i] == es[..i];
  }

  lemma EarlierRx(es: seq<Event>, q: nat)
    requires es != [] && q < 2
    ensures var (n, last) := (|es| - 1, Run(es[..|es| - 1]));
      && (RxAt(es, n, q) <==> RaisesRx(last, es[n], q))
      && forall i: nat :: i < n ==>
        && RxAt(es, i, q) == RxAt(es[..n], i, q)
        && (RxSince(es, i, q) <==> RxSince(es[..n], i, q) && !ClearsRx(last, es[n], q))
  {
    hide RaisesRx, ClearsRx, Run;
    assert forall i: nat :: i < |es| ==> es[..|es| - 1][..i] == es[..i];
  }

  predicate TxPends(es: seq<Event>, q: nat)
    requires q < 2
  {
    Run(es).ch[q].txPend
  }

  predicate RxPends(es: seq<Event>, q: nat)
    requires q < 2
  {
    Run(es).ch[q].rxPend
  }

  lemma LastEvent(es: seq<Event>, q: nat)
    requires q < 2
    ensures es == [] ==> !TxPends(es, q) && !RxPends(es, q)
    ensures es != [] ==> var (n, last) := (|es| - 1, Run(es[..|es| - 1]));
      && (TxPends(es, q) <==> RaisesTx(last, es[n], q) || (TxPends(es[..n], q) && !ClearsTx(last, es[n], q)))
      && (RxPends(es, q) <==> RaisesRx(last, es[n], q) || (RxPends(es[..n], q) && !ClearsRx(last, es[n], q)))
  {
    hide Step, RaisesTx, RaisesRx, ClearsTx, ClearsRx;
    if es != [] { PendingStep(Run(es[..|es| - 1]), es[|es| - 1], q); }
  }

  /** After any history a channel's transmit interrupt is pending if and only if some byte raised it
      and nothing cleared it since. */
  lemma {:induction false} TransmitIff(es: seq<Event>, q: nat)
    requires q < 2
    ensures TxPends(es, q) <==> exists i: nat :: i < |es| && TxAt(es, i, q) && TxSince(es, i, q)
    decreases |es|
  {
    hide Run, RaisesTx, RaisesRx, ClearsTx, ClearsRx, TxAt, TxPends;
    LastEvent(es, q);
    if es != [] {
      var n := |es| - 1;
      TransmitIff(es[..n], q);
      EarlierTx(es, q);
      assert TxSince(es, n, q);
      hide TxSince;
    }
  }

  /** Its receive interrupt is, likewise, for characters. */
  lemma {:induction false} ReceiveIff(es: seq<Event>, q: nat)
    requires q < 2
    ensures RxPends(es, q) <==> exists i: nat :: i < |es| && RxAt(es, i, q) && RxSince(es, i, q)
    decreases |es|
  {
    hide Run, RaisesTx, RaisesRx, ClearsTx, ClearsRx, RxAt, RxPends;
    LastEvent(es, q);
    if es != [] {
      var n := |es| - 1;
      ReceiveIff(es[..n], q);
      EarlierRx(es, q);
      assert RxSince(es, n, q);
      hide RxSince;
    }
  }

  // ---------------------------------------------------------------- registers and data

  /** A register is written by two writes to the command port: its number, which is no command, and
      the value; then the port reaches register 0 again. */
  lemma RegisterIsWritten(c: Chip, port: nat, n: nat, v: byte)
    requires c.Valid() && port < 2 && 1 <= n < 16 && c.ch[port].wr[0] % 16 == 0
    ensures var r := CmdWrite(CmdWrite(c, port, n), port, v);
      && r.ch[port].wr[n] == v && r.ch[port].wr[0] == 0
      && r.wr9 == (if n == 9 then v else c.wr9)
      && forall q, k :: q in {0, 1} && 1 <= k < 16 && (q != port || k != n) && (k == 1 ==> n != 9)
           ==> r.ch[q].wr[k] == c.ch[q].wr[k]
  {
    hide MasterWrite, Scc.Command;
    var w := c.ch[port].wr[0];
    assert w % 8 == 0 && w / 8 % 8 != 1 by { assert w / 8 == w / 16 * 2; }
    assert Pointer(c.ch[port]) == 0;
    var one := CmdWrite(c, port, n);
    SelectionIsNoCommand(c, port, n);
    SelectedIsWritten(one, port, n, v);
  }

  lemma SelectionIsNoCommand(c: Chip, port: nat, n: nat)
    requires c.Valid() && port < 2 && 1 <= n < 16 && Pointer(c.ch[port]) == 0
    ensures CmdWrite(c, port, n) == c.(ch := c.ch[port := c.ch[port].(wr := c.ch[port].wr[0 := n])])
  {
    assert n / 8 % 8 < 2;
    assert c.ch[port].wr[0 := c.ch[port].wr[0] / 16 * 16][0 := n] == c.ch[port].wr[0 := n];
    var d := SetCh(c, port, PointerReset(c.ch[port]));
    assert d.ch[port := c.ch[port].(wr := c.ch[port].wr[0 := n])]
      == c.ch[port := c.ch[port].(wr := c.ch[port].wr[0 := n])];
  }

  lemma SelectedIsWritten(c: Chip, port: nat, n: nat, v: byte)
    requires c.Valid() && port < 2 && 1 <= n < 16 && c.ch[port].wr[0] == n
    ensures var r := CmdWrite(c, port, v);
      && r.ch[port].wr[n] == v && r.ch[port].wr[0] == 0
      && r.wr9 == (if n == 9 then v else c.wr9)
      && forall q, k :: q in {0, 1} && 1 <= k < 16 && (q != port || k != n) && (k == 1 ==> n != 9)
           ==> r.ch[q].wr[k] == c.ch[q].wr[k]
  {
    hide MasterWrite, Scc.Command;
    assert Pointer(c.ch[port]) == n;
    var d := SetCh(c, port, PointerReset(c.ch[port]));
    var f := SetCh(d, port, d.ch[port].(wr := d.ch[port].wr[n := v]));
    assert CmdWrite(c, port, v) == if n == 9 then MasterWrite(f, v) else f;
    hide CmdWrite, Pointer;
    MasterRegisters(f, v);
  }

  lemma MasterRegisters(c: Chip, v: byte)
    requires c.Valid()
    ensures var r := MasterWrite(c, v);
      r.wr9 == v && forall q, k :: q in {0, 1} && 0 <= k < 16 && k != 1 ==> r.ch[q].wr[k] == c.ch[q].wr[k]
  {
  }

  /** A looped back byte is received cut to the character size in bits 7 and 6 of register 3 (5, 7, 6
      or 8 bits); reading hands it over once, and register 0 shows in bit 0 whether one is there. */
  lemma LoopbackIsReceived(c: Chip, port: nat, v: byte)
    requires c.Valid() && port < 2 && c.ch[port].wr[14] / 16 % 2 == 1
    ensures var (r, size) := (DataWrite(c, port, v), c.ch[port].wr[3] / 64);
      && r.ch[port].rxAvailable && r.ch[port].recBuf == v % [32, 128, 64, 256][size]
      && !DataRead(r, port).ch[port].rxAvailable
  {
    hide FromFile;
  }

  /** The reads that say something: register 3 of the first channel holds the four pending bits,
      register 2 of the second the vector with its code, 3 where nothing is pending, register 0 the
      empty transmitter and whether a character is there. */
  lemma StatusReads(c: Chip, port: nat, n: nat)
    requires c.Valid() && port < 2 && Selects(c.ch[port], n)
    ensures var v := CmdRead(c, port).1;
      && (n == 0 ==> v == if c.ch[port].rxAvailable then 5 else 4)
      && (n == 3 && port == 0 ==>
            && v < 64 && v % 2 == 0 && v / 8 % 2 == 0
            && (v / 32 % 2 == 1 <==> c.ch[0].rxPend) && (v / 16 % 2 == 1 <==> c.ch[0].txPend)
            && (v / 4 % 2 == 1 <==> c.ch[1].rxPend) && (v / 2 % 2 == 1 <==> c.ch[1].txPend))
      && (n == 2 && port == 1 ==>
            && v / 16 == c.ch[0].wr[2] / 16 && v % 2 == c.ch[0].wr[2] % 2
            && (v / 2 % 8 == 3 <==> !c.AnyPending()))
      && (n == 0 || (n == 3 && port == 0) || (n == 2 && port == 1) || v == 0)
  {
    hide Misdirects, PointerReset;
    var code := match HighestPending(c)
      case Rx(p) => if p == 0 then 6 else 2
      case Tx(p) => if p == 0 then 4 else 0
      case NoSource => 3;
    CodeFits(c.ch[0].wr[2], code);
    assert Vector(c) == c.ch[0].wr[2] / 16 * 16 + c.ch[0].wr[2] % 2 + code * 2;
    hide Vector, Pending;
    PendingBits(c);
  }

  lemma CodeFits(w: byte, code: nat)
    requires code < 8
    ensures var v := w / 16 * 16 + w % 2 + code * 2;
      v / 16 == w / 16 && v % 2 == w % 2 && v / 2 % 8 == code
  {
    var m := w % 2 + code * 2;
    assert m < 16 && (w / 16 * 16 + m) / 16 == w / 16;
    CodeReadsBack(w, code);
  }

  lemma PendingBits(c: Chip)
    requires c.Valid()
    ensures var v := Pending(c);
      && v < 64 && v % 2 == 0 && v / 8 % 2 == 0
      && (v / 32 % 2 == 1 <==> c.ch[0].rxPend) && (v / 16 % 2 == 1 <==> c.ch[0].txPend)
      && (v / 4 % 2 == 1 <==> c.ch[1].rxPend) && (v / 2 % 2 == 1 <==> c.ch[1].txPend)
  {
  }

  /** A channel reset clears the interrupts of its channel and leaves of its register 1 bits 2 and 5
      alone: bit 7 of register 9 resets the first channel, bit 6 the second. */
  lemma ResetDisables(c: Chip, port: nat, v: byte, q: nat, i: nat)
    requires c.Valid() && port < 2 && q < 2 && i < 8 && Selects(c.ch[port], 9)
    requires v / (if q == 0 then 128 else 64) % 2 == 1
    ensures var x := CmdWrite(c, port, v).ch[q];
      && !x.txPend && !x.rxPend
      && x.wr[1] / Pow2(i) % 2 == if i == 2 || i == 5 then c.ch[q].wr[1] / Pow2(i) % 2 else 0
  {
    hide PointerReset, Scc.Command, Pow2;
    var d := SetCh(c, port, PointerReset(c.ch[port]));
    var f := SetCh(d, port, d.ch[port].(wr := d.ch[port].wr[9 := v]));
    assert CmdWrite(c, port, v) == MasterWrite(f, v);
    OnlyPointerReset(c.ch[port]);
    assert f.ch[q].wr[1] == c.ch[q].wr[1];
    assert v / 128 % 2 == v / 128;
    TwoBitsKept(c.ch[q].wr[1], i);
  }

  lemma OnlyPointerReset(x: Channel)
    requires |x.wr| == 16
    ensures PointerReset(x).wr[1] == x.wr[1]
  {
  }

  lemma TwoBitsKept(w: byte, i: nat)
    requires i < 8
    ensures (w / 4 % 2 * 4 + w / 32 % 2 * 32) / Pow2(i) % 2 == if i == 2 || i == 5 then w / Pow2(i) % 2 else 0
  {
    Powers();
    hide Pow2;
    var (x, y) := (w / 4 % 2, w / 32 % 2);
    BitsOfTwo(x, y);
    assert (x * 4 + y * 32) / Pow2(i) % 2 == if i == 2 then x else if i == 5 then y else 0;
  }

  lemma Powers()
    ensures Pow2(0) == 1 && Pow2(1) == 2 && Pow2(2) == 4 && Pow2(3) == 8
    ensures Pow2(4) == 16 && Pow2(5) == 32 && Pow2(6) == 64 && Pow2(7) == 128
  {
  }

  lemma BitsOfTwo(x: nat, y: nat)
    requires x < 2 && y < 2
    ensures var v := x * 4 + y * 32;
      && v / 1 % 2 == v / 2 % 2 == v / 8 % 2 == v / 16 % 2 == v / 64 % 2 == v / 128 % 2 == 0
      && v / 4 % 2 == x && v / 32 % 2 == y
  {
  }

  /** The hardware reset: nothing in any register, nothing received, nothing pending; the record of
      the line and the loaded file stay. */
  lemma ResetClears(c: Chip, q: nat, n: nat)
    requires q < 2 && n < 16
    ensures HardReset(c).ch[q].wr[n] == 0 && HardReset(c).wr9 == 0
    ensures HardReset(c).ch[q] == Channel(HardReset(c).ch[q].wr, false, 0, false, false)
    ensures HardReset(c).asserted == c.asserted && HardReset(c).file == c.file
    ensures RESET == HardReset(RESET) && RESET.file == None && !RESET.asserted
  {
  }

  /** A character from the line is handed over as it came, unless a file is read. */
  lemma CharacterIsTaken(c: Chip, port: nat, v: byte)
    requires c.Valid() && port < 2 && OnTheLine(c.ch[port]) && (port == 1 ==> c.file.None?)
    ensures Taken(Receive(c, port, v), port) == v
    ensures var r := DataRead(Receive(c, port, v), port);
      !r.ch[port].rxAvailable && !r.ch[port].rxPend && Taken(r, port) == 0
  {
  }

  /** What reads of the second channel hand over, each after a character from the line. */
  function Rounds(c: Chip, xs: seq<byte>): (r: (seq<byte>, Chip))
    requires c.Valid()
    ensures r.1.Valid()
    decreases |xs|
  {
    if xs == [] then ([], c) else
    var d := Receive(c, 1, xs[0]);
    var (more, z) := Rounds(DataRead(d, 1), xs[1..]);
    ([Taken(d, 1)] + more, z)
  }

  /** A file loaded for the second channel is read byte by byte in its order, one for each character
      that comes in, whatever the character. */
  lemma {:induction false} FileIsRead(c: Chip, data: seq<byte>, xs: seq<byte>)
    requires c.Valid() && OnTheLine(c.ch[1]) && c.file == Some(data) && |xs| <= |data|
    ensures Rounds(c, xs).0 == data[..|xs|] && Rounds(c, xs).1.file == Some(data[|xs|..])
    decreases |xs|
  {
    if xs != [] {
      var d := Receive(c, 1, xs[0]);
      RoundTakes(c, xs[0]);
      FileIsRead(DataRead(d, 1), data[1..], xs[1..]);
      assert data[..|xs|] == [data[0]] + data[1..][..|xs| - 1];
      assert data[|xs|..] == data[1..][|xs| - 1..];
    }
  }

  lemma RoundTakes(c: Chip, v: byte)
    requires c.Valid() && OnTheLine(c.ch[1]) && c.file.Some? && c.file.value != []
    ensures var d := Receive(c, 1, v);
      && Taken(d, 1) == c.file.value[0]
      && DataRead(d, 1).file == Some(c.file.value[1..]) && OnTheLine(DataRead(d, 1).ch[1])
  {
  }
}
