/**
 The interrupt side of the serial chip in src/scc.c: two channels with transmit and receive
 pending bits, one master enable for the chip, and line 5.
 */
module Scc {
  import opened Options
  import opened Words

  const SCC_LINE: nat := 5

  datatype Channel = Channel(wr: seq<byte>, rxAvailable: bool, recBuf: byte, txPend: bool, rxPend: bool)

  /** `file` is what is left of a file loaded to be read through channel B, if one was. */
  datatype Chip = Chip(ch: seq<Channel>, wr9: byte, asserted: bool, file: Option<seq<byte>>)
  {
    ghost predicate Valid() { |ch| == 2 && |ch[0].wr| == 16 && |ch[1].wr| == 16 }

    predicate AnyPending()
      requires |ch| == 2
    {
      ch[0].txPend || ch[1].txPend || ch[0].rxPend || ch[1].rxPend
    }

    /** The chip drives its line while the master enable and any pending bit are set. */
    predicate Want()
      requires |ch| == 2
    {
      wr9 / 8 % 2 == 1 && AnyPending()
    }
  }

  const NO_REGS: seq<byte> := [0, 0, 0, 0, 0, 0, 0, 0, 0, 0, 0, 0, 0, 0, 0, 0]
  const IDLE := Channel(NO_REGS, false, 0, false, false)
  const RESET := Chip([IDLE, IDLE], 0, false, None)

  function Update(c: Chip): Chip
    requires |c.ch| == 2
  {
    c.(asserted := c.Want())
  }

  function SetCh(c: Chip, port: nat, x: Channel): Chip
    requires port < |c.ch|
  {
    c.(ch := c.ch[port := x])
  }

  /** The register that the next access to the command port reaches. */
  function Pointer(x: Channel): (i: nat)
    requires |x.wr| == 16
    ensures i < 16
  {
    x.wr[0] % 8 + (if x.wr[0] / 8 % 8 == 1 then 8 else 0)
  }

  function PointerReset(x: Channel): (r: Channel)
    requires |x.wr| == 16
    ensures |r.wr| == 16
  {
    x.(wr := x.wr[0 := x.wr[0] / 16 * 16])
  }

  /** The channel and kind of the highest pending interrupt: receive above transmit, A above
      B. */
  datatype Source = Rx(port: nat) | Tx(port: nat) | NoSource

  function HighestPending(c: Chip): (s: Source)
    requires |c.ch| == 2
    ensures s.NoSource? <==> !c.AnyPending()
    ensures s.Rx? ==> s.port < 2 && c.ch[s.port].rxPend
    ensures s.Tx? ==> s.port < 2 && c.ch[s.port].txPend
  {
    if c.ch[0].rxPend then Rx(0) else if c.ch[0].txPend then Tx(0)
    else if c.ch[1].rxPend then Rx(1) else if c.ch[1].txPend then Tx(1) else NoSource
  }

  function ClearSource(c: Chip, s: Source): Chip
    requires |c.ch| == 2 && (s.NoSource? || s.port < 2)
  {
    match s
    case Rx(p) => SetCh(c, p, c.ch[p].(rxPend := false))
    case Tx(p) => SetCh(c, p, c.ch[p].(txPend := false))
    case NoSource => c
  }

  function ChannelReset(x: Channel): (r: Channel)
    requires |x.wr| == 16
    ensures |r.wr| == 16
  {
    var w := x.wr[1];
    x.(txPend := false, rxPend := false, wr := x.wr[1 := w / 4 % 2 * 4 + w / 32 % 2 * 32])
  }

  /** A command carried by a write to register 0. */
  function Command(c: Chip, port: nat, v: byte): (r: Chip)
    requires c.Valid() && port < 2
    ensures r.Valid()
  {
    if v / 8 % 8 == 5 then Update(SetCh(c, port, c.ch[port].(txPend := false)))
    else if v / 8 % 8 == 7 then Update(ClearSource(c, HighestPending(c)))
    else c
  }

  function MasterWrite(c: Chip, v: byte): (r: Chip)
    requires c.Valid()
    ensures r.Valid()
  {
    var a := if v / 128 == 1 then ChannelReset(c.ch[0]) else c.ch[0];
    var b := if v / 64 % 2 == 1 then ChannelReset(c.ch[1]) else c.ch[1];
    Update(c.(wr9 := v, ch := [a, b]))
  }

  function CmdWrite(c: Chip, port: nat, v: byte): (r: Chip)
    requires c.Valid() && port < 2
    ensures r.Valid()
  {
    var idx := Pointer(c.ch[port]);
    var d := SetCh(c, port, PointerReset(c.ch[port]));
    var e := if idx == 0 then Command(d, port, v) else d;
    var f := if idx == 0 && v == 0 then e else SetCh(e, port, e.ch[port].(wr := e.ch[port].wr[idx := v]));
    if idx == 9 then MasterWrite(f, v) else f
  }

  predicate Loopback(x: Channel)
    requires |x.wr| == 16
  {
    x.wr[14] / 16 % 2 == 1
  }

  function LoopedBack(x: Channel, v: byte): byte
    requires |x.wr| == 16
  {
    match x.wr[3] / 64
    case 0 => v % 32
    case 1 => v % 128
    case 2 => v % 64
    case _ => v
  }

  function DataWrite(c: Chip, port: nat, v: byte): (r: Chip)
    requires c.Valid() && port < 2
    ensures r.Valid()
  {
    var x := c.ch[port];
    if Loopback(x) then SetCh(c, port, x.(recBuf := LoopedBack(x, v), rxAvailable := true))
    else if x.wr[1] / 2 % 2 == 1 then Update(SetCh(c, port, x.(txPend := true)))
    else c
  }

  /** A received character on channel B stands for the next one of a loaded file. */
  predicate FromFile(c: Chip, port: nat)
    requires c.Valid() && port < 2
  {
    port == 1 && c.ch[1].rxAvailable && !Loopback(c.ch[1]) && c.file.Some?
  }

  function DataRead(c: Chip, port: nat): (r: Chip)
    requires c.Valid() && port < 2
    ensures r.Valid()
  {
    if !c.ch[port].rxAvailable then c else
    var d := Update(SetCh(c, port, c.ch[port].(rxAvailable := false, rxPend := false)));
    if FromFile(c, port) && c.file.value != [] then d.(file := Some(c.file.value[1..])) else d
  }

  /** What that read hands over. */
  function Taken(c: Chip, port: nat): byte
    requires c.Valid() && port < 2
  {
    if !c.ch[port].rxAvailable then 0
    else if FromFile(c, port) && c.file.value != [] then c.file.value[0]
    else c.ch[port].recBuf
  }

  /** With a file left to read, a status read of channel B sets bit 0 of the write register, where
      the status it meant to set is in the read register. */
  predicate Misdirects(c: Chip, port: nat)
    requires c.Valid() && port < 2
  {
    port == 1 && Pointer(c.ch[1]) == 0 && c.file.Some? && c.file.value != []
  }

  /** A read of the command port: of the 16 read registers the pending bits, the modified vector
      and register 0 say something. */
  function CmdRead(c: Chip, port: nat): (r: (Chip, nat))
    requires c.Valid() && port < 2
    ensures r.0.Valid()
  {
    var idx := Pointer(c.ch[port]);
    var x := PointerReset(c.ch[port]);
    (SetCh(c, port, if Misdirects(c, port) then x.(wr := x.wr[0 := x.wr[0] / 2 * 2 + 1]) else x),
     if idx == 3 && port == 0 then Pending(c)
     else if idx == 2 && port == 1 then Vector(c)
     else if idx == 0 then (if c.ch[port].rxAvailable then 5 else 4)
     else 0)
  }

  /** A character from the line; the poll does not look while the channel loops back. */
  function Receive(c: Chip, port: nat, v: byte): (r: Chip)
    requires c.Valid() && port < 2
    ensures r.Valid()
  {
    var x := c.ch[port].(rxAvailable := true, recBuf := v);
    if Loopback(c.ch[port]) then c
    else if x.wr[1] / 8 % 4 != 0 then Update(SetCh(c, port, x.(rxPend := true)))
    else SetCh(c, port, x)
  }

  /** Register 3 of channel A: the pending bits. */
  function Pending(c: Chip): nat
    requires |c.ch| == 2
  {
    (if c.ch[0].rxPend then 32 else 0) + (if c.ch[0].txPend then 16 else 0)
    + (if c.ch[1].rxPend then 4 else 0) + (if c.ch[1].txPend then 2 else 0)
  }

  /** Register 2 of channel B: the programmed vector with bits 1 to 3 replaced by a code. */
  function Vector(c: Chip): nat
    requires c.Valid()
  {
    var code := match HighestPending(c)
      case Rx(p) => if p == 0 then 6 else 2
      case Tx(p) => if p == 0 then 4 else 0
      case NoSource => 3;
    c.ch[0].wr[2] / 16 * 16 + c.ch[0].wr[2] % 2 + code * 2
  }

  // ---------------------------------------------------------------- what the operations keep

  /** A reset clears everything but the record of what was last driven, which is then stale:
      set, with nothing enabled or pending. */
  predicate Stale(c: Chip)
    requires |c.ch| == 2
  {
    c.asserted && c.wr9 / 8 % 2 == 0 && !c.AnyPending()
  }

  ghost predicate Agrees(c: Chip) { c.Valid() && (c.asserted == c.Want() || Stale(c)) }

  function HardReset(c: Chip): Chip { RESET.(asserted := c.asserted, file := c.file) }

  /** How an access may leave the chip: agreeing, or stale only if it was; and a stale record
      is put right before the chip can want its line again. */
  ghost predicate Follows(c: Chip, r: Chip)
    requires c.Valid()
  {
    && r.Valid()
    && ((Stale(c) && Stale(r)) || (r.asserted == r.Want() && (Stale(c) ==> !r.asserted)))
  }

  lemma AccessesAgree(c: Chip, port: nat, v: byte)
    requires Agrees(c) && port < 2
    ensures Follows(c, CmdWrite(c, port, v)) && Follows(c, DataWrite(c, port, v))
    ensures Follows(c, DataRead(c, port)) && Follows(c, Receive(c, port, v)) && Follows(c, CmdRead(c, port).0)
    ensures Agrees(HardReset(c))
  {
    hide CmdWrite, CmdRead, DataRead, HighestPending, Vector;
    CommandsAgree(c, port, v);
    StatusReadAgrees(c, port);
    DataReadAgrees(c, port);
  }

  lemma DataReadAgrees(c: Chip, port: nat)
    requires Agrees(c) && port < 2
    ensures Follows(c, DataRead(c, port))
  {
    hide FromFile;
  }

  lemma StatusReadAgrees(c: Chip, port: nat)
    requires Agrees(c) && port < 2
    ensures Follows(c, CmdRead(c, port).0)
  {
    hide Vector, Pending, Misdirects;
  }

  lemma FileAgrees(c: Chip, data: seq<byte>)
    requires Agrees(c)
    ensures Follows(c, c.(file := Some(data)))
  {
  }

  lemma CommandsAgree(c: Chip, port: nat, v: byte)
    requires Agrees(c) && port < 2
    ensures Follows(c, CmdWrite(c, port, v))
  {
    hide MasterWrite, Command, Pointer, ChannelReset, PointerReset;
    var idx := Pointer(c.ch[port]);
    var d := SetCh(c, port, PointerReset(c.ch[port]));
    PendingIsKept(c, port);
    var e := if idx == 0 then Command(d, port, v) else d;
    if idx == 0 { CommandAgrees(d, port, v); }
    var f := if idx == 0 && v == 0 then e else SetCh(e, port, e.ch[port].(wr := e.ch[port].wr[idx := v]));
    if idx == 9 { MasterAgrees(c, f, v); }
  }

  lemma PendingIsKept(c: Chip, port: nat)
    requires c.Valid() && port < 2
    ensures var d := SetCh(c, port, PointerReset(c.ch[port]));
      d.Want() == c.Want() && d.AnyPending() == c.AnyPending() && (Agrees(c) ==> Agrees(d))
  {
  }

  lemma CommandAgrees(c: Chip, port: nat, v: byte)
    requires Agrees(c) && port < 2
    ensures Follows(c, Command(c, port, v))
  {
  }

  lemma MasterAgrees(c: Chip, x: Chip, v: byte)
    requires Agrees(c) && x.Valid() && (Stale(c) ==> !x.AnyPending())
    ensures Follows(c, MasterWrite(x, v))
  {
  }

  /** A read of the command port points the next access at register 0 again, unless it is a status
      read of channel B with a file left to read: then the next command goes to register 1. */
  lemma PointerClearsIff(c: Chip, port: nat)
    requires c.Valid() && port < 2
    ensures Pointer(CmdRead(c, port).0.ch[port])
      == if port == 1 && Pointer(c.ch[1]) == 0 && c.file.Some? && |c.file.value| > 0 then 1 else 0
  {
    hide Vector, Pending;
    var w := c.ch[port].wr[0] / 16 * 16;
    assert w % 16 == 0 && w / 8 % 2 == 0;
    NibbleCleared(w);
  }

  lemma NibbleCleared(w: byte)
    requires w % 16 == 0
    ensures w % 8 == 0 && w / 8 % 8 != 1 && w / 2 * 2 + 1 == w + 1 && (w + 1) % 8 == 1 && (w + 1) / 8 % 8 != 1
  {
    assert w / 8 == w / 16 * 2;
  }

  /** So a command that clears the transmit interrupt is lost in register 1, which holds the
      channel's interrupt enables. */
  lemma ClearIsMisdirected(c: Chip)
    requires c.Valid() && Misdirects(c, 1) && c.ch[1].txPend
    ensures CmdWrite(c, 1, 0x28).ch[1].txPend == false
    ensures var d := CmdWrite(CmdRead(c, 1).0, 1, 0x28); d.ch[1].txPend && d.ch[1].wr[1] == 0x28
  {
    hide Vector, Pending;
    PointerClearsIff(c, 1);
  }

  /** The code in the modified vector names the very interrupt that the next reset of the
      highest one clears, so a handler that dispatches on it and then resets loses none. */
  lemma VectorNamesWhatIsReset(c: Chip)
    requires c.Valid() && c.AnyPending() && Pointer(c.ch[0]) == 0
    ensures var code, s, d := Vector(c) / 2 % 8, HighestPending(c), CmdWrite(c, 0, 0x38);
      && code == (match s case Rx(p) => if p == 0 then 6 else 2 case _ => if s.port == 0 then 4 else 0)
      && Pending(d) == Pending(c)
         - (match s case Rx(p) => if p == 0 then 32 else 4 case _ => if s.port == 0 then 16 else 2)
  {
    CodeReadsBack(c.ch[0].wr[2], match HighestPending(c)
      case Rx(p) => if p == 0 then 6 else 2
      case Tx(p) => if p == 0 then 4 else 0
      case NoSource => 3);
    assert PointerReset(c.ch[0]).wr[0] / 16 * 16 == c.ch[0].wr[0] / 16 * 16;
  }

  lemma CodeReadsBack(v: byte, code: nat)
    requires code < 8
    ensures (v / 16 * 16 + v % 2 + code * 2) / 2 % 8 == code
  {
  }
}
