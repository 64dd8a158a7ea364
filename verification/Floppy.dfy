/**
 The interrupt side of the floppy controller in src/fd.c: the option latch that enables it, the
 conditions a forced interrupt asks for, and the record of what was last driven on line 3.
 */
module Floppy {
  import opened IrqLines
  import opened Words

  const FD_LINE: nat := 3

  datatype Kind = CmdStart | CmdComplete | IndexPulse | Immediate

  datatype Drive = Drive(asserted: bool, intFlags: nat, option: byte)
  {
    /** Bit 2 of the option latch. */
    predicate Enabled() { option / 4 % 2 == 1 }

    /** Whether a condition raises the interrupt; completion needs no flag. */
    predicate Raises(kind: Kind) {
      Enabled() &&
      match kind
      case CmdStart => intFlags / 2 % 2 == 1
      case CmdComplete => true
      case IndexPulse => intFlags / 4 % 2 == 1
      case Immediate => intFlags / 8 % 2 == 1
    }
  }

  /** The controller and the CPU's lines; the line is driven only when the record changes. */
  datatype Driven = Driven(d: Drive, irq: Irq)
  {
    ghost predicate Valid() { |irq.lines| == 8 }
  }

  const POWER_ON := Drive(false, 0, 0xff)

  function Update(s: Driven, want: bool): (r: Driven)
    requires s.Valid()
    ensures r.Valid()
  {
    Driven(s.d.(asserted := want), Follow(s.irq, FD_LINE, s.d.asserted, want))
  }

  function Generate(s: Driven, kind: Kind): (r: Driven)
    requires s.Valid()
    ensures r.Valid()
  {
    if s.d.Raises(kind) then Update(s, true) else s
  }

  /** The forced interrupt takes the request back before it may raise it again. */
  function Force(s: Driven, cmd: byte): (r: Driven)
    requires s.Valid()
    ensures r.Valid()
  {
    Generate(Update(s.(d := s.d.(intFlags := cmd % 16)), false), Immediate)
  }

  /** A write to the option latch; leaving the reset starts a restore command. */
  function WriteOption(s: Driven, v: byte): (r: Driven)
    requires s.Valid()
    ensures r.Valid()
  {
    var t := s.(d := s.d.(option := v));
    if v / 128 == 1 && s.d.option / 128 == 0 then Generate(t, CmdStart) else t
  }

  /** Autovectored: the acknowledge only takes the request back. */
  function Acknowledge(s: Driven, level: nat): (r: Driven)
    requires s.Valid()
    ensures r.Valid()
  {
    if s.d.asserted && level == FD_LINE then Update(s, false) else s
  }

  /** The reset clears everything but the record of the line. */
  function Reset(d: Drive): Drive { POWER_ON.(asserted := d.asserted) }

  // ---------------------------------------------------------------- the record and the line

  ghost predicate Agrees(s: Driven) {
    WellFormed(s.irq) && s.irq.lines[FD_LINE] == s.d.asserted
  }

  /** The line is set only while the record says so; the reset may leave it clear when it does. */
  ghost predicate Honest(s: Driven) {
    WellFormed(s.irq) && (s.irq.lines[FD_LINE] ==> s.d.asserted)
  }

  /** Nothing but line 3 is touched. */
  ghost predicate OnlyOwnLine(s: Driven, r: Driven) {
    WellFormed(r.irq) && |s.irq.lines| == 8 && r.irq.nmi == s.irq.nmi
    && r.irq.lines == s.irq.lines[FD_LINE := r.irq.lines[FD_LINE]]
  }

  lemma UpdateKeeps(s: Driven, want: bool)
    requires WellFormed(s.irq)
    ensures OnlyOwnLine(s, Update(s, want))
    ensures Agrees(s) ==> Agrees(Update(s, want))
    ensures Honest(s) ==> Honest(Update(s, want))
    ensures s.d.asserted != want ==> Agrees(Update(s, want))
  {
    SetLineMeans(s.irq, FD_LINE, want);
    assert s.irq.lines[FD_LINE := s.irq.lines[FD_LINE]] == s.irq.lines;
  }

  lemma GenerateKeeps(s: Driven, kind: Kind)
    requires WellFormed(s.irq)
    ensures OnlyOwnLine(s, Generate(s, kind))
    ensures Agrees(s) ==> Agrees(Generate(s, kind))
    ensures Honest(s) ==> Honest(Generate(s, kind))
  {
    hide Update;
    UpdateKeeps(s, s.d.asserted);
    UpdateKeeps(s, true);
    assert OnlyOwnLine(s, s);
  }
}
