/** The CPU's virtual interrupt lines, src/Musashi/m68kcpu.c m68k_set_virq and m68k_set_irq. */
module IrqLines {

  datatype Irq = Irq(lines: seq<bool>, level: nat, nmi: bool)

  /** The highest line that is set, or 0: line 0 never interrupts. */
  function Highest(lines: seq<bool>, from: nat): (l: nat)
    requires from < |lines|
    ensures l <= from && (l > 0 ==> lines[l]) && forall k :: l < k <= from ==> !lines[k]
  {
    if from == 0 || lines[from] then from else Highest(lines, from - 1)
  }

  const QUIET := Irq([false, false, false, false, false, false, false, false], 0, false)

  ghost predicate WellFormed(i: Irq) { |i.lines| == 8 && i.level == Highest(i.lines, 7) }

  function SetLine(i: Irq, line: nat, on: bool): (r: Irq)
    requires |i.lines| == 8 && line < 8
    ensures WellFormed(r)
  {
    var lines := i.lines[line := on];
    Irq(lines, Highest(lines, 7), i.nmi || (i.level != 7 && Highest(lines, 7) == 7))
  }

  /** A device that drives its line only when what it wants changes. */
  function Follow(i: Irq, line: nat, was: bool, now: bool): (r: Irq)
    requires |i.lines| == 8 && line < 8
    ensures |r.lines| == 8
  {
    if was == now then i else SetLine(i, line, now)
  }

  lemma FollowTracks(i: Irq, line: nat, was: bool, now: bool)
    requires |i.lines| == 8 && line < 8 && i.lines[line] == was
    ensures Follow(i, line, was, now).lines[line] == now
  {
  }

  /** Driving a line below 7 changes nothing but that line and the level, and driving it the
      way it is changes nothing at all. */
  lemma SetLineMeans(i: Irq, line: nat, on: bool)
    requires WellFormed(i) && line < 7
    ensures var r := SetLine(i, line, on);
      WellFormed(r) && r.lines == i.lines[line := on] && r.nmi == i.nmi && (i.lines[line] == on ==> r == i)
  {
    if i.lines[line] == on { assert i.lines[line := on] == i.lines; }
  }

  lemma SetLineTwice(i: Irq, line: nat, first: bool, on: bool)
    requires WellFormed(i) && line < 7
    ensures SetLine(SetLine(i, line, first), line, on) == SetLine(i, line, on)
  {
    assert i.lines[line := first][line := on] == i.lines[line := on];
  }

  /** A line that leads to level 7 from below requests a non-maskable interrupt, and nothing else
      does. */
  lemma NmiIff(i: Irq, line: nat, on: bool)
    requires |i.lines| == 8 && line < 8
    ensures var r := SetLine(i, line, on);
      && (r.level == 7 <==> (if line == 7 then on else i.lines[7]))
      && (r.nmi <==> i.nmi || (i.level != 7 && r.level == 7))
  {
  }

  class Cpu {
    var virqState: seq<bool>
    var intLevel: nat
    var nmiPending: bool

    ghost function Contents(): Irq
      reads this
    {
      Irq(virqState, intLevel, nmiPending)
    }

    constructor ()
      ensures Contents() == QUIET
    {
      virqState := [false, false, false, false, false, false, false, false];
      intLevel, nmiPending := 0, false;
    }

    method SetIrq(level: nat)
      modifies this`intLevel, this`nmiPending
      ensures intLevel == level && nmiPending == (old(nmiPending) || (old(intLevel) != 7 && level == 7))
    {
      var oldLevel := intLevel;
      intLevel := level;
      if oldLevel != 7 && intLevel == 7 {
        nmiPending := true;
      }
    }

    method SetVirq(level: nat, active: bool)
      requires |virqState| == 8 && level < 8
      modifies this
      ensures Contents() == SetLine(old(Contents()), level, active)
    {
      virqState := virqState[level := active];
      var blevel := 7;
      while blevel > 0 && !virqState[blevel]
        invariant 0 <= blevel <= 7 && Highest(virqState, blevel) == Highest(virqState, 7)
      {
        blevel := blevel - 1;
      }
      SetIrq(blevel);
    }
  }
}
