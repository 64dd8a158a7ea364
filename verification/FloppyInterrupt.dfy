/**
 When the floppy asks for its interrupt, over whole histories of commands, index pulses, writes to
 the option latch, acknowledges and resets, in terms of the bytes the host wrote.
 */
module FloppyInterrupt {
  import opened Floppy
  import opened IrqLines
  import opened Words

  datatype Event = Happens(kind: Kind) | Forced(cmd: byte) | Latched(v: byte) | Acknowledged(level: nat) | SystemReset

  function Step(s: Driven, e: Event): (r: Driven)
    requires s.Valid()
    ensures r.Valid()
  {
    match e
    case Happens(kind) => Generate(s, kind)
    case Forced(cmd) => Force(s, cmd)
    case Latched(v) => WriteOption(s, v)
    case Acknowledged(level) => Acknowledge(s, level)
    case SystemReset => Driven(Reset(s.d), QUIET)
  }

  function Run(es: seq<Event>): (r: Driven)
    ensures r.Valid()
    decreases |es|
  {
    if es == [] then Driven(POWER_ON, QUIET) else Step(Run(es[..|es| - 1]), es[|es| - 1])
  }

  /** The option byte written last; a reset leaves all its bits set. */
  function LastOption(es: seq<Event>): byte
    decreases |es|
  {
    if es == [] then 255 else
    var e := es[|es| - 1];
    if e.SystemReset? then 255 else if e.Latched? then e.v else LastOption(es[..|es| - 1])
  }

  /** The low four bits of the last forced interrupt since the reset, if there was one. */
  function LastFlags(es: seq<Event>): nat
    decreases |es|
  {
    if es == [] then 0 else
    var e := es[|es| - 1];
    if e.SystemReset? then 0 else if e.Forced? then e.cmd % 16 else LastFlags(es[..|es| - 1])
  }

  predicate Enables(option: byte) { option / 4 % 2 == 1 }

  /** The events that ask for the interrupt, given option byte and flags before them: with the
      interrupt enabled, every completion; a start, an index pulse or the immediate condition where
      bit 1, 2 or 3 of the flags asks for it; and the write that leaves the reset, which starts a
      command. */
  predicate Asks(option: byte, flags: nat, e: Event) {
    match e
    case Happens(CmdComplete) => Enables(option)
    case Happens(CmdStart) => Enables(option) && flags / 2 % 2 == 1
    case Happens(IndexPulse) => Enables(option) && flags / 4 % 2 == 1
    case Happens(Immediate) => Enables(option) && flags / 8 % 2 == 1
    case Forced(cmd) => Enables(option) && cmd / 8 % 2 == 1
    case Latched(v) => option < 128 <= v && Enables(v) && flags / 2 % 2 == 1
    case _ => false
  }

  /** The request is taken back by a forced interrupt and by an acknowledge of its level; a reset
      leaves it. */
  predicate TakesBack(e: Event) { e.Forced? || e == Acknowledged(3) }

  predicate AskedAt(es: seq<Event>, i: nat)
    requires i < |es|
  {
    Asks(LastOption(es[..i]), LastFlags(es[..i]), es[i])
  }

  predicate KeptSince(es: seq<Event>, i: nat) { forall j :: i < j < |es| ==> !TakesBack(es[j]) }

  lemma StepAsks(s: Driven, e: Event)
    requires s.Valid()
    ensures Step(s, e).d.asserted <==> Asks(s.d.option, s.d.intFlags, e) || (s.d.asserted && !TakesBack(e))
    ensures Step(s, e).d.option == if e.SystemReset? then 255 else if e.Latched? then e.v else s.d.option
    ensures Step(s, e).d.intFlags
      == if e.SystemReset? then 0 else if e.Forced? then e.cmd % 16 else s.d.intFlags
  {
    hide Follow;
    if e.Forced? { assert e.cmd % 16 / 8 % 2 == e.cmd / 8 % 2; }
  }

  lemma {:induction false} LatchedAndForced(es: seq<Event>)
    ensures Run(es).d.option == LastOption(es) && Run(es).d.intFlags == LastFlags(es)
    decreases |es|
  {
    hide Step;
    if es != [] {
      LatchedAndForced(es[..|es| - 1]);
      StepAsks(Run(es[..|es| - 1]), es[|es| - 1]);
    }
  }

  lemma Earlier(es: seq<Event>, i: nat)
    requires i < |es| - 1
    ensures AskedAt(es, i) == AskedAt(es[..|es| - 1], i)
    ensures KeptSince(es, i) <==> KeptSince(es[..|es| - 1], i) && !TakesBack(es[|es| - 1])
  {
    hide Asks, TakesBack, LastOption, LastFlags;
    assert es[..|es| - 1][..i] == es[..i];
  }

  /** After any history the floppy asks for its interrupt if and only if some event asked for it and
      nothing has taken the request back since. */
  lemma {:induction false} AsksIff(es: seq<Event>)
    ensures Run(es).d.asserted <==> exists i: nat :: i < |es| && AskedAt(es, i) && KeptSince(es, i)
    decreases |es|
  {
    hide Step, Asks, TakesBack, LastOption, LastFlags;
    if es != [] {
      var n := |es| - 1;
      AsksIff(es[..n]);
      StepAsks(Run(es[..n]), es[n]);
      LatchedAndForced(es[..n]);
      assert AskedAt(es, n) <==> Asks(Run(es[..n]).d.option, Run(es[..n]).d.intFlags, es[n]);
      assert KeptSince(es, n);
      forall i: nat | i < n
        ensures AskedAt(es, i) == AskedAt(es[..n], i)
        ensures KeptSince(es, i) <==> KeptSince(es[..n], i) && !TakesBack(es[n])
      {
        Earlier(es, i);
      }
    }
  }
}
