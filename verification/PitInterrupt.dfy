/**
 When the timer interrupts, over whole histories of register writes and counts, in terms of the bits
 of its registers.
 */
module PitInterrupt {
  import opened Pit
  import opened Words

  /** Register 16 is the timer's control register and 26 its status register. */
  datatype Event = Write(reg: nat, v: byte) | Count | Reset

  function Step(t: Timer, e: Event): Timer {
    match e
    case Write(reg, v) => SetReg(t, reg, v)
    case Count => Pulse(t)
    case Reset => RESET
  }

  function Run(es: seq<Event>): Timer
    decreases |es|
  {
    if es == [] then RESET else Step(Run(es[..|es| - 1]), es[|es| - 1])
  }

  /** The control byte of a timer that may interrupt: bits 7 to 5 are 101 or 111. */
  predicate InterruptMode(tcr: byte) { tcr / 32 == 5 || tcr / 32 == 7 }

  /** A count takes the counter to zero: from one, or by a reload with one. */
  predicate CountsToZero(t: Timer) { t.counter == 1 || (t.counter == 0 && t.tcr / 16 % 2 == 0 && t.preload == 1) }

  /** What sets the zero detect status: a count of the enabled timer that reaches zero, or the write
      that enables it where it starts from zero, each in an interrupt mode. */
  predicate MeetsZero(t: Timer, e: Event) {
    match e
    case Count => t.tcr % 2 == 1 && InterruptMode(t.tcr) && CountsToZero(t)
    case Write(reg, v) =>
      reg == 16 && t.tcr % 2 == 0 && v % 2 == 1 && InterruptMode(v)
      && (if v / 16 % 2 == 1 then t.counter == 0 else t.preload == 0)
    case Reset => false
  }

  /** What clears it: an odd value written to the status register, and the reset. */
  predicate Clears(e: Event) { e.Reset? || (e.Write? && e.reg == 26 && e.v % 2 == 1) }

  predicate MetAt(es: seq<Event>, i: nat)
    requires i < |es|
  {
    MeetsZero(Run(es[..i]), es[i])
  }

  predicate NotClearedSince(es: seq<Event>, i: nat) { forall j :: i < j < |es| ==> !Clears(es[j]) }

  lemma StatusStep(t: Timer, e: Event)
    ensures Step(t, e).zds <==> MeetsZero(t, e) || (t.zds && !Clears(e))
  {
    if e.Write? { BitsKept(e.v); }
  }

  lemma MetEarlier(es: seq<Event>, i: nat)
    requires i < |es| - 1
    ensures MetAt(es, i) == MetAt(es[..|es| - 1], i)
  {
    assert es[..|es| - 1][..i] == es[..i];
  }

  /** The zero detect status is set if and only if some event met a zero and the status was not cleared
      since. */
  lemma {:induction false} StatusIff(es: seq<Event>)
    ensures Run(es).zds <==> exists i: nat :: i < |es| && MetAt(es, i) && NotClearedSince(es, i)
    decreases |es|
  {
    hide Step, MeetsZero, Clears;
    if es == [] {
      assert !RESET.zds;
    } else {
      var n := |es| - 1;
      StatusIff(es[..n]);
      StatusStep(Run(es[..n]), es[n]);
      MetAtEnd(es);
      assert NotClearedSince(es, n);
      forall i: nat | i < n
        ensures MetAt(es, i) == MetAt(es[..n], i)
        ensures NotClearedSince(es, i) <==> NotClearedSince(es[..n], i) && !Clears(es[n])
      {
        MetEarlier(es, i);
        SinceEarlier(es, i);
      }
    }
  }

  lemma MetAtEnd(es: seq<Event>)
    requires es != []
    ensures MetAt(es, |es| - 1) <==> MeetsZero(Run(es[..|es| - 1]), es[|es| - 1])
  {
  }

  lemma SinceEarlier(es: seq<Event>, i: nat)
    requires i < |es| - 1
    ensures NotClearedSince(es, i) <==> NotClearedSince(es[..|es| - 1], i) && !Clears(es[|es| - 1])
  {
  }

  /** The control byte last written, if any. */
  function LastControl(es: seq<Event>): byte
    decreases |es|
  {
    if es == [] then 0 else
    var e := es[|es| - 1];
    if e.Reset? then 0 else if e.Write? && e.reg == 16 then e.v else LastControl(es[..|es| - 1])
  }

  lemma ControlStep(t: Timer, e: Event, c: byte)
    requires t.tcr % 2 == c % 2 && t.tcr / 16 == c / 16
    ensures var d := if e.Reset? then 0 else if e.Write? && e.reg == 16 then e.v else c;
      Step(t, e).tcr % 2 == d % 2 && Step(t, e).tcr / 16 == d / 16
  {
    if e.Write? { BitsKept(e.v); }
  }

  lemma {:induction false} ControlIsLast(es: seq<Event>)
    ensures Run(es).tcr % 2 == LastControl(es) % 2 && Run(es).tcr / 16 == LastControl(es) / 16
    decreases |es|
  {
    hide Step;
    if es != [] {
      ControlIsLast(es[..|es| - 1]);
      ControlStep(Run(es[..|es| - 1]), es[|es| - 1], LastControl(es[..|es| - 1]));
    }
  }

  lemma {:induction false} AssertedByBits(es: seq<Event>)
    ensures var t := Run(es);
      t.asserted <==> t.zds && t.tcr % 2 == 1 && (t.tcr / 32 == 5 || t.tcr / 32 == 7)
    decreases |es|
  {
    hide SetReg, Pulse;
    if es != [] {
      AssertedByBits(es[..|es| - 1]);
      var e := es[|es| - 1];
      if e.Write? {
        RecordIsKept(Run(es[..|es| - 1]), e.reg, e.v);
      } else {
        RecordIsKept(Run(es[..|es| - 1]), 0, 0);
      }
    }
  }

  /** The timer asserts its line if and only if its last control byte enables it in an interrupt mode
      and some event met a zero since the status was last cleared. */
  lemma InterruptsIff(es: seq<Event>)
    ensures Run(es).asserted <==>
      && LastControl(es) % 2 == 1 && InterruptMode(LastControl(es))
      && exists i: nat :: i < |es| && MetAt(es, i) && NotClearedSince(es, i)
  {
    hide MetAt, NotClearedSince, Run, LastControl;
    AssertedByBits(es);
    ControlIsLast(es);
    StatusIff(es);
    ModeByHigh(Run(es).tcr, LastControl(es));
  }

  lemma ModeByHigh(a: byte, b: byte)
    requires a / 16 == b / 16
    ensures a / 32 == b / 32
  {
    assert a / 32 == a / 16 / 2 && b / 32 == b / 16 / 2;
  }

  /** A write of an odd value to the status register takes the interrupt back, and it stays down over
      any events until one of them meets a zero. */
  lemma {:induction false} WithdrawnUntilZero(es: seq<Event>, v: byte, more: seq<Event>)
    requires v % 2 == 1
    requires var all := es + [Write(26, v)] + more;
      forall i :: |es| < i < |all| ==> !MetAt(all, i)
    ensures !Run(es + [Write(26, v)] + more).asserted
  {
    hide Run;
    var all := es + [Write(26, v)] + more;
    InterruptsIff(all);
    forall i: nat | i <= |es| ensures !MetAt(all, i) || !NotClearedSince(all, i) {
      if i < |es| {
        assert Clears(all[|es|]);
      } else {
        assert all[i] == Write(26, v);
      }
    }
  }
}
