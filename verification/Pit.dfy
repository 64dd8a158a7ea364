/**
 The 68230 timer of src/pit.c and the clock that drives it in src/sim.c.  The timer raises
 line 6; the clock turns host time into counts, at most 20 ms of it at a time.
 */
module Pit {
  import opened Registers
  import opened Words

  const TCR: nat := 16
  const CPRH: nat := 19
  const CPRM: nat := 20
  const CPRL: nat := 21
  const CNTRH: nat := 23
  const CNTRM: nat := 24
  const CNTRL: nat := 25
  const TSR: nat := 26
  const TIMER_LINE: nat := 6

  datatype Timer = Timer(tcr: byte, zds: bool, counter: word, preload: word, asserted: bool)
  {
    predicate Enabled() { tcr % 2 == 1 }
    predicate Rollover() { tcr / 16 % 2 == 1 }
    predicate Interrupts() { tcr / 32 == 5 || tcr / 32 == 7 }
    predicate Want() { Enabled() && zds && Interrupts() }
  }

  const RESET := Timer(0, false, 0, 0, false)

  function Update(t: Timer): Timer { t.(asserted := t.Want()) }

  /** A zero count is noticed only where it may interrupt. */
  function Check(t: Timer): Timer {
    if t.Enabled() && t.counter == 0 && t.Interrupts() then Update(t.(zds := true)) else t
  }

  function WithoutBit3(v: byte): byte { v - v / 8 % 2 * 8 }

  function SetReg(t: Timer, reg: nat, v: byte): Timer {
    if reg == TCR then
      var u := t.(tcr := WithoutBit3(v));
      if !t.Enabled() && v % 2 == 1 then
        Update(Check(if v / 16 % 2 == 1 then u else u.(counter := u.preload)))
      else Update(u)
    else if reg == TSR then Update(if v % 2 == 1 then t.(zds := false) else t)
    else if reg == CPRH then t.(preload := SetHigh(t.preload, v))
    else if reg == CPRM then t.(preload := SetMid(t.preload, v))
    else if reg == CPRL then t.(preload := SetLow(t.preload, v))
    else if reg == CNTRH then t.(counter := SetHigh(t.counter, v))
    else if reg == CNTRM then t.(counter := SetMid(t.counter, v))
    else if reg == CNTRL then t.(counter := SetLow(t.counter, v))
    else t
  }

  /** The three preload registers, 19 to 21, together hold the preload, in whatever order they are
      written. */
  lemma PreloadAssembles(t: Timer, h: byte, m: byte, l: byte)
    ensures var p := Assembled(h, m, l);
      && SetReg(SetReg(SetReg(t, 19, h), 20, m), 21, l).preload == p
      && SetReg(SetReg(SetReg(t, 19, h), 21, l), 20, m).preload == p
      && SetReg(SetReg(SetReg(t, 20, m), 19, h), 21, l).preload == p
      && SetReg(SetReg(SetReg(t, 20, m), 21, l), 19, h).preload == p
      && SetReg(SetReg(SetReg(t, 21, l), 19, h), 20, m).preload == p
      && SetReg(SetReg(SetReg(t, 21, l), 20, m), 19, h).preload == p
  {
    hide SetReg, SetHigh, SetMid, SetLow, Assembled;
    forall u: Timer {
      PreloadWrites(u, h, m, l);
    }
    Thirds(t.preload, h, m, l);
  }

  /** So do the three counter registers, 23 to 25, hold the counter. */
  lemma CounterAssembles(t: Timer, h: byte, m: byte, l: byte)
    ensures var c := Assembled(h, m, l);
      && SetReg(SetReg(SetReg(t, 23, h), 24, m), 25, l).counter == c
      && SetReg(SetReg(SetReg(t, 23, h), 25, l), 24, m).counter == c
      && SetReg(SetReg(SetReg(t, 24, m), 23, h), 25, l).counter == c
      && SetReg(SetReg(SetReg(t, 24, m), 25, l), 23, h).counter == c
      && SetReg(SetReg(SetReg(t, 25, l), 23, h), 24, m).counter == c
      && SetReg(SetReg(SetReg(t, 25, l), 24, m), 23, h).counter == c
  {
    hide SetReg, SetHigh, SetMid, SetLow, Assembled;
    forall u: Timer {
      CounterWrites(u, h, m, l);
    }
    Thirds(t.counter, h, m, l);
  }

  lemma CounterWrites(t: Timer, h: byte, m: byte, l: byte)
    ensures SetReg(t, CNTRH, h) == t.(counter := SetHigh(t.counter, h))
    ensures SetReg(t, CNTRM, m) == t.(counter := SetMid(t.counter, m))
    ensures SetReg(t, CNTRL, l) == t.(counter := SetLow(t.counter, l))
  {
  }

  lemma PreloadWrites(t: Timer, h: byte, m: byte, l: byte)
    ensures SetReg(t, CPRH, h) == t.(preload := SetHigh(t.preload, h))
    ensures SetReg(t, CPRM, m) == t.(preload := SetMid(t.preload, m))
    ensures SetReg(t, CPRL, l) == t.(preload := SetLow(t.preload, l))
  {
  }

  /** One count. */
  function Pulse(t: Timer): Timer {
    if !t.Enabled() then t else
    var c := if t.counter > 0 then t.counter else if t.Rollover() then 0xff_ffff else t.preload;
    var u := t.(counter := Wrap(c - 1));
    if u.counter == 0 then Check(u) else u
  }

  /** The timer asserts its line exactly while it wants to. */
  lemma RecordIsKept(t: Timer, reg: nat, v: byte)
    requires t.asserted == t.Want()
    ensures SetReg(t, reg, v).asserted == SetReg(t, reg, v).Want()
    ensures Pulse(t).asserted == Pulse(t).Want()
  {
  }

  /** A timer that is not enabled does not count, and after a reset it is not, with everything in it
      zero. */
  lemma DisabledHolds(t: Timer)
    ensures t.tcr % 2 == 0 ==> Pulse(t) == t
    ensures RESET.tcr == 0 && RESET.counter == 0 && RESET.preload == 0 && !RESET.zds && !RESET.asserted
  {
  }

  // ---------------------------------------------------------------- zero detects

  /** The distance between zeros; a preload of zero counts through all 32 bits. */
  function Period(t: Timer): (p: nat)
    ensures p > 0
  {
    if t.Rollover() then 0xff_ffff else if t.preload == 0 then W else t.preload
  }

  /** Counts to the next zero. */
  function Distance(t: Timer): (d: nat)
    ensures d > 0
  {
    if t.counter == 0 then Period(t) else t.counter
  }

  function Pulses(t: Timer, k: nat): (Timer, nat)
    decreases k
  {
    if k == 0 then (t, 0) else
    var (u, zeros) := Pulses(t, k - 1);
    var v := Pulse(u);
    (v, zeros + if v.counter == 0 then 1 else 0)
  }

  lemma PulseCounts(t: Timer)
    requires t.Enabled()
    ensures Pulse(t).counter == Distance(t) - 1
    ensures Pulse(t).tcr == t.tcr && Pulse(t).preload == t.preload
    ensures Pulse(t).counter == 0 && t.Interrupts() ==> Pulse(t).zds
  {
  }

  function ZerosIn(k: nat, d: nat, p: nat): nat
    requires d > 0 && p > 0
  {
    if k < d then 0 else 1 + (k - d) / p
  }

  function CounterAfter(k: nat, d: nat, p: nat): nat
    requires d > 0 && p > 0
  {
    if k < d then d - k else (if (k - d) % p == 0 then 0 else p - (k - d) % p)
  }

  lemma NextInPeriod(m: nat, p: nat)
    requires p > 0
    ensures m % p + 1 == p ==> (m + 1) % p == 0 && (m + 1) / p == m / p + 1
    ensures m % p + 1 < p ==> (m + 1) % p == m % p + 1 && (m + 1) / p == m / p
  {
    var q, r := m / p, m % p;
    assert m == q * p + r;
    if r + 1 == p {
      Divided(m + 1, q + 1, 0, p) by { assert (q + 1) * p == q * p + p; }
    } else {
      Divided(m + 1, q, r + 1, p);
    }
  }

  lemma Divided(x: nat, q: nat, r: nat, p: nat)
    requires x == q * p + r && r < p
    ensures x / p == q && x % p == r
  {
    var d := x / p - q;
    assert x == x / p * p + x % p;
    assert d * p == r - x % p by { assert (x / p - q) * p == x / p * p - q * p; }
    if d != 0 {
      AtLeastOnce(d, p);
      assert false;
    }
  }

  lemma AtLeastOnce(d: int, p: nat)
    requires d != 0 && p > 0
    ensures d * p >= p || d * p + p <= 0
  {
  }

  /** Exactly how many zeros k counts reach, and where they leave the counter, in either mode
      and from any count. */
  lemma {:induction false} ZeroDetects(t: Timer, k: nat)
    requires t.Enabled()
    ensures var (u, zeros) := Pulses(t, k); var (d, p) := (Distance(t), Period(t));
      && zeros == ZerosIn(k, d, p)
      && u.tcr == t.tcr && u.preload == t.preload
      && (if k == 0 then u == t else u.counter == CounterAfter(k, d, p))
    decreases k
  {
    hide Pulse, Distance, Period;
    if k > 0 {
      var (d, p) := (Distance(t), Period(t));
      ZeroDetects(t, k - 1);
      var u := Pulses(t, k - 1).0;
      PulseCounts(u);
      SameDistance(t, u);
      CountStep(k - 1, d, p);
    }
  }

  lemma SameDistance(t: Timer, u: Timer)
    requires u.tcr == t.tcr && u.preload == t.preload
    ensures Period(u) == Period(t) && Distance(u) == (if u.counter == 0 then Period(t) else u.counter)
  {
  }

  lemma CountStep(k: nat, d: nat, p: nat)
    requires d > 0 && p > 0
    ensures var c := if k == 0 then d else CounterAfter(k, d, p);
      var next := (if c == 0 then p else c) - 1;
      next == CounterAfter(k + 1, d, p) && ZerosIn(k + 1, d, p) == ZerosIn(k, d, p) + (if next == 0 then 1 else 0)
  {
    if k >= d {
      NextInPeriod(k - d, p);
    } else if k + 1 == d {
      Divided(0, 0, 0, p);
    }
  }

  lemma EnablingLoads(t: Timer, v: byte)
    requires !t.Enabled() && v % 2 == 1 && v / 16 % 2 == 0
    ensures var u := SetReg(t, TCR, v);
      u.tcr == WithoutBit3(v) && u.Enabled() && !u.Rollover() && u.counter == t.preload && u.preload == t.preload
  {
    BitsKept(v);
  }

  lemma BitsKept(v: byte)
    ensures WithoutBit3(v) % 2 == v % 2 && WithoutBit3(v) / 16 == v / 16
  {
  }

  /** After enabling in reload mode with a preload of N, k counts reach zero k / N times. */
  lemma ReloadDetects(t: Timer, v: byte, k: nat)
    requires !t.Enabled() && v % 2 == 1 && v / 16 % 2 == 0 && t.preload >= 1
    ensures Pulses(SetReg(t, TCR, v), k).1 == k / t.preload
  {
    hide SetReg, Pulses;
    var u := SetReg(t, TCR, v);
    EnablingLoads(t, v);
    ZeroDetects(u, k);
    var n := t.preload;
    if k < n {
      Divided(k, 0, k, n);
    } else {
      var m := k - n;
      assert m == m / n * n + m % n;
      Divided(k, m / n + 1, m % n, n) by { assert (m / n + 1) * n == m / n * n + n; }
    }
  }

  // ---------------------------------------------------------------- the host clock

  const PERIOD_NS: nat := 500
  const RESYNC_NS: nat := 20_000_000

  /** Counts issued by a look at the clock, and when the next is due; 0 means never yet. */
  function Poll(due: nat, now: nat): (r: (nat, nat))
  {
    var start := if due == 0 || now > due + RESYNC_NS then now else due;
    if start > now then (0, start)
    else ((now - start) / PERIOD_NS + 1, start + ((now - start) / PERIOD_NS + 1) * PERIOD_NS)
  }

  /** A look issues the counts due by now, one every 500 ns, and the next is due within 500 ns; the
      first look, and one more than 20 ms late, start over with a single count. */
  lemma LooksCatchUp(due: nat, now: nat)
    ensures var (n, next) := Poll(due, now);
      if due == 0 || now > due + 20_000_000 then n == 1 && next == now + 500
      else next == due + 500 * n && (if now < due then n == 0 else now < next <= now + 500)
  {
  }

  /** No single look issues more than 40001 counts. */
  lemma PollIsBounded(due: nat, now: nat)
    ensures Poll(due, now).0 <= 40001
  {
  }

  function Polls(due: nat, times: seq<nat>): (nat, nat)
    decreases |times|
  {
    if times == [] then (0, due) else
    var (n, d) := Polls(due, times[..|times| - 1]);
    var (m, e) := Poll(d, times[|times| - 1]);
    (n + m, e)
  }

  predicate Ordered(times: seq<nat>) {
    (forall i :: 0 <= i < |times| ==> times[i] > 0) && (forall i, j :: 0 <= i <= j < |times| ==> times[i] <= times[j])
  }

  /** Looks at the clock that never come more than 20 ms after a count was due. */
  predicate OnTime(times: seq<nat>)
    decreases |times|
  {
    |times| <= 1
    || (OnTime(times[..|times| - 1]) && times[|times| - 1] <= Polls(0, times[..|times| - 1]).1 + 20_000_000)
  }

  /** However the looks are spaced, while they are on time the counts issued since the first
      are one for every 500 ns, and one at the start. */
  lemma {:induction false} OnTimeIsExact(times: seq<nat>)
    requires times != [] && Ordered(times) && OnTime(times)
    ensures var (n, due) := Polls(0, times); var elapsed := times[|times| - 1] - times[0];
      n == elapsed / 500 + 1 && due == times[0] + n * 500
    decreases |times|
  {
    var last := |times| - 1;
    if last > 0 {
      OnTimeIsExact(times[..last]);
    } else {
      assert Polls(0, times[..0]) == (0, 0);
    }
  }

  /** The timer never runs fast: whatever the spacing, no more counts are issued than fit. */
  lemma {:induction false} NeverFast(times: seq<nat>)
    requires times != [] && Ordered(times)
    ensures var (n, due) := Polls(0, times); var end := times[|times| - 1];
      n <= (end - times[0]) / 500 + 1 && times[0] + n * 500 <= due && due <= end + 500
    decreases |times|
  {
    var last := |times| - 1;
    if last > 0 {
      NeverFast(times[..last]);
    } else {
      assert Polls(0, times[..0]) == (0, 0);
    }
  }

  /** Clock ticks from host time: with the timer running in reload mode with preload N and
      looks on time, N * 500 ns of host time is one zero detect. */
  lemma TicksFollowHostTime(t: Timer, v: byte, times: seq<nat>)
    requires times != [] && Ordered(times) && OnTime(times)
    requires !t.Enabled() && v % 2 == 1 && v / 16 % 2 == 0 && t.preload >= 1
    ensures Pulses(SetReg(t, TCR, v), Polls(0, times).0).1
      == ((times[|times| - 1] - times[0]) / 500 + 1) / t.preload
  {
    OnTimeIsExact(times);
    ReloadDetects(t, v, Polls(0, times).0);
  }
}
