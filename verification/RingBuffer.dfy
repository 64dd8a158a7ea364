/**
 The byte ring of src/charringbuffer.c: head and tail indices into an array whose size is a
 power of two, masked instead of reduced, holding at most one byte less than the array and
 overwriting the oldest.
 */
module RingBuffer {
  import opened Words

  const SIZE_T: nat := 0x1_0000_0000_0000_0000

  // ---------------------------------------------------------------- masks

  lemma {:induction false} PowerDivides(j: nat, k: nat)
    requires k <= j
    ensures Pow2(j) == Pow2(j - k) * Pow2(k)
    decreases j - k
  {
    if j > k {
      PowerDivides(j - 1, k);
      assert Pow2(j) == 2 * Pow2(j - 1);
      assert 2 * (Pow2(j - 1 - k) * Pow2(k)) == (2 * Pow2(j - 1 - k)) * Pow2(k);
    }
  }

  lemma {:induction false} MaskKeepsLow(q: nat, r: nat, k: nat)
    requires r < Pow2(k)
    ensures And(q * Pow2(k) + r, Pow2(k) - 1) == r
    decreases k
  {
    if k == 0 {
      assert And(q * Pow2(0) + r, 0) == 0;
    } else {
      hide And;
      var p := Pow2(k - 1);
      var a := q * (2 * p) + r;
      assert q * (2 * p) == 2 * (q * p);
      MaskKeepsLow(q, r / 2, k - 1);
      AndStep(a, 2 * p - 1);
      HalfMask(a, q * p, r, p);
    }
  }

  lemma HalfMask(a: nat, h: nat, r: nat, p: nat)
    requires a == 2 * h + r && p > 0
    ensures a / 2 == h + r / 2 && a % 2 == r % 2 && (2 * p - 1) / 2 == p - 1 && (2 * p - 1) % 2 == 1
  {
  }

  lemma AndStep(a: nat, b: nat)
    ensures And(a, b) == 2 * And(a / 2, b / 2) + (a % 2) * (b % 2)
  {
  }

  /** Masking with 2^k - 1 is the remainder modulo 2^k. */
  lemma MaskIsRemainder(a: nat, k: nat)
    ensures And(a, Pow2(k) - 1) == a % Pow2(k)
  {
    hide And, Pow2;
    var s := Pow2(k);
    assert a == a / s * s + a % s;
    MaskKeepsLow(a / s, a % s, k);
  }

  /** An index or a difference of indices brought back into the array. */
  function Around(x: int, s: nat): (r: int)
    ensures 0 <= x + s && x < 2 * s ==> 0 <= r < s
  {
    if x < 0 then x + s else if x >= s then x - s else x
  }

  /** What the mask makes of an index just outside the array, in size_t arithmetic. */
  lemma MaskGoesAround(x: int, k: nat)
    requires k <= 63 && 0 <= x + Pow2(k) && x < 2 * Pow2(k)
    ensures And(x % SIZE_T, Pow2(k) - 1) == Around(x, Pow2(k))
  {
    hide And, Pow2;
    var s, c := Pow2(k), Pow2(64 - k);
    PowerOf64();
    PowerDivides(64, k);
    AtLeastTwo(64 - k);
    assert c * s >= 2 * s;
    if x < 0 {
      assert x % SIZE_T == SIZE_T + x;
      assert (c - 1) * s + (s + x) == c * s + x;
      MaskKeepsLow(c - 1, s + x, k);
    } else if x >= s {
      assert 1 * s + (x - s) == x;
      MaskKeepsLow(1, x - s, k);
    } else {
      assert 0 * s + x == x;
      MaskKeepsLow(0, x, k);
    }
  }

  lemma AtLeastTwo(n: nat)
    requires n > 0
    ensures Pow2(n) >= 2
  {
  }

  lemma PowerOf64()
    ensures Pow2(64) == SIZE_T
  {
    Pow2Of32();
    PowerDivides(64, 32);
  }

  // ---------------------------------------------------------------- the ring as a sequence

  /** The newest n bytes. */
  function Newest(s: seq<byte>, n: nat): (r: seq<byte>)
    ensures |r| <= n && |r| <= |s|
  {
    if |s| <= n then s else s[|s| - n..]
  }

  lemma NewestComposes(a: seq<byte>, b: seq<byte>, n: nat)
    ensures Newest(Newest(a, n) + b, n) == Newest(a + b, n)
  {
  }

  /** n bytes from an index on, around the end of the array. */
  function Items(b: seq<byte>, tail: nat, n: nat): (s: seq<byte>)
    requires tail < |b| && n <= |b|
    ensures |s| == n && forall i :: 0 <= i < n ==> s[i] == b[Around(tail + i, |b|)]
  {
    seq(n, i requires 0 <= i < n => b[Around(tail + i, |b|)])
  }

  lemma Pushed(b: seq<byte>, tail: nat, n: nat, x: byte)
    requires tail < |b| && n < |b|
    ensures Items(b[Around(tail + n, |b|) := x], tail, n + 1) == Items(b, tail, n) + [x]
  {
  }

  lemma Popped(b: seq<byte>, tail: nat, n: nat)
    requires tail < |b| && 0 < n <= |b|
    ensures Items(b, Around(tail + 1, |b|), n - 1) == Items(b, tail, n)[1..]
  {
  }

  /** Where head stands, and how the indices count after each moves on. */
  lemma Positions(head: nat, tail: nat, n: nat, s: nat)
    requires head < s && tail < s && n == Around(head - tail, s)
    ensures 0 <= Around(head + 1, s) < s && 0 <= Around(tail + 1, s) < s
    ensures n < s && Around(tail + n, s) == head
    ensures n + 1 < s ==> Around(Around(head + 1, s) - tail, s) == n + 1
    ensures n + 1 == s && s > 1
      ==> Around(Around(head + 1, s) - Around(tail + 1, s), s) == n && Around(Around(tail + 1, s) + (n - 1), s) == head
    ensures s == 1 ==> Around(Around(head + 1, s) - Around(tail + 1, s), s) == 0 && Around(tail + 1, s) == tail
  {
  }

  /** A byte put into a ring: if it is full the oldest goes first. */
  lemma Queued(b: seq<byte>, head: nat, tail: nat, x: byte)
    requires head < |b| && tail < |b|
    ensures var s := |b|;
      var n := Around(head - tail, s);
      var t := if n == s - 1 then Around(tail + 1, s) else tail;
      Items(b[head := x], t, Around(Around(head + 1, s) - t, s)) == Newest(Items(b, tail, n) + [x], s - 1)
  {
    hide Items, Around;
    var s := |b|;
    var n := Around(head - tail, s);
    Positions(head, tail, n, s);
    if n < s - 1 {
      Pushed(b, tail, n, x);
    } else if s > 1 {
      Popped(b, tail, n);
      Pushed(b, Around(tail + 1, s), n - 1, x);
    }
  }

  class Ring {
    const buffer: array<byte>
    const mask: nat
    ghost const k: nat
    var tail: nat
    var head: nat

    ghost predicate Valid()
      reads this
    {
      && k <= 63 && buffer.Length == Pow2(k) && mask == Pow2(k) - 1
      && tail < buffer.Length && head < buffer.Length
    }

    ghost function Count(): (n: nat)
      requires Valid()
      reads this
      ensures n < buffer.Length
    {
      Around(head - tail, buffer.Length)
    }

    ghost function Contents(): (s: seq<byte>)
      requires Valid()
      reads this, buffer
      ensures |s| == Count()
    {
      Items(buffer[..], tail, Count())
    }

    constructor (buf: array<byte>, ghost k: nat)
      requires k <= 63 && buf.Length == Pow2(k)
      ensures Valid() && buffer == buf && Contents() == []
    {
      buffer, mask, tail, head := buf, buf.Length - 1, 0, 0;
      this.k := k;
    }

    method Masked(x: int) returns (i: nat)
      requires Valid() && -buffer.Length <= x < 2 * buffer.Length
      ensures i == Around(x, buffer.Length)
    {
      MaskGoesAround(x, k);
      i := And(x % SIZE_T, mask);
    }

    method NumItems() returns (n: nat)
      requires Valid()
      ensures n == |Contents()|
    {
      n := Masked(head - tail);
    }

    method Queue(data: byte)
      requires Valid()
      modifies this, buffer
      ensures Valid() && Contents() == Newest(old(Contents()) + [data], buffer.Length - 1)
    {
      hide And, Pow2, Items, Newest, Around;
      ghost var b := buffer[..];
      Queued(b, head, tail, data);
      var n := Masked(head - tail);
      if n == mask {
        tail := Masked(tail + 1);
      }
      buffer[head] := data;
      assert buffer[..] == b[head := data];
      head := Masked(head + 1);
    }

    method QueueArr(data: array<byte>, size: nat)
      requires Valid() && size <= data.Length && data != buffer
      modifies this, buffer
      ensures Valid() && Contents() == Newest(old(Contents()) + data[..size], buffer.Length - 1)
    {
      ghost var was, cap := Contents(), buffer.Length - 1;
      assert was + data[..0] == was;
      for i := 0 to size
        invariant Valid() && Contents() == Newest(was + data[..i], cap) && data[..] == old(data[..])
      {
        NewestComposes(was + data[..i], [data[i]], cap);
        assert was + data[..i + 1] == was + data[..i] + [data[i]];
        Queue(data[i]);
      }
    }

    method Dequeue() returns (ok: bool, data: byte)
      requires Valid()
      modifies this`tail
      ensures Valid() && ok == (|old(Contents())| > 0)
      ensures ok ==> data == old(Contents())[0] && Contents() == old(Contents())[1..]
      ensures !ok ==> Contents() == []
    {
      if head == tail {
        return false, 0;
      }
      hide And, Pow2, Items;
      Popped(buffer[..], tail, Count());
      data := buffer[tail];
      assert data == Contents()[0];
      tail := Masked(tail + 1);
      ok := true;
    }

    method DequeueArr(data: array<byte>, len: nat) returns (cnt: nat)
      requires Valid() && len <= data.Length && data != buffer
      modifies this`tail, data
      ensures Valid() && cnt == (if len < |old(Contents())| then len else |old(Contents())|)
      ensures data[..cnt] == old(Contents())[..cnt] && data[cnt..] == old(data[cnt..])
      ensures Contents() == old(Contents())[cnt..]
    {
      hide And, Pow2, Items;
      ghost var was := Contents();
      cnt := 0;
      if head == tail {
        return;
      }
      while cnt < len
        invariant Valid() && 0 <= cnt <= len && cnt <= |was| && Contents() == was[cnt..]
        invariant data[..cnt] == was[..cnt] && forall j :: cnt <= j < data.Length ==> data[j] == old(data[j])
      {
        var ok, b := Dequeue();
        if !ok {
          break;
        }
        assert was[cnt..][1..] == was[cnt + 1..] && b == was[cnt];
        data[cnt] := b;
        assert data[..cnt + 1] == data[..cnt] + [b] == was[..cnt + 1];
        cnt := cnt + 1;
      }
    }

    method Peek(index: nat) returns (ok: bool, data: byte)
      requires Valid()
      ensures ok == (index < |Contents()|) && (ok ==> data == Contents()[index])
    {
      var n := NumItems();
      if index >= n {
        return false, 0;
      }
      var i := Masked(tail + index);
      return true, buffer[i];
    }
  }

  // ---------------------------------------------------------------- runs

  datatype Op = Put(data: seq<byte>) | Get(len: nat)

  datatype Run = Run(held: seq<byte>, got: seq<byte>, lost: nat)

  function Apply(r: Run, op: Op, cap: nat): Run {
    match op
    case Put(d) => Run(Newest(r.held + d, cap), r.got, r.lost + |r.held + d| - |Newest(r.held + d, cap)|)
    case Get(len) =>
      var n := if len < |r.held| then len else |r.held|;
      Run(r.held[n..], r.got + r.held[..n], r.lost)
  }

  /** What a ring of some capacity holds, has handed out and has overwritten. */
  function After(ops: seq<Op>, cap: nat): (r: Run)
    decreases |ops|
  {
    if ops == [] then Run([], [], 0) else Apply(After(ops[..|ops| - 1], cap), ops[|ops| - 1], cap)
  }

  function Input(op: Op): seq<byte> { if op.Put? then op.data else [] }

  function AllPut(ops: seq<Op>): seq<byte>
    decreases |ops|
  {
    if ops == [] then [] else AllPut(ops[..|ops| - 1]) + Input(ops[|ops| - 1])
  }

  /** What is held is the last part of some bytes. */
  predicate Ends(all: seq<byte>, held: seq<byte>) { |held| <= |all| && all[|all| - |held|..] == held }

  lemma StepKeeps(r: Run, op: Op, cap: nat, all: seq<byte>)
    requires |r.held| <= cap && |all| == |r.got| + |r.held| + r.lost && Ends(all, r.held)
    ensures var z, more := Apply(r, op, cap), all + Input(op);
      |z.held| <= cap && |more| == |z.got| + |z.held| + z.lost && Ends(more, z.held)
  {
    match op
    case Put(d) => PutKeeps(r, d, cap, all);
    case Get(_) => assert all + [] == all;
  }

  lemma PutKeeps(r: Run, d: seq<byte>, cap: nat, all: seq<byte>)
    requires |r.held| <= cap && |all| == |r.got| + |r.held| + r.lost && Ends(all, r.held)
    ensures var z := Apply(r, Put(d), cap);
      |z.held| <= cap && |all + d| == |z.got| + |z.held| + z.lost && Ends(all + d, z.held)
  {
    assert (all + d)[|all| - |r.held|..] == r.held + d;
  }

  /** Over any run what is held is the last part of everything put in, and every byte put in
      was handed out once, is still held, or was overwritten. */
  lemma {:induction false} NothingInvented(ops: seq<Op>, cap: nat)
    ensures var r := After(ops, cap);
      |r.held| <= cap && |AllPut(ops)| == |r.got| + |r.held| + r.lost && Ends(AllPut(ops), r.held)
    decreases |ops|
  {
    hide Apply, Ends;
    if ops == [] {
      assert Ends([], []) by { NothingEnds(); }
    } else {
      var before := ops[..|ops| - 1];
      NothingInvented(before, cap);
      StepKeeps(After(before, cap), ops[|ops| - 1], cap, AllPut(before));
    }
  }

  lemma NothingEnds()
    ensures Ends([], [])
  {
  }

  lemma StepInOrder(r: Run, op: Op, cap: nat)
    ensures Apply(r, op, cap).lost >= r.lost
    ensures Apply(r, op, cap).lost == r.lost
      ==> Apply(r, op, cap).got + Apply(r, op, cap).held == r.got + r.held + Input(op)
  {
  }

  /** While nothing is overwritten the ring hands out exactly what was put in, in order. */
  lemma {:induction false} LosslessIsFifo(ops: seq<Op>, cap: nat)
    requires After(ops, cap).lost == 0
    ensures After(ops, cap).got + After(ops, cap).held == AllPut(ops)
    decreases |ops|
  {
    hide Apply;
    if ops != [] {
      StepInOrder(After(ops[..|ops| - 1], cap), ops[|ops| - 1], cap);
      LosslessIsFifo(ops[..|ops| - 1], cap);
    }
  }

  /** How many bytes a ring holds, counting alone: what is put in up to its capacity, less what is
      taken. */
  function Level(ops: seq<Op>, cap: nat): (n: nat)
    decreases |ops|
  {
    if ops == [] then 0 else
    var n := Level(ops[..|ops| - 1], cap);
    match ops[|ops| - 1]
    case Put(d) => if n + |d| > cap then cap else n + |d|
    case Get(len) => if n > len then n - len else 0
  }

  /** The ring holds as many bytes as counting says: it overwrites only what does not fit, and hands out
      as many as are asked for, as long as there are some. */
  lemma {:induction false} LevelIsHeld(ops: seq<Op>, cap: nat)
    ensures |After(ops, cap).held| == Level(ops, cap)
    decreases |ops|
  {
    if ops != [] { LevelIsHeld(ops[..|ops| - 1], cap); }
  }
}
