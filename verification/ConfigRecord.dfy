/**
 The configuration record of tools/configrec.py: the checksum the kernel demands, the drive
 words with their packed counts, and the fields that may be edited.  A unit is 1024 bytes;
 the checksum is its last long and the record its second half.
 */
module ConfigRecord {
  import opened Rotations
  import opened Words

  const BLOCK: nat := 512
  const UNIT: nat := 1024
  const CKSUM_OFF: nat := 0x3fc
  const LONGS: nat := 255
  const SEED: word := 0x14

  // ---------------------------------------------------------------- the checksum

  function Long(u: seq<byte>, p: nat): word
    requires p + 4 <= |u|
  {
    0x100_0000 * (u[p] as int) + 0x1_0000 * (u[p + 1] as int) + 0x100 * (u[p + 2] as int) + u[p + 3]
  }

  /** The running checksum after the longs from i up have been folded in, last one first. */
  function Fold(u: seq<byte>, i: nat): word
    requires |u| == UNIT && i <= LONGS
    decreases LONGS - i
  {
    if i == LONGS then SEED else Rol(Xor32(Fold(u, i + 1), Long(u, 4 * i)))
  }

  function ChecksumOf(u: seq<byte>): word
    requires |u| == UNIT
  {
    Fold(u, 0)
  }

  /** The longs from i up, each rotated by its index plus one, combined. */
  function Combined(u: seq<byte>, i: nat): word
    requires |u| == UNIT && i <= LONGS
    decreases LONGS - i
  {
    if i == LONGS then 0 else Xor32(RolN(Long(u, 4 * i), i + 1), Combined(u, i + 1))
  }

  lemma {:induction false} FoldCombines(u: seq<byte>, i: nat)
    requires |u| == UNIT && i <= LONGS
    ensures RolN(Fold(u, i), i) == Xor32(RolN(SEED, LONGS), Combined(u, i))
    decreases LONGS - i
  {
    hide Rol, Long, Xor;
    if i < LONGS {
      var f, l, s, c := Fold(u, i + 1), Long(u, 4 * i), RolN(SEED, LONGS), Combined(u, i + 1);
      FoldCombines(u, i + 1);
      RolNLast(Xor32(f, l), i);
      RolNOverXor(f, l, i + 1);
      XorAssociates(s, c, RolN(l, i + 1));
      XorCommutes(c, RolN(l, i + 1));
    } else {
      XorZero(RolN(SEED, LONGS));
    }
  }

  /** The checksum is the rotated seed and each long rotated by its index plus one, combined. */
  lemma ChecksumCombines(u: seq<byte>)
    requires |u| == UNIT
    ensures ChecksumOf(u) == Xor32(RolN(SEED, LONGS), Combined(u, 0))
  {
    hide Fold, Combined;
    FoldCombines(u, 0);
    assert RolN(ChecksumOf(u), 0) == ChecksumOf(u);
  }

  /** Changing any single long changes the checksum. */
  lemma {:induction false} EveryLongMatters(u: seq<byte>, v: seq<byte>, i: nat, j: nat)
    requires |u| == |v| == UNIT && j < LONGS && i <= LONGS && Long(u, 4 * j) != Long(v, 4 * j)
    requires forall k :: 0 <= k < LONGS && k != j ==> Long(u, 4 * k) == Long(v, 4 * k)
    ensures if i <= j then Fold(u, i) != Fold(v, i) else Fold(u, i) == Fold(v, i)
    decreases LONGS - i
  {
    hide Rol, Long, Xor;
    if i < LONGS {
      var a, b, x, y := Fold(u, i + 1), Fold(v, i + 1), Long(u, 4 * i), Long(v, 4 * i);
      EveryLongMatters(u, v, i + 1, j);
      RolInjective(Xor32(a, x), Xor32(b, y));
      if i == j {
        XorCommutes(a, x);
        XorCommutes(a, y);
        XorCancels(x, a);
        XorCancels(y, a);
      } else {
        XorCancels(a, x);
        XorCancels(b, x);
      }
    }
  }

  /** A changed byte is a changed long. */
  lemma LongsDiffer(u: seq<byte>, k: nat, b: byte)
    requires |u| == UNIT && k < CKSUM_OFF && b != u[k]
    ensures ChecksumOf(u[k := b]) != ChecksumOf(u)
  {
    hide Fold;
    var v, j := u[k := b], k / 4;
    assert Long(u, 4 * j) != Long(v, 4 * j);
    assert forall i :: 0 <= i < LONGS && i != j ==> Long(u, 4 * i) == Long(v, 4 * i);
    EveryLongMatters(u, v, 0, j);
  }

  function Zeros(n: nat): (r: seq<byte>)
    ensures |r| == n
  {
    seq(n, _ => 0)
  }

  lemma {:induction false} ZerosFold(i: nat)
    requires i <= LONGS
    ensures Fold(Zeros(UNIT), i) == RolN(SEED, LONGS - i)
    decreases LONGS - i
  {
    hide Rol, Xor;
    if i < LONGS {
      ZerosFold(i + 1);
      assert Long(Zeros(UNIT), 4 * i) == 0;
      XorZero(RolN(SEED, LONGS - i - 1));
    }
  }

  /** An empty region does not checksum to zero, so skipping stored zeros is not what keeps the
      search from accepting empty regions. */
  lemma EmptyChecksum()
    ensures ChecksumOf(Zeros(UNIT)) == 10
  {
    ZerosFold(0);
    SeedCycle(7);
    RolNAdds(SEED, 31, 32 * 7);
    SeedTurns();
  }

  lemma {:induction false} Doubles(v: word, n: nat)
    requires v * Pow2(n) < W
    ensures RolN(v, n) == v * Pow2(n)
    decreases n
  {
    if n > 0 {
      var q := Pow2(n - 1);
      TwiceTimes(v, q, Pow2(n));
      hide Pow2;
      Doubles(v, n - 1);
      DoubledOnce(v * q);
    }
  }

  lemma DoubledOnce(x: word)
    requires 2 * x < W
    ensures Rol(x) == 2 * x
  {
  }

  lemma TwiceTimes(v: nat, q: nat, p: nat)
    requires p == 2 * q
    ensures v * p == 2 * (v * q)
  {
  }

  lemma SeedTurns()
    ensures RolN(SEED, 31) == 10 && RolN(SEED, 32) == SEED
  {
    Pow2Of32();
    assert Pow2(32) == 32 * Pow2(27);
    Doubles(SEED, 27);
    hide RolN;
    RolNAdds(SEED, 4, 27);
    RolNAdds(SEED, 5, 27);
    FourTurns();
  }

  lemma FourTurns()
    ensures RolN(0xa000_0000, 4) == 10 && RolN(0xa000_0000, 5) == SEED
  {
    assert RolN(0xa000_0000, 1) == 0x4000_0001;
    assert RolN(0xa000_0000, 2) == 0x8000_0002;
    assert RolN(0xa000_0000, 3) == 5;
  }

  lemma {:induction false} SeedCycle(n: nat)
    ensures RolN(SEED, 32 * n) == SEED
    decreases n
  {
    hide Rol;
    if n == 0 {
      assert RolN(SEED, 0) == SEED;
    } else {
      hide RolN;
      SeedCycle(n - 1);
      SeedTurns();
      RolNAdds(SEED, 32, 32 * (n - 1));
    }
  }

  // ---------------------------------------------------------------- any checksum can be had

  lemma LongJoins(v: word)
    ensures 0x100_0000 * (v / 0x100_0000) + 0x1_0000 * (v / 0x1_0000 % 256) + 0x100 * (v / 256 % 256) + v % 256 == v
  {
    assert v / 0x1_0000 == v / 0x100_0000 * 256 + v / 0x1_0000 % 256;
    assert v / 256 == v / 0x1_0000 * 256 + v / 256 % 256;
  }

  /** A unit with one of its longs replaced. */
  function WithLong(u: seq<byte>, j: nat, v: word): (r: seq<byte>)
    requires |u| == UNIT && j < LONGS
    ensures |r| == UNIT && Long(r, 4 * j) == v
    ensures forall k :: 0 <= k < UNIT && !(4 * j <= k < 4 * j + 4) ==> r[k] == u[k]
  {
    LongJoins(v);
    var p := 4 * j;
    u[p := v / 0x100_0000][p + 1 := v / 0x1_0000 % 256][p + 2 := v / 256 % 256][p + 3 := v % 256]
  }

  /** What the running checksum must be before the long at i for the checksum to end as t. */
  function Needed(u: seq<byte>, i: nat, t: word): word
    requires |u| == UNIT && i <= LONGS
  {
    if i == 0 then t else Xor32(Ror(Needed(u, i - 1, t)), Long(u, 4 * (i - 1)))
  }

  lemma XorTakesBack(f: word, x: word)
    ensures Xor32(Xor32(f, x), x) == f && Xor32(f, Xor32(x, f)) == x
  {
    hide Xor;
    XorCancels(f, x);
    XorCommutes(f, Xor(x, f));
    XorCancels(x, f);
  }

  lemma {:induction false} NeededSuffices(u: seq<byte>, i: nat, t: word)
    requires |u| == UNIT && i <= LONGS && Fold(u, i) == Needed(u, i, t)
    ensures ChecksumOf(u) == t
    decreases i
  {
    hide Rol, Xor, Long;
    if i > 0 {
      var r := Ror(Needed(u, i - 1, t));
      XorTakesBack(r, Long(u, 4 * (i - 1)));
      NeededSuffices(u, i - 1, t);
    }
  }

  lemma {:induction false} NeededSame(u: seq<byte>, v: seq<byte>, i: nat, t: word)
    requires |u| == |v| == UNIT && i <= LONGS && forall k :: 0 <= k < i ==> Long(u, 4 * k) == Long(v, 4 * k)
    ensures Needed(u, i, t) == Needed(v, i, t)
    decreases i
  {
    hide Long, Xor, Ror;
    if i > 0 { NeededSame(u, v, i - 1, t); }
  }

  lemma {:induction false} FoldSame(u: seq<byte>, v: seq<byte>, i: nat)
    requires |u| == |v| == UNIT && i <= LONGS && forall k :: i <= k < LONGS ==> Long(u, 4 * k) == Long(v, 4 * k)
    ensures Fold(u, i) == Fold(v, i)
    decreases LONGS - i
  {
    hide Long, Xor, Rol;
    if i < LONGS { FoldSame(u, v, i + 1); }
  }

  /** Every long can give every checksum: whatever the rest of the unit holds, some value of the
      long at j makes the checksum t. */
  lemma AnyChecksum(u: seq<byte>, j: nat, t: word) returns (x: word)
    requires |u| == UNIT && j < LONGS
    ensures ChecksumOf(WithLong(u, j, x)) == t
  {
    hide Rol, Xor, Ror, Long;
    var r, f := Ror(Needed(u, j, t)), Fold(u, j + 1);
    x := Xor32(r, f);
    var v := WithLong(u, j, x);
    assert forall k :: 0 <= k < LONGS && k != j ==> Long(v, 4 * k) == Long(u, 4 * k) by { LongsApart(u, v, j); }
    NeededSame(u, v, j, t);
    FoldSame(u, v, j + 1);
    XorTakesBack(f, r);
    NeededSuffices(v, j, t);
  }

  lemma LongsApart(u: seq<byte>, v: seq<byte>, j: nat)
    requires |u| == |v| == UNIT && forall k :: 0 <= k < UNIT && !(4 * j <= k < 4 * j + 4) ==> v[k] == u[k]
    ensures forall k :: 0 <= k < LONGS && k != j ==> Long(v, 4 * k) == Long(u, 4 * k)
  {
  }

  // ---------------------------------------------------------------- overlapping units

  const HALF: nat := LONGS / 2 + 1

  /** The longs from i up to the middle of the unit, each rotated by its index plus one. */
  function FirstHalf(u: seq<byte>, i: nat): word
    requires |u| == UNIT && i <= HALF
    decreases HALF - i
  {
    if i == HALF then 0 else Xor32(RolN(Long(u, 4 * i), i + 1), FirstHalf(u, i + 1))
  }

  lemma {:induction false} CombinedByHalves(u: seq<byte>, i: nat)
    requires |u| == UNIT && i <= HALF
    ensures Combined(u, i) == Xor32(FirstHalf(u, i), Combined(u, HALF))
    decreases HALF - i
  {
    hide Long, Xor, RolN;
    if i < HALF {
      CombinedByHalves(u, i + 1);
      XorAssociates(RolN(Long(u, 4 * i), i + 1), FirstHalf(u, i + 1), Combined(u, HALF));
    } else {
      XorZero(Combined(u, HALF));
      XorCommutes(0, Combined(u, HALF));
    }
  }

  /** Two units of which the second starts in the middle of the first. */
  ghost predicate Overlap(u: seq<byte>, w: seq<byte>)
    requires |u| == |w| == UNIT
  {
    w[..BLOCK] == u[BLOCK..]
  }

  lemma OverlapLongs(u: seq<byte>, w: seq<byte>, i: nat)
    requires |u| == |w| == UNIT && Overlap(u, w) && i < HALF
    ensures Long(w, 4 * i) == Long(u, 4 * (HALF + i))
  {
    assert forall k :: 0 <= k < BLOCK ==> w[k] == w[..BLOCK][k] && u[BLOCK + k] == u[BLOCK..][k];
  }

  /** A long of the common half is turned by 128 places more in the first unit than in the
      second, that is, by the same. */
  lemma {:induction false} OverlapCombines(u: seq<byte>, w: seq<byte>, i: nat)
    requires |u| == |w| == UNIT && Overlap(u, w) && i < HALF
    ensures FirstHalf(w, i) == Xor32(Combined(u, HALF + i), Long(u, CKSUM_OFF))
    decreases HALF - i
  {
    hide Long, Xor, RolN, Overlap;
    OverlapLongs(u, w, i);
    var l := Long(w, 4 * i);
    if i == HALF - 1 {
      WholeTurns(l, 4, 0);
      assert RolN(l, 0) == l by { NoTurn(l); }
      XorZero(l);
      XorCommutes(0, l);
      assert FirstHalf(w, HALF) == 0 && Combined(u, LONGS) == 0;
    } else {
      OverlapCombines(u, w, i + 1);
      WholeTurns(l, 4, i + 1);
      XorAssociates(RolN(l, i + 1), Combined(u, HALF + i + 1), Long(u, CKSUM_OFF));
    }
  }

  lemma NoTurn(v: word)
    ensures RolN(v, 0) == v
  {
  }

  lemma XorRegroups(s: word, f: word, c: word, d: word)
    ensures Xor32(s, Xor32(Xor32(c, Xor32(s, Xor32(f, c))), d)) == Xor32(f, d)
  {
    hide Xor;
    var e := Xor32(c, Xor32(s, Xor32(f, c)));
    XorAssociates(s, f, c);
    XorTakesBack(c, Xor32(s, f));
    assert e == Xor32(s, f);
    XorAssociates(s, e, d);
    XorCommutes(s, Xor32(s, f));
    XorCommutes(s, f);
    XorCancels(f, s);
  }

  /** A sound unit and the next one: the checksum stored in the middle of the next unit cancels
      the half they share, so the next unit's checksum depends on what they do not share. */
  lemma OverlapChecksum(u: seq<byte>, w: seq<byte>)
    requires |u| == |w| == UNIT && Overlap(u, w) && Long(u, CKSUM_OFF) == ChecksumOf(u)
    ensures ChecksumOf(w) == Xor32(FirstHalf(u, 0), Combined(w, HALF))
  {
    hide Long, Xor, RolN, Combined, FirstHalf, Fold;
    ChecksumCombines(u);
    ChecksumCombines(w);
    CombinedByHalves(u, 0);
    CombinedByHalves(w, 0);
    OverlapCombines(u, w, 0);
    XorRegroups(RolN(SEED, LONGS), FirstHalf(u, 0), Combined(u, HALF), Combined(w, HALF));
  }
}
