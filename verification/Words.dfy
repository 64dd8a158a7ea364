/** 32 bit words as C's int holds them, and bitwise operations on unbounded naturals. */
module Words {

  const W: nat := 0x1_0000_0000

  type word = x: int | 0 <= x < 0x1_0000_0000

  /** A byte of data; numeric, so that numbers put together from bytes stay integers. */
  type byte = x: int | 0 <= x < 256

  function Wrap(x: int): word { x % W }

  /** The value of a word read as a signed number. */
  function Signed(x: word): int { if x < 0x8000_0000 then x else x - W }

  function And(a: nat, b: nat): (r: nat)
    ensures r <= a && r <= b
  {
    if a == 0 || b == 0 then 0 else 2 * And(a / 2, b / 2) + (a % 2) * (b % 2)
  }

  function Or(a: nat, b: nat): (r: nat)
    decreases a + b
  {
    if a == 0 then b else if b == 0 then a else 2 * Or(a / 2, b / 2) + (if a % 2 + b % 2 > 0 then 1 else 0)
  }

  function Xor(a: nat, b: nat): (r: nat)
    decreases a + b
  {
    if a == 0 then b else if b == 0 then a else 2 * Xor(a / 2, b / 2) + (a + b) % 2
  }

  function Pow2(n: nat): (r: nat)
    ensures r > 0
  {
    if n == 0 then 1 else 2 * Pow2(n - 1)
  }

  lemma {:induction false} OrBounded(a: nat, b: nat, n: nat)
    requires a < Pow2(n) && b < Pow2(n)
    ensures Or(a, b) < Pow2(n)
    decreases n
  {
    if n > 0 && a > 0 && b > 0 { OrBounded(a / 2, b / 2, n - 1); }
  }

  // ---------------------------------------------------------------- what the operations mean

  /** Bit i of a number. */
  predicate BitSet(x: nat, i: nat) { x / Pow2(i) % 2 == 1 }

  lemma BitAbove(x: nat, i: nat)
    ensures BitSet(x, 0) <==> x % 2 == 1
    ensures BitSet(x, i + 1) <==> BitSet(x / 2, i)
  {
    HalvesDivide(x, Pow2(i));
  }

  lemma HalvesDivide(x: nat, d: nat)
    requires d > 0
    ensures x / (2 * d) == x / 2 / d
  {
    var q, r := x / 2 / d, x / 2 % d;
    assert x == 2 * (q * d + r) + x % 2;
    assert x == q * (2 * d) + (2 * r + x % 2);
    assert 0 <= 2 * r + x % 2 < 2 * d;
    DividesBack(x, 2 * d, q, 2 * r + x % 2);
  }

  lemma DividesBack(x: nat, d: nat, q: nat, r: nat)
    requires d > 0 && r < d && x == q * d + r
    ensures x / d == q
  {
    var k := x / d - q;
    Multiples(k, d, r - x % d) by {
      assert x == x / d * d + x % d;
      assert k * d == x / d * d - q * d;
    }
  }

  lemma Multiples(k: int, d: int, e: int)
    requires k * d == e && d > 0 && -d < e < d
    ensures k == 0
  {
    assert k >= 1 ==> (k - 1) * d >= 0;
    assert k <= -1 ==> (-k - 1) * d >= 0;
  }

  /** Bit by bit: and, or, exclusive or. */
  lemma {:induction false} BitwiseOps(a: nat, b: nat, i: nat)
    ensures BitSet(And(a, b), i) <==> BitSet(a, i) && BitSet(b, i)
    ensures BitSet(Or(a, b), i) <==> BitSet(a, i) || BitSet(b, i)
    ensures BitSet(Xor(a, b), i) <==> BitSet(a, i) != BitSet(b, i)
    decreases i
  {
    hide BitSet;
    OpsHalve(a, b);
    if i == 0 {
      BitAbove(a, 0);
      BitAbove(b, 0);
      BitAbove(And(a, b), 0);
      BitAbove(Or(a, b), 0);
      BitAbove(Xor(a, b), 0);
    } else {
      BitwiseOps(a / 2, b / 2, i - 1);
      BitAbove(a, i - 1);
      BitAbove(b, i - 1);
      BitAbove(And(a, b), i - 1);
      BitAbove(Or(a, b), i - 1);
      BitAbove(Xor(a, b), i - 1);
    }
  }

  lemma OpsHalve(a: nat, b: nat)
    ensures And(a, b) / 2 == And(a / 2, b / 2) && (And(a, b) % 2 == 1 <==> a % 2 == 1 && b % 2 == 1)
    ensures Or(a, b) / 2 == Or(a / 2, b / 2) && (Or(a, b) % 2 == 1 <==> a % 2 == 1 || b % 2 == 1)
    ensures Xor(a, b) / 2 == Xor(a / 2, b / 2) && (Xor(a, b) % 2 == 1 <==> (a % 2 == 1) != (b % 2 == 1))
  {
    AndHalves(a, b);
    OrHalves(a, b);
    XorHalves(a, b);
  }

  lemma AndHalves(a: nat, b: nat)
    ensures And(a, b) / 2 == And(a / 2, b / 2) && (And(a, b) % 2 == 1 <==> a % 2 == 1 && b % 2 == 1)
  {
    assert (a % 2) * (b % 2) == if a % 2 == 1 && b % 2 == 1 then 1 else 0;
    if a > 0 && b > 0 { assert And(a, b) == 2 * And(a / 2, b / 2) + (a % 2) * (b % 2); }
  }

  lemma OrHalves(a: nat, b: nat)
    ensures Or(a, b) / 2 == Or(a / 2, b / 2) && (Or(a, b) % 2 == 1 <==> a % 2 == 1 || b % 2 == 1)
  {
    assert Or(0, b / 2) == b / 2 && (b == 0 ==> Or(a / 2, 0) == a / 2);
  }

  lemma XorHalves(a: nat, b: nat)
    ensures Xor(a, b) / 2 == Xor(a / 2, b / 2) && (Xor(a, b) % 2 == 1 <==> (a % 2 == 1) != (b % 2 == 1))
  {
    assert Xor(0, b / 2) == b / 2 && (b == 0 ==> Xor(a / 2, 0) == a / 2);
    assert (a + b) % 2 == (a % 2 + b % 2) % 2;
  }

  /** A wrapped number differs from the number by a multiple of 2^32, and the signed reading of a
      word by 0 or 2^32. */
  lemma WrapMeans(x: int)
    ensures (x - Wrap(x)) % W == 0
    ensures Signed(Wrap(x)) < 0x8000_0000 && Signed(Wrap(x)) >= -0x8000_0000 && (x - Signed(Wrap(x))) % W == 0
  {
  }

  /** Division cuts towards zero: the remainder is smaller than the divisor and has the sign of the
      dividend. */
  lemma DivisionMeans(a: int, b: int)
    requires b != 0
    ensures a == b * Quotient(a, b) + Remainder(a, b) && Abs(Remainder(a, b)) < Abs(b)
    ensures (a >= 0 ==> Remainder(a, b) >= 0) && (a <= 0 ==> Remainder(a, b) <= 0)
  {
    var q, r := Abs(a) / Abs(b), Abs(a) % Abs(b);
    assert Abs(a) == Abs(b) * q + r;
    if (a >= 0) == (b > 0) {
      assert b * q == (if b > 0 then Abs(b) * q else -(Abs(b) * q));
    } else {
      assert b * -q == (if b > 0 then -(Abs(b) * q) else Abs(b) * q);
    }
  }

  lemma Pow2Of32()
    ensures Pow2(32) == W
  {
    assert Pow2(8) == 256;
    assert Pow2(16) == 0x1_0000;
    assert Pow2(24) == 0x100_0000;
  }

  function Or32(a: word, b: word): word {
    Pow2Of32();
    OrBounded(a, b, 32);
    Or(a, b)
  }

  /** C's division truncates towards zero. */
  function Quotient(a: int, b: int): int
    requires b != 0
  {
    if (a >= 0) == (b > 0) then Abs(a) / Abs(b) else -(Abs(a) / Abs(b))
  }

  function Remainder(a: int, b: int): int
    requires b != 0
  {
    a - b * Quotient(a, b)
  }

  function Abs(a: int): nat { if a < 0 then -a else a }
}
