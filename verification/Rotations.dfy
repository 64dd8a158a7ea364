/** Exclusive or and rotation of 32 bit words. */
module Rotations {
  import opened Words

  /** Xor a bit at a time, whichever numbers. */
  lemma XorParts(a: nat, b: nat)
    ensures Xor(a, b) == 2 * Xor(a / 2, b / 2) + (a + b) % 2
    ensures Xor(a, b) / 2 == Xor(a / 2, b / 2) && Xor(a, b) % 2 == (a + b) % 2
  {
  }

  lemma Halves(a: nat, b: nat)
    requires a / 2 == b / 2 && a % 2 == b % 2
    ensures a == b
  {
  }

  lemma {:induction false} XorBound(a: nat, b: nat, n: nat)
    requires a < Pow2(n) && b < Pow2(n)
    ensures Xor(a, b) < Pow2(n)
    decreases n
  {
    if n > 0 { XorBound(a / 2, b / 2, n - 1); }
  }

  function Xor32(a: word, b: word): word {
    Pow2Of32();
    XorBound(a, b, 32);
    Xor(a, b)
  }

  lemma {:induction false} XorCancels(a: nat, b: nat)
    ensures Xor(Xor(a, b), b) == a
    decreases a + b
  {
    if a == 0 && b == 0 {
      assert Xor(0, 0) == 0;
    } else {
      hide Xor;
      var x := Xor(a, b);
      XorCancels(a / 2, b / 2);
      XorParts(a, b);
      XorParts(x, b);
      Parity(a, b, x);
      Halves(Xor(x, b), a);
    }
  }

  lemma Parity(a: nat, b: nat, x: nat)
    requires x % 2 == (a + b) % 2
    ensures (x + b) % 2 == a % 2
  {
  }

  lemma {:induction false} XorAssociates(a: nat, b: nat, c: nat)
    ensures Xor(Xor(a, b), c) == Xor(a, Xor(b, c))
    decreases a + b + c
  {
    if a == 0 && b == 0 && c == 0 {
      assert Xor(0, 0) == 0;
    } else {
      hide Xor;
      var x, y := Xor(a, b), Xor(b, c);
      XorAssociates(a / 2, b / 2, c / 2);
      XorParts(a, b);
      XorParts(b, c);
      XorParts(x, c);
      XorParts(a, y);
      Parities(a, b, c, x, y);
      Halves(Xor(x, c), Xor(a, y));
    }
  }

  lemma Parities(a: nat, b: nat, c: nat, x: nat, y: nat)
    requires x % 2 == (a + b) % 2 && y % 2 == (b + c) % 2
    ensures (x + c) % 2 == (a + y) % 2
  {
  }

  lemma XorZero(a: nat)
    ensures Xor(a, 0) == a
  {
  }

  lemma {:induction false} XorCommutes(a: nat, b: nat)
    ensures Xor(a, b) == Xor(b, a)
    decreases a + b
  {
    if a != 0 && b != 0 { XorCommutes(a / 2, b / 2); }
  }

  /** Rotation left by one. */
  function Rol(v: word): word { 2 * v % W + v / 0x8000_0000 }

  function RolN(v: word, n: nat): word { if n == 0 then v else Rol(RolN(v, n - 1)) }

  function Bit(on: bool, q: nat): nat { if on then q else 0 }

  /** A top bit and the rest are combined apart from each other. */
  lemma {:induction false} XorSplits(a: nat, b: nat, s: bool, t: bool, n: nat)
    requires a < Pow2(n) && b < Pow2(n)
    ensures Xor(a + Bit(s, Pow2(n)), b + Bit(t, Pow2(n))) == Xor(a, b) + Bit(s != t, Pow2(n))
    decreases n
  {
    hide Xor, Bit;
    if n == 0 {
      XorOfBits(s, t);
      assert Pow2(0) == 1;
      XorOfBits(false, false);
    } else {
      var p := Pow2(n - 1);
      XorSplits(a / 2, b / 2, s, t, n - 1);
      XorParts(a, b);
      SplitStep(a, b, Xor(a, b), s, t, p);
    }
  }

  lemma XorOfBits(s: bool, t: bool)
    ensures Xor(Bit(s, 1), Bit(t, 1)) == Bit(s != t, 1) && Bit(s, 0) == 0 && (!s && !t ==> Xor(0, 0) == 0)
  {
    XorParts(Bit(s, 1), Bit(t, 1));
    assert Xor(0, 0) == 0;
  }

  lemma SplitStep(a: nat, b: nat, c: nat, s: bool, t: bool, p: nat)
    requires Xor(a / 2 + Bit(s, p), b / 2 + Bit(t, p)) == c / 2 + Bit(s != t, p) && c % 2 == (a + b) % 2
    ensures Xor(a + Bit(s, 2 * p), b + Bit(t, 2 * p)) == c + Bit(s != t, 2 * p)
  {
    hide Xor, Bit;
    SplitHalves(a, b, c, s, t, p);
    SplitParity(a, b, c, s, t, p);
    Halves(Xor(a + Bit(s, 2 * p), b + Bit(t, 2 * p)), c + Bit(s != t, 2 * p));
  }

  lemma SplitHalves(a: nat, b: nat, c: nat, s: bool, t: bool, p: nat)
    requires Xor(a / 2 + Bit(s, p), b / 2 + Bit(t, p)) == c / 2 + Bit(s != t, p)
    ensures Xor(a + Bit(s, 2 * p), b + Bit(t, 2 * p)) / 2 == (c + Bit(s != t, 2 * p)) / 2
  {
    hide Xor, Bit;
    HalfOf(a, s, p);
    HalfOf(b, t, p);
    HalfOf(c, s != t, p);
    XorParts(a + Bit(s, 2 * p), b + Bit(t, 2 * p));
  }

  lemma SplitParity(a: nat, b: nat, c: nat, s: bool, t: bool, p: nat)
    requires c % 2 == (a + b) % 2
    ensures Xor(a + Bit(s, 2 * p), b + Bit(t, 2 * p)) % 2 == (c + Bit(s != t, 2 * p)) % 2
  {
    hide Xor, Bit;
    HalfOf(a, s, p);
    HalfOf(b, t, p);
    HalfOf(c, s != t, p);
    XorParts(a + Bit(s, 2 * p), b + Bit(t, 2 * p));
    SameParity(a + Bit(s, 2 * p), b + Bit(t, 2 * p), a, b);
  }

  lemma HalfOf(a: nat, s: bool, p: nat)
    ensures (a + Bit(s, 2 * p)) / 2 == a / 2 + Bit(s, p) && (a + Bit(s, 2 * p)) % 2 == a % 2
  {
  }

  lemma SameParity(x: nat, y: nat, a: nat, b: nat)
    requires x % 2 == a % 2 && y % 2 == b % 2
    ensures (x + y) % 2 == (a + b) % 2
  {
  }

  lemma RolOverXor(a: word, b: word)
    ensures Rol(Xor32(a, b)) == Xor32(Rol(a), Rol(b))
  {
    hide Xor, Rol, Bit;
    var (s, x) := Bits(a);
    var (t, y) := Bits(b);
    Pow2Of31();
    XorSplits(x, y, s, t, 31);
    XorBound(x, y, 31);
    RolOf(x, s);
    RolOf(y, t);
    RolOf(Xor(x, y), s != t);
    ShiftedXor(x, y, s, t);
  }

  lemma ShiftedXor(x: nat, y: nat, s: bool, t: bool)
    ensures Xor(2 * x + Bit(s, 1), 2 * y + Bit(t, 1)) == 2 * Xor(x, y) + Bit(s != t, 1)
  {
    hide Xor;
    XorParts(2 * x + Bit(s, 1), 2 * y + Bit(t, 1));
  }

  function Bits(a: word): (r: (bool, nat))
    ensures r.1 < 0x8000_0000 && a == r.1 + Bit(r.0, 0x8000_0000)
  {
    (a >= 0x8000_0000, a % 0x8000_0000)
  }

  lemma Pow2Of31()
    ensures Pow2(31) == 0x8000_0000
  {
    Pow2Of32();
    assert Pow2(32) == 2 * Pow2(31);
  }

  lemma RolOf(x: nat, s: bool)
    requires x < 0x8000_0000
    ensures Rol(x + Bit(s, 0x8000_0000)) == 2 * x + Bit(s, 1)
  {
  }

  lemma RolInjective(a: word, b: word)
    ensures Rol(a) == Rol(b) ==> a == b
  {
    hide Rol;
    var (s, x) := Bits(a);
    var (t, y) := Bits(b);
    RolOf(x, s);
    RolOf(y, t);
  }

  lemma {:induction false} RolNOverXor(a: word, b: word, n: nat)
    ensures RolN(Xor32(a, b), n) == Xor32(RolN(a, n), RolN(b, n))
    decreases n
  {
    hide Rol, Xor;
    if n > 0 {
      RolNOverXor(a, b, n - 1);
      RolOverXor(RolN(a, n - 1), RolN(b, n - 1));
    }
  }

  lemma {:induction false} RolNLast(v: word, n: nat)
    ensures RolN(Rol(v), n) == RolN(v, n + 1)
    decreases n
  {
    hide Rol;
    if n > 0 {
      RolNLast(v, n - 1);
    } else {
      assert RolN(v, 0) == v;
    }
  }

  lemma {:induction false} RolNAdds(v: word, m: nat, n: nat)
    ensures RolN(RolN(v, n), m) == RolN(v, m + n)
    decreases m
  {
    hide Rol;
    if m > 0 { RolNAdds(v, m - 1, n); }
  }

  // ---------------------------------------------------------------- whole turns

  lemma Pow2Times(m: nat, n: nat)
    ensures Pow2(m) * Pow2(n) == Pow2(m + n)
    decreases m
  {
    if m > 0 {
      Pow2Times(m - 1, n);
      assert Pow2(m) * Pow2(n) == 2 * (Pow2(m - 1) * Pow2(n));
    } else {
      assert Pow2(0) * Pow2(n) == Pow2(n);
    }
  }

  /** One step of a turn: the next bit b moves from the top of the lower part to the bottom. */
  lemma TurnStep(h: nat, b: bool, l: nat, p: nat, q: nat, v: word)
    requires p * q == 0x8000_0000 && h < q && l < p && v == (l + Bit(b, p)) * q + h
    ensures Rol(v) == l * (2 * q) + (2 * h + Bit(b, 1))
  {
    assert Bit(b, p) * q == Bit(b, 0x8000_0000);
    var x := l * q + h;
    assert l * q <= (p - 1) * q && (p - 1) * q == p * q - q;
    assert v == x + Bit(b, 0x8000_0000);
    RolOf(x, b);
  }

  lemma LowestMoves(h: nat, l: nat, p: nat)
    ensures var (b, h') := (h % 2 == 1, h / 2);
      h == 2 * h' + Bit(b, 1) && h * p + l == h' * (2 * p) + (l + Bit(b, p))
  {
    var h' := h / 2;
    if h % 2 == 1 {
      assert (2 * h' + 1) * p == h' * (2 * p) + p;
    } else {
      assert 2 * h' * p == h' * (2 * p);
    }
  }

  /** Turning by n places exchanges the upper n bits and the rest. */
  lemma {:induction false} RolNExchanges(h: nat, l: nat, n: nat, v: word)
    requires n <= 32 && h < Pow2(n) && l < Pow2(32 - n) && v == h * Pow2(32 - n) + l
    ensures RolN(v, n) == l * Pow2(n) + h
    decreases n
  {
    hide Rol, Pow2;
    PowersOf(n);
    if n == 0 {
      assert h == 0 && v == l;
    } else {
      var p, q, b, h' := Pow2(32 - n), Pow2(n - 1), h % 2 == 1, h / 2;
      LowestMoves(h, l, p);
      RolNExchanges(h', l + Bit(b, p), n - 1, v);
      TurnStep(h', b, l, p, q, RolN(v, n - 1));
    }
  }

  lemma PowersOf(n: nat)
    requires n <= 32
    ensures n == 0 ==> Pow2(n) == 1
    ensures n > 0 ==> Pow2(n) == 2 * Pow2(n - 1) && Pow2(33 - n) == 2 * Pow2(32 - n)
    ensures n > 0 ==> Pow2(32 - n) * Pow2(n - 1) == 0x8000_0000
  {
    if n > 0 {
      Pow2Times(32 - n, n - 1);
      Pow2Of31();
    }
  }

  /** A turn by any multiple of 32 places changes nothing. */
  lemma {:induction false} WholeTurns(v: word, m: nat, n: nat)
    ensures RolN(v, 32 * m + n) == RolN(v, n)
    decreases m
  {
    hide Rol, RolN;
    if m == 0 {
      assert 32 * m + n == n;
    } else {
      Pow2Of32();
      assert Pow2(0) == 1;
      RolNExchanges(v, 0, 32, v);
      RolNAdds(v, 32 * (m - 1) + n, 32);
      assert 32 * (m - 1) + n + 32 == 32 * m + n;
      WholeTurns(v, m - 1, n);
    }
  }

  /** Rotation right by one undoes rotation left. */
  function Ror(v: word): (r: word)
    ensures Rol(r) == v
  {
    RolOf(v / 2, v % 2 == 1);
    v / 2 + Bit(v % 2 == 1, 0x8000_0000)
  }
}
