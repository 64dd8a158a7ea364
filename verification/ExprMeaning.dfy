/**
 What the values of expressions are as numbers: each operation of the parser of
 eagletests/eagletest/exprparse.c against the integers, and whole expressions that stay within 32
 bits.
 */
module ExprMeaning {
  import opened ExprGrammar
  import opened ExprRoundTrip
  import opened Options
  import opened Words

  const TWO_31: int := 0x8000_0000
  const TWO_32: int := 0x1_0000_0000

  function IntPow(b: int, n: nat): int { if n == 0 then 1 else b * IntPow(b, n - 1) }

  predicate Congruent(x: int, y: int) { (x - y) % TWO_32 == 0 }

  /** The signed number that a 32 bit pattern stands for. */
  predicate StandsFor(v: word, x: int) { -TWO_31 <= x < TWO_31 && Congruent(v, x) }

  lemma SignedStands(v: word)
    ensures StandsFor(v, Signed(v)) && forall x :: StandsFor(v, x) ==> x == Signed(v)
    ensures Signed(v) >= 0 ==> Signed(v) == v
  {
  }

  // ---------------------------------------------------------------- the operations

  lemma CongruentTo(x: int, y: int, z: int)
    ensures Congruent(x, y) && Congruent(y, z) ==> Congruent(x, z)
    ensures Congruent(x, y) ==> Congruent(y, x)
    ensures Congruent(Wrap(x), x)
  {
    WrapMeans(x);
  }

  lemma MulCongruent(a: int, b: int, x: int)
    requires Congruent(a, b)
    ensures Congruent(x * a, x * b)
  {
    var k := (a - b) / TWO_32;
    TimesFactor(a - b, k, x);
    MultipleVanishes(x * k);
  }

  lemma TimesFactor(d: int, k: int, x: int)
    requires d == k * TWO_32
    ensures x * d == x * k * TWO_32
  {
  }

  lemma MultipleVanishes(k: int)
    ensures k * TWO_32 % TWO_32 == 0
  {
  }

  /** Products of congruent numbers are congruent. */
  lemma ProductCongruent(a: int, x: int, b: int, y: int)
    requires Congruent(a, x) && Congruent(b, y)
    ensures Congruent(Wrap(a * b), x * y)
  {
    hide Congruent, Wrap;
    MulCongruent(b, y, a);
    MulCongruent(a, x, y);
    CongruentTo(a * b, a * y, x * y);
    CongruentTo(Wrap(a * b), a * b, x * y);
  }

  lemma {:induction false} IpowMeans(a: word, x: int, n: nat)
    requires Congruent(a, x)
    ensures Congruent(Ipow(a, n), IntPow(x, n))
    decreases n
  {
    if n > 0 {
      IpowMeans(a, x, n - 1);
      hide Congruent, Wrap;
      ProductCongruent(a, x, Ipow(a, n - 1), IntPow(x, n - 1));
    }
  }

  /** What each operation makes of the numbers x and y that its operands stand for.  Sum,
      difference, product and power are those of the integers modulo 2^32; a negative exponent has
      no value.  Quotient and remainder are those that cut towards zero, unless y is zero or the
      quotient does not fit.  And and or go bit by bit. */
  lemma OperationsMean(op: Op, a: word, b: word, x: int, y: int)
    requires StandsFor(a, x) && StandsFor(b, y)
    ensures var r := ApplyOp(op, a, b);
      match op
      case Add => r.Some? && Congruent(r.value, x + y)
      case Sub => r.Some? && Congruent(r.value, x - y)
      case Mul => r.Some? && Congruent(r.value, x * y)
      case Pow => (r.None? <==> y < 0) && (r.Some? ==> Congruent(r.value, IntPow(x, y)))
      case Quot => (r.None? <==> y == 0 || (x == -TWO_31 && y == -1)) && (r.Some? ==> StandsFor(r.value, Cut(x, y)))
      case Mod => (r.None? <==> y == 0 || (x == -TWO_31 && y == -1))
        && (r.Some? ==> StandsFor(r.value, x - y * Cut(x, y)))
      case Conj => r.Some? && forall i: nat :: BitSet(r.value, i) <==> BitSet(a, i) && BitSet(b, i)
      case Disj => r.Some? && forall i: nat :: BitSet(r.value, i) <==> BitSet(a, i) || BitSet(b, i)
  {
    hide And, Or, Wrap, Signed, Congruent, Cut, Ipow, IntPow, BitSet, Quotient, Remainder;
    SignedStands(a);
    SignedStands(b);
    assert x == Signed(a) && y == Signed(b);
    TrapsByNumbers(a, b);
    match op
    case Add => SumCongruent(a, x, b, y);
    case Sub => SumCongruent(a, x, b, y);
    case Mul => ProductCongruent(a, x, b, y);
    case Pow => if y >= 0 { IpowMeans(a, x, y); }
    case Quot => if !DivTraps(a, b) { CutFits(x, y); DivisionStands(x, y); }
    case Mod => if !DivTraps(a, b) { DivisionStands(x, y); }
    case Conj => forall i: nat { BitwiseOps(a, b, i); }
    case Disj => forall i: nat { BitwiseOps(a, b, i); }
  }

  lemma TrapsByNumbers(a: word, b: word)
    ensures DivTraps(a, b) <==> Signed(b) == 0 || (Signed(a) == -TWO_31 && Signed(b) == -1)
  {
  }

  lemma SumCongruent(a: word, x: int, b: word, y: int)
    requires Congruent(a, x) && Congruent(b, y)
    ensures Congruent(Wrap(a + b), x + y) && Congruent(Wrap(a - b), x - y)
  {
    SumOfMultiples(a - x, b - y);
    hide Wrap;
    CongruentTo(a + b, x + y, x + y);
    CongruentTo(Wrap(a + b), a + b, x + y);
    CongruentTo(a - b, x - y, x - y);
    CongruentTo(Wrap(a - b), a - b, x - y);
  }

  lemma SumOfMultiples(p: int, q: int)
    requires p % TWO_32 == 0 && q % TWO_32 == 0
    ensures (p + q) % TWO_32 == 0 && (p - q) % TWO_32 == 0
  {
  }

  lemma DivisionStands(x: int, y: int)
    requires y != 0 && -TWO_31 <= y < TWO_31
    ensures -TWO_31 <= Cut(x, y) < TWO_31 ==> StandsFor(Wrap(Quotient(x, y)), Cut(x, y))
    ensures StandsFor(Wrap(Remainder(x, y)), x - y * Cut(x, y))
  {
    hide Quotient, Cut;
    QuotientCuts(x, y);
    DivisionMeans(x, y);
    WrapStands(Quotient(x, y));
    WrapStands(Remainder(x, y));
  }

  /** The quotient cut towards zero; for y = 0 it means nothing. */
  function Cut(x: int, y: int): int {
    if y == 0 then 0
    else if y < 0 then -(if x < 0 then -(-x / -y) else x / -y)
    else if x < 0 then -(-x / y) else x / y
  }

  lemma QuotientCuts(x: int, y: int)
    requires y != 0
    ensures Quotient(x, y) == Cut(x, y)
  {
  }

  lemma WrapStands(x: int)
    ensures -TWO_31 <= x < TWO_31 ==> StandsFor(Wrap(x), x)
  {
  }

  lemma {:induction false} Grows(q: nat, y: nat)
    requires y > 0
    ensures q * y >= q && (y > 1 ==> q * y >= 2 * q)
    decreases y
  {
    if y > 1 {
      Grows(q, y - 1);
      assert q * y == q * (y - 1) + q;
    }
  }

  lemma Smaller(n: nat, y: nat)
    requires y > 0
    ensures 0 <= n / y <= n && (y > 1 ==> n / y <= n / 2)
  {
    Grows(n / y, y);
    assert n == n / y * y + n % y;
  }

  lemma CutFits(x: int, y: int)
    requires y != 0 && -TWO_31 <= x < TWO_31 && !(x == -TWO_31 && y == -1)
    ensures -TWO_31 <= Cut(x, y) < TWO_31
  {
    Smaller(if x < 0 then -x else x, if y < 0 then -y else y);
  }

  // ---------------------------------------------------------------- whole expressions

  function Fitting(x: int): Option<int> { if -TWO_31 <= x < TWO_31 then Some(x) else None }

  /** An operation on integers, where its result is one of 32 bits. */
  function Exactly(op: Op, x: int, y: int): Option<int> {
    match op
    case Add => Fitting(x + y)
    case Sub => Fitting(x - y)
    case Mul => Fitting(x * y)
    case Pow => if y < 0 then None else Fitting(IntPow(x, y))
    case Quot => if y == 0 then None else Fitting(Cut(x, y))
    case Mod => if y == 0 || Cut(x, y) == TWO_31 then None else Fitting(x - y * Cut(x, y))
    case _ => None
  }

  /** The number an arithmetic expression denotes, if all its parts are of 32 bits. */
  function Exact(t: Tree): Option<int> {
    match t
    case Num(v) => Fitting(v)
    case Neg(e) => if Exact(e).None? then None else Fitting(-Exact(e).value)
    case Paren(e) => Exact(e)
    case Bin(op, l, r) => if Exact(l).None? || Exact(r).None? then None else Exactly(op, Exact(l).value, Exact(r).value)
    case Call(_, _) => None
  }

  lemma OperationsFit(op: Op, a: word, b: word, x: int, y: int)
    requires StandsFor(a, x) && StandsFor(b, y) && Exactly(op, x, y).Some?
    ensures ApplyOp(op, a, b).Some? && StandsFor(ApplyOp(op, a, b).value, Exactly(op, x, y).value)
  {
    hide Congruent, ApplyOp, Cut, IntPow;
    OperationsMean(op, a, b, x, y);
    MinusOne(x);
  }

  lemma MinusOne(x: int)
    ensures Cut(x, -1) == -x
  {
  }

  /** An arithmetic expression whose parts all stay within 32 bits has the very value it denotes among
      the integers. */
  lemma {:induction false} ValueIsExact(t: Tree, env: Env)
    requires Exact(t).Some?
    ensures Eval(t, env).Some? && StandsFor(Eval(t, env).value, Exact(t).value)
  {
    hide Congruent, ApplyOp, Exactly;
    match t
    case Num(v) => assert Congruent(v, v) by { CongruentTo(v, v, v); SignedStands(v); }
    case Neg(e) =>
      ValueIsExact(e, env);
      SumNegates(Eval(e, env).value, Exact(e).value);
    case Paren(e) => ValueIsExact(e, env);
    case Bin(op, l, r) =>
      ValueIsExact(l, env);
      ValueIsExact(r, env);
      OperationsFit(op, Eval(l, env).value, Eval(r, env).value, Exact(l).value, Exact(r).value);
  }

  lemma SumNegates(v: word, x: int)
    requires Congruent(v, x)
    ensures Congruent(Wrap(0 - v), -x)
  {
  }
}
