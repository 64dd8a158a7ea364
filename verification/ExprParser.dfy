/**
 The parser of eagletests/eagletest/exprparse.c as it runs: a cursor over the text that the
 scanner moves and six mutually recursive procedures.  Each is proved to move the cursor and
 to return the value as the function of the same name in `ExprGrammar` says.
 */
module ExprParser {
  import opened Words
  import opened ExprGrammar
  import opened ExprLexer

  /** What a procedure returns: a value, or nothing after an operation that C leaves undefined
      or that never ends. */
  datatype Outcome = Value(v: word) | Trapped
  {
    predicate IsFailure() { Trapped? }
    function PropagateFailure(): Outcome
      requires IsFailure()
    {
      Trapped
    }
    function Extract(): word
      requires !IsFailure()
    {
      v
    }
  }

  ghost predicate Is(r: Outcome, c: Cursor, spec: Result) {
    match spec
    case Trap => r.Trapped?
    case At(d, v) => r == Value(v) && c == d
  }

  // ---------------------------------------------------------------- powers

  lemma WrapMul(a: int, b: int)
    ensures Wrap(Wrap(a) * b) == Wrap(a * b)
  {
    var q := a / W;
    assert a * b == Wrap(a) * b + (q * b) * W by {
      assert a == q * W + Wrap(a);
      assert (q * W + Wrap(a)) * b == q * W * b + Wrap(a) * b;
      assert q * W * b == (q * b) * W;
    }
    AddMultiple(Wrap(a) * b, q * b);
  }

  /** Squaring the base halves the exponent. */
  lemma {:induction false} IpowSquares(b: word, n: nat)
    ensures Ipow(Wrap(b * b), n) == Ipow(b, 2 * n)
    decreases n
  {
    if n > 0 {
      var p := Ipow(b, 2 * (n - 1));
      IpowSquares(b, n - 1);
      calc {
        Ipow(b, 2 * n);
        Wrap(b * Wrap(b * p));
        { WrapMul(b * p, b); }
        Wrap(b * (b * p));
        { assert b * (b * p) == (b * b) * p; }
        Wrap((b * b) * p);
        { WrapMul(b * b, p); }
        Wrap(Wrap(b * b) * p);
      }
    }
  }

  /** An arithmetic shift right by one. */
  function Half(e: int): int { if e % 2 == 0 then e / 2 else (e - 1) / 2 }

  function HalvedTimes(e: int, n: nat): int
    decreases n
  {
    if n == 0 then e else HalvedTimes(Half(e), n - 1)
  }

  /** The power loop ends exactly for the exponents that are not negative: shifting reaches
      zero within 31 rounds, or never. */
  lemma {:induction false} PowerEndsIff(e: int)
    requires -0x8000_0000 <= e < 0x8000_0000
    ensures (exists n: nat :: HalvedTimes(e, n) == 0) <==> e >= 0
  {
    if e >= 0 {
      Pow2Of32();
      HalvesToZero(e, 32);
    } else {
      forall n: nat ensures HalvedTimes(e, n) != 0 { StaysNegative(e, n); }
    }
  }

  lemma {:induction false} HalvesToZero(e: nat, n: nat)
    requires e < Pow2(n)
    ensures HalvedTimes(e, n) == 0
    decreases n
  {
    if n > 0 { HalvesToZero(Half(e), n - 1); }
  }

  lemma {:induction false} StaysNegative(e: int, n: nat)
    requires e < 0
    ensures HalvedTimes(e, n) < 0
    decreases n
  {
    if n > 0 { StaysNegative(Half(e), n - 1); }
  }

  lemma IpowOdd(base: word, n: nat)
    ensures Ipow(base, 2 * n + 1) == Wrap(base * Ipow(base, 2 * n))
  {
  }

  lemma IpowStep(result: word, base: word, exp: nat)
    ensures Wrap((if exp % 2 == 1 then Wrap(result * base) else result) * Ipow(Wrap(base * base), exp / 2))
      == Wrap(result * Ipow(base, exp))
  {
    hide Wrap, Ipow;
    IpowSquares(base, exp / 2);
    if exp % 2 == 1 {
      assert exp == 2 * (exp / 2) + 1;
      IpowOdd(base, exp / 2);
      WrapThrough(result, base, Ipow(base, 2 * (exp / 2)));
    } else {
      assert exp == 2 * (exp / 2);
    }
  }

  lemma WrapThrough(a: int, b: int, c: int)
    ensures Wrap(Wrap(a * b) * c) == Wrap(a * Wrap(b * c))
  {
    WrapMul(a * b, c);
    WrapMul(b * c, a);
    assert a * b * c == b * c * a;
    assert Wrap(b * c) * a == a * Wrap(b * c);
  }

  lemma IpowFresh(base: word, exp: nat)
    ensures Wrap(1 * Ipow(base, exp)) == Ipow(base, exp)
  {
  }

  lemma IpowDone(result: word, base: word)
    ensures Wrap(result * Ipow(base, 0)) == result
  {
  }

  /** Square and multiply is repeated multiplication. */
  method IpowLoop(base0: word, exp0: nat) returns (result: word)
    ensures result == Ipow(base0, exp0)
  {
    hide Wrap, Ipow;
    var base: word := base0;
    var exp := exp0;
    result := 1;
    IpowFresh(base, exp);
    while true
      invariant Wrap(result * Ipow(base, exp)) == Ipow(base0, exp0)
      decreases exp
    {
      IpowStep(result, base, exp);
      if exp % 2 == 1 {
        result := Wrap(result * base);
      }
      exp := exp / 2;
      if exp == 0 {
        IpowDone(result, Wrap(base * base));
        return;
      }
      base := Wrap(base * base);
    }
  }

  // ---------------------------------------------------------------- the cursor

  const EOFCHAR: char := '\0'

  class Parser {
    const text: string
    const env: Env
    var pos: nat          // the current position and the next character
    var errpos: int       // -1 while no error is recorded
    var tok: Token
    var ival: word
    var cur: char         // the last character read

    ghost predicate Valid()
      reads this
    {
      && pos <= |text|
      && (cur == EOFCHAR ==> pos == |text| || text[pos] == EOFCHAR)
      && (cur != EOFCHAR ==> pos > 0 && text[pos - 1] == cur)
    }

    /** The text from the last character read on. */
    ghost function Rest(): (r: string)
      requires Valid()
      reads this
      ensures if cur == EOFCHAR then r == text[pos..] && (r == "" || r[0] == EOFCHAR) else r == [cur] + text[pos..]
    {
      if cur == EOFCHAR then text[pos..] else text[pos - 1..]
    }

    /** The stream the parser has yet to read, its current token first. */
    ghost function Snap(): (c: Cursor)
      requires pos <= |text|
      reads this
      ensures c.toks != [] && c.toks[0] == tok && c.ival == ival && c.err == (errpos != -1)
    {
      Cursor([tok] + (if IsFinal(tok) then [] else LexAll(text[pos..], env)), ival, errpos != -1)
    }

    constructor (text: string, env: Env)
      ensures this.text == text && this.env == env && pos == 0 && errpos == -1
    {
      this.text, this.env := text, env;
      pos, errpos := 0, -1;
    }

    method GetChar()
      requires pos <= |text|
      modifies `pos, `cur
      ensures Valid() && Rest() == text[old(pos)..]
    {
      if pos == |text| || text[pos] == EOFCHAR {
        cur := EOFCHAR;
      } else {
        cur := text[pos];
        pos := pos + 1;
      }
    }

    method UngetChar()
      requires Valid()
      modifies `pos
      ensures pos <= |text| && text[pos..] == old(Rest())
    {
      if cur != EOFCHAR {
        pos := pos - 1;
      }
    }

    /** Reads the rest of a word: everything from the last character on within a class. */
    method ReadName() returns (name: string, ok: bool)
      requires Valid() && IsNameChar(cur)
      modifies `pos, `cur
      ensures pos <= |text|
      ensures ok == (Run(old(Rest()), IsNameChar) <= MAXTOKEN)
      ensures ok ==> name == old(Rest())[..Run(old(Rest()), IsNameChar)] && text[pos..] == old(Rest())[|name|..]
    {
      hide Rest, Run;
      ghost var s := Rest();
      name := "";
      while IsNameChar(cur)
        invariant Valid() && s == name + Rest()
        invariant |name| <= MAXTOKEN && forall i :: 0 <= i < |name| ==> IsNameChar(name[i])
        decreases |text| - pos, IsNameChar(cur)
      {
        Advance(name, cur, text[pos..]);
        if |name| + 1 > MAXTOKEN {
          RunAtLeast(name + [cur], text[pos..], IsNameChar);
          return name, false;
        }
        name := name + [cur];
        GetChar();
      }
      RunStops(name, Rest(), IsNameChar);
      UngetChar();
      ok := true;
    }

    /** Reads a numeral from the last character on. */
    method ReadDigits(base: nat) returns (v: word)
      requires Valid() && (base == 16 || base == 10)
      modifies `pos, `cur
      ensures pos <= |text|
      ensures var s, n := old(Rest()), Run(old(Rest()), DigitOf(base));
        v == Fold(s[..n], base, 0) && text[pos..] == s[n..]
    {
      hide Rest, Run, Fold, Wrap, DigitValue;
      ghost var s := Rest();
      ghost var digits := "";
      v := 0;
      FoldNone(base);
      while DigitOf(base)(cur)
        invariant Valid() && s == digits + Rest()
        invariant forall i :: 0 <= i < |digits| ==> DigitOf(base)(digits[i])
        invariant v == Fold(digits, base, 0)
        decreases |text| - pos, DigitOf(base)(cur)
      {
        FoldLast(digits, cur, base, 0);
        Advance(digits, cur, text[pos..]);
        v := Wrap(base * v + DigitValue(cur));
        digits := digits + [cur];
        GetChar();
      }
      RunStops(digits, Rest(), DigitOf(base));
      UngetChar();
    }

    method SkipToToken()
      requires pos <= |text|
      modifies `pos, `cur
      ensures Valid() && Rest() == SkipBlanks(old(text[pos..]))
    {
      hide Rest;
      GetChar();
      while cur == ' '
        invariant Valid() && SkipBlanks(Rest()) == SkipBlanks(old(text[pos..]))
        decreases |text| - pos, cur == ' '
      {
        assert Rest()[1..] == text[pos..];
        GetChar();
      }
    }

    /** Reads the token at the head of the text; `ival` and `errpos` keep what it says. */
    method Classify()
      requires Valid()
      modifies this
      ensures pos <= |text| && tok == Head(old(Rest()), env).0
      ensures !IsFinal(tok) ==> text[pos..] == Head(old(Rest()), env).1
      ensures ival == if tok.Number? || tok.Unknown? then tok.v else old(ival)
      ensures errpos == if tok.TooLong? || tok.Unknown? then pos else old(errpos)
    {
      hide Rest, Run, Fold, NameToken;
      ghost var s := Rest();
      if IsNameStart(cur) {
        var name, ok := ReadName();
        if ok {
          tok := NameToken(name, env);
          NamesAre(name, env);
          if !tok.Funct? {
            ival := tok.v;
          }
        } else {
          tok := TooLong;
        }
        if !ok || tok.Unknown? {
          errpos := pos;
        }
      } else if IsDigit(cur) {
        ival := ReadDigits(16);
        tok := Number(ival);
      } else if cur == '#' {
        assert s[1..] == text[pos..];
        GetChar();
        ival := ReadDigits(10);
        tok := Number(ival);
      } else {
        tok := if cur == EOFCHAR then Eol else CharToken(cur);
        assert cur != EOFCHAR ==> s[1..] == text[pos..];
      }
    }

    /** Moves to the next token. */
    method GetToken()
      requires pos <= |text|
      modifies this
      ensures pos <= |text|
      ensures !IsFinal(old(tok)) ==> Snap() == Next(old(Snap()))
      ensures Snap() == Stand(LexAll(old(text[pos..]), env), old(ival), old(errpos) != -1)
      ensures errpos == if tok.TooLong? || tok.Unknown? then pos else old(errpos)
    {
      hide Rest, Head, SkipBlanks;
      SkipToToken();
      Classify();
    }
  
    /** Steps over an expected token; any other is recorded as an error unless the input is
        already at its end. */
    method Match(expected: Token) returns (ok: bool)
      requires pos <= |text| && !IsFinal(expected)
      modifies this
      ensures pos <= |text| && ok == (old(tok) == expected)
      ensures ok ==> Snap() == Next(old(Snap()))
      ensures !ok ==> Snap() == if IsFinal(tok) then old(Snap()) else old(Snap()).(err := true)
      ensures !ok && !IsFinal(tok) ==> errpos == pos == old(pos)
    {
      hide LexAll;
      if IsFinal(tok) {
        return false;
      }
      if tok == expected {
        GetToken();
        return true;
      }
      RecordError();
      return false;
    }

    method RecordError()
      requires pos <= |text|
      modifies `errpos
      ensures Snap() == old(Snap()).(err := true) && errpos == pos
    {
      errpos := pos;
    }

    method Expr() returns (r: Outcome)
      requires pos <= |text|
      modifies this
      ensures pos <= |text| && Is(r, Snap(), ExprGrammar.Expr(old(Snap()), env))
      decreases |Snap().toks|, 5
    {
      hide Snap, And, Or32, Wrap, ExprGrammar.Term, PowerOf;
      if IsFinal(tok) {
        return Value(0);
      }
      var result: word :- Term();
      while tok.Plus? || tok.Minus? || tok.BitAnd? || tok.BitOr?
        invariant pos <= |text| && |Snap().toks| <= |old(Snap()).toks|
        invariant ExprLoop(Snap(), result, env) == ExprGrammar.Expr(old(Snap()), env)
        decreases |Snap().toks|
      {
        if tok.Plus? {
          var _ := Match(Plus);
          var v: word :- Term();
          result := Wrap(result + v);
        } else if tok.Minus? {
          var _ := Match(Minus);
          var v: word :- Term();
          result := Wrap(result - v);
        } else {
          result :- BitsTerm(result);
        }
      }
      return Value(result);
    }

    /** & or | and the power on its right. */
    method BitsTerm(acc: word) returns (r: Outcome)
      requires pos <= |text| && (tok.BitAnd? || tok.BitOr?)
      modifies this
      ensures pos <= |text|
      ensures r.Value? ==> |Snap().toks| < |old(Snap()).toks|
      ensures r.Value? ==> ExprLoop(Snap(), r.v, env) == ExprLoop(old(Snap()), acc, env)
      ensures r.Trapped? ==> ExprLoop(old(Snap()), acc, env) == Trap
      decreases |Snap().toks|, 4
    {
      hide Snap, And, Or32, PowerOf;
      if tok.BitAnd? {
        var _ := Match(BitAnd);
        var v: word :- Power();
        return Value(And(acc, v));
      }
      var _ := Match(BitOr);
      var v: word :- Power();
      return Value(Or32(acc, v));
    }

    method Term() returns (r: Outcome)
      requires pos <= |text|
      modifies this
      ensures pos <= |text| && Is(r, Snap(), ExprGrammar.Term(old(Snap()), env))
      decreases |Snap().toks|, 4
    {
      hide Snap, Div, Rem, DivTraps, Wrap, PowerOf;
      if IsFinal(tok) {
        return Value(0);
      }
      var result: word :- Power();
      while tok.Mult? || tok.Divide? || tok.Remain?
        invariant pos <= |text| && |Snap().toks| <= |old(Snap()).toks|
        invariant TermLoop(Snap(), result, env) == ExprGrammar.Term(old(Snap()), env)
        decreases |Snap().toks|
      {
        if tok.Mult? {
          var _ := Match(Mult);
          var v: word :- Power();
          result := Wrap(result * v);
        } else if tok.Divide? {
          var _ := Match(Divide);
          var v: word :- Power();
          if DivTraps(result, v) {
            return Trapped;
          }
          result := Div(result, v);
        } else {
          var _ := Match(Remain);
          var v: word :- Power();
          if DivTraps(result, v) {
            return Trapped;
          }
          result := Rem(result, v);
        }
      }
      return Value(result);
    }

    method Power() returns (r: Outcome)
      requires pos <= |text|
      modifies this
      ensures pos <= |text| && Is(r, Snap(), PowerOf(old(Snap()), env))
      decreases |Snap().toks|, 3
    {
      hide Snap, Ipow, ExprGrammar.Factor;
      if IsFinal(tok) {
        return Value(0);
      }
      var base: word :- Factor();
      if tok.Power? {
        var _ := Match(Token.Power);
        var exp: word :- Power();
        if Signed(exp) < 0 {
          return Trapped;
        }
        var p := IpowLoop(base, exp);
        return Value(p);
      }
      return Value(base);
    }

    method Factor() returns (r: Outcome)
      requires pos <= |text|
      modifies this
      ensures pos <= |text| && Is(r, Snap(), ExprGrammar.Factor(old(Snap()), env))
      decreases |Snap().toks|, 2
    {
      hide Snap, ExprGrammar.Factor1;
      if IsFinal(tok) {
        return Value(0);
      }
      if tok.Minus? {
        var _ := Match(Minus);
        var v: word :- Factor1();
        return Value(Wrap(0 - v));
      }
      r := Factor1();
    }

    method Factor1() returns (r: Outcome)
      requires pos <= |text|
      modifies this
      ensures pos <= |text| && Is(r, Snap(), ExprGrammar.Factor1(old(Snap()), env))
      decreases |Snap().toks|, 1
    {
      hide Snap, ExprGrammar.Expr, Arguments;
      if IsFinal(tok) {
        return Value(0);
      }
      if tok.Funct? {
        var name := tok.name;
        GetToken();
        if IsFinal(tok) {
          return Value(0);
        }
        var open := Match(Lparen);
        if !open {
          return Value(0);
        }
        if !tok.Rparen? {
          r := CallArguments(name);
        } else {
          r := Value(Apply(env, name, []));
        }
      } else if tok.Lparen? {
        var _ := Match(Lparen);
        var result: word :- Expr();
        var closed := Match(Rparen);
        r := Value(if closed then result else 0);
      } else {
        GetToken();
        r := Value(ival);
      }
    }

    /** The argument loop of a call and its closing parenthesis. */
    method CallArguments(name: string) returns (r: Outcome)
      requires pos <= |text|
      modifies this
      ensures pos <= |text| && Is(r, Snap(), Arguments(old(Snap()), name, [], env))
      decreases |Snap().toks|, 6
    {
      hide Snap, ExprGrammar.Expr, Apply;
      var params: seq<word> := [];
      while true
        invariant pos <= |text| && |Snap().toks| <= |old(Snap()).toks| && |params| < MAXARGS
        invariant Arguments(Snap(), name, params, env) == Arguments(old(Snap()), name, [], env)
        decreases MAXARGS - |params|
      {
        if IsFinal(tok) {
          return Value(0);
        }
        if params != [] && tok.Comma? {
          GetToken();
        }
        var v: word :- Expr();
        params := params + [v];
        if |params| == MAXARGS {
          RecordError();
          return Value(0);
        }
        if !tok.Comma? {
          break;
        }
      }
      var closed := Match(Rparen);
      r := Value(if closed then Apply(env, name, params) else 0);
    }

    /** The whole parse.  A caller learns the value and whether an error was recorded. */
    method Parse() returns (r: Outcome, success: bool)
      requires pos <= |text|
      modifies this
      ensures pos <= |text| && success == (errpos == -1)
      ensures old(errpos) == -1
        ==> Is(r, Snap(), ExprGrammar.Parse(LexAll(old(text[pos..]), env), old(ival), env))
    {
      hide LexAll, Snap;
      GetToken();
      if IsFinal(tok) {
        r := Value(0);
      } else {
        r := Expr();
      }
      success := errpos == -1;
    }
  }

  function DigitOf(base: nat): char -> bool { if base == 16 then IsHex else IsDigit }

  lemma FoldNone(base: nat)
    ensures Fold("", base, 0) == 0
  {
  }

  lemma Advance(done: string, c: char, rest: string)
    ensures done + ([c] + rest) == done + [c] + rest
  {
  }

  lemma {:induction false} RunAtLeast(w: string, s: string, p: char -> bool)
    requires forall i :: 0 <= i < |w| ==> p(w[i])
    ensures Run(w + s, p) >= |w|
    decreases |w|
  {
  }

  lemma NamesAre(name: string, env: Env)
    ensures var t := NameToken(name, env); t.Funct? || t.Number? || t.Unknown?
  {
  }
}
