/**
 What the parser of eagletests/eagletest/exprparse.c makes of input that stops where an operand
 belongs: a missing operand is zero and no error, and the tenth argument of a call is one.
 */
module ExprPartial {
  import opened ExprGrammar
  import opened ExprRoundTrip
  import opened Options
  import opened Words

  /** Nothing in the place of an operand. */
  lemma NothingIsZero(level: nat, ival: word, err: bool, env: Env)
    requires level <= 4
    ensures ParsesTo(level, [], ival, err, [Eol], Some(0), env, ival)
  {
    assert [] + [Eol] == [Eol];
  }

  lemma RisesTo0(level: nat, toks: seq<Token>, v: Option<word>, ival: word, err: bool, env: Env, j: word)
    requires level <= 2 && toks != [] && !IsFinal(toks[0])
    requires ParsesTo(level, toks, ival, err, [Eol], v, env, j)
    ensures ParsesTo(0, toks, ival, err, [Eol], v, env, j)
  {
    hide ParsesTo;
    if level == 2 { Rise(1, toks, v, ival, err, [Eol], env, j); }
    if level >= 1 { Rise(0, toks, v, ival, err, [Eol], env, j); }
  }

  /** An expression with an operator behind it and then nothing has the value of that operation with
      zero, or traps where that has none; no error is recorded. */
  lemma MissingOperand(t: Tree, op: Op, ival: word, env: Env) returns (j: word)
    requires Sensible(t, env)
    ensures var toks := Tokens(t, LeftLevel(op)) + [OpToken(op)];
      var v := if Eval(t, env).None? then None else ApplyOp(op, Eval(t, env).value, 0);
      Parse(toks + [Eol], ival, env) == if v.None? then Trap else At(Cursor([Eol], j, false), v.value)
  {
    hide ParsesTo, ApplyOp;
    var lt := Tokens(t, LeftLevel(op));
    TokensStart(t, LeftLevel(op));
    assert [OpToken(op)] + [] + [Eol] == [OpToken(op), Eol];
    j := ParsesIn(t, LeftLevel(op), ival, false, [OpToken(op), Eol], env);
    NothingIsZero(RightLevel(op), j, false, env);
    CombineBin(op, lt, [], ival, false, [Eol], env, Eval(t, env), Some(0), j, j);
    assert lt + [OpToken(op)] + [] == lt + [OpToken(op)];
    var v := Both(op, Eval(t, env), Some(0));
    RisesTo0(LevelOf(Bin(op, Num(0), Num(0))), lt + [OpToken(op)], v, ival, false, env, j);
    EndsThere(lt + [OpToken(op)], v, ival, env, j);
  }

  lemma EndsThere(toks: seq<Token>, v: Option<word>, ival: word, env: Env, j: word)
    requires toks != [] && !IsFinal(toks[0]) && ParsesTo(0, toks, ival, false, [Eol], v, env, j)
    ensures Parse(toks + [Eol], ival, env) == if v.None? then Trap else At(Cursor([Eol], j, false), v.value)
  {
    hide Expr;
    StandsOn(toks + [Eol], ival, false);
  }

  /** What a factor that ends the input comes to. */
  lemma FactorEnds(c: Cursor, v: word, ival: word, env: Env)
    requires !IsFinal(c.Cur()) && Factor(c, env) == At(Cursor([Eol], ival, false), v)
    ensures Expr(c, env) == At(Cursor([Eol], ival, false), v)
  {
    hide Factor;
    assert PowerOf(c, env) == At(Cursor([Eol], ival, false), v);
    hide PowerOf;
    assert Term(c, env) == At(Cursor([Eol], ival, false), v);
  }

  lemma SecondStands(a: Token, rest: seq<Token>, ival: word)
    requires rest != [] && !a.Number? && !IsError(a)
    ensures Next(Stand([a] + rest, ival, false)) == Stand(rest, ival, false)
    ensures Stand([a] + rest, ival, false).Cur() == a
  {
    assert ([a] + rest)[1..] == rest;
  }

  /** A minus sign, an open parenthesis or an open call with nothing behind it is zero and no
      error. */
  lemma UnfinishedIsZero(name: string, ival: word, env: Env)
    ensures var zero := At(Cursor([Eol], ival, false), 0);
      && Parse([Eol], ival, env) == zero
      && Parse([Minus] + [Eol], ival, env) == zero
      && Parse([Lparen] + [Eol], ival, env) == zero
      && Parse([Funct(name)] + [Eol], ival, env) == zero
      && Parse([Funct(name)] + ([Lparen] + [Eol]), ival, env) == zero
  {
    hide Expr, Stand, Next;
    var end := Cursor([Eol], ival, false);
    assert Stand([Eol], ival, false) == end by { EndStands(ival); }
    forall x: Token | x == Minus || x == Lparen || x == Funct(name)
      ensures Parse([x] + [Eol], ival, env) == At(end, 0)
    {
      SecondStands(x, [Eol], ival);
      var c := Stand([x] + [Eol], ival, false);
      NothingGiven(end, env);
      FactorEnds(c, 0, ival, env);
    }
    SecondStands(Funct(name), [Lparen] + [Eol], ival);
    SecondStands(Lparen, [Eol], ival);
    var c := Stand([Funct(name)] + ([Lparen] + [Eol]), ival, false);
    assert Arguments(end, name, [], env) == At(end, 0);
    assert Factor1(c, env) == At(end, 0);
    FactorEnds(c, 0, ival, env);
  }

  lemma EndStands(ival: word)
    ensures Stand([Eol], ival, false) == Cursor([Eol], ival, false)
  {
  }

  lemma NothingGiven(end: Cursor, env: Env)
    requires end.Cur().Eol?
    ensures Expr(end, env) == Factor1(end, env) == At(end, 0)
  {
  }

  /** A function name that something other than a parenthesis follows is an error and zero. */
  lemma NameAlone(name: string, t: Token, ival: word, env: Env)
    requires !IsFinal(t) && !t.Lparen?
    ensures Factor1(Stand([Funct(name)] + [t, Eol], ival, false), env)
      == At(Cursor([t, Eol], if t.Number? then t.v else ival, true), 0)
  {
    assert ([Funct(name)] + [t, Eol])[1..] == [t, Eol];
  }

  /** With nine arguments read a further one ends the call with an error and the value zero. */
  lemma TenthArgument(t: Tree, params: seq<word>, name: string, ival: word, k: seq<Token>, env: Env) returns (j: word)
    requires |params| == 9 && Sensible(t, env) && k != [] && (k[0].Comma? || k[0].Rparen?)
    ensures Arguments(Stand(Sep(params) + Tokens(t, 0) + k, ival, false), name, params, env)
      == if Eval(t, env).None? then Trap else At(Stand(k, j, false).(err := true), 0)
  {
    hide ParsesTo, Tokens, Expr, Eval, Stand, Sensible;
    j := ParsesIn(t, 0, ival, false, k, env);
    TokensStart(t, 0);
    NoComma(t);
    ArgumentStarts(Tokens(t, 0), params, ival, false, k);
    OperandParses(Tokens(t, 0), Eval(t, env), ival, k, env, j);
  }

  lemma NoComma(t: Tree)
    ensures !Tokens(t, 0)[0].Comma?
  {
    FirstToken(t);
  }

  lemma OperandParses(toks: seq<Token>, v: Option<word>, ival: word, k: seq<Token>, env: Env, j: word)
    requires k != [] && (k[0].Comma? || k[0].Rparen?) && ParsesTo(0, toks, ival, false, k, v, env, j)
    ensures Expr(Stand(toks + k, ival, false), env)
      == if v.None? then Trap else At(Stand(k, j, false), v.value)
  {
    hide Expr;
    StandsOn(k, j, false);
  }

  /** So a call takes up to nine arguments and a tenth is an error. */
  lemma {:induction false} TooManyArguments(args: seq<Tree>, params: seq<word>, name: string, ival: word,
                                            k: seq<Token>, env: Env) returns (j: word, rest: seq<Token>)
    requires args != [] && |params| + |args| == 10
    requires forall i :: 0 <= i < |args| ==> Sensible(args[i], env) && Eval(args[i], env).Some?
    ensures Arguments(Stand(Sep(params) + ArgTokens(args) + [Rparen] + k, ival, false), name, params, env)
      == At(Cursor([Rparen] + k, j, true), 0)
    decreases |args|
  {
    hide ParsesTo, Arguments, Expr, Tokens, Eval, Apply, ArgTokens, Sensible, Close;
    var v := Eval(args[0], env);
    rest := AfterArg(args, k);
    ArgsSplit(args, params, k);
    if |args| == 1 {
      j := TenthArgument(args[0], params, name, ival, rest, env);
      assert rest == [Rparen] + k;
    } else {
      j := ParsesIn(args[0], 0, ival, false, rest, env);
      ArgsStart(args);
      TakesArgument(Tokens(args[0], 0), params, name, ival, false, rest, env, v, j);
      var all := params + [v.value];
      assert rest == Sep(all) + ArgTokens(args[1..]) + [Rparen] + k;
      j, rest := TooManyArguments(args[1..], all, name, j, k, env);
    }
  }

  lemma NineAreSensible(name: string, args: seq<Tree>, env: Env)
    requires name in env.functions && 1 <= |args| <= 9 && forall i :: 0 <= i < |args| ==> Sensible(args[i], env)
    ensures Sensible(Call(name, args), env)
  {
  }
}
