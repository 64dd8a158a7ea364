/**
 Every expression, written with the parentheses this grammar needs and any others, parses back
 to its value, or traps where it has none.  The grammar is unusual: & and | sit at the level of
 + and - but take a power on their right, unary minus binds closer than ^, and ^ associates to
 the right.
 */
module ExprRoundTrip {
  import opened ExprGrammar
  import opened Options
  import opened Words

  datatype Op = Add | Sub | Conj | Disj | Mul | Quot | Mod | Pow

  datatype Tree =
    | Num(v: word)
    | Neg(e: Tree)
    | Bin(op: Op, l: Tree, r: Tree)
    | Call(name: string, args: seq<Tree>)
    | Paren(e: Tree)                        // parentheses that were written, needed or not

  /** Calls of known functions with one to nine arguments. */
  predicate Sensible(t: Tree, env: Env) {
    match t
    case Num(_) => true
    case Neg(e) => Sensible(e, env)
    case Paren(e) => Sensible(e, env)
    case Bin(_, l, r) => Sensible(l, env) && Sensible(r, env)
    case Call(name, args) =>
      name in env.functions && 0 < |args| < MAXARGS && forall i :: 0 <= i < |args| ==> Sensible(args[i], env)
  }

  // ---------------------------------------------------------------- meaning

  function ApplyOp(op: Op, a: word, b: word): Option<word> {
    match op
    case Add => Some(Wrap(a + b))
    case Sub => Some(Wrap(a - b))
    case Conj => Some(And(a, b))
    case Disj => Some(Or32(a, b))
    case Mul => Some(Wrap(a * b))
    case Quot => if DivTraps(a, b) then None else Some(Div(a, b))
    case Mod => if DivTraps(a, b) then None else Some(Rem(a, b))
    case Pow => if Signed(b) < 0 then None else Some(Ipow(a, b))
  }

  function Both(op: Op, a: Option<word>, b: Option<word>): Option<word> {
    if a.None? || b.None? then None else ApplyOp(op, a.value, b.value)
  }

  /** The value of a tree in C's 32 bit arithmetic, where it has one. */
  function Eval(t: Tree, env: Env): Option<word> {
    match t
    case Num(v) => Some(v)
    case Neg(e) => (match Eval(e, env) case None => None case Some(v) => Some(Wrap(0 - v)))
    case Paren(e) => Eval(e, env)
    case Bin(op, l, r) => Both(op, Eval(l, env), Eval(r, env))
    case Call(name, args) =>
      (match EvalAll(args, env)
       case None => None
       case Some(vs) => Some(Apply(env, name, vs)))
  }

  function EvalAll(ts: seq<Tree>, env: Env): (r: Option<seq<word>>)
    ensures r.Some? ==> |r.value| == |ts|
  {
    if ts == [] then Some([]) else
    match Eval(ts[0], env)
    case None => None
    case Some(v) => match EvalAll(ts[1..], env) case None => None case Some(vs) => Some([v] + vs)
  }

  // ---------------------------------------------------------------- printing

  /** Grammar levels: 0 expr, 1 term, 2 power, 3 factor, 4 factor1. */
  function LevelOf(t: Tree): (l: nat)
    ensures l <= 4
  {
    match t
    case Bin(Add, _, _) => 0
    case Bin(Sub, _, _) => 0
    case Bin(Conj, _, _) => 0
    case Bin(Disj, _, _) => 0
    case Bin(Pow, _, _) => 2
    case Bin(_, _, _) => 1
    case Neg(_) => 3
    case _ => 4
  }

  function OpToken(op: Op): Token {
    match op
    case Add => Plus case Sub => Minus case Conj => BitAnd case Disj => BitOr
    case Mul => Mult case Quot => Divide case Mod => Remain case Pow => Power
  }

  function LeftLevel(op: Op): nat {
    match op
    case Pow => 3
    case Mul => 1 case Quot => 1 case Mod => 1
    case _ => 0
  }

  function RightLevel(op: Op): nat {
    match op
    case Add => 1 case Sub => 1
    case _ => 2
  }

  function Bare(t: Tree): (r: seq<Token>)
    ensures r != []
    decreases t, 0
  {
    match t
    case Num(v) => [Number(v)]
    case Neg(e) => [Minus] + Tokens(e, 4)
    case Bin(op, l, r) => Tokens(l, LeftLevel(op)) + [OpToken(op)] + Tokens(r, RightLevel(op))
    case Call(name, args) => [Funct(name), Lparen] + ArgTokens(args) + [Rparen]
    case Paren(e) => [Lparen] + Tokens(e, 0) + [Rparen]
  }

  /** A tree in a place of some level: in parentheses only if it binds less tightly. */
  function Tokens(t: Tree, level: nat): (r: seq<Token>)
    ensures r != []
    decreases t, 1
  {
    if LevelOf(t) < level then [Lparen] + Bare(t) + [Rparen] else Bare(t)
  }

  function ArgTokens(ts: seq<Tree>): seq<Token>
    decreases ts, 0
  {
    if ts == [] then []
    else if |ts| == 1 then Tokens(ts[0], 0)
    else Tokens(ts[0], 0) + [Comma] + ArgTokens(ts[1..])
  }

  // ---------------------------------------------------------------- parsing back

  function ParseAt(level: nat, c: Cursor, env: Env): Result {
    match level
    case 0 => Expr(c, env)
    case 1 => Term(c, env)
    case 2 => PowerOf(c, env)
    case 3 => Factor(c, env)
    case _ => Factor1(c, env)
  }

  /** What the parser does at a level once it holds a value and looks at the next token. */
  function GoOn(level: nat, c: Cursor, v: word, env: Env): Result {
    match level
    case 0 => ExprLoop(c, v, env)
    case 1 => TermLoop(c, v, env)
    case _ => At(c, v)
  }

  /** Tokens that may follow a complete operand of a level. */
  predicate Follows(level: nat, t: Token) {
    && t in {Plus, Minus, Divide, Mult, Remain, Power, BitAnd, BitOr, Rparen, Comma, Eol}
    && (level <= 2 ==> !t.Power?)
    && (level == 0 ==> !t.Mult? && !t.Divide? && !t.Remain?)
  }

  /** The cursor on a tree's tokens followed by others ends on the others, or the parse traps
      where the tree has no value. */
  ghost predicate ParsesTo(
      level: nat, toks: seq<Token>, ival: word, err: bool, k: seq<Token>, v: Option<word>, env: Env, j: word)
  {
    ParseAt(level, Stand(toks + k, ival, err), env)
    == if v.None? then Trap else GoOn(level, Stand(k, j, err), v.value, env)
  }

  /** One level up, nothing happens to an operand whose follower does not continue it. */
  lemma Rise(level: nat, toks: seq<Token>, v: Option<word>, ival: word, err: bool, k: seq<Token>, env: Env, j: word)
    requires level < 4 && toks != [] && !IsFinal(toks[0]) && (level == 3 ==> !toks[0].Minus?)
    requires k != [] && Follows(level, k[0])
    requires ParsesTo(level + 1, toks, ival, err, k, v, env, j)
    ensures ParsesTo(level, toks, ival, err, k, v, env, j)
  {
    hide Stand, And, Or32, Div, Rem, Ipow, Factor1;
    StandsOn(toks + k, ival, err);
    StandsOn(k, j, err);
  }

  lemma StandsOn(toks: seq<Token>, ival: word, err: bool)
    requires toks != []
    ensures Stand(toks, ival, err).Cur() == toks[0]
  {
  }

  lemma FirstToken(t: Tree)
    ensures !IsFinal(Bare(t)[0]) && !Bare(t)[0].Rparen? && !Bare(t)[0].Comma?
    ensures LevelOf(t) == 4 ==> !Bare(t)[0].Minus?
    decreases t
  {
  }

  /** An operator between operands that parse, by the level the operator lives at. */
  lemma ParsesSum(op: Op, lt: seq<Token>, rt: seq<Token>, ival: word, err: bool, k: seq<Token>, env: Env,
                  a: Option<word>, b: Option<word>, i: word, j: word)
    requires op in {Add, Sub} && lt != [] && k != [] && Follows(0, k[0])
    requires ParsesTo(0, lt, ival, err, [OpToken(op)] + rt + k, a, env, i)
    requires a.Some? ==> ParsesTo(1, rt, i, err, k, b, env, j)
    ensures ParsesTo(0, lt + [OpToken(op)] + rt, ival, err, k, Both(op, a, b), env, j)
  {
    hide And, Or32;
    var k0 := [OpToken(op)] + rt + k;
    assert lt + [OpToken(op)] + rt + k == lt + k0;
    assert k0[1..] == rt + k;
  }

  lemma ParsesBits(op: Op, lt: seq<Token>, rt: seq<Token>, ival: word, err: bool, k: seq<Token>, env: Env,
                   a: Option<word>, b: Option<word>, i: word, j: word)
    requires op in {Conj, Disj} && lt != [] && k != []
    requires ParsesTo(0, lt, ival, err, [OpToken(op)] + rt + k, a, env, i)
    requires a.Some? ==> ParsesTo(2, rt, i, err, k, b, env, j)
    ensures ParsesTo(0, lt + [OpToken(op)] + rt, ival, err, k, Both(op, a, b), env, j)
  {
    hide And, Or32;
    var k0 := [OpToken(op)] + rt + k;
    assert lt + [OpToken(op)] + rt + k == lt + k0;
    assert k0[1..] == rt + k;
  }

  lemma ParsesProduct(op: Op, lt: seq<Token>, rt: seq<Token>, ival: word, err: bool, k: seq<Token>, env: Env,
                      a: Option<word>, b: Option<word>, i: word, j: word)
    requires op in {Mul, Quot, Mod} && lt != [] && k != []
    requires ParsesTo(1, lt, ival, err, [OpToken(op)] + rt + k, a, env, i)
    requires a.Some? ==> ParsesTo(2, rt, i, err, k, b, env, j)
    ensures ParsesTo(1, lt + [OpToken(op)] + rt, ival, err, k, Both(op, a, b), env, j)
  {
    hide Div, Rem;
    var k0 := [OpToken(op)] + rt + k;
    assert lt + [OpToken(op)] + rt + k == lt + k0;
    assert k0[1..] == rt + k;
  }

  lemma ParsesPower(lt: seq<Token>, rt: seq<Token>, ival: word, err: bool, k: seq<Token>, env: Env,
                    a: Option<word>, b: Option<word>, i: word, j: word)
    requires lt != [] && !IsFinal(lt[0]) && k != []
    requires ParsesTo(3, lt, ival, err, [Power] + rt + k, a, env, i)
    requires a.Some? ==> ParsesTo(2, rt, i, err, k, b, env, j)
    ensures ParsesTo(2, lt + [Power] + rt, ival, err, k, Both(Pow, a, b), env, j)
  {
    hide Ipow;
    var k0 := [Power] + rt + k;
    assert lt + [Power] + rt + k == lt + k0;
    assert k0[1..] == rt + k;
  }

  lemma TokensStart(t: Tree, level: nat)
    ensures !IsFinal(Tokens(t, level)[0]) && (level == 4 ==> !Tokens(t, level)[0].Minus?)
  {
    FirstToken(t);
  }

  lemma {:induction false} ParsesBin(t: Tree, ival: word, err: bool, k: seq<Token>, env: Env) returns (j: word)
    requires t.Bin? && Sensible(t, env) && k != [] && Follows(LevelOf(t), k[0])
    ensures ParsesTo(LevelOf(t), Bare(t), ival, err, k, Eval(t, env), env, j)
    decreases t, 0, 0
  {
    hide ParsesTo, ApplyOp, Both;
    var Bin(op, l, r) := t;
    var a, b := Eval(l, env), Eval(r, env);
    var lt, rt := Tokens(l, LeftLevel(op)), Tokens(r, RightLevel(op));
    var k0 := [OpToken(op)] + rt + k;
    TokensStart(l, LeftLevel(op));
    var i := ParsesIn(l, LeftLevel(op), ival, err, k0, env);
    j := ParsesIn(r, RightLevel(op), i, err, k, env);
    assert Bare(t) == lt + [OpToken(op)] + rt;
    CombineBin(op, lt, rt, ival, err, k, env, a, b, i, j);
  }

  lemma CombineBin(op: Op, lt: seq<Token>, rt: seq<Token>, ival: word, err: bool, k: seq<Token>, env: Env,
                   a: Option<word>, b: Option<word>, i: word, j: word)
    requires lt != [] && !IsFinal(lt[0]) && k != [] && Follows(LevelOf(Bin(op, Num(0), Num(0))), k[0])
    requires ParsesTo(LeftLevel(op), lt, ival, err, [OpToken(op)] + rt + k, a, env, i)
    requires a.Some? ==> ParsesTo(RightLevel(op), rt, i, err, k, b, env, j)
    ensures ParsesTo(LevelOf(Bin(op, Num(0), Num(0))), lt + [OpToken(op)] + rt, ival, err, k, Both(op, a, b), env, j)
  {
    hide ParsesTo, Both;
    match op
    case Add => ParsesSum(op, lt, rt, ival, err, k, env, a, b, i, j);
    case Sub => ParsesSum(op, lt, rt, ival, err, k, env, a, b, i, j);
    case Conj => ParsesBits(op, lt, rt, ival, err, k, env, a, b, i, j);
    case Disj => ParsesBits(op, lt, rt, ival, err, k, env, a, b, i, j);
    case Pow => ParsesPower(lt, rt, ival, err, k, env, a, b, i, j);
    case _ => ParsesProduct(op, lt, rt, ival, err, k, env, a, b, i, j);
  }

  /** What may follow a part of a tree. */
  lemma SomethingFollows(t: Tree, k: seq<Token>)
    requires k != [] && Follows(LevelOf(t), k[0])
    ensures Follows(4, k[0]) && Follows(0, Rparen) && ([Rparen] + k)[0] == Rparen
  {
  }

  lemma {:induction false} ParsesBare(t: Tree, ival: word, err: bool, k: seq<Token>, env: Env) returns (j: word)
    requires Sensible(t, env) && k != [] && Follows(LevelOf(t), k[0])
    ensures ParsesTo(LevelOf(t), Bare(t), ival, err, k, Eval(t, env), env, j)
    decreases t, 0, 1
  {
    hide ParsesTo, ArgumentsTo, Both, Apply, Tokens, ArgTokens, EvalAll, Follows;
    SomethingFollows(t, k);
    match t
    case Num(v) =>
      j := v;
      ParsesNumber(v, ival, err, k, env);
    case Neg(e) =>
      j := ParsesIn(e, 4, ival, err, k, env);
      TokensStart(e, 4);
      ParsesNegation(Tokens(e, 4), Eval(e, env), ival, err, k, env, j);
    case Paren(e) =>
      j := ParsesIn(e, 0, ival, err, [Rparen] + k, env);
      TokensStart(e, 0);
      ParsesGroup(Tokens(e, 0), Eval(e, env), ival, err, k, env, j);
    case Bin(_, _, _) =>
      j := ParsesBin(t, ival, err, k, env);
    case Call(name, args) =>
      j := ParsesArguments(args, [], name, ival, err, k, env);
      ArgsStart(args);
      ParsesCall(name, ArgTokens(args), EvalAll(args, env), ival, err, k, env, j) by {
        assert Sep([]) + ArgTokens(args) + [Rparen] + k == ArgTokens(args) + [Rparen] + k;
      }
  }

  lemma ParsesNumber(v: word, ival: word, err: bool, k: seq<Token>, env: Env)
    requires k != [] && Follows(4, k[0])
    ensures ParsesTo(4, [Number(v)], ival, err, k, Some(v), env, v)
  {
  }

  lemma ParsesNegation(toks: seq<Token>, a: Option<word>, ival: word, err: bool, k: seq<Token>, env: Env, j: word)
    requires toks != [] && k != [] && ParsesTo(4, toks, ival, err, k, a, env, j)
    ensures ParsesTo(3, [Minus] + toks, ival, err, k, if a.None? then None else Some(Wrap(0 - a.value)), env, j)
  {
    hide Factor1;
    assert [Minus] + toks + k == [Minus] + (toks + k);
  }

  lemma ParsesGroup(toks: seq<Token>, a: Option<word>, ival: word, err: bool, k: seq<Token>, env: Env, j: word)
    requires toks != [] && k != [] && ParsesTo(0, toks, ival, err, [Rparen] + k, a, env, j)
    ensures ParsesTo(4, [Lparen] + toks + [Rparen], ival, err, k, a, env, j)
  {
    hide Expr, Stand;
    var inner := toks + ([Rparen] + k);
    assert [Lparen] + toks + [Rparen] + k == [Lparen] + inner;
    StandsBefore(Lparen, inner, ival, err);
    StandsBefore(Rparen, k, j, err);
  }

  lemma StandsBefore(t: Token, k: seq<Token>, ival: word, err: bool)
    requires !t.Number? && !IsError(t)
    ensures Stand([t] + k, ival, err).Cur() == t && Next(Stand([t] + k, ival, err)) == Stand(k, ival, err)
  {
    assert ([t] + k)[1..] == k;
  }

  lemma StandsInside(name: string, k: seq<Token>, ival: word, err: bool)
    ensures var c := Stand([Funct(name), Lparen] + k, ival, err);
      && c.Cur() == Funct(name) && c.toks != []
      && Next(c).Cur() == Lparen && Next(c).toks != [] && Next(Next(c)) == Stand(k, ival, err)
  {
    assert ([Funct(name), Lparen] + k)[1..] == [Lparen] + k;
    assert ([Lparen] + k)[1..] == k;
  }

  lemma ParsesCall(name: string, ats: seq<Token>, vs: Option<seq<word>>, ival: word, err: bool, k: seq<Token>,
                   env: Env, j: word)
    requires ats != [] && !IsFinal(ats[0]) && !ats[0].Rparen?
    requires ArgumentsTo(ats + [Rparen] + k, [], name, ival, err, k, vs, env, j)
    ensures ParsesTo(4, [Funct(name), Lparen] + ats + [Rparen], ival, err, k,
      if vs.None? then None else Some(Apply(env, name, vs.value)), env, j)
  {
    hide Arguments, Expr, Apply, Stand, Next;
    var k1 := ats + [Rparen] + k;
    assert [Funct(name), Lparen] + ats + [Rparen] + k == [Funct(name), Lparen] + k1;
    StandsInside(name, k1, ival, err);
    StandsOn(k1, ival, err);
    if vs.Some? { assert [] + vs.value == vs.value; }
  }

  lemma ArgsStart(args: seq<Tree>)
    requires args != []
    ensures ArgTokens(args) != [] && !IsFinal(ArgTokens(args)[0]) && !ArgTokens(args)[0].Rparen?
    ensures !IsFinal(Tokens(args[0], 0)[0]) && !Tokens(args[0], 0)[0].Comma?
  {
    FirstToken(args[0]);
  }

  function MoreArgs(args: seq<Tree>): seq<Token>
    requires args != []
  {
    if |args| == 1 then [] else [Comma] + ArgTokens(args[1..])
  }

  /** What follows the first argument of a call. */
  function AfterArg(args: seq<Tree>, k: seq<Token>): (r: seq<Token>)
    requires args != []
    ensures r != [] && r[0] == if |args| == 1 then Rparen else Comma
  {
    MoreArgs(args) + [Rparen] + k
  }

  function Sep(params: seq<word>): seq<Token> { if params == [] then [] else [Comma] }

  lemma FirstAndMore(args: seq<Tree>)
    requires args != []
    ensures ArgTokens(args) == Tokens(args[0], 0) + MoreArgs(args)
  {
    hide Tokens;
  }

  lemma ArgsSplit(args: seq<Tree>, params: seq<word>, k: seq<Token>)
    requires args != []
    ensures Sep(params) + ArgTokens(args) + [Rparen] + k == Sep(params) + Tokens(args[0], 0) + AfterArg(args, k)
  {
    hide Tokens, ArgTokens, MoreArgs, Sep;
    FirstAndMore(args);
    Regroups(Sep(params), Tokens(args[0], 0), MoreArgs(args), [Rparen], k);
  }

  lemma Regroups(a: seq<Token>, b: seq<Token>, c: seq<Token>, d: seq<Token>, e: seq<Token>)
    ensures a + (b + c) + d + e == a + b + (c + d + e)
  {
  }

  /** The argument loop takes all the arguments and the closing parenthesis, or traps. */
  ghost predicate ArgumentsTo(toks: seq<Token>, params: seq<word>, name: string, ival: word, err: bool, k: seq<Token>,
                              vs: Option<seq<word>>, env: Env, j: word)
  {
    Arguments(Stand(toks, ival, err), name, params, env)
    == if vs.None? then Trap else At(Stand(k, j, err), Apply(env, name, params + vs.value))
  }

  lemma {:induction false} ParsesArguments(
      args: seq<Tree>, params: seq<word>, name: string, ival: word, err: bool, k: seq<Token>, env: Env)
    returns (j: word)
    requires args != [] && |params| + |args| < MAXARGS && forall i :: 0 <= i < |args| ==> Sensible(args[i], env)
    ensures ArgumentsTo(Sep(params) + ArgTokens(args) + [Rparen] + k, params, name, ival, err, k,
                        EvalAll(args, env), env, j)
    decreases args, 0, 0
  {
    hide ParsesTo, Arguments, Expr, Tokens, Eval, Apply, Stand, ArgTokens, Sensible, Close;
    var v, rest := Eval(args[0], env), AfterArg(args, k);
    j := ParsesIn(args[0], 0, ival, err, rest, env);
    ArgsStart(args);
    ArgsSplit(args, params, k);
    TakesArgument(Tokens(args[0], 0), params, name, ival, err, rest, env, v, j);
    if v.Some? {
      var all := params + [v.value];
      if |args| == 1 {
        assert EvalAll(args[1..], env) == Some([]);
        assert rest == [Rparen] + k;
        assert all == params + ([v.value] + []);
        Closes(k, j, err, Apply(env, name, all));
      } else {
        assert rest == Sep(all) + ArgTokens(args[1..]) + [Rparen] + k;
        j := ParsesArguments(args[1..], all, name, j, err, k, env);
        var vs := EvalAll(args[1..], env);
        if vs.Some? { assert all + vs.value == params + ([v.value] + vs.value); }
      }
    }
  }

  lemma Closes(k: seq<Token>, ival: word, err: bool, v: word)
    ensures Close(Stand([Rparen] + k, ival, err), v) == At(Stand(k, ival, err), v)
  {
  }

  /** Over the comma before an argument. */
  lemma ArgumentStarts(at: seq<Token>, params: seq<word>, ival: word, err: bool, rest: seq<Token>)
    requires at != [] && !IsFinal(at[0]) && !at[0].Comma?
    ensures var c := Stand(Sep(params) + at + rest, ival, err);
      && !IsFinal(c.Cur()) && c.toks != []
      && (if params != [] && c.Cur().Comma? then Next(c) else c) == Stand(at + rest, ival, err)
  {
    var toks := Sep(params) + at + rest;
    if params == [] {
      assert toks == at + rest;
    } else {
      assert toks[1..] == at + rest;
    }
  }

  /** One turn of the argument loop. */
  lemma TakesArgument(at: seq<Token>, params: seq<word>, name: string, ival: word, err: bool, rest: seq<Token>,
                      env: Env, v: Option<word>, i: word)
    requires at != [] && !IsFinal(at[0]) && !at[0].Comma? && rest != [] && |params| + 1 < MAXARGS
    requires ParsesTo(0, at, ival, err, rest, v, env, i) && (rest[0].Comma? || rest[0].Rparen?)
    ensures Arguments(Stand(Sep(params) + at + rest, ival, err), name, params, env)
      == if v.None? then Trap
         else if rest[0].Comma? then Arguments(Stand(rest, i, err), name, params + [v.value], env)
         else Close(Stand(rest, i, err), Apply(env, name, params + [v.value]))
  {
    hide Apply, Expr, Stand, Close;
    ArgumentStarts(at, params, ival, err, rest);
    StandsOn(rest, i, err);
  }

  lemma {:induction false} Climbs(t: Tree, level: nat, ival: word, err: bool, k: seq<Token>, env: Env) returns (j: word)
    requires Sensible(t, env) && k != [] && level <= LevelOf(t) && Follows(level, k[0])
    ensures ParsesTo(level, Bare(t), ival, err, k, Eval(t, env), env, j)
    decreases t, 1, LevelOf(t) - level
  {
    hide ParsesTo, Eval;
    if level == LevelOf(t) {
      j := ParsesBare(t, ival, err, k, env);
    } else {
      j := Climbs(t, level + 1, ival, err, k, env);
      FirstToken(t);
      Rise(level, Bare(t), Eval(t, env), ival, err, k, env, j);
    }
  }

  /** From factor1 down to any level, for an operand that starts like one. */
  lemma {:induction false} Descends(
      level: nat, toks: seq<Token>, v: Option<word>, ival: word, err: bool, k: seq<Token>, env: Env, j: word)
    requires level <= 4 && toks != [] && !IsFinal(toks[0]) && !toks[0].Minus? && k != [] && Follows(level, k[0])
    requires ParsesTo(4, toks, ival, err, k, v, env, j)
    ensures ParsesTo(level, toks, ival, err, k, v, env, j)
    decreases 4 - level
  {
    hide ParsesTo;
    if level < 4 {
      Descends(level + 1, toks, v, ival, err, k, env, j);
      Rise(level, toks, v, ival, err, k, env, j);
    }
  }

  lemma {:induction false} ParsesIn(t: Tree, level: nat, ival: word, err: bool, k: seq<Token>, env: Env)
    returns (j: word)
    requires Sensible(t, env) && k != [] && level <= 4 && Follows(level, k[0])
    ensures ParsesTo(level, Tokens(t, level), ival, err, k, Eval(t, env), env, j)
    decreases t, 2, 0
  {
    hide ParsesTo, Eval;
    if LevelOf(t) >= level {
      j := Climbs(t, level, ival, err, k, env);
    } else {
      j := Climbs(t, 0, ival, err, [Rparen] + k, env);
      ParsesGroup(Bare(t), Eval(t, env), ival, err, k, env, j);
      Descends(level, Tokens(t, level), Eval(t, env), ival, err, k, env, j);
    }
  }

  /** The round trip: any sensible expression, printed with the parentheses it needs and those
      that were written, is parsed to the end, without an error, to its value; or it traps,
      exactly where it has none. */
  lemma PrintedTreesParseBack(t: Tree, ival: word, env: Env) returns (j: word)
    requires Sensible(t, env)
    ensures Parse(Tokens(t, 0) + [Eol], ival, env)
      == if Eval(t, env).None? then Trap else At(Stand([Eol], j, false), Eval(t, env).value)
  {
    hide Eval;
    j := ParsesIn(t, 0, ival, false, [Eol], env);
    TokensStart(t, 0);
  }

  // ---------------------------------------------------------------- two silent failures

  /** A parenthesis left open at the end of the input loses the value of what is inside, and
      no error is recorded. */
  lemma UnclosedValueIsLost(t: Tree, ival: word, env: Env) returns (j: word)
    requires Sensible(t, env) && Eval(t, env).Some?
    ensures Parse([Lparen] + Tokens(t, 0) + [Eol], ival, env) == At(Stand([Eol], j, false), 0)
  {
    hide ParsesTo, Tokens;
    j := ParsesIn(t, 0, ival, false, [Eol], env);
    TokensStart(t, 0);
    OpenParenthesis(Tokens(t, 0), Eval(t, env).value, ival, env, j);
  }

  lemma OpenParenthesis(toks: seq<Token>, v: word, ival: word, env: Env, j: word)
    requires toks != [] && !IsFinal(toks[0]) && ParsesTo(0, toks, ival, false, [Eol], Some(v), env, j)
    ensures Parse([Lparen] + toks + [Eol], ival, env) == At(Stand([Eol], j, false), 0)
  {
    var c := Stand([Lparen] + toks + [Eol], ival, false);
    assert c.toks[1..] == toks + [Eol];
    var d := Stand([Eol], j, false);
    assert Factor1(c, env) == At(d, 0);
    AtomParses(c, d, 0, env);
  }

  /** A whole input that is one factor1 and a token no level continues from. */
  lemma AtomParses(c: Cursor, d: Cursor, v: word, env: Env)
    requires !IsFinal(c.Cur()) && !c.Cur().Minus? && Factor1(c, env) == At(d, v)
    requires d.Cur() !in {Plus, Minus, Divide, Mult, Remain, Power, BitAnd, BitOr}
    ensures Expr(c, env) == At(d, v)
  {
    assert Factor(c, env) == At(d, v);
    assert PowerOf(c, env) == At(d, v);
    assert Term(c, env) == At(d, v);
  }

  /** Of two numbers with nothing between them the second is the value, and no error is
      recorded: a number's value is taken after the next token has been scanned. */
  lemma SecondNumberWins(a: word, b: word, k: seq<Token>, ival: word, env: Env)
    ensures Parse([Number(a), Number(b)] + k, ival, env) == At(Stand([Number(b)] + k, b, false), b)
  {
    var c := Stand([Number(a), Number(b)] + k, ival, false);
    assert c.toks[1..] == [Number(b)] + k;
    AtomParses(c, Next(c), b, env);
  }
}
