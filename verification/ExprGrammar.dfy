/**
 The expression parser of eagletests/eagletest/exprparse.c over a stream of tokens: the same
 functions, branch by branch.  `ExprLexer` makes the stream from characters, and class
 `ExprParser.Parser` reads it lazily from the string while it parses.
 */
module ExprGrammar {
  import opened Words

  const MAXARGS: nat := 10

  datatype Token =
    | Plus | Minus | Divide | Mult | Remain | Power | BitAnd | BitOr
    | Lparen | Rparen | Comma | Eol
    | Number(v: word)
    | Funct(name: string)
    | BadChar             // an error the scanner does not record
    | TooLong             // a name over the limit
    | Unknown(v: word)    // a name without a value, or with a negative one

  type Function = seq<word> -> word

  datatype Env = Env(symbols: map<string, word>, functions: map<string, Function>)

  predicate IsError(t: Token) { t.BadChar? || t.TooLong? || t.Unknown? }

  predicate IsFinal(t: Token) { t.Eol? || IsError(t) }

  /** The rest of the stream with the current token first, the last value scanned, and
      whether an error position was recorded. */
  datatype Cursor = Cursor(toks: seq<Token>, ival: word, err: bool)
  {
    function Cur(): Token { if toks == [] then Eol else toks[0] }
  }

  /** A cursor standing on the first of some tokens: what scanning that token does. */
  function Stand(toks: seq<Token>, ival: word, err: bool): (c: Cursor)
    ensures c.toks == toks
  {
    var t := if toks == [] then Eol else toks[0];
    Cursor(toks, if t.Number? || t.Unknown? then t.v else ival, err || t.TooLong? || t.Unknown?)
  }

  function Next(c: Cursor): (r: Cursor)
    requires c.toks != []
    ensures |r.toks| < |c.toks|
  {
    Stand(c.toks[1..], c.ival, c.err)
  }

  /** A value, or an operation C leaves undefined or never finishes: a division by zero, the
      quotient of the least integer by -1, a power with a negative exponent. */
  datatype Result = At(c: Cursor, v: word) | Trap

  function Ipow(base: word, exp: nat): word { if exp == 0 then 1 else Wrap(base * Ipow(base, exp - 1)) }

  predicate DivTraps(a: word, b: word) { b == 0 || (Signed(a) == -0x8000_0000 && Signed(b) == -1) }

  function Div(a: word, b: word): word
    requires !DivTraps(a, b)
  {
    Wrap(Quotient(Signed(a), Signed(b)))
  }

  function Rem(a: word, b: word): word
    requires !DivTraps(a, b)
  {
    Wrap(Remainder(Signed(a), Signed(b)))
  }

  function Expr(c: Cursor, env: Env): (r: Result)
    ensures r.At? ==> |r.c.toks| <= |c.toks|
    decreases |c.toks|, 5
  {
    if IsFinal(c.Cur()) then At(c, 0) else
    match Term(c, env)
    case Trap => Trap
    case At(d, v) => ExprLoop(d, v, env)
  }

  function ExprLoop(c: Cursor, acc: word, env: Env): (r: Result)
    ensures r.At? ==> |r.c.toks| <= |c.toks|
    decreases |c.toks|, 0
  {
    match c.Cur()
    case Plus => (match Term(Next(c), env) case Trap => Trap case At(d, v) => ExprLoop(d, Wrap(acc + v), env))
    case Minus => (match Term(Next(c), env) case Trap => Trap case At(d, v) => ExprLoop(d, Wrap(acc - v), env))
    case BitAnd => (match PowerOf(Next(c), env) case Trap => Trap case At(d, v) => ExprLoop(d, And(acc, v), env))
    case BitOr => (match PowerOf(Next(c), env) case Trap => Trap case At(d, v) => ExprLoop(d, Or32(acc, v), env))
    case _ => At(c, acc)
  }

  function Term(c: Cursor, env: Env): (r: Result)
    ensures r.At? ==> |r.c.toks| <= |c.toks|
    decreases |c.toks|, 4
  {
    if IsFinal(c.Cur()) then At(c, 0) else
    match PowerOf(c, env)
    case Trap => Trap
    case At(d, v) => TermLoop(d, v, env)
  }

  function TermLoop(c: Cursor, acc: word, env: Env): (r: Result)
    ensures r.At? ==> |r.c.toks| <= |c.toks|
    decreases |c.toks|, 0
  {
    match c.Cur()
    case Mult =>
      (match PowerOf(Next(c), env) case Trap => Trap case At(d, v) => TermLoop(d, Wrap(acc * v), env))
    case Divide =>
      (match PowerOf(Next(c), env) case Trap => Trap
       case At(d, v) => if DivTraps(acc, v) then Trap else TermLoop(d, Div(acc, v), env))
    case Remain =>
      (match PowerOf(Next(c), env) case Trap => Trap
       case At(d, v) => if DivTraps(acc, v) then Trap else TermLoop(d, Rem(acc, v), env))
    case _ => At(c, acc)
  }

  function PowerOf(c: Cursor, env: Env): (r: Result)
    ensures r.At? ==> |r.c.toks| <= |c.toks|
    decreases |c.toks|, 3
  {
    if IsFinal(c.Cur()) then At(c, 0) else
    match Factor(c, env)
    case Trap => Trap
    case At(d, base) =>
      if d.Cur().Power? then
        match PowerOf(Next(d), env)
        case Trap => Trap
        case At(e, exp) => if Signed(exp) < 0 then Trap else At(e, Ipow(base, exp))
      else At(d, base)
  }

  function Factor(c: Cursor, env: Env): (r: Result)
    ensures r.At? ==> |r.c.toks| <= |c.toks|
    decreases |c.toks|, 2
  {
    if IsFinal(c.Cur()) then At(c, 0)
    else if c.Cur().Minus? then
      match Factor1(Next(c), env)
      case Trap => Trap
      case At(d, v) => At(d, Wrap(0 - v))
    else Factor1(c, env)
  }

  /** Steps over a closing parenthesis; anything but the end of the input in its place is
      recorded as an error, and the value is lost either way. */
  function Close(c: Cursor, v: word): (r: Result)
    ensures r.At? && |r.c.toks| <= |c.toks|
  {
    if c.Cur().Rparen? then At(Next(c), v)
    else At(if IsFinal(c.Cur()) then c else c.(err := true), 0)
  }

  function Factor1(c: Cursor, env: Env): (r: Result)
    ensures r.At? ==> |r.c.toks| <= |c.toks|
    decreases |c.toks|, 1
  {
    if IsFinal(c.Cur()) then At(c, 0) else
    match c.Cur()
    case Funct(name) =>
      var d := Next(c);
      if IsFinal(d.Cur()) then At(d, 0)
      else if !d.Cur().Lparen? then At(d.(err := true), 0)
      else
        var e := Next(d);
        if e.Cur().Rparen? then At(e, Apply(env, name, []))
        else Arguments(e, name, [], env)
    case Lparen =>
      (match Expr(Next(c), env) case Trap => Trap case At(d, v) => Close(d, v))
    case _ =>
      var d := Next(c);
      At(d, d.ival)
  }

  function Apply(env: Env, name: string, params: seq<word>): word {
    if name in env.functions then env.functions[name](params) else 0
  }

  /** The argument loop of a call, with the values read so far. */
  function Arguments(c: Cursor, name: string, params: seq<word>, env: Env): (r: Result)
    ensures r.At? ==> |r.c.toks| <= |c.toks|
    decreases |c.toks|, 6, MAXARGS - |params|
  {
    if IsFinal(c.Cur()) then At(c, 0) else
    var d := if params != [] && c.Cur().Comma? then Next(c) else c;
    match Expr(d, env)
    case Trap => Trap
    case At(e, v) =>
      var all := params + [v];
      if |all| >= MAXARGS then At(e.(err := true), 0)
      else if e.Cur().Comma? then Arguments(e, name, all, env)
      else Close(e, Apply(env, name, all))
  }

  /** The whole parse: the cursor it ends on, and the value where there is one. */
  function Parse(toks: seq<Token>, ival: word, env: Env): Result {
    var c := Stand(toks, ival, false);
    if IsFinal(c.Cur()) then At(c, 0) else Expr(c, env)
  }
}
