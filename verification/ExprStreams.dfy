/**
 Which token streams are expressions, and what the parser's verdict says of any stream.  Both are
 decided by one walk over the tokens with a stack of open parentheses: `Accepts` is the strict
 walk of the language that the grammar means, `Records` the lax one that the parser makes.
 */
module ExprStreams {
  import opened ExprGrammar
  import opened ExprRoundTrip
  import opened Options
  import opened Words

  // ---------------------------------------------------------------- the language

  /** Where the walk stands: before an operand, after its minus sign, or behind an operand. */
  datatype Place = Expect | AfterMinus | After

  /** What is open: the whole input, a parenthesis, or a call with n arguments complete.  After
      & or | an operand is a power, so * / % cannot go on from it: then the frame is narrow. */
  datatype Frame =
    | Top(narrow: bool)
    | Group(narrow: bool, outer: Frame)
    | InCall(n: nat, narrow: bool, outer: Frame)

  const START := Top(false)

  predicate IsProduct(t: Token) { t.Mult? || t.Divide? || t.Remain? }

  predicate IsSum(t: Token) { t.Plus? || t.Minus? }

  predicate IsBits(t: Token) { t.BitAnd? || t.BitOr? }

  /** Tokens that go on from an operand. */
  predicate GoesOn(t: Token, f: Frame) { t.Power? || IsSum(t) || IsBits(t) || (IsProduct(t) && !f.narrow) }

  /** The frame behind such a token. */
  function Onward(t: Token, f: Frame): Frame {
    if IsSum(t) then f.(narrow := false) else if IsBits(t) then f.(narrow := true) else f
  }

  /** The tokens from here on complete an expression that has come this far: operands and
      operators alternate, parentheses balance, a function name is followed by one, commas part
      one to nine arguments of a call, and the input ends where everything is closed. */
  predicate Accepts(toks: seq<Token>, at: Place, f: Frame, env: Env)
    decreases |toks|
  {
    toks != [] &&
    var t, rest := toks[0], toks[1..];
    if at.After? then
      if GoesOn(t, f) then Accepts(rest, Expect, Onward(t, f), env)
      else match f
        case Top(_) => t.Eol? && rest == []
        case Group(_, o) => t.Rparen? && Accepts(rest, After, o, env)
        case InCall(n, _, o) =>
          n + 1 < MAXARGS &&
          ((t.Comma? && Accepts(rest, Expect, InCall(n + 1, false, o), env))
           || (t.Rparen? && Accepts(rest, After, o, env)))
    else
      || (at.Expect? && t.Minus? && Accepts(rest, AfterMinus, f, env))
      || (t.Number? && Accepts(rest, After, f, env))
      || (t.Lparen? && Accepts(rest, Expect, Group(false, f), env))
      || (t.Funct? && t.name in env.functions && rest != [] && rest[0].Lparen?
          && Accepts(rest[1..], Expect, InCall(0, false, f), env))
  }

  predicate IsExpression(toks: seq<Token>, env: Env) { Accepts(toks, Expect, START, env) }

  // ---------------------------------------------------------------- printed trees are accepted

  /** Whether a tree printed at level 0 leaves its frame narrow. */
  predicate Narrows(t: Tree) { t.Bin? && t.op in {Conj, Disj} }

  function FrameAfter(t: Tree, level: nat, f: Frame): Frame {
    if level == 0 && LevelOf(t) == 0 then f.(narrow := Narrows(t)) else f
  }

  function PlaceFor(level: nat): Place { if level == 4 then AfterMinus else Expect }

  lemma StepExpect(t: Token, k: seq<Token>, at: Place, f: Frame, env: Env)
    requires !at.After?
    ensures t.Lparen? ==> Accepts([t] + k, at, f, env) == Accepts(k, Expect, Group(false, f), env)
    ensures t.Number? ==> Accepts([t] + k, at, f, env) == Accepts(k, After, f, env)
    ensures t.Minus? && at.Expect? ==> Accepts([t] + k, at, f, env) == Accepts(k, AfterMinus, f, env)
  {
    assert ([t] + k)[1..] == k;
  }

  lemma StepAfter(t: Token, k: seq<Token>, f: Frame, env: Env)
    ensures GoesOn(t, f) ==> Accepts([t] + k, After, f, env) == Accepts(k, Expect, Onward(t, f), env)
    ensures t.Rparen? && f.Group? ==> Accepts([t] + k, After, f, env) == Accepts(k, After, f.outer, env)
    ensures t.Rparen? && f.InCall? && f.n + 1 < MAXARGS
      ==> Accepts([t] + k, After, f, env) == Accepts(k, After, f.outer, env)
    ensures t.Comma? && f.InCall? && f.n + 1 < MAXARGS
      ==> Accepts([t] + k, After, f, env) == Accepts(k, Expect, InCall(f.n + 1, false, f.outer), env)
  {
    assert ([t] + k)[1..] == k;
  }

  lemma {:induction false} PrintAccepts(t: Tree, level: nat, k: seq<Token>, f: Frame, env: Env)
    requires Sensible(t, env) && level <= 4 && (level <= 1 ==> !f.narrow)
    ensures Accepts(Tokens(t, level) + k, PlaceFor(level), f, env) == Accepts(k, After, FrameAfter(t, level, f), env)
    decreases t, 2
  {
    hide Accepts, Bare;
    if LevelOf(t) < level {
      var inner := [Rparen] + k;
      assert Tokens(t, level) + k == [Lparen] + (Bare(t) + inner);
      StepExpect(Lparen, Bare(t) + inner, PlaceFor(level), f, env);
      BareAccepts(t, 0, inner, Group(false, f), env);
      StepAfter(Rparen, k, FrameAfter(t, 0, Group(false, f)), env);
    } else {
      BareAccepts(t, level, k, f, env);
    }
  }

  lemma {:induction false} BareAccepts(t: Tree, level: nat, k: seq<Token>, f: Frame, env: Env)
    requires Sensible(t, env) && level <= LevelOf(t) && (level <= 1 ==> !f.narrow)
    ensures Accepts(Bare(t) + k, PlaceFor(level), f, env) == Accepts(k, After, FrameAfter(t, level, f), env)
    decreases t, 1
  {
    hide Accepts, Tokens, ArgTokens;
    match t
    case Num(v) =>
      StepExpect(Number(v), k, PlaceFor(level), f, env);
    case Neg(e) =>
      assert Bare(t) + k == [Minus] + (Tokens(e, 4) + k);
      StepExpect(Minus, Tokens(e, 4) + k, PlaceFor(level), f, env);
      PrintAccepts(e, 4, k, f, env);
    case Paren(e) =>
      var inner := [Rparen] + k;
      assert Bare(t) + k == [Lparen] + (Tokens(e, 0) + inner);
      StepExpect(Lparen, Tokens(e, 0) + inner, PlaceFor(level), f, env);
      PrintAccepts(e, 0, inner, Group(false, f), env);
      StepAfter(Rparen, k, FrameAfter(e, 0, Group(false, f)), env);
    case Bin(op, l, r) =>
      BinAccepts(t, level, k, f, env);
    case Call(name, args) =>
      CallAccepts(name, args, PlaceFor(level), k, f, env);
  }

  lemma {:induction false} BinAccepts(t: Tree, level: nat, k: seq<Token>, f: Frame, env: Env)
    requires t.Bin? && Sensible(t, env) && level <= LevelOf(t) && (level <= 1 ==> !f.narrow)
    ensures Accepts(Bare(t) + k, PlaceFor(level), f, env) == Accepts(k, After, FrameAfter(t, level, f), env)
    decreases t, 0
  {
    hide Accepts, Tokens;
    var Bin(op, l, r) := t;
    var lt, rt := Tokens(l, LeftLevel(op)), Tokens(r, RightLevel(op));
    var k0 := [OpToken(op)] + (rt + k);
    assert Bare(t) + k == lt + k0;
    PrintAccepts(l, LeftLevel(op), k0, f, env);
    var g := FrameAfter(l, LeftLevel(op), f);
    StepAfter(OpToken(op), rt + k, g, env);
    PrintAccepts(r, RightLevel(op), k, Onward(OpToken(op), g), env);
  }

  lemma {:induction false} CallAccepts(name: string, args: seq<Tree>, at: Place, k: seq<Token>, f: Frame, env: Env)
    requires name in env.functions && 0 < |args| < MAXARGS && !at.After?
    requires forall i :: 0 <= i < |args| ==> Sensible(args[i], env)
    ensures Accepts([Funct(name), Lparen] + ArgTokens(args) + [Rparen] + k, at, f, env) == Accepts(k, After, f, env)
    decreases args, 1
  {
    hide Tokens, ArgTokens;
    var inner := ArgTokens(args) + ([Rparen] + k);
    var toks := [Funct(name), Lparen] + ArgTokens(args) + [Rparen] + k;
    assert toks == [Funct(name), Lparen] + inner;
    assert toks[1..][1..] == inner;
    ArgsAccept(args, 0, k, f, env);
  }

  lemma {:induction false} ArgsAccept(args: seq<Tree>, n: nat, k: seq<Token>, o: Frame, env: Env)
    requires args != [] && n + |args| < MAXARGS && forall i :: 0 <= i < |args| ==> Sensible(args[i], env)
    ensures Accepts(ArgTokens(args) + ([Rparen] + k), Expect, InCall(n, false, o), env) == Accepts(k, After, o, env)
    decreases args, 0
  {
    hide Accepts, Tokens;
    var first := Tokens(args[0], 0);
    var f := FrameAfter(args[0], 0, InCall(n, false, o));
    if |args| == 1 {
      PrintAccepts(args[0], 0, [Rparen] + k, InCall(n, false, o), env);
      StepAfter(Rparen, k, f, env);
    } else {
      var more := ArgTokens(args[1..]) + ([Rparen] + k);
      assert ArgTokens(args) + ([Rparen] + k) == first + ([Comma] + more);
      PrintAccepts(args[0], 0, [Comma] + more, InCall(n, false, o), env);
      StepAfter(Comma, more, f, env);
      ArgsAccept(args[1..], n + 1, k, o, env);
    }
  }

  // ---------------------------------------------------------------- accepted streams are printed trees

  /** Some tokens are a tree's, of at least a level, and a rest that the walk accepts behind it. */
  ghost predicate Reads(toks: seq<Token>, t: Tree, level: nat, k: seq<Token>, f: Frame, env: Env) {
    && level <= LevelOf(t) && Sensible(t, env)
    && toks == Tokens(t, level) + k && |k| < |toks|
    && Accepts(k, After, f, env)
  }

  lemma {:induction false} ReadAtom(toks: seq<Token>, f: Frame, env: Env) returns (t: Tree, k: seq<Token>)
    requires Accepts(toks, AfterMinus, f, env)
    ensures Reads(toks, t, 4, k, f, env)
    decreases |toks|, 0
  {
    hide IsProduct, IsSum, IsBits;
    var first, rest := toks[0], toks[1..];
    if first.Number? {
      t, k := Num(first.v), rest;
      assert Tokens(t, 4) == [first] && toks == [first] + rest;
    } else if first.Lparen? {
      var e, k0, g := ReadExpr(rest, Group(false, f), env);
      t, k := Paren(e), k0[1..];
      assert toks == [Lparen] + (Tokens(e, 0) + ([Rparen] + k));
      ParenTokens(e, k);
    } else {
      var args;
      args, k := ReadArgs(rest[1..], 0, f, env);
      t := Call(first.name, args);
      assert toks == [first, Lparen] + (ArgTokens(args) + ([Rparen] + k));
      CallTokens(first.name, args, k);
    }
  }

  lemma ParenTokens(e: Tree, k: seq<Token>)
    ensures Tokens(Paren(e), 4) + k == [Lparen] + (Tokens(e, 0) + ([Rparen] + k))
  {
  }

  lemma CallTokens(name: string, args: seq<Tree>, k: seq<Token>)
    ensures Tokens(Tree.Call(name, args), 4) + k == [Funct(name), Lparen] + (ArgTokens(args) + ([Rparen] + k))
  {
    hide ArgTokens;
  }

  lemma {:induction false} ReadFactor(toks: seq<Token>, f: Frame, env: Env) returns (t: Tree, k: seq<Token>)
    requires Accepts(toks, Expect, f, env)
    ensures Reads(toks, t, 3, k, f, env)
    decreases |toks|, 1
  {
    if toks[0].Minus? {
      var e;
      e, k := ReadAtom(toks[1..], f, env);
      t := Neg(e);
      assert toks == [Minus] + (Tokens(e, 4) + k);
    } else {
      t, k := ReadAtom(toks, f, env);
    }
  }

  lemma {:induction false} ReadPower(toks: seq<Token>, f: Frame, env: Env) returns (t: Tree, k: seq<Token>)
    requires Accepts(toks, Expect, f, env)
    ensures Reads(toks, t, 2, k, f, env) && !k[0].Power?
    decreases |toks|, 2
  {
    hide Sensible;
    var l;
    l, k := ReadFactor(toks, f, env);
    if k[0].Power? {
      var k0 := k;
      var r;
      r, k := ReadPower(k0[1..], f, env);
      t := Bin(Pow, l, r);
      BinReads(toks, Pow, l, k0, r, k, f, env);
    } else {
      t := l;
    }
  }

  lemma BinReads(toks: seq<Token>, op: Op, l: Tree, k0: seq<Token>, r: Tree, k: seq<Token>, f: Frame, env: Env)
    requires LeftLevel(op) <= LevelOf(l) && RightLevel(op) <= LevelOf(r) && Sensible(l, env) && Sensible(r, env)
    requires toks == Tokens(l, LeftLevel(op)) + k0 && k0 != [] && k0[0] == OpToken(op)
    requires Reads(k0[1..], r, RightLevel(op), k, f, env)
    ensures Reads(toks, Bin(op, l, r), LevelOf(Bin(op, l, r)), k, f, env)
  {
    hide Tokens, Accepts;
    assert k0 == [OpToken(op)] + (Tokens(r, RightLevel(op)) + k);
    var t := Bin(op, l, r);
    assert Bare(t) + k == Tokens(l, LeftLevel(op)) + ([OpToken(op)] + (Tokens(r, RightLevel(op)) + k));
    assert Tokens(t, LevelOf(t)) == Bare(t) by { TokensBare(t); }
  }

  lemma TokensBare(t: Tree)
    ensures Tokens(t, LevelOf(t)) == Bare(t)
  {
  }

  /** The operands of a product, from the one read so far. */
  lemma {:induction false} ReadProduct(toks: seq<Token>, acc: Tree, k0: seq<Token>, f: Frame, env: Env)
    returns (t: Tree, k: seq<Token>)
    requires Reads(toks, acc, 1, k0, f, env) && !f.narrow && !k0[0].Power?
    ensures Reads(toks, t, 1, k, f, env) && !k[0].Power? && !IsProduct(k[0])
    decreases |k0|, 0
  {
    hide Sensible;
    if IsProduct(k0[0]) {
      var op := if k0[0].Mult? then Mul else if k0[0].Divide? then Quot else Mod;
      var r, k1 := ReadPower(k0[1..], f, env);
      BinReads(toks, op, acc, k0, r, k1, f, env);
      t, k := ReadProduct(toks, Bin(op, acc, r), k1, f, env);
    } else {
      t, k := acc, k0;
    }
  }

  lemma {:induction false} ReadTerm(toks: seq<Token>, f: Frame, env: Env) returns (t: Tree, k: seq<Token>)
    requires Accepts(toks, Expect, f, env) && !f.narrow
    ensures Reads(toks, t, 1, k, f, env) && !k[0].Power? && !IsProduct(k[0])
    decreases |toks|, 3
  {
    var p, k0 := ReadPower(toks, f, env);
    SameTokens(p, 2, 1);
    t, k := ReadProduct(toks, p, k0, f, env);
  }

  /** A tree of a level prints the same in every place down from it. */
  lemma SameTokens(t: Tree, level: nat, lower: nat)
    requires lower <= level <= LevelOf(t)
    ensures Tokens(t, level) == Tokens(t, lower) == Bare(t)
  {
  }

  lemma {:induction false} ReadSum(toks: seq<Token>, acc: Tree, k0: seq<Token>, f: Frame, env: Env)
    returns (t: Tree, k: seq<Token>, g: Frame)
    requires Reads(toks, acc, 0, k0, f, env) && !k0[0].Power? && (!f.narrow ==> !IsProduct(k0[0]))
    ensures Reads(toks, t, 0, k, g, env) && !GoesOn(k[0], g) && g == f.(narrow := g.narrow)
    decreases |k0|, 0
  {
    hide Sensible;
    if GoesOn(k0[0], f) {
      var next := Onward(k0[0], f);
      var op := match k0[0] case Plus => Add case Minus => Sub case BitAnd => Conj case _ => Disj;
      var r, k1;
      if IsSum(k0[0]) {
        r, k1 := ReadTerm(k0[1..], next, env);
      } else {
        r, k1 := ReadPower(k0[1..], next, env);
      }
      BinReads(toks, op, acc, k0, r, k1, next, env);
      t, k, g := ReadSum(toks, Bin(op, acc, r), k1, next, env);
    } else {
      t, k, g := acc, k0, f;
    }
  }

  lemma {:induction false} ReadExpr(toks: seq<Token>, f: Frame, env: Env) returns (t: Tree, k: seq<Token>, g: Frame)
    requires Accepts(toks, Expect, f, env) && !f.narrow
    ensures Reads(toks, t, 0, k, g, env) && !GoesOn(k[0], g) && g == f.(narrow := g.narrow)
    decreases |toks|, 4
  {
    var p, k0 := ReadTerm(toks, f, env);
    SameTokens(p, 1, 0);
    t, k, g := ReadSum(toks, p, k0, f, env);
  }

  lemma {:induction false} ReadArgs(toks: seq<Token>, n: nat, o: Frame, env: Env)
    returns (args: seq<Tree>, k: seq<Token>)
    requires Accepts(toks, Expect, InCall(n, false, o), env)
    ensures args != [] && n + |args| < MAXARGS && forall i :: 0 <= i < |args| ==> Sensible(args[i], env)
    ensures toks == ArgTokens(args) + ([Rparen] + k) && Accepts(k, After, o, env)
    decreases |toks|, 5
  {
    hide Sensible, Tokens;
    var t, k0, g := ReadExpr(toks, InCall(n, false, o), env);
    if k0[0].Comma? {
      var more;
      more, k := ReadArgs(k0[1..], n + 1, o, env);
      args := [t] + more;
      assert args[1..] == more;
      assert toks == Tokens(t, 0) + ([Comma] + (ArgTokens(more) + ([Rparen] + k)));
    } else {
      args, k := [t], k0[1..];
      assert toks == Tokens(t, 0) + ([Rparen] + k);
    }
  }

  /** The walk accepts exactly the streams that print a sensible tree, with the parentheses it
      needs and any others. */
  lemma ExpressionIffPrinted(toks: seq<Token>, env: Env)
    ensures IsExpression(toks, env) <==> exists t :: Sensible(t, env) && toks == Tokens(t, 0) + [Eol]
  {
    if IsExpression(toks, env) {
      var t, k, g := ReadExpr(toks, START, env);
      assert toks == Tokens(t, 0) + [Eol];
    }
    forall t | Sensible(t, env) && toks == Tokens(t, 0) + [Eol] ensures IsExpression(toks, env) {
      PrintAccepts(t, 0, [Eol], START, env);
      assert [Eol][1..] == [];
      assert Accepts([Eol], After, FrameAfter(t, 0, START), env);
    }
  }

  /** What the parser does with an expression: it reads the whole of it, records no error and
      returns the value of the tree, or traps where the tree has none. */
  lemma ExpressionsParse(toks: seq<Token>, ival: word, env: Env) returns (t: Tree, j: word)
    requires IsExpression(toks, env)
    ensures Sensible(t, env) && toks == Tokens(t, 0) + [Eol]
    ensures Parse(toks, ival, env)
      == if Eval(t, env).None? then Trap else At(Stand([Eol], j, false), Eval(t, env).value)
  {
    ExpressionIffPrinted(toks, env);
    t :| Sensible(t, env) && toks == Tokens(t, 0) + [Eol];
    j := PrintedTreesParseBack(t, ival, env);
  }

  // ---------------------------------------------------------------- what the parser records

  function Current(toks: seq<Token>): Token { if toks == [] then Eol else toks[0] }

  /** Scanning a name that is too long or unknown records an error by itself. */
  predicate IsRecorded(t: Token) { t.TooLong? || t.Unknown? }

  /** Somewhere a call is at its tenth argument. */
  predicate FullCall(f: Frame) {
    match f
    case Top(_) => false
    case Group(_, o) => FullCall(o)
    case InCall(n, _, o) => n + 1 >= MAXARGS || FullCall(o)
  }

  /** Whether the parser records an error from here on, the current token being scanned already.
      It differs from the strict walk in what it lets pass: any token but the end stands for an
      operand; a call may close without an argument, and then its parenthesis stays unread;
      the end of the input and unknown characters close everything, unless a call is full; and
      behind a complete expression it goes no further. */
  predicate Records(toks: seq<Token>, at: Place, f: Frame)
    decreases |toks|, 1
  {
    var t := Current(toks);
    if IsFinal(t) then FullCall(f)
    else if at.After? then
      if GoesOn(t, f) then Onto(toks[1..], Expect, Onward(t, f)) else Leaves(toks, f)
    else if at.Expect? && t.Minus? then Onto(toks[1..], AfterMinus, f)
    else if t.Lparen? then Onto(toks[1..], Expect, Group(false, f))
    else if t.Funct? then IsRecorded(Current(toks[1..])) || RecordsCall(toks[1..], f)
    else Onto(toks[1..], After, f)
  }

  /** Behind the name of a function. */
  predicate RecordsCall(toks: seq<Token>, f: Frame)
    decreases |toks|, 3
  {
    if IsFinal(Current(toks)) then FullCall(f)
    else if !Current(toks).Lparen? then true
    else if Current(toks[1..]).Rparen? then Onto(toks[1..], After, f)
    else Onto(toks[1..], Expect, InCall(0, false, f))
  }

  predicate Onto(toks: seq<Token>, at: Place, f: Frame)
    decreases |toks|, 2
  {
    IsRecorded(Current(toks)) || Records(toks, at, f)
  }

  /** Behind an operand that the current token does not go on from. */
  predicate Leaves(toks: seq<Token>, f: Frame)
    requires !IsFinal(Current(toks))
    decreases |toks|, 0
  {
    match f
    case Top(_) => false
    case Group(_, o) => !Current(toks).Rparen? || Onto(toks[1..], After, o)
    case InCall(n, _, o) =>
      || n + 1 >= MAXARGS
      || (if Current(toks).Comma? then Onto(toks[1..], Expect, InCall(n + 1, false, o))
          else !Current(toks).Rparen? || Onto(toks[1..], After, o))
  }

  predicate RecordsError(toks: seq<Token>) { Onto(toks, Expect, START) }

  /** An error is recorded, before a cursor or from it on. */
  predicate Errs(c: Cursor, at: Place, f: Frame) { c.err || Records(c.toks, at, f) }

  predicate ErrsLeaving(c: Cursor, f: Frame) {
    c.err || (if IsFinal(c.Cur()) then FullCall(f) else Leaves(c.toks, f))
  }

  lemma ErrsNext(c: Cursor, at: Place, f: Frame)
    requires c.toks != []
    ensures Errs(Next(c), at, f) <==> c.err || Onto(c.toks[1..], at, f)
  {
  }

  lemma AtEnd(c: Cursor, at: Place, f: Frame)
    requires IsFinal(c.Cur())
    ensures Errs(c, at, f) <==> c.err || FullCall(f)
  {
  }

  lemma GoingOn(c: Cursor, f: Frame)
    requires c.toks != [] && GoesOn(c.Cur(), f)
    ensures Errs(c, After, f) == Errs(Next(c), Expect, Onward(c.Cur(), f))
  {
    ErrsNext(c, Expect, Onward(c.Cur(), f));
  }

  lemma {:induction false} AtomErrs(c: Cursor, f: Frame, env: Env)
    requires Factor1(c, env).At?
    ensures Errs(c, AfterMinus, f) == Errs(Factor1(c, env).c, After, f)
    decreases |c.toks|, 1
  {
    if IsFinal(c.Cur()) {
      AtEnd(c, AfterMinus, f);
    } else if c.Cur().Funct? {
      CallErrs(c, f, env);
    } else if c.Cur().Lparen? {
      ErrsNext(c, Expect, Group(false, f));
      ExprErrs(Next(c), Group(false, f), env);
      CloseErrs(Expr(Next(c), env).c, Expr(Next(c), env).v, Group(false, f));
    } else {
      ErrsNext(c, After, f);
    }
  }

  lemma CloseErrs(c: Cursor, v: word, f: Frame)
    requires f.Group? || (f.InCall? && f.n + 1 < MAXARGS && !c.Cur().Comma?)
    ensures ErrsLeaving(c, f) == Errs(Close(c, v).c, After, f.outer)
  {
    if c.Cur().Rparen? { ErrsNext(c, After, f.outer); }
  }

  lemma {:induction false} CallErrs(c: Cursor, f: Frame, env: Env)
    requires Factor1(c, env).At? && c.Cur().Funct?
    ensures Errs(c, AfterMinus, f) == Errs(Factor1(c, env).c, After, f)
    decreases |c.toks|, 0
  {
    var d := Next(c);
    assert Errs(c, AfterMinus, f) == (d.err || RecordsCall(d.toks, f));
    if IsFinal(d.Cur()) {
      AtEnd(d, After, f);
    } else if d.Cur().Lparen? {
      var e := Next(d);
      ErrsNext(d, After, f);
      ErrsNext(d, Expect, InCall(0, false, f));
      if !e.Cur().Rparen? { ArgumentErrs(e, c.Cur().name, [], f, env); }
    }
  }

  lemma {:induction false} FactorErrs(c: Cursor, f: Frame, env: Env)
    requires Factor(c, env).At?
    ensures Errs(c, Expect, f) == Errs(Factor(c, env).c, After, f)
    decreases |c.toks|, 2
  {
    if !IsFinal(c.Cur()) {
      if c.Cur().Minus? {
        ErrsNext(c, AfterMinus, f);
        AtomErrs(Next(c), f, env);
      } else {
        AtomErrs(c, f, env);
      }
    }
  }

  lemma {:induction false} PowerErrs(c: Cursor, f: Frame, env: Env)
    requires PowerOf(c, env).At?
    ensures Errs(c, Expect, f) == Errs(PowerOf(c, env).c, After, f) && !PowerOf(c, env).c.Cur().Power?
    decreases |c.toks|, 3
  {
    if !IsFinal(c.Cur()) {
      FactorErrs(c, f, env);
      var d := Factor(c, env).c;
      if d.Cur().Power? {
        ErrsNext(d, Expect, f);
        PowerErrs(Next(d), f, env);
      }
    }
  }

  lemma {:induction false} TermErrs(c: Cursor, f: Frame, env: Env)
    requires Term(c, env).At? && !f.narrow
    ensures Errs(c, Expect, f) == Errs(Term(c, env).c, After, f)
    ensures !Term(c, env).c.Cur().Power? && !IsProduct(Term(c, env).c.Cur())
    decreases |c.toks|, 4
  {
    if !IsFinal(c.Cur()) {
      PowerErrs(c, f, env);
      ProductErrs(PowerOf(c, env).c, PowerOf(c, env).v, f, env);
    }
  }

  lemma {:induction false} ProductErrs(c: Cursor, acc: word, f: Frame, env: Env)
    requires TermLoop(c, acc, env).At? && !f.narrow && !c.Cur().Power?
    ensures Errs(c, After, f) == Errs(TermLoop(c, acc, env).c, After, f)
    ensures !TermLoop(c, acc, env).c.Cur().Power? && !IsProduct(TermLoop(c, acc, env).c.Cur())
    decreases |c.toks|, 0
  {
    hide Div, Rem;
    hide Records, Errs, PowerOf;
    if IsProduct(c.Cur()) {
      GoingOn(c, f);
      PowerErrs(Next(c), f, env);
      var d, v := PowerOf(Next(c), env).c, PowerOf(Next(c), env).v;
      var all := if c.Cur().Mult? then Wrap(acc * v) else if c.Cur().Divide? then Div(acc, v) else Rem(acc, v);
      ProductErrs(d, all, f, env);
    }
  }

  lemma {:induction false} ExprErrs(c: Cursor, f: Frame, env: Env)
    requires Expr(c, env).At? && !f.narrow
    ensures Errs(c, Expect, f) == ErrsLeaving(Expr(c, env).c, f)
    decreases |c.toks|, 5
  {
    if !IsFinal(c.Cur()) {
      TermErrs(c, f, env);
      SumErrs(Term(c, env).c, Term(c, env).v, f, env);
    }
  }

  lemma {:induction false} SumErrs(c: Cursor, acc: word, f: Frame, env: Env)
    requires ExprLoop(c, acc, env).At? && !c.Cur().Power? && (!f.narrow ==> !IsProduct(c.Cur()))
    ensures Errs(c, After, f) == ErrsLeaving(ExprLoop(c, acc, env).c, f)
    decreases |c.toks|, 1
  {
    if IsSum(c.Cur()) {
      AdditionErrs(c, acc, f, env);
    } else if IsBits(c.Cur()) {
      BitsErrs(c, acc, f, env);
    }
  }

  lemma {:induction false} AdditionErrs(c: Cursor, acc: word, f: Frame, env: Env)
    requires ExprLoop(c, acc, env).At? && IsSum(c.Cur())
    ensures Errs(c, After, f) == ErrsLeaving(ExprLoop(c, acc, env).c, f)
    decreases |c.toks|, 0
  {
    hide Records, ErrsLeaving, Errs, Term, Next;
    var g := f.(narrow := false);
    GoingOn(c, f);
    TermErrs(Next(c), g, env);
    var d, v := Term(Next(c), env).c, Term(Next(c), env).v;
    SumErrs(d, if c.Cur().Plus? then Wrap(acc + v) else Wrap(acc - v), g, env);
    LeavingIsTheSame(ExprLoop(c, acc, env).c, f, false);
  }

  lemma {:induction false} BitsErrs(c: Cursor, acc: word, f: Frame, env: Env)
    requires ExprLoop(c, acc, env).At? && IsBits(c.Cur())
    ensures Errs(c, After, f) == ErrsLeaving(ExprLoop(c, acc, env).c, f)
    decreases |c.toks|, 0
  {
    hide And, Or32, Records, ErrsLeaving, Errs, PowerOf;
    var g := f.(narrow := true);
    GoingOn(c, f);
    PowerErrs(Next(c), g, env);
    var d, v := PowerOf(Next(c), env).c, PowerOf(Next(c), env).v;
    SumErrs(d, if c.Cur().BitAnd? then And(acc, v) else Or32(acc, v), g, env);
    LeavingIsTheSame(ExprLoop(c, acc, env).c, f, true);
  }

  lemma LeavingIsTheSame(c: Cursor, f: Frame, narrow: bool)
    ensures ErrsLeaving(c, f.(narrow := narrow)) == ErrsLeaving(c, f)
  {
  }

  /** The frame of an argument in a call. */
  lemma {:induction false} ArgumentErrs(c: Cursor, name: string, params: seq<word>, o: Frame, env: Env)
    requires Arguments(c, name, params, env).At? && |params| < MAXARGS
    ensures params == [] ==>
      Errs(c, Expect, InCall(0, false, o)) == Errs(Arguments(c, name, params, env).c, After, o)
    ensures params != [] && c.Cur().Comma? ==>
      ErrsLeaving(c, InCall(|params| - 1, false, o)) == Errs(Arguments(c, name, params, env).c, After, o)
    decreases |c.toks|, 6, MAXARGS - |params|
  {
    hide Apply;
    if !IsFinal(c.Cur()) && (params == [] || c.Cur().Comma?) {
      var f := InCall(|params|, false, o);
      var d := if params != [] then Next(c) else c;
      if params != [] { ErrsNext(c, Expect, f); }
      ExprErrs(d, f, env);
      var e, all := Expr(d, env).c, params + [Expr(d, env).v];
      if |all| < MAXARGS {
        if e.Cur().Comma? {
          ArgumentErrs(e, name, all, o, env);
        } else {
          CloseErrs(e, Apply(env, name, all), f);
        }
      }
    }
  }

  /** The parser's verdict on any stream: where it ends without a trap, an error was recorded
      exactly if the lax walk meets one. */
  lemma ErrorRecordedIff(toks: seq<Token>, ival: word, env: Env)
    requires Parse(toks, ival, env).At?
    ensures Parse(toks, ival, env).c.err <==> RecordsError(toks)
  {
    var c := Stand(toks, ival, false);
    assert !FullCall(START);
    assert c.Cur() == Current(toks) && c.err == IsRecorded(Current(toks));
    assert RecordsError(toks) == Errs(c, Expect, START);
    if IsFinal(c.Cur()) {
      AtEnd(c, Expect, START);
    } else {
      ExprErrs(c, START, env);
      assert ErrsLeaving(Expr(c, env).c, START) == Expr(c, env).c.err;
    }
  }

  /** An expression is parsed without an error being recorded. */
  lemma {:induction false} AcceptedIsSilent(toks: seq<Token>, at: Place, f: Frame, env: Env)
    requires Accepts(toks, at, f, env)
    ensures !Onto(toks, at, f)
    decreases |toks|
  {
    var t, rest := toks[0], toks[1..];
    if at.After? {
      if GoesOn(t, f) {
        AcceptedIsSilent(rest, Expect, Onward(t, f), env);
      } else if t.Comma? {
        AcceptedIsSilent(rest, Expect, InCall(f.n + 1, false, f.outer), env);
        assert !Leaves(toks, f) && Records(toks, at, f) == Leaves(toks, f);
      } else if t.Rparen? {
        AcceptedIsSilent(rest, After, f.outer, env);
        assert !Leaves(toks, f) && Records(toks, at, f) == Leaves(toks, f);
      } else {
        assert t.Eol? && Current(toks) == Eol && Records(toks, at, f) == FullCall(f) && !FullCall(f);
      }
    } else if t.Minus? {
      AcceptedIsSilent(rest, AfterMinus, f, env);
    } else if t.Number? {
      AcceptedIsSilent(rest, After, f, env);
    } else if t.Lparen? {
      AcceptedIsSilent(rest, Expect, Group(false, f), env);
    } else {
      AcceptedIsSilent(rest[1..], Expect, InCall(0, false, f), env);
      assert Current(rest) == Lparen && !Current(rest[1..]).Rparen?;
      assert RecordsCall(rest, f) == Onto(rest[1..], Expect, InCall(0, false, f));
    }
  }

  lemma ExpressionsRecordNothing(toks: seq<Token>, env: Env)
    requires IsExpression(toks, env)
    ensures !RecordsError(toks)
  {
    AcceptedIsSilent(toks, Expect, START, env);
  }

  /** A success that is no expression: an operator in front stands for an operand and is
      forgotten. */
  lemma StrayOperatorPasses(b: word, ival: word, env: Env)
    ensures var toks := [Plus, Number(b), Eol];
      && !RecordsError(toks) && !IsExpression(toks, env)
      && Parse(toks, ival, env) == At(Stand(toks[1..], b, false), b)
  {
    var toks := [Plus, Number(b), Eol];
    var c := Stand(toks, ival, false);
    AtomParses(c, Next(c), b, env);
    ErrorRecordedIff(toks, ival, env);
  }

  /** An unknown character is as good as the end of the input. */
  lemma UnknownCharacterPasses(a: word, ival: word, env: Env)
    ensures var toks := [Number(a), BadChar];
      && !RecordsError(toks) && !IsExpression(toks, env)
      && Parse(toks, ival, env) == At(Stand([BadChar], a, false), a)
  {
    var toks := [Number(a), BadChar];
    var c := Stand(toks, ival, false);
    assert toks[1..] == [BadChar];
    AtomParses(c, Next(c), a, env);
    ErrorRecordedIff(toks, ival, env);
    assert !Accepts([BadChar], After, START, env);
  }

  /** A call without arguments leaves its closing parenthesis unread. */
  lemma EmptyCallPasses(name: string, ival: word, env: Env)
    requires name in env.functions
    ensures var toks := [Funct(name), Lparen, Rparen, Eol];
      && !RecordsError(toks) && !IsExpression(toks, env)
      && Parse(toks, ival, env) == At(Stand([Rparen, Eol], ival, false), env.functions[name]([]))
  {
    var toks := [Funct(name), Lparen, Rparen, Eol];
    var c := Stand(toks, ival, false);
    assert toks[1..] == [Lparen, Rparen, Eol] && toks[1..][1..] == [Rparen, Eol];
    AtomParses(c, Next(Next(c)), env.functions[name]([]), env);
    ErrorRecordedIff(toks, ival, env);
    assert !Accepts([Rparen, Eol], Expect, InCall(0, false, START), env);
  }
}
