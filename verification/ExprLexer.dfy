/**
 The scanner of eagletests/eagletest/exprparse.c: names, numerals that are hexadecimal unless
 they start with '#', and one character operators.  Tokens laid out as text, with any blanks
 between them, scan back to themselves; together with the round trip of `ExprRoundTrip` this
 makes the parser's promise one about strings.
 */
module ExprLexer {
  import opened ExprGrammar
  import opened ExprRoundTrip
  import opened Options
  import opened Words

  const MAXTOKEN: nat := 20

  predicate IsDigit(c: char) { '0' <= c <= '9' }

  predicate IsNameStart(c: char) { 'a' <= c <= 'z' || 'A' <= c <= 'Z' || c == '_' }

  predicate IsNameChar(c: char) { IsNameStart(c) || IsDigit(c) }

  predicate IsHex(c: char) { IsDigit(c) || 'a' <= c <= 'f' || 'A' <= c <= 'F' }

  function DigitValue(c: char): (v: nat)
    requires IsHex(c)
    ensures v < 16 && (IsDigit(c) ==> v < 10)
  {
    if IsDigit(c) then (c as int) - ('0' as int)
    else if c <= 'F' then (c as int) - ('A' as int) + 10
    else (c as int) - ('a' as int) + 10
  }

  function Lower(s: string): string {
    if s == "" then "" else
    [if 'A' <= s[0] <= 'Z' then ((s[0] as int) + 32) as char else s[0]] + Lower(s[1..])
  }

  // ---------------------------------------------------------------- scanning

  function SkipBlanks(s: string): (r: string)
    ensures |r| <= |s|
  {
    if s != "" && s[0] == ' ' then SkipBlanks(s[1..]) else s
  }

  /** The length of the longest prefix within a class of characters. */
  function Run(s: string, p: char -> bool): (n: nat)
    ensures n <= |s| && (forall i :: 0 <= i < n ==> p(s[i])) && (n < |s| ==> !p(s[n]))
  {
    if s != "" && p(s[0]) then 1 + Run(s[1..], p) else 0
  }

  /** The running value of a numeral, in 32 bits: each digit shifts the value so far. */
  function Fold(s: string, base: nat, acc: word): word
    requires forall c :: c in s ==> IsHex(c)
  {
    if s == "" then acc else Fold(s[1..], base, Wrap(base * acc + DigitValue(s[0])))
  }

  function NameToken(name: string, env: Env): Token {
    if name in env.functions then Funct(name)
    else if Lower(name) !in env.symbols then Unknown(W - 1)
    else if Signed(env.symbols[Lower(name)]) < 0 then Unknown(env.symbols[Lower(name)])
    else Number(env.symbols[Lower(name)])
  }

  function CharToken(c: char): Token {
    match c
    case ',' => Comma case '(' => Lparen case ')' => Rparen case '+' => Plus case '-' => Minus
    case '/' => Divide case '*' => Mult case '^' => Power case '%' => Remain case '&' => BitAnd
    case '|' => BitOr
    case _ => BadChar
  }

  /** The token at the head of a text without leading blanks, and what follows it. */
  function Head(s: string, env: Env): (r: (Token, string))
    ensures |r.1| <= |s| && (!IsFinal(r.0) ==> |r.1| < |s|)
  {
    if s == "" || s[0] == '\0' then (Eol, s)
    else if IsNameStart(s[0]) then
      var n := Run(s, IsNameChar);
      if n > MAXTOKEN then (TooLong, s[MAXTOKEN + 1..]) else (NameToken(s[..n], env), s[n..])
    else if IsDigit(s[0]) then
      var n := Run(s, IsHex);
      (Number(Fold(s[..n], 16, 0)), s[n..])
    else if s[0] == '#' then
      var n := Run(s[1..], IsDigit);
      (Number(Fold(s[1..][..n], 10, 0)), s[1..][n..])
    else (CharToken(s[0]), s[1..])
  }

  function Lex(s: string, env: Env): (r: (Token, string))
    ensures |r.1| <= |s| && (!IsFinal(r.0) ==> |r.1| < |s|)
  {
    Head(SkipBlanks(s), env)
  }

  /** All tokens up to the end of the text or the first error. */
  function LexAll(s: string, env: Env): (r: seq<Token>)
    ensures r != []
    decreases |s|
  {
    var (t, rest) := Lex(s, env);
    if IsFinal(t) then [t] else [t] + LexAll(rest, env)
  }

  // ---------------------------------------------------------------- laying tokens out as text

  predicate IsName(s: string) { s != "" && IsNameStart(s[0]) && (forall c :: c in s ==> IsNameChar(c)) }

  predicate IsHexNumeral(s: string) { s != "" && IsDigit(s[0]) && (forall c :: c in s ==> IsHex(c)) }

  predicate IsDecNumeral(s: string) { s != "" && s[0] == '#' && (forall c :: c in s[1..] ==> IsDigit(c)) }

  /** The texts that stand for a token: a numeral of either base, a name in the table. */
  ghost predicate Spells(s: string, t: Token, env: Env) {
    match t
    case Number(v) =>
      || (IsHexNumeral(s) && Fold(s, 16, 0) == v)
      || (IsDecNumeral(s) && Fold(s[1..], 10, 0) == v)
      || (IsName(s) && |s| <= MAXTOKEN && NameToken(s, env) == t)
    case Funct(name) => s == name && IsName(s) && |s| <= MAXTOKEN && NameToken(s, env) == t
    case _ => |s| == 1 && CharToken(s[0]) == t && !IsFinal(t)
  }

  predicate Wordy(t: Token) { t.Number? || t.Funct? }

  predicate AllBlank(s: string) { forall i :: 0 <= i < |s| ==> s[i] == ' ' }

  /** No two words next to each other, which could run together. */
  predicate Apart(ts: seq<Token>) { forall i :: 0 <= i < |ts| - 1 ==> !(Wordy(ts[i]) && Wordy(ts[i + 1])) }

  /** Texts with gaps in front of each and after the last. */
  function Layout(texts: seq<string>, gaps: seq<string>): string
    requires |gaps| == |texts| + 1
  {
    if texts == [] then gaps[0] else gaps[0] + (texts[0] + Layout(texts[1..], gaps[1..]))
  }

  ghost predicate Spelled(texts: seq<string>, gaps: seq<string>, ts: seq<Token>, env: Env) {
    && |texts| == |ts|
    && |gaps| == |ts| + 1
    && (forall i :: 0 <= i < |ts| ==> Spells(texts[i], ts[i], env))
    && (forall i :: 0 <= i < |gaps| ==> AllBlank(gaps[i]))
  }

  lemma {:induction false} BlanksSkipped(gap: string, s: string)
    requires AllBlank(gap)
    ensures SkipBlanks(gap + s) == SkipBlanks(s)
    decreases |gap|
  {
    if gap == "" {
      assert gap + s == s;
    } else {
      assert (gap + s)[1..] == gap[1..] + s;
      BlanksSkipped(gap[1..], s);
    }
  }

  lemma {:induction false} RunStops(w: string, s: string, p: char -> bool)
    requires (forall c :: c in w ==> p(c)) && (s != "" ==> !p(s[0]))
    ensures Run(w + s, p) == |w| && (w + s)[..|w|] == w && (w + s)[|w|..] == s
    decreases |w|
  {
  }

  /** A spelled token is read whole, unless a word runs on into the text after it. */
  lemma HeadOfSpelled(w: string, t: Token, s: string, env: Env)
    requires Spells(w, t, env) && (Wordy(t) && s != "" ==> !IsNameChar(s[0]))
    ensures Head(w + s, env) == (t, s) && SkipBlanks(w + s) == w + s
  {
    hide Fold, NameToken, Run, Head, CharToken;
    StartsLike(w, t, s, env);
    if Wordy(t) && IsName(w) {
      HeadOfName(w, s, env);
    } else if Wordy(t) {
      HeadOfNumeral(w, s, env);
    } else {
      HeadOfSign(w, t, s, env);
    }
  }

  lemma StartsLike(w: string, t: Token, s: string, env: Env)
    requires Spells(w, t, env)
    ensures w != "" && (w + s)[0] == w[0] && SkipBlanks(w + s) == w + s
  {
    hide Fold, NameToken;
  }

  lemma HeadOfSign(w: string, t: Token, s: string, env: Env)
    requires |w| == 1 && CharToken(w[0]) == t && !IsFinal(t)
    ensures Head(w + s, env) == (t, s)
  {
    hide Run;
    assert (w + s)[0] == w[0] && (w + s)[1..] == s;
  }

  lemma HeadOfName(w: string, s: string, env: Env)
    requires IsName(w) && |w| <= MAXTOKEN && (s != "" ==> !IsNameChar(s[0]))
    ensures Head(w + s, env) == (NameToken(w, env), s)
  {
    RunStops(w, s, IsNameChar);
  }

  lemma HeadOfNumeral(w: string, s: string, env: Env)
    requires IsHexNumeral(w) || IsDecNumeral(w)
    requires s != "" ==> !IsNameChar(s[0])
    ensures Head(w + s, env)
      == (Number(if IsDigit(w[0]) then Fold(w, 16, 0) else Fold(w[1..], 10, 0)), s)
  {
    hide Fold;
    var x := w + s;
    assert x[0] == w[0];
    if IsDigit(w[0]) {
      RunStops(w, s, IsHex);
    } else {
      assert x[1..] == w[1..] + s;
      RunStops(w[1..], s, IsDigit);
    }
  }

  /** What follows a word in a layout does not run on from it. */
  lemma NextChar(texts: seq<string>, gaps: seq<string>, ts: seq<Token>, env: Env)
    requires Spelled(texts, gaps, ts, env) && (ts != [] ==> !Wordy(ts[0]))
    ensures var s := Layout(texts, gaps); s != "" ==> !IsNameChar(s[0])
  {
  }

  /** The scanner reads back exactly the tokens a text lays out, and then the end. */
  lemma {:induction false} LayoutScans(texts: seq<string>, gaps: seq<string>, ts: seq<Token>, env: Env)
    requires Spelled(texts, gaps, ts, env) && Apart(ts)
    ensures LexAll(Layout(texts, gaps), env) == ts + [Eol]
    decreases |ts|
  {
    hide Spells, Head;
    if ts == [] {
      BlanksSkipped(gaps[0], "");
      assert gaps[0] + "" == gaps[0];
      EndScans(gaps[0], env);
    } else {
      var rest := Layout(texts[1..], gaps[1..]);
      if Wordy(ts[0]) {
        NextChar(texts[1..], gaps[1..], ts[1..], env);
      }
      HeadOfSpelled(texts[0], ts[0], rest, env);
      BlanksSkipped(gaps[0], texts[0] + rest);
      LayoutScans(texts[1..], gaps[1..], ts[1..], env);
      NotFinal(texts[0], ts[0], env);
    }
  }

  lemma EndScans(s: string, env: Env)
    requires SkipBlanks(s) == ""
    ensures LexAll(s, env) == [Eol]
  {
  }

  lemma NotFinal(w: string, t: Token, env: Env)
    requires Spells(w, t, env)
    ensures !IsFinal(t)
  {
  }

  // ---------------------------------------------------------------- numerals

  function DigitChar(d: nat): (c: char)
    requires d < 16
    ensures IsHex(c) && DigitValue(c) == d && (d < 10 ==> IsDigit(c))
  {
    if d < 10 then (d + 48) as char else (d + 55) as char
  }

  /** The usual numeral of any natural number. */
  function Numeral(n: nat, base: nat): (s: string)
    requires base == 10 || base == 16
    ensures s != "" && forall i :: 0 <= i < |s| ==> IsHex(s[i]) && (base <= 10 ==> IsDigit(s[i]))
    decreases n
  {
    if n < base then [DigitChar(n)]
    else if base == 10 then Numeral(n / 10, 10) + [DigitChar(n % 10)]
    else Numeral(n / 16, 16) + [DigitChar(n % 16)]
  }

  lemma {:induction false} FoldLast(s: string, c: char, base: nat, acc: word)
    requires IsHex(c) && forall d :: d in s ==> IsHex(d)
    ensures forall d :: d in s + [c] ==> IsHex(d)
    ensures Fold(s + [c], base, acc) == Wrap(base * Fold(s, base, acc) + DigitValue(c))
    decreases |s|
  {
    if s != "" {
      assert s[0] in s;
      assert (s + [c])[1..] == s[1..] + [c];
      FoldLast(s[1..], c, base, Wrap(base * acc + DigitValue(s[0])));
    }
  }

  lemma WrapStep(base: nat, n: nat, d: nat)
    ensures Wrap(base * Wrap(n) + d) == Wrap(base * n + d)
  {
    var q := n / W;
    assert base * n + d == base * Wrap(n) + d + (base * q) * W by {
      assert n == q * W + Wrap(n);
      assert base * (q * W + Wrap(n)) == base * q * W + base * Wrap(n);
    }
    AddMultiple(base * Wrap(n) + d, base * q);
  }

  lemma AddMultiple(x: int, q: int)
    ensures Wrap(x + q * W) == Wrap(x)
  {
  }

  lemma OneDigit(n: nat, base: nat)
    requires (base == 10 || base == 16) && n < base
    ensures Fold([DigitChar(n)], base, 0) == Wrap(n)
  {
    assert [DigitChar(n)][1..] == "";
  }

  lemma {:induction false} NumeralFolds(n: nat, base: nat)
    requires base == 10 || base == 16
    ensures Fold(Numeral(n, base), base, 0) == Wrap(n)
    decreases n
  {
    hide Fold, Wrap;
    if n < base {
      OneDigit(n, base);
    } else {
      NumeralFolds(n / base, base);
      FoldLast(Numeral(n / base, base), DigitChar(n % base), base, 0);
      WrapStep(base, n / base, n % base);
      assert base * (n / base) + n % base == n;
    }
  }

  lemma LeadingZero(s: string)
    requires forall c :: c in s ==> IsHex(c)
    ensures IsHexNumeral("0" + s) && Fold("0" + s, 16, 0) == Fold(s, 16, 0)
  {
    assert ("0" + s)[1..] == s;
  }

  lemma LeadingSign(s: string)
    requires forall c :: c in s ==> IsDigit(c)
    ensures IsDecNumeral("#" + s) && ("#" + s)[1..] == s
  {
  }

  /** A numeral of any natural number is read as that number modulo 2^32: hexadecimal behind
      a leading zero, which a numeral that starts with a letter needs, or decimal behind '#'. */
  lemma NumeralsSpell(n: nat, env: Env)
    ensures Spells("0" + Numeral(n, 16), Number(Wrap(n)), env)
    ensures Spells("#" + Numeral(n, 10), Number(Wrap(n)), env)
    ensures Spells(Numeral(n, 16), Number(Wrap(n)), env) <== IsDigit(Numeral(n, 16)[0])
  {
    hide Fold, Numeral, Wrap, IsHex, IsDigit;
    NumeralFolds(n, 16);
    NumeralFolds(n, 10);
    LeadingZero(Numeral(n, 16));
    LeadingSign(Numeral(n, 10));
  }

  // ---------------------------------------------------------------- printed trees

  lemma Between(a: seq<Token>, t: Token, b: seq<Token>)
    requires Apart(a) && Apart(b) && !Wordy(t)
    ensures Apart(a + [t] + b)
  {
  }

  lemma {:induction false} BareApart(t: Tree)
    ensures Apart(Bare(t))
    decreases t, 0
  {
    hide Apart;
    match t
    case Num(v) =>
      OneApart(Number(v));
    case Neg(e) =>
      TokensApart(e, 4);
      Between([], Minus, Tokens(e, 4));
      assert [] + [Minus] + Tokens(e, 4) == Bare(t);
    case Paren(e) =>
      TokensApart(e, 0);
      OneApart(Lparen);
      Between([], Lparen, Tokens(e, 0));
      Between([] + [Lparen] + Tokens(e, 0), Rparen, []);
      assert [] + [Lparen] + Tokens(e, 0) + [Rparen] + [] == Bare(t);
    case Bin(op, l, r) =>
      TokensApart(l, LeftLevel(op));
      TokensApart(r, RightLevel(op));
      Between(Tokens(l, LeftLevel(op)), OpToken(op), Tokens(r, RightLevel(op)));
    case Call(name, args) =>
      OneApart(Funct(name));
      ArgsApart(args);
      Between([Funct(name)], Lparen, ArgTokens(args));
      Between([Funct(name)] + [Lparen] + ArgTokens(args), Rparen, []);
      assert [Funct(name)] + [Lparen] + ArgTokens(args) + [Rparen] + [] == Bare(t);
  }

  lemma OneApart(t: Token)
    ensures Apart([t]) && Apart([])
  {
  }

  lemma {:induction false} ArgsApart(ts: seq<Tree>)
    ensures Apart(ArgTokens(ts))
    decreases ts, 0
  {
    if ts != [] {
      TokensApart(ts[0], 0);
      ArgsApart(ts[1..]);
      Between(Tokens(ts[0], 0), Comma, ArgTokens(ts[1..]));
    }
  }

  lemma {:induction false} TokensApart(t: Tree, level: nat)
    ensures Apart(Tokens(t, level))
    decreases t, 1
  {
    BareApart(t);
    OneApart(Lparen);
    Between([], Lparen, Bare(t));
    Between([] + [Lparen] + Bare(t), Rparen, []);
    assert [] + [Lparen] + Bare(t) + [Rparen] + [] == [Lparen] + Bare(t) + [Rparen];
  }

  /** The round trip on strings: a sensible expression printed with the parentheses it needs and
      any others, in any spelling of its numbers and names and with any blanks, is read to its
      end without an error and has the expression's value, or traps where it has none. */
  lemma PrintedTextParsesBack(t: Tree, texts: seq<string>, gaps: seq<string>, ival: word, env: Env)
    returns (j: word)
    requires Sensible(t, env) && Spelled(texts, gaps, Tokens(t, 0), env)
    ensures Parse(LexAll(Layout(texts, gaps), env), ival, env)
      == if Eval(t, env).None? then Trap else At(Stand([Eol], j, false), Eval(t, env).value)
  {
    hide Eval, Sensible, Parse, Layout, LexAll, Spelled;
    TokensApart(t, 0);
    LayoutScans(texts, gaps, Tokens(t, 0), env);
    j := PrintedTreesParseBack(t, ival, env);
  }
}
