/**
 What the scanner of eagletests/eagletest/exprparse.c takes characters for: classes, digits, names and
 numerals.
 */
module ExprScan {
  import opened ExprGrammar
  import opened ExprLexer
  import opened Options
  import opened Words

  /** The classes of characters, by their codes. */
  lemma Classes(c: char)
    ensures var x := c as int;
      && (IsNameStart(c) <==> 97 <= x <= 122 || 65 <= x <= 90 || x == 95)
      && (IsDigit(c) <==> 48 <= x <= 57)
      && (IsNameChar(c) <==> 97 <= x <= 122 || 65 <= x <= 90 || x == 95 || 48 <= x <= 57)
      && (IsHex(c) <==> 48 <= x <= 57 || 97 <= x <= 102 || 65 <= x <= 70)
  {
  }

  const LOWER := "0123456789abcdef"
  const UPPER := "0123456789ABCDEF"

  /** A digit counts for its place among the sixteen, in either case. */
  lemma DigitsCount(d: nat)
    requires d < 16
    ensures IsHex(LOWER[d]) && IsHex(UPPER[d]) && DigitValue(LOWER[d]) == DigitValue(UPPER[d]) == d
  {
  }

  /** The number that digits denote, the last one counting once. */
  function NumberOf(s: string, base: nat): nat
    requires forall c :: c in s ==> IsHex(c)
    decreases |s|
  {
    if s == "" then 0 else NumberOf(s[..|s| - 1], base) * base + DigitValue(s[|s| - 1])
  }

  lemma {:induction false} FoldLast(s: string, c: char, base: nat, acc: word)
    requires IsHex(c) && forall x :: x in s ==> IsHex(x)
    ensures forall x :: x in s + [c] ==> IsHex(x)
    ensures Fold(s + [c], base, acc) == Wrap(base * Fold(s, base, acc) + DigitValue(c))
    decreases |s|
  {
    hide IsHex, DigitValue, Wrap;
    if s == "" {
      assert s + [c] == [c] && [c][1..] == "";
    } else {
      assert (s + [c])[1..] == s[1..] + [c];
      FoldLast(s[1..], c, base, Wrap(base * acc + DigitValue(s[0])));
    }
  }

  /** A numeral stands for its number modulo 2^32. */
  lemma {:induction false} NumeralsDenote(s: string, base: nat)
    requires forall c :: c in s ==> IsHex(c)
    ensures Fold(s, base, 0) == NumberOf(s, base) % 0x1_0000_0000
    decreases |s|
  {
    hide IsHex, DigitValue;
    if s != "" {
      var t := s[..|s| - 1];
      assert s == t + [s[|s| - 1]];
      NumeralsDenote(t, base);
      FoldLast(t, s[|s| - 1], base, 0);
      TimesModulo(NumberOf(t, base), base, DigitValue(s[|s| - 1]));
    }
  }

  lemma TimesModulo(n: nat, base: nat, d: nat)
    ensures (base * (n % W) + d) % W == (n * base + d) % W
  {
    var q := n / W;
    assert n == q * W + n % W;
    assert n * base == base * q * W + base * (n % W);
    Vanishes(base * q, base * (n % W) + d);
  }

  lemma Vanishes(k: nat, x: nat)
    ensures (k * W + x) % W == x % W
  {
  }

  /** A text in small letters. */
  predicate InSmall(s: string, l: string) {
    && |l| == |s|
    && forall i :: 0 <= i < |s| ==> l[i] == if 65 <= (s[i] as int) <= 90 then ((s[i] as int) + 32) as char else s[i]
  }

  lemma {:induction false} LowerIsSmall(s: string)
    ensures InSmall(s, Lower(s))
    decreases |s|
  {
    if s != "" {
      LowerIsSmall(s[1..]);
      forall i | 0 < i < |s|
        ensures Lower(s)[i] == if 65 <= (s[i] as int) <= 90 then ((s[i] as int) + 32) as char else s[i]
      {
        assert Lower(s)[i] == Lower(s[1..])[i - 1] && s[1..][i - 1] == s[i];
      }
    }
  }

  /** A name is a function as it is written, otherwise a symbol in small letters with its value, and
      otherwise, or where that value is negative, an error. */
  lemma NamesMean(name: string, l: string, env: Env)
    requires InSmall(name, l)
    ensures NameToken(name, env)
      == if name in env.functions then Funct(name)
         else if l !in env.symbols then Unknown(0xffff_ffff)
         else if env.symbols[l] >= 0x8000_0000 then Unknown(env.symbols[l])
         else Number(env.symbols[l])
  {
    LowerIsSmall(name);
    assert Lower(name) == l;
  }

  /** Names have up to 20 characters; a longer one is an error, behind the character after those. */
  lemma NamesAreShort(w: string, s: string, env: Env)
    requires IsName(w) && (s != "" ==> !IsNameChar(s[0]))
    ensures Head(w + s, env) == if |w| <= 20 then (NameToken(w, env), s) else (TooLong, (w + s)[21..])
  {
    hide NameToken;
    RunStops(w, s, IsNameChar);
  }
}
