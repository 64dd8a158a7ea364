/**
 The terminal translator of src/esc_sequences.c: EVDT sequences in, VT100 sequences out, one
 character at a time.  Characters are the 7 bit ones the tables cover.
 */
module EscSequences {
  import opened Options

  const ESC: char := 27 as char
  const MAXLEN: nat := 5

  predicate SevenBit(c: char) { (c as int) < 128 }

  predicate Control(c: char) { (c as int) < 32 }

  // ---------------------------------------------------------------- the tables

  /** Characters after ESC that make a sequence complete; at least the first is taken. */
  function ArgsIn(k: char): (n: nat)
    ensures n <= 3
  {
    if k == '=' then 3
    else if k == 'F' || k == 'g' then 2
    else if k in "\"#&'*+4567?ABEQRTWY[" then 1
    else 0
  }

  function Needed(k: char): (n: nat)
    ensures 1 <= n <= 3
  {
    if ArgsIn(k) == 0 then 1 else ArgsIn(k)
  }

  function Csi(s: string): string { [ESC] + "[" + s }

  /** Sequences without arguments; everything else is swallowed. */
  function Fixed(k: char): string {
    match k
    case '&' => Csi("1\"q")
    case '\'' => Csi("0\"q")
    case '*' => Csi("2J") + Csi("H")
    case '+' => Csi("?2J")
    case 'E' => Csi("L")
    case 'Q' => Csi("@")
    case 'R' => Csi("M")
    case 'T' => Csi("K")
    case 'W' => Csi("P")
    case 'Y' => Csi("J")
    case '[' => Csi("H")
    case _ => ""
  }

  /** Attributes, by the second character; the fourth lacks a letter in the source's table. */
  function Attribute(a: char): string {
    match a
    case '0' => Csi("0\"q") + Csi("0m")
    case '1' => Csi("0\"q") + Csi("0m") + Csi("4m")
    case '2' => Csi("0\"q") + Csi("0m") + Csi("5m")
    case '3' => Csi("0\"q") + Csi("0m") + Csi("4") + Csi("5m")
    case '4' => Csi("0\"q") + Csi("0m") + Csi("7m")
    case '5' => Csi("0\"q") + Csi("0m") + Csi("7m") + Csi("4m")
    case '6' => Csi("0\"q") + Csi("0m") + Csi("7m") + Csi("5m")
    case '7' => Csi("0\"q") + Csi("0m") + Csi("7m") + Csi("4m") + Csi("5m")
    case '8' => Csi("1\"q") + Csi("0m") + Csi("2m")
    case '9' => Csi("1\"q") + Csi("0m") + Csi("2m") + Csi("4m")
    case 'A' => Csi("1\"q") + Csi("0m") + Csi("2m") + Csi("5m")
    case 'B' => Csi("1\"q") + Csi("0m") + Csi("2m") + Csi("4m") + Csi("5m")
    case 'C' => Csi("1\"q") + Csi("0m") + Csi("2m") + Csi("7m")
    case 'D' => Csi("1\"q") + Csi("0m") + Csi("2m") + Csi("7m") + Csi("4m")
    case 'E' => Csi("1\"q") + Csi("0m") + Csi("2m") + Csi("7m") + Csi("5m")
    case 'F' => Csi("1\"q") + Csi("0m") + Csi("2m") + Csi("7m") + Csi("5m") + Csi("4m")
    case _ => ""
  }

  function Digits(n: nat): (s: string)
    ensures s != "" && forall i :: 0 <= i < |s| ==> '0' <= s[i] <= '9'
  {
    (if n < 10 then "" else Digits(n / 10)) + [(48 + n % 10) as char]
  }

  /** A number as %d prints it. */
  function Decimal(n: int): string { if n < 0 then "-" + Digits(-n) else Digits(n) }

  /** What a complete sequence is translated to, given the characters after ESC. */
  function Emit(seqBuf: string): string
    requires seqBuf != "" && |seqBuf| >= Needed(seqBuf[0])
  {
    if seqBuf[0] == '=' then Csi(Decimal((seqBuf[1] as int) - 31) + ";" + Decimal((seqBuf[2] as int) - 31) + "H")
    else if seqBuf[0] == 'g' then Attribute(seqBuf[1])
    else Fixed(seqBuf[0])
  }

  function Single(c: char): string {
    if c == 11 as char then Csi("A") else if c == 12 as char then Csi("C") else [c]
  }

  // ---------------------------------------------------------------- a character at a time

  datatype State = Idle | Within(seqBuf: string)

  predicate Reachable(st: State) {
    match st
    case Idle => true
    case Within(b) => b == "" || (!Control(b[0]) && |b| < Needed(b[0]))
  }

  function Step(st: State, c: char): (r: (string, State))
    requires Reachable(st)
    ensures Reachable(r.1)
  {
    match st
    case Idle => if c == ESC then ("", Within("")) else (Single(c), Idle)
    case Within(b) =>
      if b == "" && Control(c) then ([ESC, c], Idle)
      else if |b + [c]| >= Needed((b + [c])[0]) then (Emit(b + [c]), Idle)
      else ("", Within(b + [c]))
  }

  function Run(st: State, s: string): (r: (string, State))
    requires Reachable(st)
    ensures Reachable(r.1)
    decreases |s|
  {
    if s == "" then ("", st) else
    var (out, st') := Step(st, s[0]);
    var (more, z) := Run(st', s[1..]);
    (out + more, z)
  }

  // ---------------------------------------------------------------- the grammar

  /** A whole stream at once: plain characters, control characters behind ESC passed on with
      it, and sequences; an unfinished sequence at the end gives nothing. */
  function Translation(s: string): string
    decreases |s|
  {
    if s == "" then ""
    else if s[0] != ESC then Single(s[0]) + Translation(s[1..])
    else if |s| == 1 then ""
    else if Control(s[1]) then [ESC, s[1]] + Translation(s[2..])
    else
      var n := 1 + Needed(s[1]);
      if |s| < n then "" else Emit(s[1..n]) + Translation(s[n..])
  }

  /** What of a stream is an unfinished sequence. */
  function Open(s: string): State
    decreases |s|
  {
    if s == "" then Idle
    else if s[0] != ESC then Open(s[1..])
    else if |s| == 1 then Within("")
    else if Control(s[1]) then Open(s[2..])
    else
      var n := 1 + Needed(s[1]);
      if |s| < n then Within(s[1..]) else Open(s[n..])
  }

  lemma RunStep(st: State, s: string)
    requires Reachable(st) && s != ""
    ensures var (out, st') := Step(st, s[0]);
      && Run(st, s) == (out + Run(st', s[1..]).0, Run(st', s[1..]).1)
      && (out == "" ==> Run(st, s) == Run(st', s[1..]))
  {
    assert "" + Run(Step(st, s[0]).1, s[1..]).0 == Run(Step(st, s[0]).1, s[1..]).0;
  }

  lemma RunEnds(st: State)
    requires Reachable(st)
    ensures Run(st, "") == ("", st)
  {
  }

  /** Inside a sequence: what is still missing is collected, then it is translated. */
  lemma {:induction false} RunWithin(b: string, s: string)
    requires Reachable(Within(b)) && b != ""
    ensures var m := Needed(b[0]) - |b|;
      Run(Within(b), s)
      == if |s| < m then ("", Within(b + s)) else (Emit(b + s[..m]) + Run(Idle, s[m..]).0, Run(Idle, s[m..]).1)
    decreases |s|
  {
    hide Emit, Needed, Run;
    var m := Needed(b[0]) - |b|;
    if s == "" {
      RunEnds(Within(b));
      assert b + s == b;
    } else {
      RunStep(Within(b), s);
      var b' := b + [s[0]];
      assert b'[0] == b[0];
      if m == 1 {
        assert s[..1] == [s[0]];
        assert Step(Within(b), s[0]) == (Emit(b'), Idle);
      } else {
        assert Step(Within(b), s[0]) == ("", Within(b'));
        RunWithin(b', s[1..]);
        assert b' + s[1..] == b + s;
        if |s| >= m {
          assert b' + s[1..][..m - 1] == b + s[..m];
          assert s[1..][m - 1..] == s[m..];
        }
      }
    }
  }

  /** The translator is the grammar: for every stream, what it puts out character by character
      is the translation of the whole, and what it still holds is the unfinished sequence. */
  lemma {:induction false} StreamsTranslate(s: string)
    ensures Run(Idle, s) == (Translation(s), Open(s))
    decreases |s|
  {
    hide Run, Emit, Needed, Single;
    if s == "" {
      RunEnds(Idle);
    } else {
      RunStep(Idle, s);
      if s[0] != ESC {
        StreamsTranslate(s[1..]);
      } else if |s| == 1 {
        assert s[1..] == "";
        RunEnds(Within(""));
      } else {
        SecondCharacter(s);
        if Control(s[1]) {
          StreamsTranslate(s[2..]);
        } else if |s| >= 1 + Needed(s[1]) {
          StreamsTranslate(s[1 + Needed(s[1])..]);
        }
      }
    }
  }

  lemma SecondCharacter(s: string)
    requires |s| >= 2 && s[0] == ESC
    ensures Run(Within(""), s[1..])
      == if Control(s[1]) then ([ESC, s[1]] + Run(Idle, s[2..]).0, Run(Idle, s[2..]).1)
         else if |s| < 1 + Needed(s[1]) then ("", Within(s[1..]))
         else (Emit(s[1..1 + Needed(s[1])]) + Run(Idle, s[1 + Needed(s[1])..]).0, Run(Idle, s[1 + Needed(s[1])..]).1)
  {
    hide Run, Emit, Needed;
    RunStep(Within(""), s[1..]);
    assert s[1..][1..] == s[2..];
    var k := [s[1]];
    assert "" + k == k;
    if !Control(s[1]) {
      if Needed(s[1]) == 1 {
        assert s[1..2] == k;
      } else {
        RunWithin(k, s[2..]);
        assert k + s[2..] == s[1..];
        var m := Needed(s[1]) - 1;
        if |s[2..]| >= m {
          assert k + s[2..][..m] == s[1..1 + Needed(s[1])];
          assert s[2..][m..] == s[1 + Needed(s[1])..];
        }
      }
    }
  }

  /** No sequence stays open for more than three characters after its ESC, so its buffer of
      five is never exhausted. */
  lemma SequencesClose(st: State, s: string)
    requires Reachable(st) && st.Within? && |s| >= 3
    ensures exists n: nat :: n <= 3 && Run(st, s[..n]).1 == Idle
  {
    hide Run, Emit, Reachable;
    if st.seqBuf == "" {
      FreshCloses(s);
    } else {
      BegunCloses(st.seqBuf, s);
    }
  }

  lemma FreshCloses(s: string)
    requires |s| >= 3
    ensures exists n: nat :: n <= 3 && Run(Within(""), s[..n]).1 == Idle
  {
    hide Run, Emit, Needed, Step;
    var n := if Control(s[0]) then 1 else Needed(s[0]);
    var t := [ESC] + s[..n];
    SecondCharacter(t);
    assert t[1] == s[0] && t[1..] == s[..n] && t[1 + n..] == "";
    RunEnds(Idle);
    assert Run(Within(""), s[..n]).1 == Idle;
  }

  lemma BegunCloses(b: string, s: string)
    requires Reachable(Within(b)) && b != "" && |s| >= 3
    ensures exists n: nat :: n <= 3 && Run(Within(b), s[..n]).1 == Idle
  {
    hide Run, Emit, Needed, Step;
    var m := Needed(b[0]) - |b|;
    RunWithin(b, s[..m]);
    assert s[..m][m..] == "";
    RunEnds(Idle);
    assert Run(Within(b), s[..m]).1 == Idle;
  }

  /** A control character behind ESC, whatever it is, is passed on with it. */
  lemma ControlsPassOn(c: char, s: string)
    requires c < 32 as char
    ensures Translation([27 as char, c] + s) == [27 as char, c] + Translation(s)
  {
    assert ([ESC, c] + s)[2..] == s;
  }

  /** The terminal description gives home three characters, but the table completes the
      sequence after two: the third is printed. */
  lemma HomeLeavesALetter()
    ensures Translation([ESC, '[', 'H']) == Csi("H") + "H"
  {
  }

  // ---------------------------------------------------------------- cursor positions

  /** Reads a decimal number off a text: an optional sign and digits. */
  function ReadDigits(s: string, acc: nat): (int, string)
    decreases |s|
  {
    if s != "" && '0' <= s[0] <= '9' then ReadDigits(s[1..], 10 * acc + ((s[0] as int) - 48)) else (acc, s)
  }

  function ReadNumber(s: string): (int, string) {
    if s != "" && s[0] == '-' then (-ReadDigits(s[1..], 0).0, ReadDigits(s[1..], 0).1) else ReadDigits(s, 0)
  }

  /** Reads a VT100 cursor position. */
  function ReadPosition(s: string): Option<(int, int)> {
    if |s| < 2 || s[0] != ESC || s[1] != '[' then None else
    var (row, t) := ReadNumber(s[2..]);
    if t == "" || t[0] != ';' then None else
    var (col, u) := ReadNumber(t[1..]);
    if u == "H" then Some((row, col)) else None
  }

  predicate StopsDigits(s: string) { s == "" || !('0' <= s[0] <= '9') }

  lemma {:induction false} DigitsRead(n: nat, s: string)
    ensures ReadDigits(Digits(n) + s, 0) == ReadDigits(s, n)
    decreases n
  {
    var d := [(48 + n % 10) as char];
    if n < 10 {
      assert Digits(n) + s == d + s;
      assert (d + s)[1..] == s;
    } else {
      assert Digits(n) + s == Digits(n / 10) + (d + s);
      DigitsRead(n / 10, d + s);
      assert (d + s)[1..] == s;
    }
  }

  lemma NumberReads(n: int, s: string)
    requires StopsDigits(s)
    ensures ReadNumber(Decimal(n) + s) == (n, s)
  {
    hide Digits;
    if n < 0 {
      var d := Digits(-n);
      assert (Decimal(n) + s)[1..] == d + s;
      DigitsRead(-n, s);
    } else {
      assert (Digits(n) + s)[0] == Digits(n)[0];
      DigitsRead(n, s);
    }
  }

  /** The position sent to the terminal is the one asked for: reading it back gives the row and
      column of the EVDT sequence, which count from 0 at a blank, plus one. */
  lemma PositionRoundTrips(row: char, col: char)
    ensures ReadPosition(Emit("=" + [row, col])) == Some(((row as int) - 32 + 1, (col as int) - 32 + 1))
  {
    hide Decimal, ReadNumber;
    var (y, x) := ((row as int) - 31, (col as int) - 31);
    var tail := ";" + (Decimal(x) + "H");
    var s := Emit("=" + [row, col]);
    assert s[2..] == Decimal(y) + tail;
    NumberReads(y, tail);
    assert tail[1..] == Decimal(x) + "H";
    NumberReads(x, "H");
  }

  // ---------------------------------------------------------------- lengths

  lemma DecimalIsShort(n: int)
    requires -100 < n < 1000
    ensures |Decimal(n)| <= 3
  {
    var m := if n < 0 then -n else n;
    if m >= 100 {
      assert Digits(m) == Digits(m / 10) + [(48 + m % 10) as char];
      assert Digits(m / 10) == Digits(m / 100) + [(48 + m / 10 % 10) as char];
    } else if m >= 10 {
      assert Digits(m) == Digits(m / 10) + [(48 + m % 10) as char];
    }
  }

  /** A state built of 7 bit characters. */
  predicate Plain(st: State) { st.Within? ==> forall i :: 0 <= i < |st.seqBuf| ==> SevenBit(st.seqBuf[i]) }

  /** No character makes the translator put out more than 25. */
  lemma OutputFits(st: State, c: char)
    requires Reachable(st) && Plain(st) && SevenBit(c)
    ensures |Step(st, c).0| <= 25 && Plain(Step(st, c).1)
  {
    hide Decimal, Attribute, Fixed, Needed;
    match st
    case Idle =>
    case Within(b) =>
      var k := b + [c];
      if |k| >= Needed(k[0]) && !(b == "" && Control(c)) {
        FixedIsShort(k[0]);
        NeededAtLeast(k[0]);
        if k[0] == '=' {
          DecimalIsShort((k[1] as int) - 31);
          DecimalIsShort((k[2] as int) - 31);
        } else if k[0] == 'g' {
          AttributeIsShort(k[1]);
        }
      }
  }

  lemma NeededAtLeast(k: char)
    ensures (k == '=' ==> Needed(k) == 3) && (k == 'g' ==> Needed(k) == 2)
  {
  }

  lemma FixedIsShort(k: char)
    ensures |Fixed(k)| <= 7
  {
  }

  lemma AttributeIsShort(a: char)
    ensures |Attribute(a)| <= 25
  {
  }
}
