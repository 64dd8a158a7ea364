/**
 What the terminals at both ends of src/esc_sequences.c show: an EVDT reads the stream of the host, a
 VT100 reads its translation.
 */
module Terminal {
  import opened EscSequences
  import opened Options

  /** How characters are put on the screen. */
  datatype Rendition = Rendition(protect: bool, dim: bool, underline: bool, blink: bool, reverse: bool)

  /** What a terminal does with a stream, each character with the rendition it gets. */
  datatype Shown =
    | Put(c: char, r: Rendition)
    | Up | Right
    | MoveTo(row: int, col: int)
    | EraseAll | EraseUnprotected | EraseDown | EraseLine
    | InsertLine | DeleteLine | InsertChar | DeleteChar

  // ---------------------------------------------------------------- the EVDT

  /** The digit of an attribute: 0 to 9 and A to F. */
  function AttributeOf(a: char): Option<nat> {
    if '0' <= a <= '9' then Some((a as int) - 48) else if 'A' <= a <= 'F' then Some((a as int) - 55) else None
  }

  /** The bits of an attribute: underline, blink, reverse and dim, which is protected as well. */
  function Bits(k: nat): Rendition {
    Rendition(k / 8 % 2 == 1, k / 8 % 2 == 1, k % 2 == 1, k / 2 % 2 == 1, k / 4 % 2 == 1)
  }

  /** What the commands of one letter do; the others do nothing that shows. */
  function Does(k: char): seq<Shown> {
    if k == '[' then [MoveTo(1, 1)]
    else if k == '*' then [EraseAll, MoveTo(1, 1)]
    else if k == '+' then [EraseUnprotected]
    else if k == 'Y' then [EraseDown]
    else if k == 'T' then [EraseLine]
    else if k == 'Q' then [InsertChar]
    else if k == 'W' then [DeleteChar]
    else if k == 'E' then [InsertLine]
    else if k == 'R' then [DeleteLine]
    else []
  }

  function Sets(k: char, r: Rendition): Rendition {
    if k == '&' then r.(protect := true) else if k == '\'' then r.(protect := false) else r
  }

  /** The EVDT: up and right are control characters, `ESC =` moves to a row and column that count
      from a blank, `ESC g` sets the rendition, and `ESC F` takes one more character.  What the
      attributes look like is a parameter. */
  function Evdt(s: string, r: Rendition, attributes: nat -> Rendition): seq<Shown>
    decreases |s|
  {
    if s == "" then []
    else if s[0] == 11 as char then [Up] + Evdt(s[1..], r, attributes)
    else if s[0] == 12 as char then [Right] + Evdt(s[1..], r, attributes)
    else if s[0] != ESC then [Put(s[0], r)] + Evdt(s[1..], r, attributes)
    else if |s| == 1 then []
    else if s[1] == '=' then
      if |s| < 4 then [] else
      [MoveTo((s[2] as int) - 32 + 1, (s[3] as int) - 32 + 1)] + Evdt(s[4..], r, attributes)
    else if s[1] == 'g' then
      if |s| < 3 then [] else
      Evdt(s[3..], if AttributeOf(s[2]).Some? then attributes(AttributeOf(s[2]).value) else r, attributes)
    else if s[1] == 'F' then
      if |s| < 3 then [] else Evdt(s[3..], r, attributes)
    else Does(s[1]) + Evdt(s[2..], Sets(s[1], r), attributes)
  }

  // ---------------------------------------------------------------- the VT100

  predicate Parameter(c: char) { 32 <= (c as int) < 64 }

  /** The first character that is no parameter. */
  function Final(s: string): (n: nat)
    ensures n <= |s| && (n < |s| ==> !Parameter(s[n])) && forall i :: 0 <= i < n ==> Parameter(s[i])
  {
    if s == "" || !Parameter(s[0]) then 0 else 1 + Final(s[1..])
  }

  /** Control sequences by parameters and final letter. */
  function Act(p: string, f: char): seq<Shown> {
    if f == 'A' then [Up]
    else if f == 'C' then [Right]
    else if f == 'H' && p == "" then [MoveTo(1, 1)]
    else if f == 'H' then
      var at := ReadPosition(Csi(p + "H"));
      if at.Some? then [MoveTo(at.value.0, at.value.1)] else []
    else if f == 'J' && p == "2" then [EraseAll]
    else if f == 'J' && p == "?2" then [EraseUnprotected]
    else if f == 'J' then [EraseDown]
    else if f == 'K' then [EraseLine]
    else if f == 'L' then [InsertLine]
    else if f == 'M' then [DeleteLine]
    else if f == '@' then [InsertChar]
    else if f == 'P' then [DeleteChar]
    else []
  }

  function Renders(p: string, f: char, r: Rendition): Rendition {
    if f == 'q' && p == "1\"" then r.(protect := true)
    else if f == 'q' && p == "0\"" then r.(protect := false)
    else if f == 'm' && p == "0" then Rendition(r.protect, false, false, false, false)
    else if f == 'm' && p == "2" then r.(dim := true)
    else if f == 'm' && p == "4" then r.(underline := true)
    else if f == 'm' && p == "5" then r.(blink := true)
    else if f == 'm' && p == "7" then r.(reverse := true)
    else r
  }

  /** The VT100: control sequences are `ESC [`, parameters and a final letter; another ESC gives one
      up and starts over. */
  function Vt(s: string, r: Rendition): seq<Shown>
    decreases |s|
  {
    if s == "" then []
    else if s[0] != ESC then [Put(s[0], r)] + Vt(s[1..], r)
    else if |s| == 1 || s[1] != '[' then Vt(s[1..], r)
    else
      var n := 2 + Final(s[2..]);
      if n == |s| then []
      else if s[n] == ESC then Vt(s[n..], r)
      else Act(s[2..n], s[n]) + Vt(s[n + 1..], Renders(s[2..n], s[n], r))
  }

  predicate Parameters(p: string) { forall i :: 0 <= i < |p| ==> Parameter(p[i]) }

  lemma {:induction false} FinalIs(p: string, t: string)
    requires Parameters(p) && t != "" && !Parameter(t[0])
    ensures Final(p + t) == |p|
  {
    if p == "" {
      assert p + t == t;
    } else {
      assert (p + t)[1..] == p[1..] + t;
      FinalIs(p[1..], t);
    }
  }

  lemma SequenceReads(p: string, f: char, t: string, r: Rendition)
    requires Parameters(p) && !Parameter(f) && f != ESC
    ensures Vt(Csi(p + [f]) + t, r) == Act(p, f) + Vt(t, Renders(p, f, r))
  {
    hide Act, Renders;
    var s := Csi(p + [f]) + t;
    FinalIs(p, [f] + t);
    assert s[2..] == p + ([f] + t);
    assert s[2..2 + |p|] == p && s[3 + |p|..] == t && s[2 + |p|] == f;
  }

  lemma BrokenReads(p: string, t: string, r: Rendition)
    requires Parameters(p) && t != "" && t[0] == ESC
    ensures Vt(Csi(p) + t, r) == Vt(t, r)
  {
    hide Act, Renders;
    var s := Csi(p) + t;
    FinalIs(p, t);
    assert s[2..] == p + t && s[2 + |p|..] == t;
  }

  // ---------------------------------------------------------------- attributes

  /** Some of the sequences for reverse, underlined and blinking. */
  function Some3(reverse: bool, underline: bool, blink: bool): string {
    (if reverse then Csi("7m") else "") + (if underline then Csi("4m") else "") + (if blink then Csi("5m") else "")
  }

  function Head(dim: bool): string {
    if dim then Csi("1\"q") + Csi("0m") + Csi("2m") else Csi("0\"q") + Csi("0m")
  }

  lemma ModeReads(on: bool, p: string, f: char, t: string, r: Rendition)
    requires Parameters(p) && !Parameter(f) && f != ESC && Act(p, f) == []
    ensures Vt((if on then Csi(p + [f]) else "") + t, r) == Vt(t, if on then Renders(p, f, r) else r)
  {
    hide Vt, Act, Renders;
    if on {
      SequenceReads(p, f, t, r);
    } else {
      assert "" + t == t;
    }
  }

  lemma ModesRead(on: bool, t: string, r: Rendition)
    ensures Vt((if on then Csi("7m") else "") + t, r) == Vt(t, r.(reverse := r.reverse || on))
    ensures Vt((if on then Csi("4m") else "") + t, r) == Vt(t, r.(underline := r.underline || on))
    ensures Vt((if on then Csi("5m") else "") + t, r) == Vt(t, r.(blink := r.blink || on))
  {
    hide Vt;
    assert "7" + "m" == "7m" && "4" + "m" == "4m" && "5" + "m" == "5m";
    ModeReads(on, "7", 'm', t, r);
    ModeReads(on, "4", 'm', t, r);
    ModeReads(on, "5", 'm', t, r);
  }

  lemma Some3Reads(reverse: bool, underline: bool, blink: bool, t: string, r: Rendition)
    ensures Vt(Some3(reverse, underline, blink) + t, r)
      == Vt(t, Rendition(r.protect, r.dim, r.underline || underline, r.blink || blink, r.reverse || reverse))
  {
    hide Vt;
    var (a, b) := (if underline then Csi("4m") else "", if blink then Csi("5m") else "");
    hide Csi;
    var z := if reverse then Csi("7m") else "";
    assert Some3(reverse, underline, blink) == z + a + b;
    hide Some3;
    Associates(z, a, b, t);
    ModesRead(reverse, a + (b + t), r);
    var x := r.(reverse := r.reverse || reverse);
    ModesRead(underline, b + t, x);
    ModesRead(blink, t, x.(underline := r.underline || underline));
  }

  lemma Associates(a: string, b: string, c: string, d: string)
    ensures a + b + c + d == a + (b + (c + d))
  {
  }

  lemma HeadReads(dim: bool, t: string, r: Rendition)
    ensures Vt(Head(dim) + t, r) == Vt(t, Rendition(dim, dim, false, false, false))
  {
    hide Vt;
    var p := if dim then "1\"" else "0\"";
    var d := if dim then Csi("2m") else "";
    assert Head(dim) + t == Csi(p + "q") + (Csi("0m") + (d + t));
    assert "0" + "m" == "0m" && "2" + "m" == "2m";
    ModeReads(true, p, 'q', Csi("0m") + (d + t), r);
    ModeReads(true, "0", 'm', d + t, r.(protect := dim));
    ModeReads(dim, "2", 'm', t, Rendition(dim, false, false, false, false));
  }

  lemma AttributeSends(a: char)
    requires AttributeOf(a).Some? && a != '3' && a != 'F'
    ensures var b := Bits(AttributeOf(a).value);
      Attribute(a) == Head(b.dim) + Some3(b.reverse, b.underline, b.blink)
  {
  }

  /** What attribute 3, blinking and underlined, and every other one becomes: 3 is sent without the
      letter that ends the first of its two parts, so it is not underlined. */
  function Got(k: nat): Rendition { if k == 3 then Bits(2) else Bits(k) }

  lemma AttributeReads(a: char, t: string, r: Rendition)
    requires AttributeOf(a).Some?
    ensures Vt(Attribute(a) + t, r) == Vt(t, Got(AttributeOf(a).value))
  {
    hide Vt, Some3, Csi;
    var b := Bits(AttributeOf(a).value);
    if a == '3' {
      BothReads(t, r);
    } else if a == 'F' {
      AllReads(t, r);
    } else {
      AttributeSends(a);
      var m := Some3(b.reverse, b.underline, b.blink);
      assert Attribute(a) + t == Head(b.dim) + (m + t);
      hide Attribute, Head;
      HeadReads(b.dim, m + t, r);
      Some3Reads(b.reverse, b.underline, b.blink, t, Rendition(b.dim, b.dim, false, false, false));
    }
  }

  lemma BothReads(t: string, r: Rendition)
    ensures Vt(Attribute('3') + t, r) == Vt(t, Bits(2))
  {
    hide Vt;
    assert Attribute('3') + t == Head(false) + (Csi("4") + (Csi("5m") + t));
    HeadReads(false, Csi("4") + (Csi("5m") + t), r);
    BrokenReads("4", Csi("5m") + t, Bits(0));
    ModesRead(true, t, Bits(0));
  }

  lemma AllReads(t: string, r: Rendition)
    ensures Vt(Attribute('F') + t, r) == Vt(t, Bits(15))
  {
    hide Vt;
    assert Attribute('F') + t == Head(true) + (Csi("7m") + (Csi("5m") + (Csi("4m") + t)));
    hide Attribute, Csi;
    HeadReads(true, Csi("7m") + (Csi("5m") + (Csi("4m") + t)), r);
    ModesRead(true, Csi("5m") + (Csi("4m") + t), Bits(8));
    ModesRead(true, Csi("4m") + t, Bits(12));
    ModesRead(true, t, Bits(14));
  }

  // ---------------------------------------------------------------- whole streams

  /** The EVDT's command without the attribute that the translator spoils. */
  lemma PositionReads(row: char, col: char, t: string, r: Rendition)
    ensures Vt(Emit("=" + [row, col]) + t, r)
      == [MoveTo((row as int) - 32 + 1, (col as int) - 32 + 1)] + Vt(t, r)
  {
    hide Vt, Decimal, ReadPosition;
    PositionRoundTrips(row, col);
    var p := Decimal((row as int) - 31) + ";" + Decimal((col as int) - 31);
    assert Emit("=" + [row, col]) == Csi(p + "H");
    DecimalIsParameter((row as int) - 31);
    DecimalIsParameter((col as int) - 31);
    SequenceReads(p, 'H', t, r);
  }

  lemma DecimalIsParameter(n: int)
    ensures Parameters(Decimal(n)) && Decimal(n) != ""
  {
  }

  lemma FixedReadsAs(k: char, p: string, f: char, t: string, r: Rendition)
    requires Fixed(k) == Csi(p + [f]) && Parameters(p) && !Parameter(f) && f != ESC
    requires Act(p, f) == Does(k) && Renders(p, f, r) == Sets(k, r)
    ensures Vt(Fixed(k) + t, r) == Does(k) + Vt(t, Sets(k, r))
  {
    hide Vt, Act, Renders, Does, Sets, Fixed;
    SequenceReads(p, f, t, r);
  }

  lemma ClearReads(t: string, r: Rendition)
    ensures Vt(Fixed('*') + t, r) == Does('*') + Vt(t, Sets('*', r))
  {
    hide Vt;
    assert Fixed('*') + t == Csi("2" + "J") + (Csi("" + "H") + t);
    SequenceReads("2", 'J', Csi("" + "H") + t, r);
    SequenceReads("", 'H', t, r);
  }

  lemma EmptyParameters()
    ensures Parameters("")
  {
  }

  lemma LetterReads(k: char, f: char, t: string, r: Rendition)
    requires match k
      case '[' => f == 'H'
      case 'Y' => f == 'J'
      case 'T' => f == 'K'
      case 'Q' => f == '@'
      case 'W' => f == 'P'
      case 'E' => f == 'L'
      case 'R' => f == 'M'
      case _ => false
    ensures Vt(Fixed(k) + t, r) == Does(k) + Vt(t, Sets(k, r))
  {
    hide Vt, ReadPosition, Evdt, Parameters;
    assert Parameters("") by { EmptyParameters(); }
    assert "" + [f] == [f];
    FixedReadsAs(k, "", f, t, r);
  }

  lemma FixedReads(k: char, t: string, r: Rendition)
    ensures Vt(Fixed(k) + t, r) == Does(k) + Vt(t, Sets(k, r))
  {
    hide Vt, ReadPosition, Csi;
    match k
    case '[' => LetterReads(k, 'H', t, r);
    case 'Y' => LetterReads(k, 'J', t, r);
    case 'T' => LetterReads(k, 'K', t, r);
    case 'Q' => LetterReads(k, '@', t, r);
    case 'W' => LetterReads(k, 'P', t, r);
    case 'E' => LetterReads(k, 'L', t, r);
    case 'R' => LetterReads(k, 'M', t, r);
    case '*' => ClearReads(t, r);
    case '+' => assert "?2" + "J" == "?2J"; FixedReadsAs(k, "?2", 'J', t, r);
    case '&' => assert "1\"" + "q" == "1\"q"; FixedReadsAs(k, "1\"", 'q', t, r);
    case '\'' => assert "0\"" + "q" == "0\"q"; FixedReadsAs(k, "0\"", 'q', t, r);
    case _ => NothingReads(k, t, r);
  }

  lemma NothingReads(k: char, t: string, r: Rendition)
    requires k !in "[YTQWER*+&\'"
    ensures Vt(Fixed(k) + t, r) == Does(k) + Vt(t, Sets(k, r))
  {
    hide Vt;
    assert "" + t == t;
  }

  /** No ESC stands right in front of a control character. */
  predicate Commands(s: string) { forall i :: 0 <= i < |s| - 1 && s[i] == ESC ==> s[i + 1] >= 32 as char }

  /** The host's terminal and the one it is translated for show the same: for every stream in which no
      ESC stands in front of a control character, the VT100 does with the translation what the EVDT
      does with the stream, the one attribute that Got names apart. */
  lemma {:induction false} StreamsShow(s: string, r: Rendition)
    requires Commands(s)
    ensures Vt(Translation(s), r) == Evdt(s, r, Got)
    decreases |s|
  {
    hide Vt, Got, Attribute, Fixed, Does, Sets, Needed, Emit, Single, Bits;
    VtEnds(r);
    if s == "" || (|s| == 1 && s[0] == ESC) {
    } else if s[0] != ESC {
      StreamsShow(s[1..], r);
      SingleReads(s[0], s[1..], r);
    } else {
      var (k, n) := (s[1], 1 + Needed(s[1]));
      NeededIs(k);
      if |s| >= n {
        var t := Translation(s[n..]);
        if k == '=' {
          assert s[1..4] == "=" + [s[2], s[3]];
          PositionReads(s[2], s[3], t, r);
          StreamsShow(s[4..], r);
        } else if k == 'g' {
          EmitAttribute(s[1..3], t, r);
          StreamsShow(s[3..], Sent(s[2], r));
        } else {
          assert Emit(s[1..n]) == Fixed(k) by { EmitFixed(s[1..n]); }
          FixedReads(k, t, r);
          if k == 'F' { NothingAsked(r); }
          StreamsShow(s[n..], Sets(k, r));
        }
      }
    }
  }

  lemma VtEnds(r: Rendition)
    ensures Vt("", r) == []
  {
  }

  lemma NeededIs(k: char)
    ensures Needed(k) == if k == '=' then 3 else if k == 'g' || k == 'F' then 2 else 1
  {
  }

  lemma EmitFixed(b: string)
    requires b != "" && |b| >= Needed(b[0]) && b[0] != '=' && b[0] != 'g'
    ensures Emit(b) == Fixed(b[0])
  {
  }

  lemma NothingAsked(r: Rendition)
    ensures Does('F') == [] && Sets('F', r) == r
  {
  }

  function Sent(a: char, r: Rendition): Rendition {
    if AttributeOf(a).Some? then Got(AttributeOf(a).value) else r
  }

  lemma EmitAttribute(b: string, t: string, r: Rendition)
    requires |b| == 2 && b[0] == 'g'
    ensures |b| >= Needed(b[0]) && Vt(Emit(b) + t, r) == Vt(t, Sent(b[1], r))
  {
    hide Vt;
    if AttributeOf(b[1]).Some? {
      AttributeReads(b[1], t, r);
    } else {
      assert Attribute(b[1]) == "" && "" + t == t;
    }
  }

  lemma SingleReads(c: char, s: string, r: Rendition)
    requires c != ESC && Vt(Translation(s), r) == Evdt(s, r, Got)
    ensures [c] + s != "" && Vt(Single(c) + Translation(s), r) == Evdt([c] + s, r, Got)
  {
    hide Translation;
    var t := Translation(s);
    assert ([c] + s)[1..] == s && ([c] + t)[1..] == t;
    assert "" + "A" == "A" && "" + "C" == "C";
    SequenceReads("", 'A', t, r);
    SequenceReads("", 'C', t, r);
  }

  lemma PlainShows(c: char, r: Rendition, f: nat -> Rendition)
    requires !Control(c)
    ensures Evdt([c], r, f) == [Put(c, r)]
  {
    assert [c][1..] == "" && Evdt("", r, f) == [];
  }

  /** Attribute 3 is the one that is not shown as asked for. */
  lemma ShownAsAskedIff(a: char, c: char, r: Rendition)
    requires c >= 32 as char && AttributeOf(a).Some?
    ensures Vt(Translation([ESC, 'g', a, c]), r) == Evdt([ESC, 'g', a, c], r, Bits) <==> a != '3'
  {
    hide Vt;
    var s := [ESC, 'g', a, c];
    StreamsShow(s, r);
    var k := AttributeOf(a).value;
    assert s[3..] == [c];
    assert forall f: nat -> Rendition :: Evdt(s, r, f) == Evdt([c], f(k), f);
    assert forall x: Rendition, f: nat -> Rendition :: Evdt([c], x, f) == [Put(c, x)] by {
      forall x: Rendition, f: nat -> Rendition ensures Evdt([c], x, f) == [Put(c, x)] { PlainShows(c, x, f); }
    }
    assert Bits(k).underline == Got(k).underline <==> k != 3;
  }
}
