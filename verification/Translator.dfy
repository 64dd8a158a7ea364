/**
 The translator of src/esc_sequences.c as it runs: a small sequence buffer and a caller's
 output buffer, filled as C strings are.
 */
module Translator {
  import opened EscSequences

  const NUL: char := '\0'

  /** The part of a text that fits a buffer, which keeps one place for the terminator. */
  function Fitting(s: string, size: nat): string
    requires size > 0
  {
    if |s| < size then s else s[..size - 1]
  }

  /** A buffer that begins with some characters and a terminator. */
  ghost predicate Holds(buf: array<char>, s: string)
    reads buf
  {
    |s| < buf.Length && buf[..|s|] == s && buf[|s|] == NUL
  }

  predicate NoNul(s: string) { forall i :: 0 <= i < |s| ==> s[i] != NUL }

  /** Appends a character behind the first terminator, if there is room. */
  method AddChar(c: char, buf: array<char>, ghost s: string)
    requires Holds(buf, s) && NoNul(s)
    modifies buf
    ensures Holds(buf, Fitting(s + [c], buf.Length))
  {
    var len := 0;
    assert forall i :: 0 <= i < |s| ==> buf[i] == buf[..|s|][i];
    while buf[len] != NUL
      invariant 0 <= len <= |s|
      decreases |s| - len
    {
      len := len + 1;
    }
    if len >= buf.Length - 1 {
      return;
    }
    buf[len] := c;
    buf[len + 1] := NUL;
    assert buf[..|s| + 1] == s + [c];
  }

  /** Copies a string into an empty buffer as far as it fits. */
  method AddStr(t: string, buf: array<char>)
    requires Holds(buf, "")
    modifies buf
    ensures Holds(buf, Fitting(t, buf.Length))
  {
    var space := buf.Length - 1;
    var n := if |t| > space then space else |t|;
    for i := 0 to n
      invariant buf[..i] == t[..i]
    {
      buf[i] := t[i];
      assert t[..i + 1] == t[..i] + [t[i]];
    }
    buf[n] := NUL;
    assert buf[..n] == t[..n];
    assert t[..|t|] == t;
  }

  class BfTranslator {
    var inSequence: bool
    var seqBuf: string

    ghost function State(): State
      reads this
    {
      if inSequence then Within(seqBuf) else Idle
    }

    constructor ()
      ensures State() == Idle
    {
      inSequence, seqBuf := false, "";
    }

    /** Takes one character.  The buffer holds what it is translated to, as far as that fits;
        the count returned is the full length. */
    method ProcessChar(c: char, outBuf: array<char>) returns (count: nat)
      requires outBuf.Length > 0 && Reachable(State())
      modifies this, outBuf
      ensures Reachable(State()) && State() == Step(old(State()), c).1
      ensures var out := Step(old(State()), c).0;
        count == |out| && Holds(outBuf, Fitting(out, outBuf.Length))
    {
      hide Emit, Single, Needed;
      outBuf[0] := NUL;
      assert outBuf[..0] == "";
      if !inSequence {
        if c == ESC {
          inSequence, seqBuf := true, "";
          return 0;
        }
        var t := Single(c);
        if |t| > 1 {
          AddStr(t, outBuf);
          return |t|;
        }
        SingleIs(c);
        AddChar(c, outBuf, "");
        assert "" + [c] == [c];
        return 1;
      }
      if seqBuf == "" {
        if Control(c) {
          AddChar(ESC, outBuf, "");
          assert "" + [ESC] == [ESC];
          AddChar(c, outBuf, Fitting([ESC], outBuf.Length));
          assert [ESC] + [c] == [ESC, c];
          inSequence := false;
          return 2;
        }
      }
      assert |seqBuf| < MAXLEN - 1;
      seqBuf := seqBuf + [c];
      if |seqBuf| >= Needed(seqBuf[0]) {
        var t := Emit(seqBuf);
        AddStr(t, outBuf);
        inSequence := false;
        return |t|;
      }
      return 0;
    }

    /** With room for the longest entry the output buffer holds everything. */
    method ProcessFully(c: char, outBuf: array<char>) returns (count: nat)
      requires outBuf.Length >= 26 && Reachable(State()) && Plain(State()) && SevenBit(c)
      modifies this, outBuf
      ensures Reachable(State()) && Plain(State()) && State() == Step(old(State()), c).1
      ensures count <= 25 && outBuf[..count] == Step(old(State()), c).0
    {
      OutputFits(State(), c);
      count := ProcessChar(c, outBuf);
    }
  }

  lemma SingleIs(c: char)
    ensures |Single(c)| > 0 && (|Single(c)| == 1 ==> Single(c) == [c])
  {
  }
}
