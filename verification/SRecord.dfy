/**
 The S-record loader of src/load.c, as a function of the file's text, and the promise made
 for it: a printed image loads completely, every damaged data record is counted.
 */
module SRecord {
  import opened Words
  import opened Bus

  // ---------------------------------------------------------------- reading

  function Head(s: string): char { if s == "" then '\0' else s[0] }

  function Drop(s: string, n: nat): (r: string)
    ensures |r| <= |s| && (n > 0 && s != "" ==> |r| < |s|)
  {
    if n <= |s| then s[n..] else ""
  }

  function Nibble(c: char): (v: nat)
    ensures v < 16
  {
    if '0' <= c <= '9' then (c as int) - ('0' as int)
    else if 'A' <= c <= 'F' then (c as int) - ('A' as int) + 10
    else 0
  }

  /** Two hexadecimal digits; anything else counts as zero, and so does the end of the file. */
  function GetByte(s: string): (r: (byte, string))
    ensures |r.1| <= |s|
  {
    (16 * Nibble(Head(s)) + Nibble(Head(Drop(s, 1))), Drop(s, 2))
  }

  predicate IsEol(c: char) { c == '\r' || c == '\n' }

  function SkipEols(s: string): (r: string)
    ensures |r| <= |s| && (r != "" ==> !IsEol(r[0]))
  {
    if s != "" && IsEol(s[0]) then SkipEols(s[1..]) else s
  }

  datatype Field = Field(value: nat, sum: nat, rest: string)

  /** A big endian number of n bytes, added to the byte sum. */
  function GetField(s: string, n: nat, acc: nat, sum: nat): (r: Field)
    ensures |r.rest| <= |s|
    decreases n
  {
    if n == 0 then Field(acc, sum, s) else
    var (b, t) := GetByte(s);
    GetField(t, n - 1, 256 * acc + b, sum + b)
  }

  datatype Saved = Saved(mem: map<word, byte>, good: bool, rest: string)

  /** The data of a record and its checksum. */
  function Save(mem: map<word, byte>, s: string, a: word, remaining: int, sum: nat): (r: Saved)
    ensures |r.rest| <= |s|
    decreases if remaining > 0 then remaining else 0
  {
    var (b, t) := GetByte(s);
    if remaining > 0 then Save(mem[a := b], t, Wrap(a + 1), remaining - 1, sum + b)
    else Saved(mem, (sum + b) % 256 == 255, t)
  }

  datatype Loaded = Loaded(mem: map<word, byte>, errs: nat, start: word)

  function DataWidth(cmd: char): nat { if cmd == '1' then 2 else if cmd == '2' then 3 else if cmd == '3' then 4 else 0 }

  function EndWidth(cmd: char): nat { if cmd == '9' then 2 else if cmd == '8' then 3 else if cmd == '7' then 4 else 0 }

  /** The records of a file.  A data record with a bad checksum is counted, after its bytes
      have been written; the checksum of the last record is not. */
  function Records(s: string, offset: word, diag: bool, st: Loaded): (r: Loaded)
    decreases |s|
  {
    var t := SkipEols(s);
    if Head(t) != 'S' then st else
    var u := SkipEols(Drop(t, 1));
    var cmd := Head(u);
    var (len, v) := GetByte(Drop(u, 1));
    if DataWidth(cmd) > 0 then
      var f := GetField(v, DataWidth(cmd), 0, len);
      var saved := Save(st.mem, f.rest, Wrap(f.value + offset), len - DataWidth(cmd) - 1, f.sum);
      Records(saved.rest, offset, diag, st.(mem := saved.mem, errs := st.errs + (if saved.good then 0 else 1)))
    else if EndWidth(cmd) > 0 then
      if len > EndWidth(cmd) then st.(start := Wrap(GetField(v, EndWidth(cmd), 0, len).value))
      else st.(errs := st.errs + 1)
    else if cmd == '4' || (cmd == '5' && diag) then Records(Drop(v, len), offset, diag, st)
    else if cmd == '0' || cmd == '5' || cmd == '6' then Records(Drop(v, 2 * len), offset, diag, st)
    else Records(v, offset, diag, st)
  }

  const NO_START: word := 0xffff_ffff

  /** A file may begin with one block of header of its own, as the diagnostic files do. */
  function Load(text: string, offset: word, mem: map<word, byte>): Loaded {
    if Head(text) == 'H' then
      if |text| < 4 then Loaded(mem, 1, NO_START) else Records(Drop(text, 512), offset, true, Loaded(mem, 0, NO_START))
    else Records(text, offset, false, Loaded(mem, 0, NO_START))
  }

  // ---------------------------------------------------------------- printing

  /** Records of an image: data, records the loader steps over, and notes in plain text. */
  datatype Record =
    | Data(width: nat, address: nat, bytes: seq<byte>)
    | Skipped(kind: char, payload: seq<byte>)
    | Note(kind: char, text: string)

  function Power256(n: nat): nat { if n == 0 then 1 else 256 * Power256(n - 1) }

  predicate Printable(r: Record, diag: bool) {
    match r
    case Data(w, a, bs) => 2 <= w <= 4 && a < Power256(w) && w + |bs| + 1 < 256
    case Skipped(k, p) => |p| < 256 && (k == '0' || k == '6' || (k == '5' && !diag))
    case Note(k, text) => |text| < 256 && (k == '4' || (k == '5' && diag))
  }

  function HexDigit(d: nat): (c: char)
    requires d < 16
    ensures Nibble(c) == d
  {
    if d < 10 then (d + 48) as char else (d + 55) as char
  }

  function HexByte(b: byte): string { [HexDigit(b / 16), HexDigit(b % 16)] }

  function Hex(bs: seq<byte>): string { if bs == [] then "" else HexByte(bs[0]) + Hex(bs[1..]) }

  function BigEndian(a: nat, n: nat): (r: seq<byte>)
    ensures |r| == n
  {
    if n == 0 then [] else BigEndian(a / 256, n - 1) + [a % 256]
  }

  function Sum(bs: seq<byte>): nat { if bs == [] then 0 else bs[0] + Sum(bs[1..]) }

  /** The ones complement of the sum of length, address and data. */
  function Checksum(r: Record): byte
    requires r.Data?
  {
    255 - (r.width + |r.bytes| + 1 + Sum(BigEndian(r.address, r.width)) + Sum(r.bytes)) % 256
  }

  /** A record as text, a data record with a checksum that may be wrong. */
  function Print(r: Record, ck: byte, diag: bool): string
    requires Printable(r, diag)
  {
    match r
    case Data(w, a, bs) =>
      ['S', if w == 2 then '1' else if w == 3 then '2' else '3']
      + (HexByte(w + |bs| + 1) + (Hex(BigEndian(a, w)) + (Hex(bs) + HexByte(ck))))
    case Skipped(k, p) => ['S', k] + (HexByte(|p|) + Hex(p))
    case Note(k, text) => ['S', k] + (HexByte(|text|) + text)
  }

  /** The last record: a start address and at least one byte more. */
  function PrintEnd(width: nat, start: nat, extra: seq<byte>): string
    requires 2 <= width <= 4 && width + |extra| < 256
  {
    ['S', if width == 2 then '9' else if width == 3 then '8' else '7']
    + (HexByte(width + |extra|) + (Hex(BigEndian(start, width)) + Hex(extra)))
  }

  /** Every record of an image with the checksum printed for it and the line ends before it. */
  datatype Line = Line(gap: string, r: Record, ck: byte)

  predicate LinesOk(ls: seq<Line>, diag: bool) {
    forall i :: 0 <= i < |ls| ==> Printable(ls[i].r, diag) && (forall j :: 0 <= j < |ls[i].gap| ==> IsEol(ls[i].gap[j]))
  }

  function PrintLines(ls: seq<Line>, diag: bool): string
    requires LinesOk(ls, diag)
    decreases |ls|
  {
    if ls == [] then "" else ls[0].gap + (Print(ls[0].r, ls[0].ck, diag) + PrintLines(ls[1..], diag))
  }

  predicate Bad(l: Line) { l.r.Data? && l.ck != Checksum(l.r) }

  function BadLines(ls: seq<Line>): nat { if ls == [] then 0 else (if Bad(ls[0]) then 1 else 0) + BadLines(ls[1..]) }

  /** Memory after the data of the records, in order, each at its address plus the offset. */
  function Applied(mem: map<word, byte>, ls: seq<Line>, offset: word): map<word, byte>
    decreases |ls|
  {
    if ls == [] then mem
    else if ls[0].r.Data? then
      Applied(Put(mem, Wrap(ls[0].r.address + offset), ls[0].r.bytes), ls[1..], offset)
    else Applied(mem, ls[1..], offset)
  }

  // ---------------------------------------------------------------- reading what was printed

  lemma GetHex(b: byte, s: string)
    ensures GetByte(HexByte(b) + s) == (b, s)
  {
  }

  function FromBigEndian(bs: seq<byte>, acc: nat): nat {
    if bs == [] then acc else FromBigEndian(bs[1..], 256 * acc + bs[0])
  }

  lemma {:induction false} FieldReads(bs: seq<byte>, s: string, acc: nat, sum: nat)
    ensures GetField(Hex(bs) + s, |bs|, acc, sum) == Field(FromBigEndian(bs, acc), sum + Sum(bs), s)
    decreases |bs|
  {
    if bs == [] {
      assert "" + s == s;
    } else {
      var rest := Hex(bs[1..]) + s;
      assert Hex(bs) + s == HexByte(bs[0]) + rest;
      GetHex(bs[0], rest);
      FieldReads(bs[1..], s, 256 * acc + bs[0], sum + bs[0]);
    }
  }

  lemma {:induction false} FromBigEndianLast(bs: seq<byte>, b: byte, acc: nat)
    ensures FromBigEndian(bs + [b], acc) == 256 * FromBigEndian(bs, acc) + b
    decreases |bs|
  {
    if bs != [] {
      assert (bs + [b])[1..] == bs[1..] + [b];
      FromBigEndianLast(bs[1..], b, 256 * acc + bs[0]);
    }
  }

  lemma {:induction false} BigEndianReads(a: nat, n: nat)
    requires a < Power256(n)
    ensures FromBigEndian(BigEndian(a, n), 0) == a
    decreases n
  {
    if n > 0 {
      BigEndianReads(a / 256, n - 1);
      FromBigEndianLast(BigEndian(a / 256, n - 1), a % 256, 0);
    }
  }

  lemma {:induction false} SaveReads(mem: map<word, byte>, bs: seq<byte>, ck: byte, s: string, a: word, sum: nat)
    ensures Save(mem, Hex(bs) + HexByte(ck) + s, a, |bs|, sum)
      == Saved(Put(mem, a, bs), (sum + Sum(bs) + ck) % 256 == 255, s)
    decreases |bs|
  {
    if bs == [] {
      assert Hex(bs) + HexByte(ck) + s == HexByte(ck) + s;
      GetHex(ck, s);
    } else {
      var rest := Hex(bs[1..]) + HexByte(ck) + s;
      assert Hex(bs) + HexByte(ck) + s == HexByte(bs[0]) + rest;
      GetHex(bs[0], rest);
      SaveReads(mem[a := bs[0]], bs[1..], ck, s, Wrap(a + 1), sum + bs[0]);
    }
  }

  lemma {:induction false} HexLength(bs: seq<byte>)
    ensures |Hex(bs)| == 2 * |bs|
    decreases |bs|
  {
    if bs != [] { HexLength(bs[1..]); }
  }

  lemma {:induction false} EolsSkipped(gap: string, s: string)
    requires forall j :: 0 <= j < |gap| ==> IsEol(gap[j])
    ensures SkipEols(gap + s) == SkipEols(s)
    decreases |gap|
  {
    if gap == "" {
      assert gap + s == s;
    } else {
      assert (gap + s)[1..] == gap[1..] + s;
      EolsSkipped(gap[1..], s);
    }
  }

  /** Loader state after one printed record. */
  function After(st: Loaded, l: Line, offset: word): Loaded {
    if !l.r.Data? then st
    else st.(mem := Put(st.mem, Wrap(l.r.address + offset), l.r.bytes), errs := st.errs + (if Bad(l) then 1 else 0))
  }

  /** A record's head is read back: its kind, its length and what follows. */
  lemma HeadReads(kind: char, len: byte, body: string, s: string)
    requires !IsEol(kind)
    ensures var x := ['S', kind] + (HexByte(len) + body) + s;
      && Head(SkipEols(x)) == 'S' && Head(SkipEols(Drop(SkipEols(x), 1))) == kind
      && GetByte(Drop(SkipEols(Drop(SkipEols(x), 1)), 1)) == (len, body + s)
  {
    var x := ['S', kind] + (HexByte(len) + body) + s;
    assert x[1..] == [kind] + (HexByte(len) + (body + s));
    assert x[1..][1..] == HexByte(len) + (body + s);
    GetHex(len, body + s);
  }

  lemma GoodIff(r: Record, ck: byte)
    requires r.Data?
    ensures (r.width + |r.bytes| + 1 + Sum(BigEndian(r.address, r.width)) + Sum(r.bytes) + ck) % 256 == 255
      <==> ck == Checksum(r)
  {
  }

  lemma DataLoads(l: Line, s: string, offset: word, diag: bool, st: Loaded)
    requires l.r.Data? && Printable(l.r, diag)
    ensures Records(Print(l.r, l.ck, diag) + s, offset, diag, st) == Records(s, offset, diag, After(st, l, offset))
  {
    hide GetByte, SkipEols, Head, Drop, GetField, Save, Hex, HexByte, Put, Sum, Power256, Wrap, Checksum, BigEndian;
    var Data(w, a, bs) := l.r;
    var kind := if w == 2 then '1' else if w == 3 then '2' else '3';
    var data := Hex(bs) + HexByte(l.ck);
    var body := Hex(BigEndian(a, w)) + data;
    HeadReads(kind, w + |bs| + 1, body, s);
    assert body + s == Hex(BigEndian(a, w)) + (data + s);
    FieldReads(BigEndian(a, w), data + s, 0, w + |bs| + 1);
    BigEndianReads(a, w);
    SaveReads(st.mem, bs, l.ck, s, Wrap(a + offset), w + |bs| + 1 + Sum(BigEndian(a, w)));
    GoodIff(l.r, l.ck);
  }

  lemma OtherLoads(l: Line, s: string, offset: word, diag: bool, st: Loaded)
    requires !l.r.Data? && Printable(l.r, diag)
    ensures Records(Print(l.r, l.ck, diag) + s, offset, diag, st) == Records(s, offset, diag, st)
  {
    hide GetByte, SkipEols, Head, GetField, Save, Hex, HexByte;
    var payload := if l.r.Note? then l.r.text else Hex(l.r.payload);
    HeadReads(l.r.kind, if l.r.Note? then |l.r.text| else |l.r.payload|, payload, s);
    if l.r.Skipped? {
      HexLength(l.r.payload);
    }
    assert (payload + s)[|payload|..] == s;
  }

  /** A terminator ends the load, whatever follows it, and gives the start address. */
  lemma EndLoads(width: nat, start: nat, extra: seq<byte>, s: string, offset: word, diag: bool, st: Loaded)
    requires 2 <= width <= 4 && start < Power256(width) && extra != [] && width + |extra| < 256
    ensures start < W && Records(PrintEnd(width, start, extra) + s, offset, diag, st) == st.(start := start)
  {
    hide GetByte, SkipEols, Head, Drop, GetField, Save, Hex, HexByte, BigEndian;
    var kind := if width == 2 then '9' else if width == 3 then '8' else '7';
    var body := Hex(BigEndian(start, width)) + Hex(extra);
    HeadReads(kind, width + |extra|, body, s);
    assert body + s == Hex(BigEndian(start, width)) + (Hex(extra) + s);
    FieldReads(BigEndian(start, width), Hex(extra) + s, 0, width + |extra|);
    BigEndianReads(start, width);
    assert Power256(width) <= Power256(4) == W;
  }

  lemma {:induction false} LinesLoad(ls: seq<Line>, s: string, offset: word, diag: bool, st: Loaded)
    requires LinesOk(ls, diag)
    ensures Records(PrintLines(ls, diag) + s, offset, diag, st)
      == Records(s, offset, diag, Loaded(Applied(st.mem, ls, offset), st.errs + BadLines(ls), st.start))
    decreases |ls|
  {
    hide Records, Print, After, Put, Bad;
    if ls == [] {
      assert PrintLines(ls, diag) + s == s;
    } else {
      var l := ls[0];
      var rest := PrintLines(ls[1..], diag) + s;
      var text := Print(l.r, l.ck, diag) + rest;
      assert PrintLines(ls, diag) + s == l.gap + text;
      GapLoads(l.gap, text, offset, diag, st);
      if l.r.Data? {
        DataLoads(l, rest, offset, diag, st);
      } else {
        OtherLoads(l, rest, offset, diag, st);
      }
      AfterIs(st, l, offset);
      LinesLoad(ls[1..], s, offset, diag, After(st, l, offset));
    }
  }

  lemma GapLoads(gap: string, s: string, offset: word, diag: bool, st: Loaded)
    requires forall j :: 0 <= j < |gap| ==> IsEol(gap[j])
    ensures Records(gap + s, offset, diag, st) == Records(s, offset, diag, st)
  {
    hide GetByte, GetField, Save;
    EolsSkipped(gap, s);
  }

  lemma AfterIs(st: Loaded, l: Line, offset: word)
    ensures After(st, l, offset)
      == Loaded(if l.r.Data? then Put(st.mem, Wrap(l.r.address + offset), l.r.bytes) else st.mem,
                st.errs + (if Bad(l) then 1 else 0), st.start)
    ensures Bad(l) ==> l.r.Data?
  {
  }

  /** Loading a printed image: the errors counted are exactly the data records whose checksum
      is wrong, memory is the records applied in order, and the start address is the last
      record's.  The image may stand behind a block of header. */
  lemma ImageLoads(header: string, ls: seq<Line>, width: nat, start: nat, extra: seq<byte>, junk: string,
                   offset: word, mem: map<word, byte>)
    requires header == "" || (|header| == 512 && header[0] == 'H')
    requires LinesOk(ls, header != "")
    requires 2 <= width <= 4 && start < Power256(width) && extra != [] && width + |extra| < 256
    ensures start < W
    ensures Load(header + (PrintLines(ls, header != "") + (PrintEnd(width, start, extra) + junk)), offset, mem)
      == Loaded(Applied(mem, ls, offset), BadLines(ls), start)
  {
    hide Records, PrintEnd, Print, Applied, BadLines;
    var diag := header != "";
    var end := PrintEnd(width, start, extra) + junk;
    var text := PrintLines(ls, diag) + end;
    var st := Loaded(mem, 0, NO_START);
    LinesLoad(ls, end, offset, diag, st);
    EndLoads(width, start, extra, junk, offset, diag, Loaded(Applied(mem, ls, offset), BadLines(ls), NO_START));
    if diag {
      assert Drop(header + text, 512) == text;
    } else {
      assert header + text == text;
      StartsPlain(ls, width, start, extra, junk);
    }
  }

  lemma StartsPlain(ls: seq<Line>, width: nat, start: nat, extra: seq<byte>, junk: string)
    requires LinesOk(ls, false) && 2 <= width <= 4 && width + |extra| < 256
    ensures Head(PrintLines(ls, false) + (PrintEnd(width, start, extra) + junk)) != 'H'
  {
  }

  /** An image printed with its own checksums loads without an error. */
  lemma {:induction false} NoBadLines(ls: seq<Line>)
    requires forall i :: 0 <= i < |ls| ==> ls[i].r.Data? ==> ls[i].ck == Checksum(ls[i].r)
    ensures BadLines(ls) == 0
    decreases |ls|
  {
    if ls != [] { NoBadLines(ls[1..]); }
  }

  lemma {:induction false} SumUpdated(bs: seq<byte>, k: nat, b: byte)
    requires k < |bs|
    ensures Sum(bs[k := b]) == Sum(bs) - bs[k] + b
    decreases |bs|
  {
    if k > 0 {
      assert bs[k := b][1..] == bs[1..][k - 1 := b];
      SumUpdated(bs[1..], k - 1, b);
    } else {
      assert bs[k := b][1..] == bs[1..];
    }
  }

  /** Changing any single data byte of a record makes its checksum wrong, so the change is
      always counted. */
  lemma DamageIsCounted(l: Line, k: nat, b: byte)
    requires l.r.Data? && k < |l.r.bytes| && b != l.r.bytes[k] && !Bad(l)
    ensures Bad(l.(r := l.r.(bytes := l.r.bytes[k := b])))
  {
    SumUpdated(l.r.bytes, k, b);
  }

  lemma {:induction false} OneBadLine(ls: seq<Line>, i: nat, l: Line)
    requires i < |ls| && BadLines(ls) == 0 && Bad(l)
    ensures BadLines(ls[i := l]) == 1
    decreases |ls|
  {
    if i > 0 {
      assert ls[i := l][1..] == ls[1..][i - 1 := l];
      OneBadLine(ls[1..], i - 1, l);
    } else {
      assert ls[i := l][1..] == ls[1..];
    }
  }

  /** The checksum of the last record guards nothing: it is compared, but a mismatch is only
      reported, so a damaged start address is returned as if it were good. */
  lemma EndIsNotGuarded(width: nat, start: nat, extra: seq<byte>, offset: word, mem: map<word, byte>)
    requires 2 <= width <= 4 && start < Power256(width) && extra != [] && width + |extra| < 256
    ensures start < W && Load(PrintEnd(width, start, extra), offset, mem) == Loaded(mem, 0, start)
  {
    ImageLoads("", [], width, start, extra, "", offset, mem);
    assert "" + (PrintLines([], false) + (PrintEnd(width, start, extra) + "")) == PrintEnd(width, start, extra);
  }

  // ---------------------------------------------------------------- what is not well formed

  const DIGITS := "0123456789ABCDEF"

  /** The sixteen digits stand for their place among them, every other character for zero; line ends
      are CR and LF. */
  lemma DigitsAre(c: char)
    ensures c !in DIGITS ==> Nibble(c) == 0
    ensures forall d :: 0 <= d < 16 ==> Nibble(DIGITS[d]) == d
    ensures IsEol(c) <==> c == 13 as char || c == 10 as char
  {
    if '0' <= c <= '9' { assert DIGITS[(c as int) - 48] == c; }
    if 'A' <= c <= 'F' { assert DIGITS[(c as int) - 55] == c; }
  }

  /** A file that begins with H and ends within its header: one error if it has less than four
      characters, otherwise nothing. */
  lemma HeaderAlone(text: string, offset: word, mem: map<word, byte>)
    requires text != "" && text[0] == 'H' && |text| <= 512
    ensures Load(text, offset, mem) == Loaded(mem, if |text| <= 3 then 1 else 0, 0xffff_ffff)
  {
  }

  /** The last record needs a byte more than its address, its checksum; with less it is one error and
      there is no start address. */
  lemma EndTooShort(width: nat, len: byte, s: string, offset: word, diag: bool, st: Loaded)
    requires 2 <= width <= 4 && len <= width
    ensures Records(['S', if width == 2 then '9' else if width == 3 then '8' else '7'] + (HexByte(len) + s),
                    offset, diag, st)
      == st.(errs := st.errs + 1)
  {
    hide GetByte, SkipEols, Head, Drop, GetField, Save, HexByte;
    var kind := if width == 2 then '9' else if width == 3 then '8' else '7';
    HeadReads(kind, len, "", s);
    assert ['S', kind] + (HexByte(len) + "") + s == ['S', kind] + (HexByte(len) + s);
  }

  /** A load without any last record has no start address. */
  lemma NothingLoads(text: string, offset: word, mem: map<word, byte>)
    requires text == "" || (text[0] != 'S' && text[0] != 'H' && !IsEol(text[0]))
    ensures Load(text, offset, mem) == Loaded(mem, 0, 0xffff_ffff)
  {
  }
}
