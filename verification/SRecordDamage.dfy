/**
 One damaged byte in the text of an S-record image: wherever behind the length of a data record it
 lies, in address, data or checksum, the loader counts exactly one error.
 */
module SRecordDamage {
  import opened SRecord
  import opened Words

  /** The bytes of a data record behind its length: address, data and checksum. */
  function Contents(l: Line): (r: seq<byte>)
    requires l.r.Data?
    ensures |r| == l.r.width + |l.r.bytes| + 1
  {
    BigEndian(l.r.address, l.r.width) + l.r.bytes + [l.ck]
  }

  /** The line that reads as the same with one of those bytes replaced. */
  function Damage(l: Line, k: nat, b: byte): (m: Line)
    requires l.r.Data? && k < |Contents(l)|
    ensures m.r.Data? && m.gap == l.gap
  {
    var Data(w, a, bs) := l.r;
    if k < w then l.(r := Data(w, FromBigEndian(BigEndian(a, w)[k := b], 0), bs))
    else if k < w + |bs| then l.(r := Data(w, a, bs[k - w := b]))
    else l.(ck := b)
  }

  lemma {:induction false} FromBigEndianFits(x: seq<byte>)
    ensures FromBigEndian(x, 0) < Power256(|x|)
    decreases |x|
  {
    if x != [] {
      var n := |x| - 1;
      assert x == x[..n] + [x[n]];
      FromBigEndianLast(x[..n], x[n], 0);
      FromBigEndianFits(x[..n]);
    }
  }

  /** Reading a number and printing it gives the bytes back. */
  lemma {:induction false} BigEndianPrints(x: seq<byte>)
    ensures BigEndian(FromBigEndian(x, 0), |x|) == x
    decreases |x|
  {
    if x != [] {
      var n := |x| - 1;
      assert x == x[..n] + [x[n]];
      FromBigEndianLast(x[..n], x[n], 0);
      BigEndianPrints(x[..n]);
    }
  }

  lemma DamageReplaces(l: Line, k: nat, b: byte, diag: bool)
    requires l.r.Data? && k < |Contents(l)| && Printable(l.r, diag)
    ensures Contents(Damage(l, k, b)) == Contents(l)[k := b] && Printable(Damage(l, k, b).r, diag)
    ensures Damage(l, k, b).r.width == l.r.width && |Damage(l, k, b).r.bytes| == |l.r.bytes|
  {
    hide BigEndian, FromBigEndian, Power256;
    var x := BigEndian(l.r.address, l.r.width);
    if k < l.r.width {
      BigEndianPrints(x[k := b]);
      FromBigEndianFits(x[k := b]);
    }
  }

  lemma {:induction false} SumJoins(x: seq<byte>, y: seq<byte>)
    ensures Sum(x + y) == Sum(x) + Sum(y)
    decreases |x|
  {
    if x == [] {
      assert x + y == y;
    } else {
      assert (x + y)[1..] == x[1..] + y;
      SumJoins(x[1..], y);
    }
  }

  /** A record is good if length, address, data and checksum add up to ones in the last byte. */
  lemma BadByContents(l: Line)
    requires l.r.Data?
    ensures Bad(l) <==> (|Contents(l)| + Sum(Contents(l))) % 256 != 255
  {
    hide Sum, BigEndian;
    var x, bs := BigEndian(l.r.address, l.r.width), l.r.bytes;
    SumJoins(x + bs, [l.ck]);
    SumJoins(x, bs);
    SumOne(l.ck);
    GoodIff(l.r, l.ck);
  }

  lemma SumOne(b: byte)
    ensures Sum([b]) == b
  {
    assert [b][1..] == [];
  }

  lemma DamageIsBad(l: Line, k: nat, b: byte, diag: bool)
    requires l.r.Data? && k < |Contents(l)| && b != Contents(l)[k] && Printable(l.r, diag) && !Bad(l)
    ensures Bad(Damage(l, k, b))
  {
    hide Contents, Damage, Sum, Printable, Bad;
    DamageReplaces(l, k, b, diag);
    BadByContents(l);
    BadByContents(Damage(l, k, b));
    SumUpdated(Contents(l), k, b);
  }

  // ---------------------------------------------------------------- the text

  /** Two digits of a text replaced by those of a byte. */
  function Retyped(s: string, p: nat, b: byte): (r: string)
    requires p + 2 <= |s|
    ensures |r| == |s|
  {
    s[p := HexDigit(b / 16)][p + 1 := HexDigit(b % 16)]
  }

  lemma RetypedBehind(x: string, s: string, p: nat, b: byte)
    requires p + 2 <= |s|
    ensures Retyped(x + s, |x| + p, b) == x + Retyped(s, p, b)
  {
    hide HexDigit;
  }

  lemma RetypedBefore(s: string, x: string, p: nat, b: byte)
    requires p + 2 <= |s|
    ensures Retyped(s + x, p, b) == Retyped(s, p, b) + x
  {
    hide HexDigit;
  }

  lemma {:induction false} HexJoins(x: seq<byte>, y: seq<byte>)
    ensures Hex(x + y) == Hex(x) + Hex(y)
    decreases |x|
  {
    hide HexByte;
    if x == [] {
      assert x + y == y;
    } else {
      assert (x + y)[1..] == x[1..] + y;
      HexJoins(x[1..], y);
    }
  }

  lemma {:induction false} HexRetyped(x: seq<byte>, k: nat, b: byte)
    requires k < |x|
    ensures |Hex(x)| == 2 * |x| && Hex(x[k := b]) == Retyped(Hex(x), 2 * k, b)
    decreases |x|
  {
    HexLength(x);
    HexLength(x[1..]);
    if k == 0 {
      assert x[k := b][1..] == x[1..];
      RetypedBefore(HexByte(x[0]), Hex(x[1..]), 0, b);
    } else {
      assert x[k := b][1..] == x[1..][k - 1 := b];
      HexRetyped(x[1..], k - 1, b);
      RetypedBehind(HexByte(x[0]), Hex(x[1..]), 2 * (k - 1), b);
    }
  }

  /** A data record as text: two characters of kind, the length and its bytes. */
  lemma PrintIsHex(l: Line, diag: bool)
    requires l.r.Data? && Printable(l.r, diag)
    ensures Print(l.r, l.ck, diag)
      == (['S', if l.r.width == 2 then '1' else if l.r.width == 3 then '2' else '3'] + HexByte(|Contents(l)|))
         + Hex(Contents(l))
  {
    hide BigEndian, HexByte, Hex;
    var x, bs := BigEndian(l.r.address, l.r.width), l.r.bytes;
    HexJoins(x + bs, [l.ck]);
    HexJoins(x, bs);
    HexOne(l.ck);
  }

  lemma HexOne(b: byte)
    ensures Hex([b]) == HexByte(b)
  {
    assert [b][1..] == [];
  }

  lemma PrintRetyped(l: Line, k: nat, b: byte, diag: bool)
    requires l.r.Data? && k < |Contents(l)| && Printable(l.r, diag)
    ensures var m := Damage(l, k, b);
      && Printable(m.r, diag) && 4 + 2 * k + 2 <= |Print(l.r, l.ck, diag)|
      && Print(m.r, m.ck, diag) == Retyped(Print(l.r, l.ck, diag), 4 + 2 * k, b)
  {
    hide Contents, Damage, Hex, Print;
    DamageReplaces(l, k, b, diag);
    PrintIsHex(l, diag);
    PrintIsHex(Damage(l, k, b), diag);
    HexRetyped(Contents(l), k, b);
    var head := ['S', if l.r.width == 2 then '1' else if l.r.width == 3 then '2' else '3'] + HexByte(|Contents(l)|);
    RetypedBehind(head, Hex(Contents(l)), 2 * k, b);
  }

  /** Where the digits of byte k of line i stand. */
  function Position(ls: seq<Line>, i: nat, k: nat, diag: bool): nat
    requires LinesOk(ls, diag) && i < |ls|
    decreases |ls|
  {
    if i == 0 then |ls[0].gap| + 4 + 2 * k
    else |ls[0].gap| + |Print(ls[0].r, ls[0].ck, diag)| + Position(ls[1..], i - 1, k, diag)
  }

  lemma FirstLineRetyped(ls: seq<Line>, k: nat, b: byte, diag: bool)
    requires LinesOk(ls, diag) && ls != [] && ls[0].r.Data? && k < |Contents(ls[0])|
    ensures var ms, p := ls[0 := Damage(ls[0], k, b)], Position(ls, 0, k, diag);
      && LinesOk(ms, diag) && p + 2 <= |PrintLines(ls, diag)|
      && PrintLines(ms, diag) == Retyped(PrintLines(ls, diag), p, b)
  {
    hide Contents, Damage, Print, Printable, Retyped, IsEol;
    PrintRetyped(ls[0], k, b, diag);
    assert ls[0 := Damage(ls[0], k, b)][1..] == ls[1..];
    var gap, first, rest := ls[0].gap, Print(ls[0].r, ls[0].ck, diag), PrintLines(ls[1..], diag);
    RetypedBefore(first, rest, 4 + 2 * k, b);
    RetypedBehind(gap, first + rest, 4 + 2 * k, b);
  }

  lemma {:induction false} LinesRetyped(ls: seq<Line>, i: nat, k: nat, b: byte, diag: bool)
    requires LinesOk(ls, diag) && i < |ls| && ls[i].r.Data? && k < |Contents(ls[i])|
    ensures var ms, p := ls[i := Damage(ls[i], k, b)], Position(ls, i, k, diag);
      && LinesOk(ms, diag) && p + 2 <= |PrintLines(ls, diag)|
      && PrintLines(ms, diag) == Retyped(PrintLines(ls, diag), p, b)
    decreases |ls|
  {
    hide Contents, Damage, Print, Printable, Retyped, IsEol;
    if i == 0 {
      FirstLineRetyped(ls, k, b, diag);
    } else {
      var gap, first, rest := ls[0].gap, Print(ls[0].r, ls[0].ck, diag), PrintLines(ls[1..], diag);
      LinesRetyped(ls[1..], i - 1, k, b, diag);
      var ms, p := ls[i := Damage(ls[i], k, b)], Position(ls[1..], i - 1, k, diag);
      assert ms[1..] == ls[1..][i - 1 := Damage(ls[i], k, b)];
      PrintRetyped(ls[i], k, b, diag);
      RetypedBehind(first, rest, p, b);
      RetypedBehind(gap, first + rest, |first| + p, b);
    }
  }

  /** An image whose records are good is printed, and then the two digits of one byte behind the
      length of a data record, address, data or checksum, are replaced by those of another: it
      loads with exactly one error, to the memory of the records as they now read, and with the
      start address unharmed. */
  lemma DamagedImageLoads(header: string, ls: seq<Line>, width: nat, start: nat, extra: seq<byte>, junk: string,
                          offset: word, mem: map<word, byte>, i: nat, k: nat, b: byte)
    requires header == "" || (|header| == 512 && header[0] == 'H')
    requires LinesOk(ls, header != "") && BadLines(ls) == 0
    requires 2 <= width <= 4 && start < Power256(width) && extra != [] && width + |extra| < 256
    requires i < |ls| && ls[i].r.Data? && k < |Contents(ls[i])| && b != Contents(ls[i])[k]
    ensures var diag := header != "";
      var text := header + (PrintLines(ls, diag) + (PrintEnd(width, start, extra) + junk));
      var p := |header| + Position(ls, i, k, diag);
      && start < W && p + 2 <= |text|
      && Load(text, offset, mem) == Loaded(Applied(mem, ls, offset), 0, start)
      && Load(Retyped(text, p, b), offset, mem)
         == Loaded(Applied(mem, ls[i := Damage(ls[i], k, b)], offset), 1, start)
  {
    hide Load, PrintEnd, PrintLines, Contents, Damage, Applied, BadLines, Bad, Printable, Position, Power256;
    var diag := header != "";
    var m, p := Damage(ls[i], k, b), Position(ls, i, k, diag);
    var lines, end := PrintLines(ls, diag), PrintEnd(width, start, extra) + junk;
    ImageLoads(header, ls, width, start, extra, junk, offset, mem);
    LinesRetyped(ls, i, k, b, diag);
    RetypedBefore(lines, end, p, b);
    RetypedBehind(header, lines + end, p, b);
    NotBad(ls, i);
    DamageIsBad(ls[i], k, b, diag);
    OneBadLine(ls, i, m);
    ImageLoads(header, ls[i := m], width, start, extra, junk, offset, mem);
  }

  lemma {:induction false} NotBad(ls: seq<Line>, i: nat)
    requires BadLines(ls) == 0 && i < |ls|
    ensures !Bad(ls[i])
    decreases |ls|
  {
    hide Bad;
    if i > 0 { NotBad(ls[1..], i - 1); }
  }
}
