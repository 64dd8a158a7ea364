/**
 The loader of src/load.c as it runs: a cursor over the file, a running byte sum and the loops
 that store what is read.
 */
module SRecordLoader {
  import opened Words
  import opened SRecord

  class Loader {
    const text: string
    var pos: nat
    var byteSum: nat
    var bus: map<word, byte>

    ghost predicate Valid()
      reads this
    {
      pos <= |text|
    }

    constructor (text: string, bus: map<word, byte>)
      ensures Valid() && pos == 0 && this.text == text && this.bus == bus
    {
      this.text, this.bus, pos, byteSum := text, bus, 0, 0;
    }

    /** The character at the cursor, or zero at the end of the file. */
    method NextCh() returns (c: char)
      requires Valid()
      modifies `pos
      ensures Valid() && c == Head(old(text[pos..])) && text[pos..] == Drop(old(text[pos..]), 1)
    {
      if pos == |text| {
        return '\0';
      }
      c := text[pos];
      pos := pos + 1;
    }

    method Skip(chars: nat)
      requires Valid()
      modifies `pos
      ensures Valid() && text[pos..] == Drop(old(text[pos..]), chars)
    {
      pos := if pos + chars <= |text| then pos + chars else |text|;
    }

    method NextByte() returns (b: byte)
      requires Valid()
      modifies `pos
      ensures Valid() && (b, text[pos..]) == GetByte(old(text[pos..]))
    {
      var high := NextCh();
      var low := NextCh();
      b := 16 * Nibble(high) + Nibble(low);
    }

    /** The next character that is not a line end. */
    method NextMark() returns (c: char)
      requires Valid()
      modifies `pos
      ensures Valid() && c == Head(SkipEols(old(text[pos..])))
      ensures text[pos..] == Drop(SkipEols(old(text[pos..])), 1)
    {
      ghost var rem := text[pos..];
      c := NextCh();
      while IsEol(c)
        invariant Valid() && c == Head(rem) && text[pos..] == Drop(rem, 1)
        invariant SkipEols(rem) == SkipEols(old(text[pos..]))
        decreases |rem|
      {
        rem := text[pos..];
        c := NextCh();
      }
    }

    /** An address of two to four bytes, each added to the byte sum. */
    method ReadAddress(width: nat) returns (address: nat)
      requires Valid() && 2 <= width <= 4
      modifies `pos, `byteSum
      ensures Valid()
      ensures Field(address, byteSum, text[pos..]) == GetField(old(text[pos..]), width, 0, old(byteSum))
    {
      hide GetByte;
      ghost var s := text[pos..];
      var a1 := NextByte();
      byteSum := byteSum + a1;
      var a2 := NextByte();
      byteSum := byteSum + a2;
      address := 256 * (a1 as int) + a2;
      assert GetField(s, width, 0, old(byteSum)) == GetField(text[pos..], width - 2, address, byteSum);
      if width >= 3 {
        var a3 := NextByte();
        byteSum := byteSum + a3;
        address := 256 * address + a3;
      }
      if width == 4 {
        var a4 := NextByte();
        byteSum := byteSum + a4;
        address := 256 * address + a4;
      }
    }

    method SaveData(address0: word, remaining0: int) returns (bad: nat)
      requires Valid()
      modifies this
      ensures Valid()
      ensures var r := Save(old(bus), old(text[pos..]), address0, remaining0, old(byteSum));
        bus == r.mem && text[pos..] == r.rest && bad == if r.good then 0 else 1
    {
      hide GetByte, Wrap;
      var address: word := address0;
      var remaining := remaining0;
      while remaining > 0
        invariant Valid()
        invariant Save(bus, text[pos..], address, remaining, byteSum)
          == Save(old(bus), old(text[pos..]), address0, remaining0, old(byteSum))
      {
        var b := NextByte();
        byteSum := byteSum + b;
        bus := bus[address := b];
        address := Wrap(address + 1);
        remaining := remaining - 1;
      }
      var b := NextByte();
      byteSum := byteSum + b;
      return if byteSum % 256 != 255 then 1 else 0;
    }

    /** The last record: its start address, and the bytes after it, which are only summed. */
    method ReadEnd(width: nat, len: nat) returns (start: word)
      requires Valid() && 2 <= width <= 4 && len > width
      modifies `pos, `byteSum
      ensures Valid() && bus == old(bus)
      ensures start == Wrap(GetField(old(text[pos..]), width, 0, old(byteSum)).value)
    {
      hide GetField;
      var address := ReadAddress(width);
      start := Wrap(address);
      var n := len - width;
      while n > 0
        invariant Valid() && bus == old(bus)
      {
        var b := NextByte();
        byteSum := byteSum + b;
        n := n - 1;
      }
    }

    method DataRecord(width: nat, len: nat, offset: word) returns (bad: nat)
      requires Valid() && 2 <= width <= 4
      modifies this
      ensures Valid()
      ensures var f := GetField(old(text[pos..]), width, 0, old(byteSum));
        var r := Save(old(bus), f.rest, Wrap(f.value + offset), len - width - 1, f.sum);
        bus == r.mem && text[pos..] == r.rest && bad == if r.good then 0 else 1
    {
      hide GetField, Save, Wrap;
      var address := ReadAddress(width);
      bad := SaveData(Wrap(address + offset), len - width - 1);
    }

    method LoadFile(offset: word) returns (errs: nat, startAddr: word)
      requires pos == 0
      modifies this
      ensures Loaded(bus, errs, startAddr) == Load(text, offset, old(bus))
    {
      hide GetByte, GetField, Save, SkipEols, Wrap, DataWidth, EndWidth, Nibble, IsEol, Head, Drop;
      errs, startAddr := 0, NO_START;
      assert text[0..] == text;
      var diag := |text| > 0 && text[0] == 'H';
      HeadIs(text);
      if diag {
        if |text| < 4 {
          return 1, NO_START;
        }
        Skip(512);
      }
      ghost var rem := text[pos..];
      ghost var goal := Load(text, offset, old(bus));
      assert Records(rem, offset, diag, Loaded(bus, 0, NO_START)) == goal;
      hide Load;
      var c := NextMark();
      while c == 'S'
        invariant Valid() && c == Head(SkipEols(rem)) && text[pos..] == Drop(SkipEols(rem), 1)
        invariant Records(rem, offset, diag, Loaded(bus, errs, startAddr)) == goal
        decreases |rem|
      {
        Widths();
        assert Head(SkipEols(rem)) == 'S' && SkipEols(rem) != "" by { HeadIs(SkipEols(rem)); }
        var cmd := NextMark();
        var len := NextByte();
        byteSum := len;
        if DataWidth(cmd) > 0 {
          var bad := DataRecord(DataWidth(cmd), len, offset);
          errs := errs + bad;
        } else if EndWidth(cmd) > 0 {
          if len > EndWidth(cmd) {
            startAddr := ReadEnd(EndWidth(cmd), len);
          } else {
            errs := errs + 1;
          }
          return;
        } else if cmd == '4' || (cmd == '5' && diag) {
          Skip(len);
        } else if cmd == '0' || cmd == '5' || cmd == '6' {
          Skip(2 * len);
        }
        rem := text[pos..];
        c := NextMark();
      }
    }
  }

  lemma HeadIs(s: string)
    ensures Head(s) == if s == "" then '\0' else s[0]
  {
  }

  lemma Widths()
    ensures forall c :: DataWidth(c) > 0 ==> 2 <= DataWidth(c) <= 4
    ensures forall c :: EndWidth(c) > 0 ==> 2 <= EndWidth(c) <= 4
  {
  }
}
