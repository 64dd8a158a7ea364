/**
 The set command of tools/configrec.py in terms of the bytes of the image: where each field of the
 record lies, what a set writes there and what it leaves alone.
 */
module ConfigBytes {
  import opened ConfigEdit
  import opened ConfigRecord
  import opened Options
  import opened Words

  /** The 16 bit number at a position, most significant byte first. */
  function Word16(d: seq<byte>, p: nat): nat
    requires p + 2 <= |d|
  {
    d[p] as int * 256 + d[p + 1]
  }

  function Word32(d: seq<byte>, p: nat): nat
    requires p + 4 <= |d|
  {
    Word16(d, p) * 0x1_0000 + Word16(d, p + 2)
  }

  /** A word with a number of drives in its upper 5 bits and their size in its lower 11, with either
      replaced where it is asked for. */
  function Drives(was: nat, count: Option<int>, size: Option<int>): int {
    (if count.Some? then count.value else was / 2048) * 2048 + (if size.Some? then size.value else was % 2048)
  }

  lemma ViewByBytes(d: seq<byte>, o: nat, blk: nat)
    requires o == 512 * blk && o + 1024 <= |d|
    ensures blk * BLOCK + UNIT <= |d|
    ensures var v, f, w := View(UnitAt(d, blk)), Word16(d, o + 804), Word16(d, o + 780);
      && v.memory == Word32(d, o + 796)
      && v.floppies == (f / 2048, f % 2048) && v.disks == (w / 2048, w % 2048)
      && v.fourway == d[o + 812] && v.eightway == d[o + 820] && v.parallel == d[o + 821] && v.comm == d[o + 822]
      && |v.name| == 32 && forall i :: 0 <= i < 32 ==> v.name[i] == d[o + 848 + i]
  {
    var u := UnitAt(d, blk);
    assert forall k :: 0 <= k < 1024 ==> u[k] == d[o + k];
    assert Half(u, FLOPPIES) == Word16(d, o + 804) && Half(u, DISKS) == Word16(d, o + 780);
    assert forall w: nat :: w < 0x1_0000 ==> w / 2048 % 32 == w / 2048;
  }

  /** Which arguments are accepted. */
  predicate Accepts(a: Args) {
    && (a.memory.Some? ==> 0 <= a.memory.value <= 0xffff_ffff)
    && (a.floppies.Some? ==> 0 <= a.floppies.value <= 31) && (a.floppySize.Some? ==> 0 <= a.floppySize.value <= 2047)
    && (a.disks.Some? ==> 0 <= a.disks.value <= 31) && (a.diskSize.Some? ==> 0 <= a.diskSize.value <= 2047)
    && (a.fourway.Some? ==> 0 <= a.fourway.value <= 255) && (a.eightway.Some? ==> 0 <= a.eightway.value <= 255)
    && (a.parallel.Some? ==> 0 <= a.parallel.value <= 255) && (a.comm.Some? ==> 0 <= a.comm.value <= 255)
    && (a.name.Some? ==> |a.name.value| <= 31 && forall i :: 0 <= i < |a.name.value| ==> a.name.value[i] <= 255 as char)
  }

  lemma ArgumentsAccepted(a: Args)
    ensures ArgsOk(a) <==> Accepts(a)
  {
  }

  /** The numbers after a set, each at its place: the named ones as asked for, the others as they
      were. */
  lemma NumbersByBytes(before: seq<byte>, after: seq<byte>, blk: nat, a: Args)
    requires IsSet(before, after, blk, a)
    ensures var o := 512 * blk;
      && o + 1024 <= |before| == |after|
      && Word32(after, o + 796) == (if a.memory.Some? then a.memory.value else Word32(before, o + 796))
      && Word16(after, o + 804) == Drives(Word16(before, o + 804), a.floppies, a.floppySize)
      && Word16(after, o + 780) == Drives(Word16(before, o + 780), a.disks, a.diskSize)
      && after[o + 812] == (if a.fourway.Some? then a.fourway.value else before[o + 812])
      && after[o + 820] == (if a.eightway.Some? then a.eightway.value else before[o + 820])
      && after[o + 821] == (if a.parallel.Some? then a.parallel.value else before[o + 821])
      && after[o + 822] == (if a.comm.Some? then a.comm.value else before[o + 822])
  {
    hide View, Sound, MayChange, Word16, Word32;
    ViewByBytes(before, 512 * blk, blk);
    ViewByBytes(after, 512 * blk, blk);
  }

  /** The name is the one asked for and zeros behind it. */
  lemma NameByBytes(before: seq<byte>, after: seq<byte>, blk: nat, a: Args, i: nat)
    requires IsSet(before, after, blk, a) && i < 32
    ensures var p := 512 * blk + 848 + i;
      p < |before| == |after| &&
      after[p] == (if a.name.None? then before[p] else if i < |a.name.value| then a.name.value[i] as int else 0)
  {
    hide View, Sound, MayChange, Word16, Word32;
    ViewByBytes(before, 512 * blk, blk);
    ViewByBytes(after, 512 * blk, blk);
    var (v, w) := (View(UnitAt(before, blk)), View(UnitAt(after, blk)));
    assert w.name[i] == after[512 * blk + 848 + i] && v.name[i] == before[512 * blk + 848 + i];
    assert w.name == if a.name.Some? then Padded(a.name.value) else v.name;
  }

  /** Every other byte is as it was, but for the checksum in the last four bytes of the unit, which is
      right. */
  lemma RestByBytes(before: seq<byte>, after: seq<byte>, blk: nat, a: Args, k: nat)
    requires IsSet(before, after, blk, a) && k < |before|
    ensures var p := k - 512 * blk;
      && |after| == |before|
      && (after[k] != before[k] ==>
            || (796 <= p < 800 && a.memory.Some?) || (804 <= p < 806 && (a.floppies.Some? || a.floppySize.Some?))
            || (780 <= p < 782 && (a.disks.Some? || a.diskSize.Some?)) || (p == 812 && a.fourway.Some?)
            || (p == 820 && a.eightway.Some?) || (p == 821 && a.parallel.Some?) || (p == 822 && a.comm.Some?)
            || (848 <= p < 880 && a.name.Some?) || 1020 <= p < 1024)
  {
    hide View, Sound;
  }

  lemma ChecksumByBytes(before: seq<byte>, after: seq<byte>, blk: nat, a: Args)
    requires IsSet(before, after, blk, a)
    ensures var o := 512 * blk;
      o + 1024 <= |after| && Word32(after, o + 1020) == ChecksumOf(after[o..o + 1024])
  {
    hide View, ChecksumOf;
    var u := UnitAt(after, blk);
    assert u == after[512 * blk..512 * blk + 1024];
    assert forall i :: 1020 <= i < 1024 ==> u[i] == after[512 * blk + i];
  }

  /** What the search accepts, by bytes: a unit within the image whose last four bytes are its checksum
      and not zero, and for the quick search eight digits at 768. */
  lemma AcceptedByBytes(data: seq<byte>, blk: nat, prefilter: bool)
    ensures var o := 512 * blk;
      Accepted(data, blk, prefilter) <==>
        && o + 1024 <= |data|
        && Word32(data, o + 1020) == ChecksumOf(data[o..o + 1024]) && Word32(data, o + 1020) != 0
        && (prefilter ==> forall k :: o + 768 <= k < o + 776 ==> 48 <= data[k] <= 57)
  {
    hide ChecksumOf, SerialDigits;
    var o := 512 * blk;
    if o + 1024 <= |data| {
      DigitsAt(data, blk);
      var u := UnitAt(data, blk);
      assert u == data[o..o + 1024];
      assert forall i :: 1020 <= i < 1024 ==> u[i] == data[o + i];
    }
  }

  lemma DigitsAt(data: seq<byte>, blk: nat)
    requires blk * BLOCK + UNIT <= |data|
    ensures SerialDigits(UnitAt(data, blk))
      <==> forall k :: 512 * blk + 768 <= k < 512 * blk + 776 ==> 48 <= data[k] <= 57
  {
    var (o, u) := (512 * blk, UnitAt(data, blk));
    assert forall i :: 0 <= i < 1024 ==> u[i] == data[o + i];
    if SerialDigits(u) {
      forall k | o + 768 <= k < o + 776 ensures 48 <= data[k] <= 57 { assert u[k - o] == data[k]; }
    }
  }
}
