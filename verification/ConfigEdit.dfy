/**
 Finding and editing a record inside a disk image, as tools/configrec.py does: in place, field
 by field, with the checksum rewritten last and the image left alone unless all went well.
 */
module ConfigEdit {
  import opened ConfigRecord
  import opened Options
  import opened Rotations
  import opened Words

  // positions in the unit: the record is its second half
  const DISKS: nat := 512 + 0x10c
  const SSN: nat := 512 + 0x100
  const MEMORY: nat := 512 + 0x11c
  const FLOPPIES: nat := 512 + 0x124
  const FOURWAY: nat := 512 + 0x12c
  const EIGHTWAY: nat := 512 + 0x134
  const PARALLEL: nat := 512 + 0x135
  const COMM: nat := 512 + 0x136
  const NAME: nat := 512 + 0x150
  const NAME_LEN: nat := 32

  // ---------------------------------------------------------------- packed drive words

  function UnpackDrives(w: nat): (nat, nat) { (w / 2048 % 32, w % 2048) }

  function PackDrives(count: int, size: int): Option<nat> {
    if 0 <= count <= 31 && 0 <= size <= 0x7ff then Some(count * 2048 + size) else None
  }

  /** Packing and unpacking undo each other, on all counts and sizes that fit and on all
      words. */
  lemma PackingRoundTrips(count: int, size: int, w: nat)
    requires w < 0x1_0000
    ensures PackDrives(count, size).Some? ==> UnpackDrives(PackDrives(count, size).value) == (count, size)
    ensures PackDrives(UnpackDrives(w).0, UnpackDrives(w).1) == Some(w)
  {
  }

  // ---------------------------------------------------------------- fields

  function Half(u: seq<byte>, p: nat): nat
    requires p + 2 <= |u|
  {
    256 * (u[p] as int) + u[p + 1]
  }

  datatype Fields = Fields(memory: int, floppies: (int, int), disks: (int, int),
                           fourway: int, eightway: int, parallel: int, comm: int, name: seq<byte>)

  function View(u: seq<byte>): Fields
    requires |u| == UNIT
  {
    Fields(Long(u, MEMORY), UnpackDrives(Half(u, FLOPPIES)), UnpackDrives(Half(u, DISKS)),
           u[FOURWAY], u[EIGHTWAY], u[PARALLEL], u[COMM], u[NAME..NAME + NAME_LEN])
  }

  datatype Args = Args(memory: Option<int>, floppies: Option<int>, floppySize: Option<int>,
                       disks: Option<int>, diskSize: Option<int>,
                       fourway: Option<int>, eightway: Option<int>, parallel: Option<int>, comm: Option<int>,
                       name: Option<string>)

  predicate Fits(o: Option<int>, limit: int) { o.None? || 0 <= o.value < limit }

  predicate NameFits(o: Option<string>) {
    o.None? || (|o.value| < NAME_LEN && forall i :: 0 <= i < |o.value| ==> (o.value[i] as int) < 256)
  }

  /** The arguments that are accepted. */
  predicate ArgsOk(a: Args) {
    && Fits(a.memory, W)
    && Fits(a.floppies, 32) && Fits(a.floppySize, 2048)
    && Fits(a.disks, 32) && Fits(a.diskSize, 2048)
    && Fits(a.fourway, 256) && Fits(a.eightway, 256) && Fits(a.parallel, 256) && Fits(a.comm, 256)
    && NameFits(a.name)
  }

  predicate AnyChange(a: Args) {
    || a.memory.Some? || a.floppies.Some? || a.floppySize.Some? || a.disks.Some? || a.diskSize.Some?
    || a.fourway.Some? || a.eightway.Some? || a.parallel.Some? || a.comm.Some? || a.name.Some?
  }

  function Or<T>(o: Option<T>, old_: T): T { if o.Some? then o.value else old_ }

  function Padded(s: string): (r: seq<byte>)
    requires NameFits(Some(s))
    ensures |r| == NAME_LEN
  {
    seq(NAME_LEN, i requires 0 <= i < NAME_LEN => if i < |s| then s[i] as int else 0)
  }

  /** The fields after an edit: those named have the values asked for. */
  function Requested(f: Fields, a: Args): Fields
    requires ArgsOk(a)
  {
    Fields(Or(a.memory, f.memory),
           (Or(a.floppies, f.floppies.0), Or(a.floppySize, f.floppies.1)),
           (Or(a.disks, f.disks.0), Or(a.diskSize, f.disks.1)),
           Or(a.fourway, f.fourway), Or(a.eightway, f.eightway), Or(a.parallel, f.parallel), Or(a.comm, f.comm),
           if a.name.Some? then Padded(a.name.value) else f.name)
  }

  /** The bytes of the fields that an edit names. */
  predicate Named(a: Args, k: nat) {
    || (a.memory.Some? && MEMORY <= k < MEMORY + 4)
    || ((a.floppies.Some? || a.floppySize.Some?) && FLOPPIES <= k < FLOPPIES + 2)
    || ((a.disks.Some? || a.diskSize.Some?) && DISKS <= k < DISKS + 2)
    || (a.fourway.Some? && k == FOURWAY) || (a.eightway.Some? && k == EIGHTWAY)
    || (a.parallel.Some? && k == PARALLEL) || (a.comm.Some? && k == COMM)
    || (a.name.Some? && NAME <= k < NAME + NAME_LEN)
  }

  twostate predicate SameBut(unit: array<byte>, lo: nat, hi: nat)
    reads unit
  {
    forall k :: 0 <= k < unit.Length && !(lo <= k < hi) ==> unit[k] == old(unit[k])
  }

  method PutLong(unit: array<byte>, p: nat, v: int) returns (ok: bool)
    requires p + 4 <= unit.Length
    modifies unit
    ensures ok == (0 <= v < W) && SameBut(unit, p, p + 4)
    ensures ok ==> Long(unit[..], p) == v
  {
    if v < 0 || v >= W {
      return false;
    }
    unit[p], unit[p + 1], unit[p + 2], unit[p + 3] := v / 0x100_0000, v / 0x1_0000 % 256, v / 256 % 256, v % 256;
    LongJoins(v);
    return true;
  }

  /** The drive counts: what is not named keeps the value unpacked from the record. */
  method EditDrives(unit: array<byte>, p: nat, count: Option<int>, size: Option<int>) returns (ok: bool)
    requires p + 2 <= unit.Length
    modifies unit
    ensures ok == (Fits(count, 32) && Fits(size, 2048)) && SameBut(unit, p, p + 2)
    ensures var was := UnpackDrives(Half(old(unit[..]), p));
      ok ==> UnpackDrives(Half(unit[..], p)) == (Or(count, was.0), Or(size, was.1))
  {
    var was := UnpackDrives(256 * (unit[p] as int) + unit[p + 1]);
    var n: int := Or(count, was.0);
    var s: int := Or(size, was.1);
    var w := PackDrives(n, s);
    if w.None? {
      return false;
    }
    PackingRoundTrips(n, s, 0);
    unit[p], unit[p + 1] := w.value / 256, w.value % 256;
    return true;
  }

  method EditByte(unit: array<byte>, p: nat, v: Option<int>) returns (ok: bool)
    requires p < unit.Length
    modifies unit
    ensures ok == Fits(v, 256)
    ensures ok ==> unit[p] == Or(v, old(unit[p]) as int)
    ensures if v.Some? && ok then SameBut(unit, p, p + 1) else unit[..] == old(unit[..])
  {
    if v.Some? {
      if v.value < 0 || v.value > 255 {
        return false;
      }
      unit[p] := v.value;
    }
    return true;
  }

  method EditName(unit: array<byte>, s: string) returns (ok: bool)
    requires unit.Length == UNIT
    modifies unit
    ensures ok == NameFits(Some(s)) && SameBut(unit, NAME, NAME + NAME_LEN)
    ensures ok ==> unit[NAME..NAME + NAME_LEN] == Padded(s)
  {
    if |s| >= NAME_LEN || exists i :: 0 <= i < |s| && (s[i] as int) >= 256 {
      return false;
    }
    var i := 0;
    while i < NAME_LEN
      invariant 0 <= i <= NAME_LEN && SameBut(unit, NAME, NAME + NAME_LEN)
      invariant forall j :: 0 <= j < i ==> unit[NAME + j] == Padded(s)[j]
    {
      unit[NAME + i] := if i < |s| then s[i] as int else 0;
      i := i + 1;
    }
    return true;
  }

  /** Fields outside a stretch of bytes are the same if the bytes outside it are. */
  lemma FieldsApart(u: seq<byte>, v: seq<byte>, lo: nat, hi: nat)
    requires |u| == |v| == UNIT && forall k :: 0 <= k < UNIT && !(lo <= k < hi) ==> u[k] == v[k]
    ensures hi <= MEMORY || MEMORY + 4 <= lo ==> View(u).memory == View(v).memory
    ensures hi <= FLOPPIES || FLOPPIES + 2 <= lo ==> View(u).floppies == View(v).floppies
    ensures hi <= DISKS || DISKS + 2 <= lo ==> View(u).disks == View(v).disks
    ensures !(lo <= FOURWAY < hi) ==> View(u).fourway == View(v).fourway
    ensures !(lo <= EIGHTWAY < hi) ==> View(u).eightway == View(v).eightway
    ensures !(lo <= PARALLEL < hi) ==> View(u).parallel == View(v).parallel
    ensures !(lo <= COMM < hi) ==> View(u).comm == View(v).comm
    ensures hi <= NAME || NAME + NAME_LEN <= lo ==> View(u).name == View(v).name
  {
  }

  const KEEP := Args(None, None, None, None, None, None, None, None, None, None)

  /** The numbers wider than a byte. */
  method EditWide(unit: array<byte>, a: Args) returns (ok: bool)
    requires unit.Length == UNIT
    modifies unit
    ensures ok == (Fits(a.memory, W) && Fits(a.floppies, 32) && Fits(a.floppySize, 2048)
                   && Fits(a.disks, 32) && Fits(a.diskSize, 2048))
    ensures ok ==> View(unit[..]) == Requested(View(old(unit[..])),
      KEEP.(memory := a.memory, floppies := a.floppies, floppySize := a.floppySize,
            disks := a.disks, diskSize := a.diskSize))
    ensures ok ==> forall k :: 0 <= k < UNIT && !Named(a, k) ==> unit[k] == old(unit[k])
  {
    hide Long, Half, UnpackDrives;
    ghost var u0 := unit[..];
    if a.memory.Some? {
      ok := PutLong(unit, MEMORY, a.memory.value);
      if !ok { return; }
      FieldsApart(u0, unit[..], MEMORY, MEMORY + 4);
    }
    ghost var u1 := unit[..];
    if a.floppies.Some? || a.floppySize.Some? {
      ok := EditDrives(unit, FLOPPIES, a.floppies, a.floppySize);
      if !ok { return; }
      FieldsApart(u1, unit[..], FLOPPIES, FLOPPIES + 2);
    }
    ghost var u2 := unit[..];
    if a.disks.Some? || a.diskSize.Some? {
      ok := EditDrives(unit, DISKS, a.disks, a.diskSize);
      if !ok { return; }
      FieldsApart(u2, unit[..], DISKS, DISKS + 2);
    }
    ok := true;
  }

  method EditCounts(unit: array<byte>, a: Args) returns (ok: bool)
    requires unit.Length == UNIT
    modifies unit
    ensures ok == (Fits(a.fourway, 256) && Fits(a.eightway, 256) && Fits(a.parallel, 256) && Fits(a.comm, 256))
    ensures ok ==> View(unit[..]) == Requested(View(old(unit[..])),
      KEEP.(fourway := a.fourway, eightway := a.eightway, parallel := a.parallel, comm := a.comm))
    ensures ok ==> forall k :: 0 <= k < UNIT && !Named(a, k) ==> unit[k] == old(unit[k])
  {
    hide Long, Half, UnpackDrives, Padded;
    ghost var u0 := unit[..];
    ok := EditByte(unit, FOURWAY, a.fourway);
    if !ok { return; }
    ok := EditByte(unit, EIGHTWAY, a.eightway);
    if !ok { return; }
    ok := EditByte(unit, PARALLEL, a.parallel);
    if !ok { return; }
    ok := EditByte(unit, COMM, a.comm);
    if !ok { return; }
    FieldsApart(u0, unit[..], FOURWAY, COMM + 1);
  }

  /** The counts of single bytes and the name. */
  method EditNarrow(unit: array<byte>, a: Args) returns (ok: bool)
    requires unit.Length == UNIT
    modifies unit
    ensures ok == (Fits(a.fourway, 256) && Fits(a.eightway, 256) && Fits(a.parallel, 256) && Fits(a.comm, 256)
                   && NameFits(a.name))
    ensures ok ==> View(unit[..]) == Requested(View(old(unit[..])),
      KEEP.(fourway := a.fourway, eightway := a.eightway, parallel := a.parallel, comm := a.comm, name := a.name))
    ensures ok ==> forall k :: 0 <= k < UNIT && !Named(a, k) ==> unit[k] == old(unit[k])
  {
    hide Long, Half, UnpackDrives;
    ok := EditCounts(unit, a);
    if ok && a.name.Some? {
      ghost var u := unit[..];
      ok := EditName(unit, a.name.value);
      FieldsApart(u, unit[..], NAME, NAME + NAME_LEN);
    }
  }

  /** The edit of a unit in place.  It fails exactly on an argument that does not fit; a
      failure leaves the unit half edited, which is why the caller works on a copy. */
  method Edit(unit: array<byte>, a: Args) returns (ok: bool, changed: bool)
    requires unit.Length == UNIT
    modifies unit
    ensures ok == ArgsOk(a) && changed == AnyChange(a)
    ensures ok ==> View(unit[..]) == Requested(View(old(unit[..])), a)
    ensures ok ==> forall k :: 0 <= k < UNIT && !Named(a, k) ==> unit[k] == old(unit[k])
  {
    hide View, Named;
    changed := AnyChange(a);
    ok := EditWide(unit, a);
    if ok {
      ok := EditNarrow(unit, a);
    }
  }

  // ---------------------------------------------------------------- finding a record

  function UnitAt(data: seq<byte>, blk: nat): (u: seq<byte>)
    requires blk * BLOCK + UNIT <= |data|
    ensures |u| == UNIT
  {
    data[blk * BLOCK..blk * BLOCK + UNIT]
  }

  predicate Sound(u: seq<byte>)
    requires |u| == UNIT
  {
    Long(u, CKSUM_OFF) == ChecksumOf(u)
  }

  predicate SerialDigits(u: seq<byte>)
    requires |u| == UNIT
  {
    forall k :: SSN <= k < SSN + 8 ==> 48 <= u[k] <= 57
  }

  /** What the search accepts: a stored checksum that is right and not zero. */
  predicate Accepted(data: seq<byte>, blk: nat, prefilter: bool) {
    && blk * BLOCK + UNIT <= |data|
    && Sound(UnitAt(data, blk)) && Long(UnitAt(data, blk), CKSUM_OFF) != 0
    && (prefilter ==> SerialDigits(UnitAt(data, blk)))
  }

  /** The search finds the greatest block accepted, or -1 where there is none. */
  ghost predicate IsFound(data: seq<byte>, prefilter: bool, found: int) {
    && (found == -1 || (found >= 0 && Accepted(data, found, prefilter)))
    && (forall blk: nat :: blk > found && blk * BLOCK + UNIT <= |data| ==> !Accepted(data, blk, prefilter))
  }

  method Checksum(unit: array<byte>) returns (acc: word)
    requires unit.Length == UNIT
    ensures acc == ChecksumOf(unit[..])
  {
    hide Rol, Xor, Long;
    acc := SEED;
    var p: int := CKSUM_OFF - 4;
    while p >= 0
      invariant -4 <= p <= CKSUM_OFF - 4 && p % 4 == 0 && acc == Fold(unit[..], (p + 4) / 4)
    {
      acc := Rol(Xor32(acc, Long(unit[..], p)));
      p := p - 4;
    }
  }

  method FindRecord(data: seq<byte>, prefilter: bool) returns (found: int)
    ensures IsFound(data, prefilter, found)
  {
    hide Sound, ChecksumOf, Long, SerialDigits;
    var blk: int := |data| / BLOCK - 2;
    while blk >= 0
      invariant -2 <= blk <= |data| / BLOCK - 2
      invariant forall b: nat :: b > blk && b * BLOCK + UNIT <= |data| ==> !Accepted(data, b, prefilter)
    {
      BlockFits(data, blk);
      var u := UnitAt(data, blk);
      if !prefilter || SerialDigits(u) {
        if Long(u, CKSUM_OFF) != 0 && Sound(u) {
          return blk;
        }
      }
      blk := blk - 1;
    }
    found := -1;
  }

  /** What the command takes for the record: what the quick search finds or, if that finds nothing,
      what the search of every block does. */
  ghost predicate IsLocated(data: seq<byte>, found: int) {
    || (found != -1 && IsFound(data, true, found))
    || (IsFound(data, true, -1) && IsFound(data, false, found))
  }

  method Locate(data: seq<byte>) returns (found: int)
    ensures IsLocated(data, found)
  {
    hide IsFound;
    found := FindRecord(data, true);
    if found == -1 {
      found := FindRecord(data, false);
    }
  }

  lemma BlockFits(data: seq<byte>, blk: nat)
    ensures blk <= |data| / BLOCK - 2 <==> blk * BLOCK + UNIT <= |data|
  {
  }

  // ---------------------------------------------------------------- the set command

  /** The bytes an edit of the unit at a block may change: those of the fields it names, and
      the checksum. */
  predicate MayChange(blk: nat, a: Args, k: nat) {
    blk * BLOCK <= k < blk * BLOCK + UNIT && (Named(a, k - blk * BLOCK) || k - blk * BLOCK >= CKSUM_OFF)
  }

  /** The image before and after a set: the unit is sound, its fields are as requested and
      nothing else has changed. */
  ghost predicate IsSet(before: seq<byte>, after: seq<byte>, blk: nat, a: Args) {
    && |after| == |before| && blk * BLOCK + UNIT <= |before| && ArgsOk(a)
    && Sound(UnitAt(after, blk))
    && View(UnitAt(after, blk)) == Requested(View(UnitAt(before, blk)), a)
    && forall k :: 0 <= k < |before| && !MayChange(blk, a, k) ==> after[k] == before[k]
  }

  /** Sets fields of the record at a block.  It goes through exactly when the block holds a
      sound unit and the arguments fit and name something; then the unit is sound again, the
      fields read back as requested and nothing else in the image has changed.  Otherwise the
      image is as it was. */
  method SetRecord(image: array<byte>, blk: nat, a: Args) returns (ok: bool)
    modifies image
    ensures ok == (blk * BLOCK + UNIT <= image.Length && Sound(UnitAt(old(image[..]), blk))
                   && ArgsOk(a) && AnyChange(a))
    ensures !ok ==> image[..] == old(image[..])
    ensures ok ==> IsSet(old(image[..]), image[..], blk, a)
  {
    hide View, Named, ChecksumOf, Long, ArgsOk, AnyChange;
    var off := blk * BLOCK;
    if off + UNIT > image.Length {
      return false;
    }
    var unit := new byte[UNIT](i requires 0 <= i < UNIT && off + UNIT <= image.Length reads image => image[off + i]);
    assert unit[..] == UnitAt(image[..], blk);
    var sum := Checksum(unit);
    if Long(unit[..], CKSUM_OFF) != sum {
      return false;
    }
    var good, changed := Edit(unit, a);
    if !good || !changed {
      return false;
    }
    ghost var edited := unit[..];
    sum := Checksum(unit);
    ok := PutLong(unit, CKSUM_OFF, sum);
    ChecksumKept(edited, unit[..]);
    SameView(edited, unit[..]);
    ghost var done := unit[..];
    var i := 0;
    while i < UNIT
      invariant 0 <= i <= UNIT && unit[..] == done
      invariant forall k :: 0 <= k < image.Length ==>
        image[k] == if off <= k < off + i then unit[k - off] else old(image[k])
    {
      image[off + i] := unit[i];
      i := i + 1;
    }
    assert UnitAt(image[..], blk) == done;
  }

  lemma ChecksumKept(u: seq<byte>, v: seq<byte>)
    requires |u| == |v| == UNIT && forall k :: 0 <= k < CKSUM_OFF ==> u[k] == v[k]
    ensures ChecksumOf(u) == ChecksumOf(v)
  {
    FoldKept(u, v, 0);
  }

  lemma {:induction false} FoldKept(u: seq<byte>, v: seq<byte>, i: nat)
    requires |u| == |v| == UNIT && i <= LONGS && forall k :: 0 <= k < CKSUM_OFF ==> u[k] == v[k]
    ensures Fold(u, i) == Fold(v, i)
    decreases LONGS - i
  {
    hide Rol, Xor;
    if i < LONGS { FoldKept(u, v, i + 1); }
  }

  lemma SameView(u: seq<byte>, v: seq<byte>)
    requires |u| == |v| == UNIT && forall k :: 0 <= k < CKSUM_OFF ==> u[k] == v[k]
    ensures View(u) == View(v)
  {
  }

  // ---------------------------------------------------------------- finding it again

  lemma {:induction false} HalvesSame(u: seq<byte>, v: seq<byte>, w: seq<byte>, x: seq<byte>, i: nat, j: nat)
    requires |u| == |v| == |w| == |x| == UNIT && i <= HALF <= j <= LONGS
    requires (forall k :: 0 <= k < BLOCK ==> u[k] == v[k]) && (forall k :: BLOCK <= k < CKSUM_OFF ==> w[k] == x[k])
    ensures FirstHalf(u, i) == FirstHalf(v, i) && Combined(w, j) == Combined(x, j)
    decreases HALF - i, LONGS - j
  {
    hide Xor, RolN;
    if i < HALF { HalvesSame(u, v, w, x, i + 1, j); }
    if j < LONGS { HalvesSame(u, v, w, x, HALF, j + 1); }
  }

  /** Setting a record changes the first half of the unit behind it, checksum included, but not
      what that unit checksums to. */
  lemma NextUnitKeepsItsChecksum(before: seq<byte>, after: seq<byte>, blk: nat, a: Args)
    requires IsSet(before, after, blk, a) && Sound(UnitAt(before, blk)) && (blk + 1) * BLOCK + UNIT <= |before|
    ensures ChecksumOf(UnitAt(after, blk + 1)) == ChecksumOf(UnitAt(before, blk + 1))
  {
    hide View, Long, Fold, Combined, FirstHalf;
    var u, v, w, x := UnitAt(before, blk), UnitAt(after, blk), UnitAt(before, blk + 1), UnitAt(after, blk + 1);
    assert Overlap(u, w) && Overlap(v, x);
    HalvesSame(u, v, w, x, 0, HALF);
    OverlapChecksum(u, w);
    OverlapChecksum(v, x);
  }

  lemma SerialIsKept(before: seq<byte>, after: seq<byte>, blk: nat, a: Args, b: nat)
    requires IsSet(before, after, blk, a) && b * BLOCK + UNIT <= |before|
    ensures SerialDigits(UnitAt(after, b)) == SerialDigits(UnitAt(before, b))
    ensures b != blk ==> Long(UnitAt(after, b), CKSUM_OFF) == Long(UnitAt(before, b), CKSUM_OFF)
    ensures b < blk || b > blk + 1 ==> UnitAt(after, b) == UnitAt(before, b)
  {
    hide View, ChecksumOf, Fold;
    var u, v := UnitAt(before, b), UnitAt(after, b);
    var o := b * BLOCK;
    assert forall k :: SSN <= k < SSN + 8 ==> u[k] == before[o + k] && v[k] == after[o + k] && v[k] == u[k];
    if b != blk {
      assert forall k :: CKSUM_OFF <= k < UNIT ==> u[k] == before[o + k] && v[k] == after[o + k] && v[k] == u[k];
    }
  }

  /** But for the record itself, the search accepts after a set exactly what it accepted before: an
      edit does not reach the unit in front, and leaves the checksum of the one behind alone. */
  lemma AcceptedElsewhere(before: seq<byte>, after: seq<byte>, prefilter: bool, blk: nat, a: Args, b: nat)
    requires IsSet(before, after, blk, a) && Sound(UnitAt(before, blk)) && b != blk
    ensures Accepted(after, b, prefilter) == Accepted(before, b, prefilter)
  {
    hide IsSet, SerialDigits, Long, ChecksumOf;
    SetLength(before, after, blk, a);
    if b * BLOCK + UNIT <= |before| {
      SerialIsKept(before, after, blk, a, b);
      if b == blk + 1 { NextUnitKeepsItsChecksum(before, after, blk, a); }
    }
  }

  lemma SetLength(before: seq<byte>, after: seq<byte>, blk: nat, a: Args)
    requires IsSet(before, after, blk, a)
    ensures |after| == |before| && blk * BLOCK + UNIT <= |before| && Sound(UnitAt(after, blk))
  {
  }

  /** And the record itself exactly if its new checksum is not zero. */
  lemma AcceptedItself(before: seq<byte>, after: seq<byte>, prefilter: bool, blk: nat, a: Args)
    requires IsSet(before, after, blk, a) && Accepted(before, blk, prefilter)
    ensures |after| == |before| && blk * BLOCK + UNIT <= |after|
    ensures Accepted(after, blk, prefilter) <==> Long(UnitAt(after, blk), CKSUM_OFF) != 0
    ensures Accepted(after, blk, true) ==> Accepted(before, blk, true)
  {
    hide IsSet, SerialDigits, Long, ChecksumOf;
    SetLength(before, after, blk, a);
    SerialIsKept(before, after, blk, a, blk);
  }

  /** A record that the search found is found again after a set, exactly unless its new checksum
      is zero; the search never lands behind it. */
  lemma FoundAgain(before: seq<byte>, after: seq<byte>, prefilter: bool, blk: nat, a: Args, found: int)
    requires IsFound(before, prefilter, blk) && IsSet(before, after, blk, a) && IsFound(after, prefilter, found)
    ensures |after| == |before| && blk * BLOCK + UNIT <= |after|
    ensures found == blk <==> Long(UnitAt(after, blk), CKSUM_OFF) != 0
    ensures found <= blk
  {
    hide Sound, Long, SerialDigits, IsSet;
    AcceptedItself(before, after, prefilter, blk, a);
    forall b: nat | b > blk ensures !Accepted(after, b, prefilter) {
      AcceptedElsewhere(before, after, prefilter, blk, a, b);
      if b * BLOCK + UNIT <= |before| { assert !Accepted(before, b, prefilter); }
    }
  }

  /** The quick search that found nothing finds nothing after a set either. */
  lemma StillNothing(before: seq<byte>, after: seq<byte>, blk: nat, a: Args)
    requires IsFound(before, true, -1) && Accepted(before, blk, false) && IsSet(before, after, blk, a)
    ensures IsFound(after, true, -1)
  {
    hide Sound, Long, SerialDigits, IsSet;
    AcceptedItself(before, after, false, blk, a);
    forall b: nat | b * BLOCK + UNIT <= |after| ensures !Accepted(after, b, true) {
      if b != blk { AcceptedElsewhere(before, after, true, blk, a, b); }
      assert !Accepted(before, b, true);
    }
  }

  lemma FoundOnce(data: seq<byte>, prefilter: bool, x: int, y: int)
    requires IsFound(data, prefilter, x) && IsFound(data, prefilter, y)
    ensures x == y
  {
    hide Sound, Long, SerialDigits;
  }

  lemma FoundIsAccepted(data: seq<byte>, prefilter: bool, blk: nat)
    requires IsFound(data, prefilter, blk)
    ensures Accepted(data, blk, prefilter)
  {
  }

  /** So the command, with its two searches, finds the record it has set again if and only if the
      new checksum is not zero. */
  lemma LocatedAgain(before: seq<byte>, after: seq<byte>, blk: nat, a: Args, found: int)
    requires IsLocated(before, blk) && IsSet(before, after, blk, a) && IsLocated(after, found)
    ensures |after| == |before| && blk * BLOCK + UNIT <= |after|
    ensures found == blk <==> Long(UnitAt(after, blk), CKSUM_OFF) != 0
  {
    hide IsFound, Accepted, IsSet, Long;
    SetLength(before, after, blk, a);
    var quick := IsFound(before, true, blk);
    FoundIsAccepted(before, quick, blk);
    AcceptedItself(before, after, quick, blk, a);
    if !quick { StillNothing(before, after, blk, a); }
    FoundWhere(before, after, quick, blk, a, found);
  }

  lemma FoundWhere(before: seq<byte>, after: seq<byte>, quick: bool, blk: nat, a: Args, found: int)
    requires IsFound(before, quick, blk) && IsSet(before, after, blk, a) && IsLocated(after, found)
    requires !quick ==> IsFound(after, true, -1)
    ensures |after| == |before| && blk * BLOCK + UNIT <= |after|
    ensures found == blk <==> Long(UnitAt(after, blk), CKSUM_OFF) != 0
  {
    hide Sound, Long, SerialDigits, IsSet;
    FoundIsAccepted(before, quick, blk);
    AcceptedItself(before, after, quick, blk, a);
    if IsFound(after, quick, found) {
      FoundAgain(before, after, quick, blk, a, found);
    } else if quick {
      FoundAgain(before, after, true, blk, a, -1);
    } else {
      FoundOnce(after, true, -1, found);
    }
  }

  const MEMORY_LONG: nat := MEMORY / 4

  /** And for every record some memory size makes its checksum zero, so that the record, sound as
      it is, can no longer be found. */
  lemma SomeMemoryHidesIt(before: seq<byte>, blk: nat) returns (m: word)
    requires blk * BLOCK + UNIT <= |before|
    ensures ArgsOk(KEEP.(memory := Some(m))) && AnyChange(KEEP.(memory := Some(m)))
    ensures forall after :: IsSet(before, after, blk, KEEP.(memory := Some(m))) ==>
      Long(UnitAt(after, blk), CKSUM_OFF) == 0
  {
    hide Fold, Long;
    var u := UnitAt(before, blk);
    m := AnyChecksum(u, MEMORY_LONG, 0);
    var a := KEEP.(memory := Some(m));
    forall after | IsSet(before, after, blk, a)
      ensures Long(UnitAt(after, blk), CKSUM_OFF) == 0
    {
      MemoryDecides(before, after, blk, a, m);
      SetLength(before, after, blk, a);
    }
  }

  lemma MemoryDecides(before: seq<byte>, after: seq<byte>, blk: nat, a: Args, m: word)
    requires a == KEEP.(memory := Some(m)) && IsSet(before, after, blk, a)
    ensures |after| == |before| && blk * BLOCK + UNIT <= |before|
    ensures ChecksumOf(UnitAt(after, blk)) == ChecksumOf(WithLong(UnitAt(before, blk), MEMORY_LONG, m))
  {
    hide Fold;
    var u, v := UnitAt(before, blk), UnitAt(after, blk);
    var w := WithLong(u, MEMORY_LONG, m);
    assert Long(v, MEMORY) == m == Long(w, MEMORY);
    assert forall k :: 0 <= k < CKSUM_OFF && !(MEMORY <= k < MEMORY + 4) ==> v[k] == u[k] by {
      assert forall k :: 0 <= k < UNIT ==> v[k] == after[blk * BLOCK + k] && u[k] == before[blk * BLOCK + k];
    }
    assert forall k :: 0 <= k < LONGS && k != MEMORY_LONG ==> Long(v, 4 * k) == Long(w, 4 * k);
    FoldSame(v, w, 0);
  }
}
