/**
 Reading the cartridge tape of src/cs.c.  A tape is its files in order; as a stream it is each
 file's whole blocks and then a mark, the last of which is the end of the tape.  What the
 controller does with file numbers and remaining counts is shown to be reading that stream.
 */
module Tape {
  import opened Words

  const BLOCK: nat := 512

  type Files = seq<seq<byte>>

  datatype Item = Block(data: seq<byte>) | FileMark | EndMark

  function Blocks(tape: Files, f: nat): nat
    requires f < |tape|
  {
    |tape[f]| / BLOCK
  }

  function BlockAt(tape: Files, f: nat, b: nat): seq<byte>
    requires f < |tape| && b < Blocks(tape, f)
  {
    tape[f][b * BLOCK..(b + 1) * BLOCK]
  }

  /** The stream from a block of a file to the end of the tape. */
  function From(tape: Files, f: nat, b: nat): (r: seq<Item>)
    requires f < |tape| ==> b <= Blocks(tape, f)
    decreases |tape| - f, if f < |tape| then Blocks(tape, f) - b else 0
  {
    if f >= |tape| then []
    else if b < Blocks(tape, f) then [Block(BlockAt(tape, f, b))] + From(tape, f, b + 1)
    else [if f + 1 < |tape| then FileMark else EndMark] + From(tape, f + 1, 0)
  }

  // ---------------------------------------------------------------- the drive

  /** The controller's idea of where it is; the remaining count matters while a file is open. */
  datatype Drive = Drive(fileNo: nat, open: bool, left: nat)

  ghost predicate Placed(tape: Files, d: Drive) {
    && d.fileNo <= |tape|
    && (d.open ==> d.fileNo < |tape| && d.left <= Blocks(tape, d.fileNo))
  }

  /** What the stream still holds in front of the drive.  An open file with nothing left has
      had its mark reported. */
  function Ahead(tape: Files, d: Drive): seq<Item>
    requires Placed(tape, d)
  {
    if !d.open then From(tape, d.fileNo, 0)
    else if d.left == 0 then From(tape, d.fileNo + 1, 0)
    else From(tape, d.fileNo, Blocks(tape, d.fileNo) - d.left)
  }

  const REWOUND := Drive(0, false, 0)

  /** Blocks a READ moves once a file is open, and the drive after it. */
  function Transfer(d: Drive, n: nat): (nat, Drive) {
    var k := if n < d.left then n else d.left;
    (k, d.(left := d.left - k))
  }

  /** The file a READ works on: the open one, the next one where the open one is used up, or
      the one the drive stands in front of. */
  function Opened(tape: Files, d: Drive): (r: Drive)
    requires Placed(tape, d)
    ensures Placed(tape, r)
  {
    if d.open && d.left > 0 then d else
    var f := if d.open then d.fileNo + 1 else d.fileNo;
    if f < |tape| then Drive(f, true, Blocks(tape, f)) else Drive(f, false, 0)
  }

  /** Items of one file: from block b, the next k blocks and the mark if they are the last. */
  function FileItems(tape: Files, f: nat, b: nat, k: nat): seq<Item>
    requires f < |tape| && b + k <= Blocks(tape, f)
    decreases k
  {
    if k > 0 then [Block(BlockAt(tape, f, b))] + FileItems(tape, f, b + 1, k - 1)
    else if b < Blocks(tape, f) then [] else [if f + 1 < |tape| then FileMark else EndMark]
  }

  /** The stream items a READ of n blocks consumes, and the drive after it. */
  function Read(tape: Files, d: Drive, n: nat): (r: (seq<Item>, Drive))
    requires Placed(tape, d)
    ensures Placed(tape, r.1)
  {
    var o := Opened(tape, d);
    if !o.open then ([], o) else
    var (k, e) := Transfer(o, n);
    var b := Blocks(tape, o.fileNo) - o.left;
    (FileItems(tape, o.fileNo, b, k), e)
  }

  /** SKIP counts whole files, one more where the drive has just read to the end of one. */
  function Skip(tape: Files, d: Drive, n: nat): (r: Drive)
    requires Placed(tape, d)
    ensures Placed(tape, r)
  {
    var f := d.fileNo + n + (if d.open && d.left == 0 then 1 else 0);
    Drive(if f < |tape| then f else |tape|, false, 0)
  }

  // ---------------------------------------------------------------- reading a stream

  /** Reading at most n blocks of a stream of items: up to the next mark, which is taken with
      the blocks before it. */
  function Take(items: seq<Item>, n: nat): (r: seq<Item>)
    ensures r <= items
    decreases |items|
  {
    if items == [] then []
    else if !items[0].Block? then [items[0]]
    else if n == 0 then []
    else [items[0]] + Take(items[1..], n - 1)
  }

  /** The stream behind the n-th mark. */
  function PastMarks(items: seq<Item>, n: nat): seq<Item>
    decreases |items|
  {
    if n == 0 || items == [] then items
    else PastMarks(items[1..], if items[0].Block? then n else n - 1)
  }

  lemma OpenedAhead(tape: Files, d: Drive)
    requires Placed(tape, d)
    ensures var o := Opened(tape, d);
      if o.open then From(tape, o.fileNo, Blocks(tape, o.fileNo) - o.left) == Ahead(tape, d)
      else Ahead(tape, d) == []
  {
  }

  lemma {:induction false} TakesFileItems(tape: Files, f: nat, b: nat, n: nat)
    requires f < |tape| && b <= Blocks(tape, f)
    ensures Take(From(tape, f, b), n)
      == FileItems(tape, f, b, if n < Blocks(tape, f) - b then n else Blocks(tape, f) - b)
    decreases n
  {
    hide Blocks, BlockAt;
    if b < Blocks(tape, f) && n > 0 {
      TakesFileItems(tape, f, b + 1, n - 1);
      assert From(tape, f, b)[1..] == From(tape, f, b + 1);
    }
  }

  lemma {:induction false} FileItemsSplit(tape: Files, f: nat, b: nat, k: nat)
    requires f < |tape| && b + k <= Blocks(tape, f)
    ensures From(tape, f, b)
      == FileItems(tape, f, b, k) + if b + k < Blocks(tape, f) then From(tape, f, b + k) else From(tape, f + 1, 0)
    decreases k
  {
    hide From, FileItems, Blocks;
    if k > 0 {
      FileItemsSplit(tape, f, b + 1, k - 1);
      FileStep(tape, f, b, k);
    } else {
      FileEnds(tape, f, b);
    }
  }

  lemma FileStep(tape: Files, f: nat, b: nat, k: nat)
    requires f < |tape| && k > 0 && b + k <= Blocks(tape, f)
    ensures From(tape, f, b) == [Block(BlockAt(tape, f, b))] + From(tape, f, b + 1)
    ensures FileItems(tape, f, b, k) == [Block(BlockAt(tape, f, b))] + FileItems(tape, f, b + 1, k - 1)
  {
  }

  lemma FileEnds(tape: Files, f: nat, b: nat)
    requires f < |tape| && b <= Blocks(tape, f)
    ensures From(tape, f, b)
      == FileItems(tape, f, b, 0) + if b < Blocks(tape, f) then From(tape, f, b) else From(tape, f + 1, 0)
  {
  }

  /** A READ is reading the stream: it consumes what a stream reader would take, and leaves
      the rest in front of the drive. */
  lemma ReadTakes(tape: Files, d: Drive, n: nat)
    requires Placed(tape, d)
    ensures var (got, e) := Read(tape, d, n);
      got == Take(Ahead(tape, d), n) && got + Ahead(tape, e) == Ahead(tape, d)
  {
    hide From, Take;
    var o := Opened(tape, d);
    OpenedAhead(tape, d);
    if o.open {
      var b := Blocks(tape, o.fileNo) - o.left;
      TakesFileItems(tape, o.fileNo, b, n);
      FileItemsSplit(tape, o.fileNo, b, if n < o.left then n else o.left);
    } else {
      TakeNothing(n);
      EndOfTape(tape);
    }
  }

  lemma TakeNothing(n: nat)
    ensures Take([], n) == []
  {
  }

  lemma EndOfTape(tape: Files)
    ensures From(tape, |tape|, 0) == []
  {
  }

  // ---------------------------------------------------------------- runs of READs

  function Reads(tape: Files, d: Drive, ns: seq<nat>): (r: (seq<Item>, Drive))
    requires Placed(tape, d)
    ensures Placed(tape, r.1)
    decreases |ns|
  {
    if ns == [] then ([], d) else
    var (got, e) := Read(tape, d, ns[0]);
    var (more, z) := Reads(tape, e, ns[1..]);
    (got + more, z)
  }

  /** Over any READs, what they deliver and what lies ahead make up the stream: no block is
      skipped or repeated, and every file's mark, an empty file's too, comes once, right after
      its blocks. */
  lemma {:induction false} ReadsConcatenate(tape: Files, d: Drive, ns: seq<nat>)
    requires Placed(tape, d)
    ensures var (got, z) := Reads(tape, d, ns); got + Ahead(tape, z) == Ahead(tape, d)
    decreases |ns|
  {
    hide Ahead, Read;
    if ns != [] {
      var (got, e) := Read(tape, d, ns[0]);
      ReadTakes(tape, d, ns[0]);
      ReadsConcatenate(tape, e, ns[1..]);
      var (more, z) := Reads(tape, e, ns[1..]);
      assert got + more + Ahead(tape, z) == got + (more + Ahead(tape, z));
    }
  }

  /** READs of at least a block each reach the end of the tape, within as many of them as the
      stream has items. */
  lemma {:induction false} ReadsFinish(tape: Files, d: Drive, ns: seq<nat>)
    requires Placed(tape, d) && (forall i :: 0 <= i < |ns| ==> ns[i] > 0) && |ns| >= |Ahead(tape, d)|
    ensures Reads(tape, d, ns).0 == Ahead(tape, d)
    decreases |ns|
  {
    hide Ahead, Read;
    if ns == [] {
      assert Ahead(tape, d) == [];
    } else {
      var (got, e) := Read(tape, d, ns[0]);
      ReadTakes(tape, d, ns[0]);
      ReadsFinish(tape, e, ns[1..]);
    }
  }

  /** The blocks in a stretch of the stream, joined. */
  function Data(items: seq<Item>): seq<byte>
    decreases |items|
  {
    if items == [] then [] else (match items[0] case Block(d) => d case _ => []) + Data(items[1..])
  }

  lemma {:induction false} DataJoins(a: seq<Item>, b: seq<Item>)
    ensures Data(a + b) == Data(a) + Data(b)
    decreases |a|
  {
    if a == [] {
      assert a + b == b;
    } else {
      assert (a + b)[1..] == a[1..] + b;
      DataJoins(a[1..], b);
    }
  }

  /** A file's data is its whole blocks of 512 bytes; a partial block at its end is not on the tape. */
  function WholeBlocks(tape: Files, f: nat): seq<byte>
    requires f < |tape|
  {
    tape[f][..|tape[f]| - |tape[f]| % 512]
  }

  function Concatenated(tape: Files, f: nat): seq<byte>
    decreases |tape| - f
  {
    if f >= |tape| then [] else WholeBlocks(tape, f) + Concatenated(tape, f + 1)
  }

  lemma {:induction false} StreamData(tape: Files, f: nat, b: nat)
    requires f < |tape| ==> b <= Blocks(tape, f)
    ensures Data(From(tape, f, b))
      == if f < |tape| then WholeBlocks(tape, f)[b * BLOCK..] + Concatenated(tape, f + 1) else []
    decreases |tape| - f, if f < |tape| then Blocks(tape, f) - b else 0
  {
    hide WholeBlocks, BlockAt, Blocks;
    if f < |tape| {
      if b < Blocks(tape, f) {
        StreamData(tape, f, b + 1);
        DataCons(Block(BlockAt(tape, f, b)), From(tape, f, b + 1));
        WholeBlocksFrom(tape, f, b);
      } else {
        StreamData(tape, f + 1, 0);
        DataCons(if f + 1 < |tape| then FileMark else EndMark, From(tape, f + 1, 0));
        WholeBlocksEnd(tape, f);
        if f + 1 < |tape| { WholeBlocksStart(tape, f + 1); }
      }
    }
  }

  lemma DataCons(item: Item, items: seq<Item>)
    ensures Data([item] + items) == (match item case Block(d) => d case _ => []) + Data(items)
  {
  }

  lemma WholeBlocksFrom(tape: Files, f: nat, b: nat)
    requires f < |tape| && b < Blocks(tape, f)
    ensures |WholeBlocks(tape, f)| == Blocks(tape, f) * BLOCK
    ensures WholeBlocks(tape, f)[b * BLOCK..] == BlockAt(tape, f, b) + WholeBlocks(tape, f)[(b + 1) * BLOCK..]
  {
  }

  lemma WholeBlocksEnd(tape: Files, f: nat)
    requires f < |tape|
    ensures |WholeBlocks(tape, f)| == Blocks(tape, f) * BLOCK
    ensures WholeBlocks(tape, f)[Blocks(tape, f) * BLOCK..] == []
  {
  }

  lemma WholeBlocksStart(tape: Files, f: nat)
    requires f < |tape|
    ensures WholeBlocks(tape, f)[0 * BLOCK..] == WholeBlocks(tape, f)
  {
  }

  function Marks(items: seq<Item>): nat
    decreases |items|
  {
    if items == [] then 0 else (if items[0].FileMark? then 1 else 0) + Marks(items[1..])
  }

  /** From a rewound tape, the data delivered is a prefix of the files' whole blocks joined. */
  lemma DeliveredIsPrefix(tape: Files, ns: seq<nat>)
    ensures Placed(tape, REWOUND) && Data(Reads(tape, REWOUND, ns).0) <= Concatenated(tape, 0)
  {
    ReadsConcatenate(tape, REWOUND, ns);
    var (got, z) := Reads(tape, REWOUND, ns);
    DataJoins(got, Ahead(tape, z));
    StreamData(tape, 0, 0);
    assert Ahead(tape, REWOUND) == From(tape, 0, 0);
    if |tape| > 0 {
      assert WholeBlocks(tape, 0)[0..] == WholeBlocks(tape, 0);
    }
  }

  lemma {:induction false} MarksJoin(a: seq<Item>, b: seq<Item>)
    ensures Marks(a + b) == Marks(a) + Marks(b)
    decreases |a|
  {
    if a == [] {
      assert a + b == b;
    } else {
      assert (a + b)[1..] == a[1..] + b;
      MarksJoin(a[1..], b);
    }
  }

  lemma {:induction false} MarksFrom(tape: Files, f: nat, b: nat)
    requires f < |tape| ==> b <= Blocks(tape, f)
    ensures Marks(From(tape, f, b)) == if f < |tape| then |tape| - 1 - f else 0
    decreases |tape| - f, if f < |tape| then Blocks(tape, f) - b else 0
  {
    hide Blocks, BlockAt;
    if f < |tape| {
      if b < Blocks(tape, f) {
        MarksFrom(tape, f, b + 1);
        MarksCons(Block(BlockAt(tape, f, b)), From(tape, f, b + 1));
      } else {
        MarksFrom(tape, f + 1, 0);
        MarksCons(if f + 1 < |tape| then FileMark else EndMark, From(tape, f + 1, 0));
      }
    }
  }

  lemma MarksCons(item: Item, items: seq<Item>)
    ensures Marks([item] + items) == (if item.FileMark? then 1 else 0) + Marks(items)
  {
  }

  /** Filemarks reported since a rewind: one for every file behind the drive that has a
      successor, whatever the READs were. */
  lemma MarksCountFiles(tape: Files, ns: seq<nat>)
    requires tape != []
    ensures Placed(tape, REWOUND)
    ensures var (got, z) := Reads(tape, REWOUND, ns);
      var behind := if z.open && z.left == 0 then z.fileNo + 1 else z.fileNo;
      Marks(got) == if behind < |tape| then behind else |tape| - 1
  {
    ReadsConcatenate(tape, REWOUND, ns);
    var (got, z) := Reads(tape, REWOUND, ns);
    MarksJoin(got, Ahead(tape, z));
    MarksFrom(tape, 0, 0);
    MarksFrom(tape, if z.open && z.left == 0 then z.fileNo + 1 else z.fileNo,
              if z.open && z.left > 0 then Blocks(tape, z.fileNo) - z.left else 0);
  }

  // ---------------------------------------------------------------- SKIP

  lemma {:induction false} PastMarksFrom(tape: Files, f: nat, b: nat, n: nat)
    requires (f < |tape| ==> b <= Blocks(tape, f)) && n > 0
    ensures PastMarks(From(tape, f, b), n) == From(tape, if f + n < |tape| then f + n else |tape|, 0)
    decreases |tape| - f, if f < |tape| then Blocks(tape, f) - b else 0
  {
    var items := From(tape, f, b);
    if f < |tape| {
      if b < Blocks(tape, f) {
        assert items[1..] == From(tape, f, b + 1);
        PastMarksFrom(tape, f, b + 1, n);
      } else {
        assert items[1..] == From(tape, f + 1, 0);
        if n > 1 {
          PastMarksFrom(tape, f + 1, 0, n - 1);
        }
      }
    }
  }

  predicate BetweenFiles(tape: Files, d: Drive)
    requires Placed(tape, d)
  {
    !d.open || d.left == 0 || d.left == Blocks(tape, d.fileNo)
  }

  lemma {:induction false} FromIsLonger(tape: Files, f: nat, b: nat)
    requires f < |tape| && b <= Blocks(tape, f)
    ensures |From(tape, f, b)| == Blocks(tape, f) - b + 1 + |From(tape, f + 1, 0)|
    decreases Blocks(tape, f) - b
  {
    if b < Blocks(tape, f) { FromIsLonger(tape, f, b + 1); }
  }

  /** SKIP lands behind the n-th mark ahead, from inside a file and from the end of one alike;
      the one exception is a SKIP of no files in mid-file, which goes back to its start. */
  lemma SkipLandsIff(tape: Files, d: Drive, n: nat)
    requires Placed(tape, d)
    ensures Ahead(tape, Skip(tape, d, n)) == PastMarks(Ahead(tape, d), n) <==> n > 0 || BetweenFiles(tape, d)
  {
    hide From, Blocks, PastMarks;
    if n > 0 {
      SkipsForward(tape, d, n);
    } else {
      NoMarks(Ahead(tape, d));
      SkipsNothing(tape, d);
    }
  }

  lemma NoMarks(items: seq<Item>)
    ensures PastMarks(items, 0) == items
  {
  }

  lemma SkipsForward(tape: Files, d: Drive, n: nat)
    requires Placed(tape, d) && n > 0
    ensures Ahead(tape, Skip(tape, d, n)) == PastMarks(Ahead(tape, d), n)
  {
    hide From, Blocks, PastMarks;
    var b := if d.open && d.left > 0 then Blocks(tape, d.fileNo) - d.left else 0;
    PastMarksFrom(tape, if d.open && d.left == 0 then d.fileNo + 1 else d.fileNo, b, n);
  }

  lemma SkipsNothing(tape: Files, d: Drive)
    requires Placed(tape, d)
    ensures Ahead(tape, Skip(tape, d, 0)) == Ahead(tape, d) <==> BetweenFiles(tape, d)
  {
    hide From, Blocks;
    if d.open && d.left > 0 {
      FromIsLonger(tape, d.fileNo, 0);
      FromIsLonger(tape, d.fileNo, Blocks(tape, d.fileNo) - d.left);
    }
  }
}
