/**
 The memory management unit of src/mmu.c: eight segments with a base, a limit, four limit
 policies and sticky status bits.  `Table` and its operations are the specification; class
 `MmuUnit.Unit` keeps the registers in arrays as the source does and is proved against it.
 */
module Mmu {
  import opened Words

  const SEGMENTS: nat := 8
  const PAGES: nat := 0x1000          // A09 through A20
  const USER_PROGRAM: nat := 2

  type half = x: int | 0 <= x < 0x1_0000

  datatype Status = Status(written: bool, execErr: bool, writeErr: bool, limitErr: bool)
  {
    function Value(): nat {
      (if written then 1 else 0) + (if execErr then 2 else 0)
      + (if writeErr then 4 else 0) + (if limitErr then 8 else 0)
    }
  }

  const CLEAR := Status(false, false, false, false)

  datatype Policy = Absent | LimitGe | LimitLt | LimitLe

  function PolicyOf(base: half): Policy {
    match base / 0x1000 % 4
    case 0 => Absent
    case 1 => LimitGe
    case 2 => LimitLt
    case _ => LimitLe
  }

  predicate ReadOnly(base: half) { base / 0x4000 % 2 == 1 }

  predicate DataOnly(base: half) { base / 0x8000 == 1 }

  /** Whether a page offset breaks a segment's limit policy. */
  predicate Violates(p: Policy, off: nat, limit: nat) {
    match p
    case Absent => true
    case LimitGe => off >= limit
    case LimitLt => off < limit
    case LimitLe => off <= limit
  }

  function SegOf(logical: word): (s: nat)
    ensures s < SEGMENTS
  {
    logical / 0x20_0000 % 8
  }

  function OffsetOf(logical: word): (o: nat)
    ensures o < PAGES
  {
    logical / 512 % 0x1000
  }

  predicate IsBase(address: word) { address / 0x10_0000 % 16 == 8 }

  predicate IsLimit(address: word) { address / 0x10_0000 % 16 == 10 }

  function Selected(address: word): (s: nat)
    ensures s < SEGMENTS
  {
    address / 2 % 8
  }

  datatype Table = Table(
    base: seq<half>,
    limit: seq<half>,
    stat: seq<Status>,
    loaded: bool,
    xlates: word,
    errors: word,
    memError: bool,        // the two flags it raises in the board's own status
    overflow: bool
  )
  {
    predicate Valid() { |base| == SEGMENTS && |limit| == SEGMENTS && |stat| == SEGMENTS }

    predicate OutOfLimit(logical: word)
      requires Valid()
    {
      var s := SegOf(logical);
      Violates(PolicyOf(base[s]), OffsetOf(logical), limit[s] % PAGES)
    }

    predicate BadWrite(logical: word, isWrite: bool)
      requires Valid()
    {
      isWrite && ReadOnly(base[SegOf(logical)])
    }

    predicate BadFetch(logical: word, fc: nat)
      requires Valid()
    {
      DataOnly(base[SegOf(logical)]) && fc == USER_PROGRAM
    }

    predicate Granted(logical: word, isWrite: bool, fc: nat)
      requires Valid()
    {
      !OutOfLimit(logical) && !BadWrite(logical, isWrite) && !BadFetch(logical, fc)
    }

    function Physical(logical: word): (p: nat)
      requires Valid()
    {
      (base[SegOf(logical)] % PAGES + OffsetOf(logical)) % PAGES * 512 + logical % 512
    }
  }

  const RESET := Table([0, 0, 0, 0, 0, 0, 0, 0], [0, 0, 0, 0, 0, 0, 0, 0],
                       [CLEAR, CLEAR, CLEAR, CLEAR, CLEAR, CLEAR, CLEAR, CLEAR], false, 0, 0, false, false)

  datatype Event =
    | WriteWord(address: word, value: word)
    | WriteByte(address: word, value: word)
    | Translate(logical: word, isWrite: bool, fc: nat)
    | ReadFlags               // the board's status is read, which clears the flags

  function SetHalf(old_: half, address: word, value: word): half {
    if address % 2 == 1 then old_ / 256 * 256 + value % 256 else value % 256 * 256 + old_ % 256
  }

  function Count(b: bool): nat { if b then 1 else 0 }

  /** One operation on the unit. */
  function Step(t: Table, e: Event): (r: Table)
    requires t.Valid()
    ensures r.Valid()
  {
    match e
    case WriteWord(a, v) =>
      var s := Selected(a);
      if IsBase(a) then t.(base := t.base[s := v % 0x1_0000], loaded := true, stat := t.stat[s := CLEAR])
      else t.(limit := t.limit[s := v % 0x1000])
    case WriteByte(a, v) =>
      var s := Selected(a);
      if IsBase(a) then
        t.(base := t.base[s := SetHalf(t.base[s], a, v)], loaded := true, stat := t.stat[s := CLEAR])
      else t.(limit := t.limit[s := SetHalf(t.limit[s], a, v)])
    case ReadFlags => t.(memError := false, overflow := false)
    case Translate(l, w, fc) =>
      var s := SegOf(l);
      var written := t.stat[s].written || (w && t.Granted(l, w, fc));
      var bits := Status(written, t.BadFetch(l, fc), t.BadWrite(l, w), t.OutOfLimit(l));
      t.(stat := t.stat[s := bits],
         errors := Wrap(t.errors + Count(bits.execErr) + Count(bits.writeErr) + Count(bits.limitErr)),
         xlates := if t.Granted(l, w, fc) then Wrap(t.xlates + 1) else t.xlates,
         memError := t.memError || !t.Granted(l, w, fc),
         overflow := t.overflow || (PolicyOf(t.base[s]).LimitLe? && t.OutOfLimit(l)))
  }

  function Run(t: Table, es: seq<Event>): (r: Table)
    requires t.Valid()
    ensures r.Valid()
    decreases |es|
  {
    if es == [] then t else Step(Run(t, es[..|es| - 1]), es[|es| - 1])
  }

  // ---------------------------------------------------------------- what a descriptor means

  /** An access to page offset o of a segment is granted exactly if the type in bits 12 and 13 of its
      base, 1, 2 or 3, lets the offset stand below, not below or above the low 12 bits of its
      limit, bit 14 does not forbid the write and bit 15 does not forbid the fetch of a user
      program, function code 2.  The byte it reaches is that of the page at the sum of the low
      12 bits of the base and the offset. */
  lemma GrantedByBits(t: Table, logical: word, isWrite: bool, fc: nat)
    requires t.Valid()
    ensures var s, o := logical / 0x20_0000 % 8, logical / 512 % 0x1000;
      var base, l := t.base[s], t.limit[s] % 0x1000;
      var kind := base / 0x1000 % 4;
      && (t.Granted(logical, isWrite, fc) <==>
            && ((kind == 1 && o < l) || (kind == 2 && o >= l) || (kind == 3 && o > l))
            && !(isWrite && base / 0x4000 % 2 == 1) && !(fc == 2 && base / 0x8000 == 1))
      && t.Physical(logical) == (base % 0x1000 + o) % 0x1000 * 512 + logical % 512
  {
  }

  /** Each error bit tells of its own rule. */
  lemma ErrorsByBits(t: Table, logical: word, isWrite: bool, fc: nat)
    requires t.Valid()
    ensures var s, o := logical / 0x20_0000 % 8, logical / 512 % 0x1000;
      var base, l := t.base[s], t.limit[s] % 0x1000;
      var st := Step(t, Translate(logical, isWrite, fc)).stat[s].Value();
      && (st / 2 % 2 == 1 <==> fc == 2 && base / 0x8000 == 1)
      && (st / 4 % 2 == 1 <==> isWrite && base / 0x4000 % 2 == 1)
      && (st / 8 % 2 == 1 <==>
            base / 0x1000 % 4 == 0 || (base / 0x1000 % 4 == 1 && o >= l) || (base / 0x1000 % 4 == 2 && o < l)
            || (base / 0x1000 % 4 == 3 && o <= l))
      && (st % 2 == 1 <==> t.stat[s].written || (isWrite && t.Granted(logical, isWrite, fc))) && st < 16
  {
    hide OffsetOf, SegOf, ReadOnly, DataOnly, PolicyOf;
    var s := SegOf(logical);
    StatusBits(Step(t, Translate(logical, isWrite, fc)).stat[s]);
    FieldsByBits(logical, t.base[s]);
  }

  lemma StatusBits(st: Status)
    ensures var v := st.Value();
      && v < 16 && (v % 2 == 1 <==> st.written) && (v / 2 % 2 == 1 <==> st.execErr)
      && (v / 4 % 2 == 1 <==> st.writeErr) && (v / 8 % 2 == 1 <==> st.limitErr)
  {
  }

  lemma FieldsByBits(logical: word, base: half)
    ensures SegOf(logical) == logical / 0x20_0000 % 8 && OffsetOf(logical) == logical / 512 % 0x1000
    ensures (ReadOnly(base) <==> base / 0x4000 % 2 == 1) && (DataOnly(base) <==> base / 0x8000 == 1)
    ensures PolicyOf(base)
      == match base / 0x1000 % 4 { case 0 => Absent case 1 => LimitGe case 2 => LimitLt case _ => LimitLe }
  {
  }

  /** Address bits 23 to 20 tell the window of the bases, 8, and its bits 3 to 1 the register; every
      other window of writes is that of the limits.  A word replaces the register, a limit being
      cut to 12 bits; a byte replaces its high half at an even address and its low half at an odd
      one. */
  lemma DescriptorsByBits(t: Table, a: word, v: word, u: nat)
    requires t.Valid() && u < SEGMENTS
    ensures var s, isBase := a / 2 % 8, a / 0x10_0000 % 16 == 8;
      var r, b := Step(t, WriteWord(a, v)), Step(t, WriteByte(a, v));
      && r.base[u] == (if u == s && isBase then v % 0x1_0000 else t.base[u])
      && r.limit[u] == (if u == s && !isBase then v % 0x1000 else t.limit[u])
      && b.base[u] == (if u == s && isBase then Byte(t.base[u], a % 2 == 0, v % 256) else t.base[u])
      && b.limit[u] == (if u == s && !isBase then Byte(t.limit[u], a % 2 == 0, v % 256) else t.limit[u])
      && r.stat[u] == b.stat[u] == (if u == s && isBase then Status(false, false, false, false) else t.stat[u])
      && r.loaded == b.loaded == (isBase || t.loaded)
      && (IsLimit(a) <==> a / 0x10_0000 % 16 == 10)
  {
  }

  function Byte(x: half, high: bool, v: byte): half { if high then 256 * v + x % 256 else x - x % 256 + v }

  /** After a reset every register is zero, nothing has been loaded, and no address is let through. */
  lemma ResetRefuses(s: nat, logical: word, isWrite: bool, fc: nat)
    requires s < SEGMENTS
    ensures RESET.base[s] == 0 && RESET.limit[s] == 0 && RESET.stat[s].Value() == 0
    ensures !RESET.loaded && RESET.xlates == 0 && RESET.errors == 0
    ensures RESET.Valid() && !RESET.Granted(logical, isWrite, fc)
  {
  }

  /** The translations of a run that were let through. */
  function LetThrough(es: seq<Event>): nat
    decreases |es|
  {
    if es == [] then 0 else
    var (t, e) := (Run(RESET, es[..|es| - 1]), es[|es| - 1]);
    LetThrough(es[..|es| - 1])
    + if e.Translate? && t.Granted(e.logical, e.isWrite, e.fc) then 1 else 0
  }

  /** The rules that an event breaks. */
  function Broken(t: Table, e: Event): nat
    requires t.Valid()
  {
    if !e.Translate? then 0
    else (if t.OutOfLimit(e.logical) then 1 else 0) + (if t.BadWrite(e.logical, e.isWrite) then 1 else 0)
         + (if t.BadFetch(e.logical, e.fc) then 1 else 0)
  }

  function RulesBroken(es: seq<Event>): nat
    decreases |es|
  {
    if es == [] then 0 else RulesBroken(es[..|es| - 1]) + Broken(Run(RESET, es[..|es| - 1]), es[|es| - 1])
  }

  /** The two counters of the unit count the translations let through and the rules broken, modulo
      2^32. */
  lemma {:induction false} CountersCount(es: seq<Event>)
    ensures Run(RESET, es).xlates == LetThrough(es) % 0x1_0000_0000
    ensures Run(RESET, es).errors == RulesBroken(es) % 0x1_0000_0000
    decreases |es|
  {
    hide Step, Table.Granted, Broken;
    if es != [] {
      CountersCount(es[..|es| - 1]);
      CountersStep(Run(RESET, es[..|es| - 1]), es[|es| - 1]);
      CarriesOn(LetThrough(es[..|es| - 1]), LetThrough(es) - LetThrough(es[..|es| - 1]));
      CarriesOn(RulesBroken(es[..|es| - 1]), RulesBroken(es) - RulesBroken(es[..|es| - 1]));
    }
  }

  lemma CarriesOn(n: nat, d: nat)
    ensures (n % 0x1_0000_0000 + d) % 0x1_0000_0000 == (n + d) % 0x1_0000_0000
  {
  }

  lemma CountersStep(t: Table, e: Event)
    requires t.Valid()
    ensures Step(t, e).xlates
      == (t.xlates + if e.Translate? && t.Granted(e.logical, e.isWrite, e.fc) then 1 else 0) % 0x1_0000_0000
    ensures Step(t, e).errors == (t.errors + Broken(t, e)) % 0x1_0000_0000
  {
    hide Table.OutOfLimit, Table.BadWrite, Table.BadFetch;
  }

  // ---------------------------------------------------------------- where translation leads

  /** The logical address of a segment that leads to a physical one: the offset is the
      distance from the base around the ring of pages. */
  function Untranslate(t: Table, s: nat, phys: nat): nat
    requires t.Valid() && s < SEGMENTS
  {
    s * 0x20_0000 + (phys / 512 - t.base[s] % PAGES) % PAGES * 512 + phys % 512
  }

  /** Within a segment, translation is inverted: every physical address comes from one
      logical address only. */
  lemma TranslationInverts(t: Table, logical: word)
    requires t.Valid()
    ensures t.Physical(logical) < 0x20_0000
    ensures Untranslate(t, SegOf(logical), t.Physical(logical)) == logical % 0x100_0000
  {
    hide OffsetOf, SegOf;
    var b, o := t.base[SegOf(logical)] % PAGES, OffsetOf(logical);
    Ring(b, o);
    Fields(logical);
    Split((b + o) % PAGES, logical % 512);
  }

  lemma Ring(b: nat, o: nat)
    requires b < PAGES && o < PAGES
    ensures ((b + o) % PAGES - b) % PAGES == o && (b + (o - b) % PAGES) % PAGES == o
  {
  }

  lemma Split(page: nat, low: nat)
    requires low < 512
    ensures (page * 512 + low) / 512 == page && (page * 512 + low) % 512 == low
  {
  }

  lemma Fields(l: word)
    ensures l % 0x100_0000 == SegOf(l) * 0x20_0000 + OffsetOf(l) * 512 + l % 512
  {
    var page, low := l / 512, l % 512;
    var h, o := page / 0x1000, page % 0x1000;
    PageParts(h * 0x1000 + o, low);
    SegParts(h, o * 512 + low);
  }

  lemma PageParts(page: nat, low: nat)
    requires low < 512
    ensures (page * 512 + low) / 512 == page
  {
  }

  lemma SegParts(h: nat, rest: nat)
    requires rest < 0x20_0000
    ensures (h * 0x20_0000 + rest) / 0x20_0000 == h
    ensures (h * 0x20_0000 + rest) % 0x100_0000 == h % 8 * 0x20_0000 + rest
  {
  }

  /** Distinct addresses through one segment reach distinct physical addresses. */
  lemma SegmentsAreInjective(t: Table, a: word, b: word)
    requires t.Valid() && SegOf(a) == SegOf(b) && a % 0x100_0000 != b % 0x100_0000
    ensures t.Physical(a) != t.Physical(b)
  {
    TranslationInverts(t, a);
    TranslationInverts(t, b);
  }

  /** The logical address does lead there. */
  lemma Back(t: Table, s: nat, phys: nat) returns (l: word)
    requires t.Valid() && s < SEGMENTS && phys < 0x20_0000
    ensures l == Untranslate(t, s, phys) && SegOf(l) == s && t.Physical(l) == phys
    ensures OffsetOf(l) == (phys / 512 - t.base[s] % PAGES) % PAGES
  {
    hide SegOf, OffsetOf;
    var b, page := t.base[s] % PAGES, phys / 512;
    var o := (page - b) % PAGES;
    l := s * 0x20_0000 + o * 512 + phys % 512;
    Ring(b, page);
    Joined(s, o, phys % 512, l);
  }

  /** A logical address put together from segment, page and offset in the page. */
  lemma Joined(s: nat, o: nat, low: nat, l: word)
    requires s < SEGMENTS && o < PAGES && low < 512 && l == s * 0x20_0000 + o * 512 + low
    ensures SegOf(l) == s && OffsetOf(l) == o && l % 512 == low
  {
    Split(s * PAGES + o, low);
    assert l / 512 == s * PAGES + o;
    SegParts(s, o * 512 + low);
  }

  /** A physical byte can be reached through a segment, for some kind of access. */
  ghost predicate Reaches(t: Table, s: nat, phys: nat)
    requires t.Valid()
  {
    exists l: word :: SegOf(l) == s && !t.OutOfLimit(l) && t.Physical(l) == phys
  }

  /** Exactly which bytes a segment reaches, for every policy: those whose page is at an
      offset from the base that its policy allows. */
  lemma ReachesIff(t: Table, s: nat, phys: nat)
    requires t.Valid() && s < SEGMENTS && phys < 0x20_0000
    ensures Reaches(t, s, phys)
      <==> !Violates(PolicyOf(t.base[s]), (phys / 512 - t.base[s] % PAGES) % PAGES, t.limit[s] % PAGES)
  {
    hide Untranslate, OffsetOf, SegOf, Violates, PolicyOf;
    var l := Back(t, s, phys);
    forall m: word | SegOf(m) == s && !t.OutOfLimit(m) && t.Physical(m) == phys
      ensures OffsetOf(m) == OffsetOf(l)
    {
      TranslationInverts(t, m);
      TranslationInverts(t, l);
      HighByteIgnored(m, l);
    }
  }

  lemma HighByteIgnored(m: word, l: word)
    requires m % 0x100_0000 == l % 0x100_0000
    ensures OffsetOf(m) == OffsetOf(l)
  {
    LowBytes(m);
    LowBytes(l);
  }

  lemma LowBytes(l: word)
    ensures OffsetOf(l) == l % 0x100_0000 / 512 % 0x1000
  {
  }

  /** The page range of a limit type segment, where it does not wrap around. */
  predicate Plain(t: Table, s: nat)
    requires t.Valid() && s < SEGMENTS
  {
    PolicyOf(t.base[s]).LimitGe? && t.base[s] % PAGES + t.limit[s] % PAGES <= PAGES
  }

  predicate InPages(t: Table, s: nat, page: nat)
    requires t.Valid() && s < SEGMENTS
  {
    t.base[s] % PAGES <= page < t.base[s] % PAGES + t.limit[s] % PAGES
  }

  /** Two limit type segments whose ranges do not wrap share a physical byte if and only if
      their page ranges overlap. */
  lemma SegmentsShareIffOverlap(t: Table, s: nat, u: nat)
    requires t.Valid() && s < SEGMENTS && u < SEGMENTS && Plain(t, s) && Plain(t, u)
    ensures (exists phys: nat :: phys < 0x20_0000 && Reaches(t, s, phys) && Reaches(t, u, phys))
      <==> (exists page :: InPages(t, s, page) && InPages(t, u, page))
  {
    hide Reaches;
    forall phys: nat | phys < 0x20_0000 && Reaches(t, s, phys) && Reaches(t, u, phys)
      ensures InPages(t, s, phys / 512) && InPages(t, u, phys / 512)
    {
      InRange(t, s, phys);
      InRange(t, u, phys);
    }
    if page: nat :| InPages(t, s, page) && InPages(t, u, page) {
      InRange(t, s, page * 512);
      InRange(t, u, page * 512);
      assert Reaches(t, s, page * 512) && Reaches(t, u, page * 512);
    }
  }

  lemma InRange(t: Table, s: nat, phys: nat)
    requires t.Valid() && s < SEGMENTS && Plain(t, s) && phys < 0x20_0000
    ensures Reaches(t, s, phys) <==> InPages(t, s, phys / 512)
  {
    hide Reaches;
    ReachesIff(t, s, phys);
  }

  // ---------------------------------------------------------------- the status bits over a run

  predicate TouchesBase(e: Event, s: nat) {
    !e.Translate? && !e.ReadFlags? && IsBase(e.address) && Selected(e.address) == s
  }

  predicate Through(e: Event, s: nat) { e.Translate? && SegOf(e.logical) == s }

  /** Whether an event of a run is a write that was let through the segment. */
  predicate WroteAt(es: seq<Event>, i: nat, s: nat)
    requires i < |es|
  {
    Through(es[i], s) && es[i].isWrite && Run(RESET, es[..i]).Granted(es[i].logical, true, es[i].fc)
  }

  predicate BaseKept(es: seq<Event>, i: nat, s: nat) { forall j :: i < j < |es| ==> !TouchesBase(es[j], s) }

  lemma Prefixes(es: seq<Event>, i: nat)
    requires i < |es|
    ensures es[..|es| - 1][..i] == es[..i]
  {
  }

  /** The written bit is set if and only if a write was let through the segment since its
      base was last written. */
  lemma {:induction false} WrittenIff(es: seq<Event>, s: nat)
    requires s < SEGMENTS
    ensures Run(RESET, es).stat[s].written
      <==> exists i: nat :: i < |es| && WroteAt(es, i, s) && BaseKept(es, i, s)
    decreases |es|
  {
    hide WroteAt, Step;
    if es != [] {
      var n := |es| - 1;
      var shorter := es[..n];
      WrittenIff(shorter, s);
      WrittenStep(Run(RESET, shorter), es[n], s);
      assert WroteAt(es, n, s)
        <==> Through(es[n], s) && es[n].isWrite && Run(RESET, shorter).Granted(es[n].logical, true, es[n].fc) by {
        WroteAtEnd(es, s);
      }
      assert BaseKept(es, n, s);
      forall i: nat | i < n ensures WroteAt(es, i, s) == WroteAt(shorter, i, s) { WroteEarlier(es, i, s); }
      forall i: nat | i < n ensures BaseKept(es, i, s) <==> BaseKept(shorter, i, s) && !TouchesBase(es[n], s) {}
    }
  }

  lemma WroteAtEnd(es: seq<Event>, s: nat)
    requires es != []
    ensures var n := |es| - 1;
      WroteAt(es, n, s)
      <==> Through(es[n], s) && es[n].isWrite && Run(RESET, es[..n]).Granted(es[n].logical, true, es[n].fc)
  {
  }

  lemma WroteEarlier(es: seq<Event>, i: nat, s: nat)
    requires i < |es| - 1
    ensures WroteAt(es, i, s) == WroteAt(es[..|es| - 1], i, s)
  {
    Prefixes(es, i);
  }

  lemma WrittenStep(t: Table, e: Event, s: nat)
    requires t.Valid() && s < SEGMENTS
    ensures Step(t, e).stat[s].written
      == if TouchesBase(e, s) then false
         else t.stat[s].written || (Through(e, s) && e.isWrite && t.Granted(e.logical, true, e.fc))
  {
  }

  /** The last event of a run that bears on a segment's error bits, or -1. */
  function Latest(es: seq<Event>, s: nat): (i: int)
    ensures -1 <= i < |es| && (i >= 0 ==> TouchesBase(es[i], s) || Through(es[i], s))
    ensures forall j :: i < j < |es| ==> !TouchesBase(es[j], s) && !Through(es[j], s)
    decreases |es|
  {
    if es == [] then -1
    else
      var n := |es| - 1;
      if TouchesBase(es[n], s) || Through(es[n], s) then n else Latest(es[..n], s)
  }

  /** The error bits say exactly which rules the latest translation through the segment
      broke, if there was one since its base was last written. */
  lemma {:induction false} ErrorsDescribeLatest(es: seq<Event>, s: nat)
    requires s < SEGMENTS
    ensures var st, i := Run(RESET, es).stat[s], Latest(es, s);
      if i < 0 || !es[i].Translate? then !st.execErr && !st.writeErr && !st.limitErr
      else var t, e := Run(RESET, es[..i]), es[i];
        && st.execErr == t.BadFetch(e.logical, e.fc)
        && st.writeErr == t.BadWrite(e.logical, e.isWrite)
        && st.limitErr == t.OutOfLimit(e.logical)
    decreases |es|
  {
    if es != [] {
      var n := |es| - 1;
      if !TouchesBase(es[n], s) && !Through(es[n], s) {
        ErrorsDescribeLatest(es[..n], s);
        var i := Latest(es, s);
        if i >= 0 { Prefixes(es, i); }
        assert Step(Run(RESET, es[..n]), es[n]).stat[s] == Run(RESET, es[..n]).stat[s];
      }
    }
  }

  /** The two flags the unit raises in the board's status. */
  datatype BoardFlag = ErrorFlag | OverflowFlag

  predicate IsUp(t: Table, f: BoardFlag) { if f.ErrorFlag? then t.memError else t.overflow }

  /** What raises them: any refusal the one, a stack segment that ran out the other. */
  predicate RaisedBy(t: Table, e: Event, f: BoardFlag)
    requires t.Valid()
  {
    e.Translate? &&
    if f.ErrorFlag? then !t.Granted(e.logical, e.isWrite, e.fc)
    else PolicyOf(t.base[SegOf(e.logical)]).LimitLe? && t.OutOfLimit(e.logical)
  }

  predicate RaisedAt(es: seq<Event>, i: nat, f: BoardFlag)
    requires i < |es|
  {
    RaisedBy(Run(RESET, es[..i]), es[i], f)
  }

  predicate Unread(es: seq<Event>, i: nat) { forall j :: i < j < |es| ==> !es[j].ReadFlags? }

  /** Either flag is up if and only if a translation raised it since the flags were last read. */
  lemma {:induction false} FlagIff(es: seq<Event>, f: BoardFlag)
    ensures IsUp(Run(RESET, es), f) <==> exists i: nat :: i < |es| && RaisedAt(es, i, f) && Unread(es, i)
    decreases |es|
  {
    hide RaisedAt, RaisedBy, IsUp, Step;
    if es == [] {
      NotUpAtFirst(f);
    } else {
      var n := |es| - 1;
      FlagIff(es[..n], f);
      FlagStep(es, f);
      assert Unread(es, n);
      forall i: nat | i < n
        ensures RaisedAt(es, i, f) == RaisedAt(es[..n], i, f)
        ensures Unread(es, i) <==> Unread(es[..n], i) && !es[n].ReadFlags?
      {
        RaisedEarlier(es, i, f);
        UnreadStep(es, i);
      }
    }
  }

  lemma NotUpAtFirst(f: BoardFlag)
    ensures !IsUp(RESET, f)
  {
  }

  lemma UnreadStep(es: seq<Event>, i: nat)
    requires i < |es| - 1
    ensures Unread(es, i) <==> Unread(es[..|es| - 1], i) && !es[|es| - 1].ReadFlags?
  {
  }

  lemma RaisedEarlier(es: seq<Event>, i: nat, f: BoardFlag)
    requires i < |es| - 1
    ensures RaisedAt(es, i, f) == RaisedAt(es[..|es| - 1], i, f)
  {
    Prefixes(es, i);
  }

  lemma FlagStep(es: seq<Event>, f: BoardFlag)
    requires es != []
    ensures var n := |es| - 1;
      IsUp(Run(RESET, es), f) <==> RaisedAt(es, n, f) || (!es[n].ReadFlags? && IsUp(Run(RESET, es[..n]), f))
  {
    hide Step, IsUp, RaisedBy;
    FlagAfter(Run(RESET, es[..|es| - 1]), es[|es| - 1], f);
  }

  lemma FlagAfter(t: Table, e: Event, f: BoardFlag)
    requires t.Valid()
    ensures IsUp(Step(t, e), f) <==> RaisedBy(t, e, f) || (!e.ReadFlags? && IsUp(t, f))
  {
  }

  /** An overflow is an error, so the error flag is up whenever the other is. */
  lemma OverflowIsError(es: seq<Event>)
    ensures Run(RESET, es).overflow ==> Run(RESET, es).memError
  {
    FlagIff(es, OverflowFlag);
    FlagIff(es, ErrorFlag);
    forall i: nat | i < |es| && RaisedAt(es, i, OverflowFlag) ensures RaisedAt(es, i, ErrorFlag) {
    }
  }

  /** A descriptor written a byte at a time is the one written as a word, to every later
      translation. */
  lemma BytesMakeWord(t: Table, a: word, v: word, l: word, w: bool, fc: nat)
    requires t.Valid() && a % 2 == 0 && a + 1 < W
    ensures var bytes := Step(Step(t, WriteByte(a, v / 256)), WriteByte(a + 1, v));
      var whole := Step(t, WriteWord(a, v));
      && bytes.base == whole.base && bytes.stat == whole.stat && bytes.loaded == whole.loaded
      && (bytes.Granted(l, w, fc) <==> whole.Granted(l, w, fc)) && bytes.Physical(l) == whole.Physical(l)
  {
    hide SetHalf;
    var s := Selected(a);
    SameSlot(a);
    var old_ := if IsBase(a) then t.base[s] else t.limit[s];
    HalvesJoin(old_, a, v);
    var bytes := Step(Step(t, WriteByte(a, v / 256)), WriteByte(a + 1, v));
    var whole := Step(t, WriteWord(a, v));
    assert bytes.base == whole.base && bytes.stat == whole.stat;
    assert forall u :: 0 <= u < SEGMENTS ==> bytes.limit[u] % PAGES == whole.limit[u] % PAGES;
    SameVerdict(bytes, whole, l, w, fc);
  }

  lemma SameSlot(a: word)
    requires a % 2 == 0 && a + 1 < W
    ensures Selected(a + 1) == Selected(a) && IsBase(a + 1) == IsBase(a)
  {
  }

  lemma HalvesJoin(old_: half, a: word, v: word)
    requires a % 2 == 0 && a + 1 < W
    ensures SetHalf(SetHalf(old_, a, v / 256), a + 1, v) == v % 0x1_0000
    ensures v % 0x1_0000 % PAGES == v % 0x1000
  {
    LowHalf(v);
    UpperByte(v / 256 % 256, old_ % 256);
    assert SetHalf(old_, a, v / 256) == v / 256 % 256 * 256 + old_ % 256;
  }

  lemma UpperByte(x: nat, y: nat)
    requires y < 256
    ensures (x * 256 + y) / 256 == x
  {
  }

  lemma LowHalf(v: word)
    ensures v % 0x1_0000 == v / 256 % 256 * 256 + v % 256 && v % 0x1_0000 % PAGES == v % 0x1000
  {
    var (q, r) := (v / 256 / 256, v / 256 % 256 * 256 + v % 256);
    assert v == q * 0x1_0000 + r;
    LowPart(q, r);
  }

  lemma LowPart(q: nat, r: nat)
    requires r < 0x1_0000
    ensures (q * 0x1_0000 + r) % 0x1_0000 == r && r % PAGES == (q * 0x1_0000 + r) % 0x1000
  {
    assert (q * 0x1_0000 + r) % 0x1000 == r % 0x1000 by { assert q * 0x1_0000 == q * 16 * 0x1000; }
  }

  lemma SameVerdict(t: Table, u: Table, l: word, w: bool, fc: nat)
    requires t.Valid() && u.Valid() && t.base == u.base
    requires forall s :: 0 <= s < SEGMENTS ==> t.limit[s] % PAGES == u.limit[s] % PAGES
    ensures (t.Granted(l, w, fc) <==> u.Granted(l, w, fc)) && t.Physical(l) == u.Physical(l)
  {
  }
}
