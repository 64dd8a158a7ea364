/**
 The unit of src/mmu.c as it runs, with its registers in arrays, and the gate in front of it
 in src/sim.c.  Every method is proved against the operations of module `Mmu`.
 */
module MmuUnit {
  import opened Mmu
  import opened Options
  import opened Words

  /** The bits of the board's status that are always set, 4 and 13. */
  const STATUS_WORD: nat := 0x2010

  class Unit {
    const base: array<half>
    const limit: array<half>
    const stat: array<Status>
    var loaded: bool
    var xlates: word
    var errors: word
    var memError: bool
    var overflow: bool

    ghost predicate Valid()
      reads this, base, limit, stat
    {
      && base.Length == SEGMENTS && limit.Length == SEGMENTS && stat.Length == SEGMENTS
      && base != limit
    }

    ghost function Contents(): (t: Table)
      requires Valid()
      reads this, base, limit, stat
      ensures t.Valid()
    {
      Table(base[..], limit[..], stat[..], loaded, xlates, errors, memError, overflow)
    }

    /** The state mmu_pulse_reset leaves. */
    constructor ()
      ensures Valid() && Contents() == RESET
    {
      base := new half[8](_ => 0);
      limit := new half[8](_ => 0);
      stat := new Status[8](_ => CLEAR);
      loaded, xlates, errors := false, 0, 0;
      memError, overflow := false, false;
      new;
      assert base[..] == RESET.base && limit[..] == RESET.limit && stat[..] == RESET.stat;
    }

    method WriteWord(address: word, value: word)
      requires Valid()
      modifies this, base, limit, stat
      ensures Valid() && Contents() == Step(old(Contents()), Event.WriteWord(address, value))
    {
      var seg := Selected(address);
      if IsBase(address) {
        base[seg] := value % 0x1_0000;
        loaded := true;
        stat[seg] := CLEAR;
      } else {
        limit[seg] := value % 0x1000;
      }
    }

    method WriteByte(address: word, value: word)
      requires Valid()
      modifies this, base, limit, stat
      ensures Valid() && Contents() == Step(old(Contents()), Event.WriteByte(address, value))
    {
      hide SetHalf;
      var seg := Selected(address);
      var r := if IsBase(address) then base else limit;
      r[seg] := SetHalf(r[seg], address, value);
      if IsBase(address) {
        loaded := true;
        stat[seg] := CLEAR;
      }
    }

    /** A base reads back as written; the window of the limits reads as the status of the segment,
        whatever the limit. */
    method ReadWord(address: word) returns (v: nat)
      requires Valid()
      ensures v == if IsBase(address) then Contents().base[Selected(address)] as int
                   else if IsLimit(address) then Contents().stat[Selected(address)].Value()
                   else Contents().limit[Selected(address)]
    {
      var seg := Selected(address);
      if IsBase(address) {
        return base[seg];
      }
      if IsLimit(address) {
        return stat[seg].Value();
      }
      return limit[seg];
    }

    /** The board's status as a byte or a word access reads it: the unit's two flags, bit 0 and
        bit 7, among the two bits that are always set.  The read clears the flags. */
    method ReadFlags(isByte: bool) returns (status: nat)
      requires Valid()
      modifies this
      ensures Valid() && Contents() == Step(old(Contents()), Event.ReadFlags)
      ensures status % 2 == Count(old(memError)) && status / 128 % 2 == Count(old(overflow))
      ensures status - Count(old(memError)) - 128 * Count(old(overflow)) == if isByte then 0x10 else 0x2010
    {
      var flags := Count(memError) + 128 * Count(overflow);
      memError, overflow := false, false;
      status := if isByte then (STATUS_WORD + flags) % 256 else STATUS_WORD + flags;
    }

    /** Translation for an observer: it changes nothing, and agrees with the real one but for
        the two rules about the kind of access. */
    method PeekTranslate(logical: word) returns (phys: Option<nat>)
      requires Valid()
      ensures forall w, fc: nat ::
        Contents().Granted(logical, w, fc)
        <==> (phys.Some? && !Contents().BadWrite(logical, w) && !Contents().BadFetch(logical, fc))
      ensures phys.Some? ==> phys.value == Contents().Physical(logical)
    {
      var seg, off := SegOf(logical), OffsetOf(logical);
      var b, lim, policy := base[seg] % PAGES, limit[seg] % PAGES, PolicyOf(base[seg]);
      var viol := false;
      match policy {
        case Absent => viol := true;
        case LimitGe => viol := off >= lim;
        case LimitLt => viol := off < lim;
        case LimitLe => viol := off <= lim;
      }
      if viol {
        return None;
      }
      var sum := (b + off) % PAGES;
      return Some(sum * 512 + logical % 512);
    }

    /** Clears the error bits of a segment and sets those of the rules an access breaks. */
    method RecordErrors(logical: word, viol: bool, isWrite: bool, fc: nat) returns (res: bool)
      requires Valid() && viol == Contents().OutOfLimit(logical)
      modifies `errors, stat
      ensures Valid() && res == old(Contents()).Granted(logical, isWrite, fc)
      ensures var t, s := old(Contents()), SegOf(logical);
        stat[..] == t.stat[s := Status(t.stat[s].written, t.BadFetch(logical, fc), t.BadWrite(logical, isWrite), viol)]
      ensures var t := old(Contents());
        errors == Wrap(t.errors + Count(t.BadFetch(logical, fc)) + Count(t.BadWrite(logical, isWrite)) + Count(viol))
    {
      hide ReadOnly, DataOnly, SegOf, Wrap, Violates, PolicyOf;
      var seg := SegOf(logical);
      var faults := 0;
      res := true;
      stat[seg] := Status(stat[seg].written, false, false, false);
      if viol {
        stat[seg] := stat[seg].(limitErr := true);
        faults := faults + 1;
        res := false;
      }
      if isWrite && ReadOnly(base[seg]) {
        stat[seg] := stat[seg].(writeErr := true);
        faults := faults + 1;
        res := false;
      }
      if DataOnly(base[seg]) {
        if fc == USER_PROGRAM {
          stat[seg] := stat[seg].(execErr := true);
          faults := faults + 1;
          res := false;
        }
      }
      errors := Wrap(errors + faults);
    }

    /** The rule of a policy; the last of them raises the overflow flag as well. */
    method CheckLimit(policy: Policy, off: nat, lim: nat) returns (viol: bool)
      requires Valid()
      modifies this`overflow
      ensures viol == Violates(policy, off, lim) && overflow == (old(overflow) || (viol && policy.LimitLe?))
    {
      match policy {
        case Absent => viol := true;
        case LimitGe => viol := off >= lim;
        case LimitLt => viol := off < lim;
        case LimitLe =>
          viol := off <= lim;
          if viol {
            overflow := true;
          }
      }
    }

    method TranslateAddress(logical: word, isWrite: bool, fc: nat) returns (phys: Option<nat>)
      requires Valid()
      modifies this, base, limit, stat
      ensures Valid() && Contents() == Step(old(Contents()), Translate(logical, isWrite, fc))
      ensures var t := old(Contents());
        phys == if t.Granted(logical, isWrite, fc) then Some(t.Physical(logical)) else None
    {
      hide PolicyOf, ReadOnly, DataOnly, OffsetOf, SegOf, Wrap, Violates;
      var seg, off := SegOf(logical), OffsetOf(logical);
      var b, lim, policy := base[seg] % PAGES, limit[seg] % PAGES, PolicyOf(base[seg]);
      var viol := CheckLimit(policy, off, lim);
      var res := RecordErrors(logical, viol, isWrite, fc);
      if !res {
        memError := true;
        return None;
      }
      var sum := (b + off) % PAGES;
      phys := Some(sum * 512 + logical % 512);
      if isWrite {
        stat[seg] := stat[seg].(written := true);
      }
      xlates := Wrap(xlates + 1);
    }

    /** The gate: a supervisor's address, or any before the first base was written, is
        physical and leaves the unit as it is. */
    method CpuXlate(userMode: bool, logical: word, isWrite: bool, fc: nat) returns (phys: Option<nat>)
      requires Valid()
      modifies this, base, limit, stat
      ensures Valid()
      ensures !userMode || !old(loaded) ==> phys == Some(logical) && Contents() == old(Contents())
      ensures userMode && old(loaded) ==> Contents() == Step(old(Contents()), Translate(logical, isWrite, fc))
      ensures var t := old(Contents());
        userMode && old(loaded) ==> phys == if t.Granted(logical, isWrite, fc) then Some(t.Physical(logical)) else None
    {
      if !userMode || !loaded {
        return Some(logical);
      }
      phys := TranslateAddress(logical, isWrite, fc);
    }
  }
}
