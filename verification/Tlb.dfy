/**
 The software TLB (cputlb.c 49-297): one entry per virtual page and MMU mode, and one
 address/mask pair that stands for all large pages installed since the last full flush.
 An address is a page number and flags below it; masks never reach into the flags, and a mask
 of ones above k zeros of the page number is given by k.
 */
module SoftTlb {
  import opened Common

  const TLB_SIZE: nat := 256
  /** 64-bit addresses, 4 KB pages. */
  const PAGE_NUMBER_BITS: nat := 52
  const PAGES: nat := 0x10_0000_0000_0000

  /** The page number with its low k bits cleared. */
  function Align(a: nat, k: nat): (r: nat)
    ensures r <= a
    decreases k
  {
    if k == 0 then a else 2 * Align(a / 2, k - 1)
  }

  lemma {:induction false} AlignMore(a: nat, k: nat, j: nat)
    requires k <= j
    ensures Align(Align(a, k), j) == Align(a, j)
    decreases k
  {
    if k > 0 {
      assert Align(a, k) / 2 == Align(a / 2, k - 1);
      AlignMore(a / 2, k - 1, j - 1);
    }
  }

  /** Pages that agree above k bits agree above more. */
  lemma AlignSame(a: nat, b: nat, k: nat, j: nat)
    requires k <= j && Align(a, k) == Align(b, k)
    ensures Align(a, j) == Align(b, j)
  {
    AlignMore(a, k, j);
    AlignMore(b, k, j);
  }

  lemma {:induction false} AlignAll(a: nat, k: nat)
    requires a < Pow2(k)
    ensures Align(a, k) == 0
    decreases k
  {
    if k > 0 { AlignAll(a / 2, k - 1); }
  }

  /** The widest mask leaves nothing. */
  lemma AlignAway(a: nat)
    requires a < PAGES
    ensures Align(a, PAGE_NUMBER_BITS) == 0
  {
    assert Pow2(10) == 0x400;
    assert Pow2(20) == 0x10_0000;
    assert Pow2(30) == 0x4000_0000;
    assert Pow2(40) == 0x100_0000_0000;
    assert Pow2(52) == PAGES;
    AlignAll(a, 52);
  }

  /** It is the multiple of 2^k at or below the page number. */
  lemma {:induction false} AlignMeans(a: nat, k: nat)
    ensures Align(a, k) == a - a % Pow2(k)
    decreases k
  {
    if k == 0 {
      assert a % 1 == 0;
    } else {
      var p, q, r := Pow2(k - 1), a / 2 / Pow2(k - 1), a / 2 % Pow2(k - 1);
      AlignMeans(a / 2, k - 1);
      DivMod(a / 2, p);
      assert a == q * (2 * p) + (2 * r + a % 2) by {
        assert q * (2 * p) == 2 * (q * p);
      }
      DivUnique(a, 2 * p, q, 2 * r + a % 2);
    }
  }

  // ---------------------------------------------------------------- translations

  /** A translation the guest's tables gave: the aligned range of 2^bits pages around this one. */
  datatype Mapping = Mapping(page: nat, bits: nat)

  predicate Contains(m: Mapping, page: nat) {
    Align(page, m.bits) == Align(m.page, m.bits)
  }

  /** The translation contains the pages that share its number above the low bits. */
  lemma ContainsMeans(m: Mapping, page: nat)
    ensures Contains(m, page) <==> page / Pow2(m.bits) == m.page / Pow2(m.bits)
  {
    var p := Pow2(m.bits);
    AlignMeans(page, m.bits);
    AlignMeans(m.page, m.bits);
    DivMod(page, p);
    DivMod(m.page, p);
    MulSame(page / p, m.page / p, p);
  }

  lemma MulSame(a: nat, b: nat, p: nat)
    requires p > 0
    ensures a * p == b * p <==> a == b
  {
    MulGe(a - b, p);
    assert (a - b) * p == a * p - b * p;
  }

  predicate Proper(m: Mapping) {
    m.page < PAGES && m.bits <= PAGE_NUMBER_BITS
  }

  function Index(page: nat): (r: nat)
    ensures r < TLB_SIZE
  {
    page % TLB_SIZE
  }

  // ---------------------------------------------------------------- entries

  /** An address with the flags in its low bits. */
  datatype Word = Word(page: nat, invalid: bool, notDirty: bool, mmio: bool)

  /** All ones, what memset leaves in a flushed entry. */
  const NONE: Word := Word(PAGES - 1, true, true, true)

  datatype Entry = Entry(read: Word, write: Word, code: Word, addend: int)

  const EMPTY: Entry := Entry(NONE, NONE, NONE, -1)

  /** The word, without the flags other than the invalid one, is the address of the page. */
  predicate Tagged(x: Word, page: nat) {
    x.page == page && !x.invalid
  }

  predicate Field(x: Word, page: nat) {
    x == NONE || Tagged(x, page)
  }

  predicate Blank(e: Entry) {
    e.read == NONE && e.write == NONE && e.code == NONE
  }

  predicate Holds(e: Entry, page: nat) {
    !Blank(e) && Field(e.read, page) && Field(e.write, page) && Field(e.code, page)
  }

  /** The condition of tlb_flush_entry. */
  predicate Matches(e: Entry, page: nat) {
    Tagged(e.read, page) || Tagged(e.write, page) || Tagged(e.code, page)
  }

  // ---------------------------------------------------------------- the region of large pages

  /** The region contains the page: it does not tell apart what the page does not. */
  ghost predicate Covers(addr: nat, bits: nat, m: Mapping) {
    m.bits <= bits && Align(m.page, bits) == addr
  }

  lemma CoversContents(addr: nat, bits: nat, m: Mapping, page: nat)
    requires Covers(addr, bits, m) && Contains(m, page)
    ensures Align(page, bits) == addr
  {
    AlignSame(page, m.page, m.bits, bits);
  }

  lemma Widen(addr: nat, bits: nat, m: Mapping, bits': nat)
    requires Covers(addr, bits, m) && bits <= bits'
    ensures Covers(Align(addr, bits'), bits', m)
  {
    AlignMore(m.page, bits, bits');
  }

  // ---------------------------------------------------------------- the table

  /** An access with this address goes straight to memory. */
  predicate Fast(x: Word) {
    !x.invalid && !x.notDirty && !x.mmio
  }

  /** Access rights and what the memory map says of the page. */
  datatype Access = Access(read: bool, write: bool, exec: bool, io: bool, watched: bool, romLike: bool, clean: bool)

  /** What an entry lets through: which accesses at all, which straight to memory, and which writes are
      I/O or must be reported. */
  predicate Grants(e: Entry, page: nat, access: Access) {
    && (e.read == NONE <==> !access.read) && (e.write == NONE <==> !access.write)
    && (e.code == NONE <==> !access.exec)
    && (access.read ==> e.read == Word(page, false, false, access.io || access.watched))
    && (access.exec ==> e.code == Word(page, false, false, access.io))
    && (access.write ==>
          && Tagged(e.write, page)
          && (e.write.mmio <==> access.io || access.watched || access.romLike)
          && (e.write.notDirty <==> access.clean && !access.io && !access.romLike))
    && (Fast(e.read) <==> access.read && !access.io && !access.watched)
    && (Fast(e.write) <==> access.write && !access.io && !access.watched && !access.romLike && !access.clean)
    && (Fast(e.code) <==> access.exec && !access.io)
  }

  function NewEntry(page: nat, access: Access, addend: int): (e: Entry)
    ensures Grants(e, page, access) && e.addend == addend
  {
    var codeAddress := Word(page, false, false, access.io);
    var address := Word(page, false, false, access.io || access.watched);
    var write :=
      if !access.write then NONE
      else if access.romLike then address.(mmio := true)
      else if !access.io && access.clean then address.(notDirty := true)
      else address;
    Entry(if access.read then address else NONE, write, if access.exec then codeAddress else NONE, addend)
  }

  class Tlb {
    const table: array2<Entry>
    /** None stands for the address -1. */
    var flushAddr: Option<nat>
    var flushBits: nat
    /** The translation each live entry was installed for. */
    ghost var maps: map<(nat, nat), Mapping>
    /** The large pages installed since the last full flush. */
    ghost var larges: set<Mapping>

    /** The pair describes a region that contains every large page. */
    ghost predicate RegionOk()
      reads `flushAddr, `flushBits, `larges
    {
      && flushBits <= PAGE_NUMBER_BITS
      && (flushAddr.None? ==> larges == {})
      && (flushAddr.Some? ==>
            flushAddr.value < PAGES && forall m | m in larges :: Covers(flushAddr.value, flushBits, m))
    }

    /** Every entry is blank or serves the page it was installed for, in the right place. */
    ghost predicate TableOk()
      reads table, `maps, `larges
    {
      && table.Length1 == TLB_SIZE
      && (forall k, i | 0 <= k < table.Length0 && 0 <= i < TLB_SIZE :: EntryOk(k, i))
      && (forall p | p in maps ::
            && p.0 < table.Length0 && p.1 < TLB_SIZE && Proper(maps[p])
            && (maps[p].bits > 0 ==> maps[p] in larges))
    }

    ghost predicate EntryOk(k: nat, i: nat)
      requires k < table.Length0 && i < TLB_SIZE == table.Length1
      reads table, `maps
    {
      if (k, i) in maps then Holds(table[k, i], maps[(k, i)].page) && Index(maps[(k, i)].page) == i
      else Blank(table[k, i])
    }

    ghost predicate Valid()
      reads this, table
    {
      RegionOk() && TableOk()
    }

    constructor (modes: nat)
      ensures Valid() && fresh(table) && table.Length0 == modes && maps == map[] && larges == {}
    {
      table := new Entry[modes, TLB_SIZE]((_, _) => EMPTY);
      flushAddr, flushBits, maps, larges := None, PAGE_NUMBER_BITS, map[], {};
    }

    /** tlb_flush */
    method Flush()
      requires table.Length1 == TLB_SIZE
      modifies this, table
      ensures Valid() && maps == map[] && larges == {}
    {
      for k := 0 to table.Length0
        invariant forall j, i | 0 <= j < k && 0 <= i < TLB_SIZE :: Blank(table[j, i])
      {
        for i := 0 to TLB_SIZE
          invariant forall j, c | 0 <= j < k && 0 <= c < TLB_SIZE :: Blank(table[j, c])
          invariant forall c | 0 <= c < i :: Blank(table[k, c])
        {
          table[k, i] := EMPTY;
        }
      }
      flushAddr, flushBits := None, PAGE_NUMBER_BITS;
      maps, larges := map[], {};
    }

    /** tlb_flush_entry */
    method FlushEntry(k: nat, page: nat)
      requires TableOk() && k < table.Length0
      modifies table, `maps
      ensures TableOk()
      ensures forall p :: p in maps <==> p in old(maps) && !(p.0 == k && old(maps)[p].page == page)
      ensures forall p | p in maps :: maps[p] == old(maps)[p]
    {
      var i := Index(page);
      assert EntryOk(k, i);
      if Matches(table[k, i], page) {
        maps := maps - {(k, i)};
        table[k, i] := EMPTY;
        forall j, c | 0 <= j < table.Length0 && 0 <= c < TLB_SIZE ensures EntryOk(j, c) {
          assert old(EntryOk(j, c));
        }
      }
      forall p | p in old(maps) && p.0 == k && old(maps)[p].page == page ensures p == (k, i) {
        assert old(EntryOk(p.0, p.1));
      }
    }

    /** tlb_flush_page: no entry survives whose translation contains the page.  All entries go if
        it may lie in a large page, otherwise only its own. */
    method FlushPage(page: nat)
      requires Valid()
      modifies this, table
      ensures Valid() && larges <= old(larges)
      ensures forall p | p in maps :: p in old(maps) && maps[p] == old(maps)[p] && !Contains(maps[p], page)
      ensures old(flushAddr) != Some(Align(page, old(flushBits))) ==>
        forall p | p in old(maps) && !Contains(old(maps)[p], page) :: p in maps
    {
      if flushAddr == Some(Align(page, flushBits)) {
        Flush();
        return;
      }
      for k := 0 to table.Length0
        invariant TableOk() && RegionOk() && larges == old(larges) && flushAddr == old(flushAddr)
        invariant flushBits == old(flushBits)
        invariant forall p :: p in maps <==> p in old(maps) && !(p.0 < k && old(maps)[p].page == page)
        invariant forall p | p in maps :: maps[p] == old(maps)[p]
      {
        FlushEntry(k, page);
      }
      forall p | p in old(maps) ensures Contains(old(maps)[p], page) <==> old(maps)[p].page == page {
        OnlyOwnPage(old(maps)[p], page);
      }
    }

    /** Outside the region of the large pages a page is contained in itself only. */
    lemma OnlyOwnPage(m: Mapping, page: nat)
      requires RegionOk() && (m.bits > 0 ==> m in larges)
      requires flushAddr != Some(Align(page, flushBits))
      ensures Contains(m, page) <==> m.page == page
    {
      if m.bits > 0 && Contains(m, page) {
        CoversContents(flushAddr.value, flushBits, m, page);
      }
    }

    /** tlb_add_large_page: the region grows until it contains the new page as well. */
    method AddLargePage(m: Mapping)
      requires RegionOk() && Proper(m)
      modifies `flushAddr, `flushBits, `larges
      ensures RegionOk() && larges == old(larges) + {m} && m.bits <= flushBits
      ensures flushAddr == Some(Align(m.page, flushBits))
      ensures old(flushAddr).None? ==> flushBits == m.bits
      ensures old(flushAddr).Some? ==> old(flushBits) <= flushBits
      ensures old(flushAddr).Some? ==> forall b | old(flushBits) <= b && m.bits <= b < flushBits ::
        Align(old(flushAddr).value, b) != Align(m.page, b)
    {
      if flushAddr.None? {
        flushAddr, flushBits := Some(Align(m.page, m.bits)), m.bits;
        larges := larges + {m};
        return;
      }
      var bits := if m.bits > flushBits then m.bits else flushBits;
      AlignAway(flushAddr.value);
      AlignAway(m.page);
      while Align(flushAddr.value, bits) != Align(m.page, bits)
        invariant flushBits <= bits && m.bits <= bits <= PAGE_NUMBER_BITS
        invariant forall b | flushBits <= b && m.bits <= b < bits :: Align(flushAddr.value, b) != Align(m.page, b)
        decreases PAGE_NUMBER_BITS - bits
      {
        bits := bits + 1;
      }
      forall n | n in larges ensures Covers(Align(flushAddr.value, bits), bits, n) {
        Widen(flushAddr.value, flushBits, n, bits);
      }
      flushAddr, flushBits := Some(Align(flushAddr.value, bits)), bits;
      larges := larges + {m};
    }

    /** tlb_set_page: the entry of the page is installed and, if the page is large, remembered. */
    method SetPage(mode: nat, m: Mapping, access: Access, addend: int)
      requires Valid() && mode < table.Length0 && Proper(m)
      modifies this, table
      ensures Valid() && larges == old(larges) + (if m.bits > 0 then {m} else {})
      ensures if access.read || access.write || access.exec then maps == old(maps)[(mode, m.page % TLB_SIZE) := m]
              else maps == old(maps) - {(mode, m.page % TLB_SIZE)}
      ensures Grants(table[mode, m.page % TLB_SIZE], m.page, access) && table[mode, m.page % TLB_SIZE].addend == addend
      ensures forall j, c | 0 <= j < table.Length0 && 0 <= c < TLB_SIZE && (j, c) != (mode, m.page % TLB_SIZE) ::
                table[j, c] == old(table[j, c])
    {
      if m.bits > 0 {
        AddLargePage(m);
      }
      var i := Index(m.page);
      table[mode, i] := NewEntry(m.page, access, addend);
      maps := if access.read || access.write || access.exec then maps[(mode, i) := m] else maps - {(mode, i)};
      forall j, c | 0 <= j < table.Length0 && 0 <= c < TLB_SIZE ensures EntryOk(j, c) {
        assert old(EntryOk(j, c));
      }
    }

    /** A change of the flags of a write address keeps the entry in force. */
    method SetWriteFlags(k: nat, i: nat, w: Word)
      requires Valid() && k < table.Length0 && i < TLB_SIZE
      requires !w.invalid && !table[k, i].write.invalid && w.page == table[k, i].write.page
      modifies table
      ensures Valid() && table[k, i] == old(table[k, i]).(write := w)
      ensures forall j, c | 0 <= j < table.Length0 && 0 <= c < TLB_SIZE && (j, c) != (k, i) ::
                table[j, c] == old(table[j, c])
    {
      assert EntryOk(k, i);
      table[k, i] := table[k, i].(write := w);
      forall j, c | 0 <= j < table.Length0 && 0 <= c < TLB_SIZE ensures EntryOk(j, c) {
        assert old(EntryOk(j, c));
      }
    }

    /** tlb_set_dirty: writes to the page need not be reported any more. */
    method SetDirty(page: nat)
      requires Valid()
      modifies table
      ensures Valid()
      ensures forall k, i | 0 <= k < table.Length0 && 0 <= i < TLB_SIZE ::
        table[k, i] ==
          if i == Index(page) && old(table[k, i]).write == Word(page, false, true, false)
          then old(table[k, i]).(write := Word(page, false, false, false)) else old(table[k, i])
    {
      var i := Index(page);
      for k := 0 to table.Length0
        invariant Valid()
        invariant forall j, c | 0 <= j < table.Length0 && 0 <= c < TLB_SIZE ::
          table[j, c] ==
            if j < k && c == i && old(table[j, c]).write == Word(page, false, true, false)
            then old(table[j, c]).(write := Word(page, false, false, false)) else old(table[j, c])
      {
        if table[k, i].write == Word(page, false, true, false) {
          SetWriteFlags(k, i, Word(page, false, false, false));
        }
      }
    }

    /** The entry writes directly to host memory between start and start + length. */
    predicate Direct(e: Entry, start: int, length: nat) {
      && !e.write.invalid && !e.write.mmio && !e.write.notDirty
      && start <= e.write.page * 4096 + e.addend < start + length
    }

    /** The entry with writes to the range reported. */
    function Reported(e: Entry, start: int, length: nat): Entry {
      if Direct(e, start, length) then e.(write := e.write.(notDirty := true)) else e
    }

    /** tlb_reset_dirty_range of every entry: no entry writes to the range unreported. */
    method ResetDirty(start: int, length: nat)
      requires Valid()
      modifies table
      ensures Valid()
      ensures forall k, i | 0 <= k < table.Length0 && 0 <= i < TLB_SIZE :: !Direct(table[k, i], start, length)
      ensures forall k, i | 0 <= k < table.Length0 && 0 <= i < TLB_SIZE && Fast(table[k, i].write) ::
        !(start <= table[k, i].write.page * 4096 + table[k, i].addend < start + length)
      ensures forall k, i | 0 <= k < table.Length0 && 0 <= i < TLB_SIZE ::
                table[k, i] == Reported(old(table[k, i]), start, length)
    {
      for k := 0 to table.Length0
        invariant Valid()
        invariant forall j, c | 0 <= j < table.Length0 && 0 <= c < TLB_SIZE ::
          table[j, c] == if j < k then Reported(old(table[j, c]), start, length) else old(table[j, c])
      {
        for i := 0 to TLB_SIZE
          invariant Valid()
          invariant forall j, c | 0 <= j < table.Length0 && 0 <= c < TLB_SIZE ::
            table[j, c] == if j < k || (j == k && c < i) then Reported(old(table[j, c]), start, length)
                           else old(table[j, c])
        {
          if Direct(table[k, i], start, length) {
            SetWriteFlags(k, i, table[k, i].write.(notDirty := true));
          }
        }
      }
    }
  }
}
