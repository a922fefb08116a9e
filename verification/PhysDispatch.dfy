/**
 The flat list of memory sections that the radix tree indexes (exec.c), sections
 smaller than a page behind subpage tables, and what a dispatch table owes its users:
 for every address the registered piece that contains it.
 */
module PhysSections {
  import opened Common
  import opened PhysMap

  const PAGE: nat := 4096
  const TWO64: nat := 0x1_0000_0000_0000_0000
  const PAGES: nat := 0x10_0000_0000_0000

  datatype Region = IoUnassigned | IoNotDirty | IoRom | IoWatch | SubpageIo(n: nat) | Device(id: nat)

  datatype Section = Section(mr: Region, base: nat, size: nat, regionOffset: nat)

  /** subpage_t: one section number for every byte of a page. */
  datatype Subpage = Subpage(base: nat, sub: seq<nat>)

  predicate In(s: Section, addr: nat) { s.base <= addr < s.base + s.size }

  /** The check at the end of phys_page_find: a 128-bit size with a high word, or
      range_covers_byte in 64-bit arithmetic. */
  predicate RangeCheck(s: Section, addr: nat) {
    s.size >= TWO64 || (s.base <= addr && addr <= (s.base + s.size % TWO64 + TWO64 - 1) % TWO64)
  }

  predicate Disjoint(a: Section, b: Section) {
    a.base + a.size <= b.base || b.base + b.size <= a.base
  }

  /** A nonempty section inside the 64-bit address space that is no subpage. */
  predicate Proper(s: Section) {
    s.size > 0 && s.base + s.size <= TWO64 && !s.mr.SubpageIo?
  }

  predicate PageAligned(s: Section) {
    s.base % PAGE == 0 && s.size % PAGE == 0 && s.size > 0 && s.base + s.size <= TWO64
  }

  lemma RangeCheckIsIn(s: Section, addr: nat)
    requires s.size > 0 && s.base + s.size <= TWO64 && addr < TWO64
    ensures RangeCheck(s, addr) <==> In(s, addr)
  {
    if s.size < TWO64 {
      assert s.size % TWO64 == s.size;
      assert s.base + s.size + TWO64 - 1 == (s.base + s.size - 1) + TWO64;
    }
  }

  lemma PagesFit()
    ensures PAGES <= Size(LEVELS) && PAGES * PAGE == TWO64
  {
    assert Size(1) == 512 && Size(2) == 512 * 512 && Size(3) == 512 * 512 * 512;
    assert Size(4) == 512 * Size(3) && Size(5) == 512 * Size(4) && Size(6) == 512 * Size(5);
  }

  // ---------------------------------------------------------------- what a page owes

  ghost predicate NoneAt(regs: seq<Section>, addr: nat) {
    forall r <- regs :: !In(r, addr)
  }

  ghost predicate ByteOk(sections: seq<Section>, regs: seq<Section>, t: nat, addr: nat) {
    if t == UNASSIGNED then NoneAt(regs, addr)
    else 4 <= t < |sections| && sections[t] in regs && In(sections[t], addr)
  }

  ghost predicate SubpageOk(sections: seq<Section>, sp: Subpage, regs: seq<Section>, x: nat) {
    && sp.base == x * PAGE && |sp.sub| == PAGE
    && (exists b :: 0 <= b < PAGE && sp.sub[b] != UNASSIGNED)
    && (forall b | 0 <= b < PAGE :: ByteOk(sections, regs, sp.sub[b], x * PAGE + b))
  }

  /** Page x, mapped to section number w, resolves every one of its bytes rightly. */
  ghost predicate PageOk(sections: seq<Section>, subpages: seq<Subpage>, regs: seq<Section>, w: nat, x: nat) {
    if w == UNASSIGNED then
      forall addr: nat | x * PAGE <= addr < x * PAGE + PAGE :: NoneAt(regs, addr)
    else
      && 4 <= w < |sections| && PageAligned(sections[w])
      && sections[w].base <= x * PAGE && x * PAGE + PAGE <= sections[w].base + sections[w].size
      && match sections[w].mr
         case SubpageIo(n) =>
           sections[w].size == PAGE && n < |subpages| && SubpageOk(sections, subpages[n], regs, x)
         case _ => sections[w] in regs
  }

  ghost predicate Fixed(sections: seq<Section>) {
    && |sections| >= 4 && sections[0] == Section(IoUnassigned, 0, TWO64, 0)
    && sections[1].mr == IoNotDirty && sections[2].mr == IoRom && sections[3].mr == IoWatch
    && (forall i | 0 <= i < 4 :: sections[i].size == TWO64 && sections[i].base == 0 && !sections[i].mr.SubpageIo?)
  }

  ghost predicate Tables(sections: seq<Section>, subpages: seq<Subpage>) {
    forall s | 0 <= s < |sections| && sections[s].mr.SubpageIo? ::
      sections[s].mr.n < |subpages| && |subpages[sections[s].mr.n].sub| == PAGE
  }

  /** A page is mapped to w as soon as section w covers it and some page is. */
  ghost predicate Whole(m: nat -> nat, sections: seq<Section>) {
    forall x: nat, z: nat | x < PAGES && z < PAGES && m(x) != UNASSIGNED && m(x) < |sections|
                          && sections[m(x)].base <= z * PAGE < sections[m(x)].base + sections[m(x)].size ::
      m(z) == m(x)
  }

  ghost predicate Good(m: nat -> nat, sections: seq<Section>, subpages: seq<Subpage>, regs: seq<Section>) {
    && Fixed(sections) && Tables(sections, subpages)
    && (forall r <- regs :: Proper(r))
    && (forall x: nat | x < PAGES :: PageOk(sections, subpages, regs, m(x), x))
    && (forall x: nat | PAGES <= x < Size(LEVELS) :: m(x) == UNASSIGNED)
    && Whole(m, sections)
  }

  // ---------------------------------------------------------------- lookup

  function FindIndex(sections: seq<Section>, w: nat, addr: nat): nat {
    if w < |sections| && RangeCheck(sections[w], addr) then w else UNASSIGNED
  }

  function ResolveIndex(sections: seq<Section>, subpages: seq<Subpage>, s: nat, addr: nat): nat {
    if s < |sections| && sections[s].mr.SubpageIo? && sections[s].mr.n < |subpages|
       && |subpages[sections[s].mr.n].sub| == PAGE
    then subpages[sections[s].mr.n].sub[addr % PAGE]
    else s
  }

  function LookupIndex(sections: seq<Section>, subpages: seq<Subpage>, w: nat, addr: nat): nat {
    ResolveIndex(sections, subpages, FindIndex(sections, w, addr), addr)
  }

  /** The piece found is registered and contains the address; nothing is found only
      where nothing is registered. */
  lemma LookupFindsPiece(m: nat -> nat, sections: seq<Section>, subpages: seq<Subpage>, regs: seq<Section>, addr: nat)
    requires Good(m, sections, subpages, regs) && addr < TWO64
    ensures ByteOk(sections, regs, LookupIndex(sections, subpages, m(addr / PAGE), addr), addr)
  {
    var x := addr / PAGE;
    PagesFit();
    var w := m(x);
    assert PageOk(sections, subpages, regs, w, x);
    if w != UNASSIGNED {
      RangeCheckIsIn(sections[w], addr);
    }
  }

  /** A walk that differs from m only where m has nothing, and only by landing on a
      number that m uses elsewhere, resolves every address as m does. */
  lemma SameAfterCompaction(m: nat -> nat, c: nat, sections: seq<Section>, subpages: seq<Subpage>, regs: seq<Section>,
                            addr: nat, y: nat)
    requires Good(m, sections, subpages, regs) && addr < TWO64
    requires c == m(addr / PAGE)
          || (m(addr / PAGE) == UNASSIGNED && y < Size(LEVELS) && m(y) == c)
    ensures FindIndex(sections, c, addr) == FindIndex(sections, m(addr / PAGE), addr)
  {
    var x := addr / PAGE;
    PagesFit();
    if c != m(x) {
      assert y < PAGES;
      assert PageOk(sections, subpages, regs, c, y);
      RangeCheckIsIn(sections[c], addr);
      BaseBelow(sections[c].base, addr);
    }
  }

  lemma BaseBelow(base: nat, addr: nat)
    requires base % PAGE == 0
    ensures base <= addr ==> base <= (addr / PAGE) * PAGE <= addr
  {}

  // ---------------------------------------------------------------- registering a piece

  lemma PageOfAddress(x: nat, s: Section)
    requires PageAligned(s)
    ensures s.base / PAGE <= x < s.base / PAGE + s.size / PAGE
       <==> s.base <= x * PAGE < s.base + s.size
    ensures s.base <= x * PAGE < s.base + s.size ==> x * PAGE + PAGE <= s.base + s.size
  {}

  /** The pages of a new page-aligned piece are all still unmapped. */
  lemma RangeFree(m: nat -> nat, sections: seq<Section>, subpages: seq<Subpage>, regs: seq<Section>, now: Section,
                  x: nat)
    requires Good(m, sections, subpages, regs) && PageAligned(now) && x < PAGES
    requires forall r <- regs :: Disjoint(r, now)
    requires now.base <= x * PAGE < now.base + now.size
    ensures m(x) == UNASSIGNED
  {
    assert PageOk(sections, subpages, regs, m(x), x);
    PageOfAddress(x, now);
  }

  /** A page none of whose bytes a new piece contains stays right when sections and
      subpages only grow. */
  lemma PageKept(sections: seq<Section>, subpages: seq<Subpage>, regs: seq<Section>, w: nat, x: nat,
                 sections': seq<Section>, subpages': seq<Subpage>, now: Section)
    requires PageOk(sections, subpages, regs, w, x)
    requires sections <= sections' && |subpages| <= |subpages'|
    requires w != UNASSIGNED && sections[w].mr.SubpageIo? ==> subpages'[sections[w].mr.n] == subpages[sections[w].mr.n]
    requires now.base + now.size <= x * PAGE || x * PAGE + PAGE <= now.base
    ensures PageOk(sections', subpages', regs + [now], w, x)
  {
    var regs' := regs + [now];
    if w == UNASSIGNED {
      forall addr: nat | x * PAGE <= addr < x * PAGE + PAGE ensures NoneAt(regs', addr) {
        assert NoneAt(regs, addr);
      }
    } else if sections[w].mr.SubpageIo? {
      var sp := subpages[sections[w].mr.n];
      forall b | 0 <= b < PAGE ensures ByteOk(sections', regs', sp.sub[b], x * PAGE + b) {
        assert ByteOk(sections, regs, sp.sub[b], x * PAGE + b);
      }
    }
  }

  lemma MultipageGood(m: nat -> nat, m': nat -> nat, sections: seq<Section>, subpages: seq<Subpage>,
                      regs: seq<Section>, now: Section)
    requires Good(m, sections, subpages, regs) && PageAligned(now) && Proper(now)
    requires forall r <- regs :: Disjoint(r, now)
    requires forall x: nat | x < Size(LEVELS) ::
               m'(x) == if now.base <= x * PAGE < now.base + now.size then |sections| else m(x)
    ensures Good(m', sections + [now], subpages, regs + [now])
  {
    PagesFit();
    var sections' := sections + [now];
    forall x: nat | x < PAGES ensures PageOk(sections', subpages, regs + [now], m'(x), x) {
      assert PageOk(sections, subpages, regs, m(x), x);
      PageOfAddress(x, now);
      if !(now.base <= x * PAGE < now.base + now.size) {
        PageKept(sections, subpages, regs, m(x), x, sections', subpages, now);
      }
    }
    forall x: nat, z: nat | x < PAGES && z < PAGES && m'(x) != UNASSIGNED && m'(x) < |sections'|
                          && sections'[m'(x)].base <= z * PAGE < sections'[m'(x)].base + sections'[m'(x)].size
      ensures m'(z) == m'(x)
    {
      assert PageOk(sections, subpages, regs, m(x), x);
      if m'(x) != |sections| {
        assert m(z) == m(x);
        if now.base <= z * PAGE < now.base + now.size {
          RangeFree(m, sections, subpages, regs, now, z);
        }
      }
    }
  }

  /** subpage_register on a table: the bytes [start, end] get number t. */
  function Registered(sub: seq<nat>, start: nat, end: nat, t: nat): (r: seq<nat>)
    ensures |r| == |sub|
    ensures forall b | 0 <= b < |sub| :: r[b] == if start <= b <= end then t else sub[b]
  {
    seq(|sub|, b requires 0 <= b < |sub| => if start <= b <= end then t else sub[b])
  }

  function EmptyTable(): (r: seq<nat>)
    ensures |r| == PAGE && forall b | 0 <= b < PAGE :: r[b] == UNASSIGNED
  {
    seq(PAGE, _ => UNASSIGNED)
  }

  /** The table after the bytes of piece `now` have been given number t. */
  function WithPiece(sp: Subpage, now: Section, t: nat): Subpage
    requires now.size > 0
  {
    var start := now.base % PAGE;
    sp.(sub := Registered(sp.sub, start, start + now.size - 1, t))
  }

  /** A piece inside one page, put into the page's table. */
  lemma SubpageBytes(sections: seq<Section>, regs: seq<Section>, sp: Subpage, x: nat,
                     sections': seq<Section>, now: Section, t: nat)
    requires Proper(now) && x * PAGE <= now.base && now.base + now.size <= x * PAGE + PAGE
    requires sections <= sections' && 4 <= t < |sections'| && sections'[t] == now
    requires sp.base == x * PAGE && |sp.sub| == PAGE
    requires forall b | 0 <= b < PAGE :: ByteOk(sections, regs, sp.sub[b], x * PAGE + b)
    requires forall r <- regs :: Disjoint(r, now)
    ensures SubpageOk(sections', WithPiece(sp, now, t), regs + [now], x)
  {
    assert now.base % PAGE == now.base - x * PAGE;
    var sub' := WithPiece(sp, now, t).sub;
    assert sub'[now.base % PAGE] == t;
    forall b | 0 <= b < PAGE ensures ByteOk(sections', regs + [now], sub'[b], x * PAGE + b) {
      assert ByteOk(sections, regs, sp.sub[b], x * PAGE + b);
    }
  }

  /** Every page after one page without pieces got a fresh table and two sections. */
  lemma FreshPageOk(m: nat -> nat, w: nat, sections: seq<Section>, subpages: seq<Subpage>,
                    regs: seq<Section>, now: Section, x: nat, z: nat)
    requires Good(m, sections, subpages, regs) && Proper(now) && x < PAGES && z < PAGES
    requires forall r <- regs :: Disjoint(r, now)
    requires x * PAGE <= now.base && now.base + now.size <= x * PAGE + PAGE
    requires m(x) == UNASSIGNED && w == if z == x then |sections| else m(z)
    ensures PageOk(sections + [Section(SubpageIo(|subpages|), x * PAGE, PAGE, 0), now],
                   subpages + [WithPiece(Subpage(x * PAGE, EmptyTable()), now, |sections| + 1)],
                   regs + [now], w, z)
  {
    var empty := Subpage(x * PAGE, EmptyTable());
    var own := Section(SubpageIo(|subpages|), x * PAGE, PAGE, 0);
    var sections' := sections + [own, now];
    var subpages' := subpages + [WithPiece(empty, now, |sections| + 1)];
    assert PageOk(sections, subpages, regs, m(z), z);
    if z != x {
      PageKept(sections, subpages, regs, m(z), z, sections', subpages', now);
    } else {
      PagesFit();
      assert PageAligned(own);
      SubpageBytes(sections, regs, empty, x, sections', now, |sections| + 1);
    }
  }

  /** register_subpage on a page that had nothing. */
  lemma FreshSubpageGood(m: nat -> nat, m': nat -> nat, sections: seq<Section>, subpages: seq<Subpage>,
                         regs: seq<Section>, now: Section, x: nat)
    requires Good(m, sections, subpages, regs) && Proper(now) && x < PAGES
    requires forall r <- regs :: Disjoint(r, now)
    requires x * PAGE <= now.base && now.base + now.size <= x * PAGE + PAGE
    requires m(x) == UNASSIGNED
    requires forall z: nat | z < Size(LEVELS) :: m'(z) == if z == x then |sections| else m(z)
    ensures Good(m', sections + [Section(SubpageIo(|subpages|), x * PAGE, PAGE, 0), now],
                 subpages + [WithPiece(Subpage(x * PAGE, EmptyTable()), now, |sections| + 1)], regs + [now])
  {
    PagesFit();
    var sections' := sections + [Section(SubpageIo(|subpages|), x * PAGE, PAGE, 0), now];
    var subpages' := subpages + [WithPiece(Subpage(x * PAGE, EmptyTable()), now, |sections| + 1)];
    forall z: nat | z < PAGES ensures PageOk(sections', subpages', regs + [now], m'(z), z) {
      FreshPageOk(m, m'(z), sections, subpages, regs, now, x, z);
    }
    FreshWhole(m, m', sections, subpages, regs, now, x);
  }

  lemma FreshWhole(m: nat -> nat, m': nat -> nat, sections: seq<Section>, subpages: seq<Subpage>,
                   regs: seq<Section>, now: Section, x: nat)
    requires Good(m, sections, subpages, regs) && x < PAGES && m(x) == UNASSIGNED
    requires forall z: nat | z < PAGES :: m'(z) == if z == x then |sections| else m(z)
    ensures Whole(m', sections + [Section(SubpageIo(|subpages|), x * PAGE, PAGE, 0), now])
  {
    var sections' := sections + [Section(SubpageIo(|subpages|), x * PAGE, PAGE, 0), now];
    forall y: nat, z: nat | y < PAGES && z < PAGES && m'(y) != UNASSIGNED && m'(y) < |sections'|
                          && sections'[m'(y)].base <= z * PAGE < sections'[m'(y)].base + sections'[m'(y)].size
      ensures m'(z) == m'(y)
    {
      assert PageOk(sections, subpages, regs, m(y), y);
    }
  }

  /** Pages with different tables do not notice each other's. */
  lemma OtherPageKept(m: nat -> nat, sections: seq<Section>, subpages: seq<Subpage>, regs: seq<Section>,
                      now: Section, x: nat, sp: Subpage, z: nat)
    requires Good(m, sections, subpages, regs) && x < PAGES && z < PAGES && x != z
    requires x * PAGE <= now.base && now.base + now.size <= x * PAGE + PAGE
    requires m(x) != UNASSIGNED && m(x) < |sections| && sections[m(x)].mr.SubpageIo?
    requires sections[m(x)].mr.n < |subpages|
    ensures PageOk(sections + [now], subpages[sections[m(x)].mr.n := sp], regs + [now], m(z), z)
  {
    assert PageOk(sections, subpages, regs, m(x), x);
    assert PageOk(sections, subpages, regs, m(z), z);
    PageKept(sections, subpages, regs, m(z), z, sections + [now], subpages[sections[m(x)].mr.n := sp], now);
  }

  lemma WholeKept(m: nat -> nat, sections: seq<Section>, subpages: seq<Subpage>, regs: seq<Section>, now: Section)
    requires Good(m, sections, subpages, regs)
    ensures Whole(m, sections + [now])
  {
    var sections' := sections + [now];
    forall y: nat, z: nat | y < PAGES && z < PAGES && m(y) != UNASSIGNED && m(y) < |sections'|
                          && sections'[m(y)].base <= z * PAGE < sections'[m(y)].base + sections'[m(y)].size
      ensures m(z) == m(y)
    {
      assert PageOk(sections, subpages, regs, m(y), y);
    }
  }

  /** register_subpage on a page that already has a table. */
  lemma KnownSubpageGood(m: nat -> nat, sections: seq<Section>, subpages: seq<Subpage>,
                         regs: seq<Section>, now: Section, x: nat)
    requires Good(m, sections, subpages, regs) && Proper(now) && x < PAGES
    requires forall r <- regs :: Disjoint(r, now)
    requires x * PAGE <= now.base && now.base + now.size <= x * PAGE + PAGE
    requires m(x) != UNASSIGNED && m(x) < |sections| && sections[m(x)].mr.SubpageIo?
    ensures sections[m(x)].mr.n < |subpages|
    ensures var n := sections[m(x)].mr.n;
      Good(m, sections + [now], subpages[n := WithPiece(subpages[n], now, |sections|)], regs + [now])
  {
    var n := sections[m(x)].mr.n;
    assert PageOk(sections, subpages, regs, m(x), x);
    var sections' := sections + [now];
    var sp := WithPiece(subpages[n], now, |sections|);
    SubpageBytes(sections, regs, subpages[n], x, sections', now, |sections|);
    WholeKept(m, sections, subpages, regs, now);
    forall z: nat | z < PAGES ensures PageOk(sections', subpages[n := sp], regs + [now], m(z), z) {
      if z != x {
        OtherPageKept(m, sections, subpages, regs, now, x, sp, z);
      }
    }
  }

  /** The assertion in register_subpage: a page that a new piece touches is either
      unassigned or already split. */
  lemma SubpageOrNothing(m: nat -> nat, sections: seq<Section>, subpages: seq<Subpage>,
                         regs: seq<Section>, now: Section, x: nat)
    requires Good(m, sections, subpages, regs) && Proper(now) && x < PAGES
    requires forall r <- regs :: Disjoint(r, now)
    requires x * PAGE <= now.base && now.base + now.size <= x * PAGE + PAGE
    ensures m(x) == UNASSIGNED || (m(x) < |sections| && sections[m(x)].mr.SubpageIo?)
    ensures FindIndex(sections, m(x), x * PAGE) == m(x)
  {
    assert PageOk(sections, subpages, regs, m(x), x);
    if m(x) != UNASSIGNED {
      RangeCheckIsIn(sections[m(x)], x * PAGE);
    }
  }
}

/**
 mem_begin, mem_add, mem_commit and the lookup (exec.c), with the section list, the
 subpage tables and the radix tree updated in place.
 */
module PhysDispatch {
  import opened Common
  import opened PhysMap
  import opened PhysCompact
  import opened PhysPageTable
  import opened PhysSections

  /** p is the part of s at p's own addresses. */
  predicate PieceOf(p: Section, s: Section) {
    && p.mr == s.mr && s.base <= p.base && p.base + p.size <= s.base + s.size
    && p.regionOffset == s.regionOffset + (p.base - s.base)
  }

  datatype Target = Nothing | Target(mr: Region, offset: nat)

  /** Where an access to `addr` goes according to the list of sections. */
  function LinearSearch(list: seq<Section>, addr: nat): Target {
    if list == [] then Nothing
    else if In(list[0], addr) then Target(list[0].mr, addr - list[0].base + list[0].regionOffset)
    else LinearSearch(list[1..], addr)
  }

  lemma {:induction false} LinearSearchFinds(list: seq<Section>, addr: nat, i: nat)
    requires i < |list| && In(list[i], addr)
    requires forall a, b | 0 <= a < b < |list| :: Disjoint(list[a], list[b])
    ensures LinearSearch(list, addr) == Target(list[i].mr, addr - list[i].base + list[i].regionOffset)
  {
    if !In(list[0], addr) {
      LinearSearchFinds(list[1..], addr, i - 1);
    }
  }

  lemma {:induction false} LinearSearchMisses(list: seq<Section>, addr: nat)
    requires forall i | 0 <= i < |list| :: !In(list[i], addr)
    ensures LinearSearch(list, addr) == Nothing
  {
    if list != [] {
      LinearSearchMisses(list[1..], addr);
    }
  }

  /** Where a page lands after compaction: where it landed before, or, if it was
      unassigned, where some page y landed before. */
  lemma Landing(m: nat -> nat, nodes: seq<Node>, root: Entry, nodes': seq<Node>, root': Entry, x: nat) returns (y: nat)
    requires forall z: nat :: m(z) == Walk(nodes, root, LEVELS, z)
    requires Refines(nodes, root, nodes', root', LEVELS)
    ensures y < Size(LEVELS)
    ensures Walk(nodes', root', LEVELS, x) == m(x)
         || (m(x) == UNASSIGNED && m(y) == Walk(nodes', root', LEVELS, x))
  {
    y := 0;
    if Walk(nodes', root', LEVELS, x) != m(x) {
      var z: nat :| z < Size(LEVELS) && Walk(nodes, root, LEVELS, z) == Walk(nodes', root', LEVELS, x);
      y := z;
    }
  }

  // ---------------------------------------------------------------- what sections cost

  /** The page is shared by pieces. */
  predicate IsSplit(m: nat -> nat, sections: seq<Section>, x: nat) {
    m(x) < |sections| && sections[m(x)].mr.SubpageIo?
  }

  ghost predicate SplitOk(m: nat -> nat, sections: seq<Section>, split: set<nat>) {
    forall x: nat {:trigger IsSplit(m, sections, x)} | x < PAGES :: x in split <==> IsSplit(m, sections, x)
  }

  /** Whole pages become no shared ones. */
  lemma SplitKept(m: nat -> nat, m': nat -> nat, sections: seq<Section>, subpages: seq<Subpage>,
                  regs: seq<Section>, split: set<nat>, now: Section)
    requires Good(m, sections, subpages, regs) && PageAligned(now) && Proper(now) && SplitOk(m, sections, split)
    requires forall r <- regs :: Disjoint(r, now)
    requires forall x: nat | x < PAGES ::
               m'(x) == if now.base <= x * PAGE < now.base + now.size then |sections| else m(x)
    ensures SplitOk(m', sections + [now], split)
  {
    forall x: nat | x < PAGES ensures x in split <==> IsSplit(m', sections + [now], x) {
      assert x in split <==> IsSplit(m, sections, x);
      assert PageOk(sections, subpages, regs, m(x), x);
      if now.base <= x * PAGE < now.base + now.size {
        RangeFree(m, sections, subpages, regs, now, x);
      }
    }
  }

  /** A page becomes a shared one. */
  lemma SplitMore(m: nat -> nat, m': nat -> nat, sections: seq<Section>, sections': seq<Section>,
                  subpages: seq<Subpage>, regs: seq<Section>, split: set<nat>, x: nat)
    requires Good(m, sections, subpages, regs) && SplitOk(m, sections, split)
    requires |sections| < |sections'| && sections <= sections' && sections'[|sections|].mr.SubpageIo?
    requires forall z: nat | z < PAGES :: m'(z) == if z == x then |sections| else m(z)
    ensures SplitOk(m', sections', split + {x})
  {
    forall z: nat | z < PAGES ensures z in split + {x} <==> IsSplit(m', sections', z) {
      assert z in split <==> IsSplit(m, sections, z);
      assert PageOk(sections, subpages, regs, m(z), z);
    }
  }

  lemma SplitSame(m: nat -> nat, sections: seq<Section>, subpages: seq<Subpage>, regs: seq<Section>,
                  split: set<nat>, now: Section)
    requires Good(m, sections, subpages, regs) && SplitOk(m, sections, split)
    ensures SplitOk(m, sections + [now], split)
  {
    forall z: nat | z < PAGES ensures z in split <==> IsSplit(m, sections + [now], z) {
      assert z in split <==> IsSplit(m, sections, z);
      assert PageOk(sections, subpages, regs, m(z), z);
    }
  }

  /** The number of section numbers that a piece of page x takes: a page that is shared for the first time
      needs one of its own. */
  function PieceCost(x: nat, split: set<nat>): nat {
    if x in split then 1 else 2
  }

  /** The whole pages from a page boundary on, and the rest behind them. */
  function RestCost(base: nat, size: nat, split: set<nat>): nat {
    (if size >= PAGE then 1 else 0) + (if size % PAGE > 0 then PieceCost((base + size) / PAGE, split) else 0)
  }

  function RestSplit(base: nat, size: nat): set<nat> {
    if size % PAGE > 0 then {(base + size) / PAGE} else {}
  }

  /** The size of the part up to the first page boundary. */
  function HeadSize(s: Section): nat {
    if s.base % PAGE == 0 then 0 else Min(PAGE - s.base % PAGE, s.size)
  }

  function HeadSplit(s: Section): set<nat> {
    if s.base % PAGE == 0 then {} else {s.base / PAGE}
  }

  /** What a section costs when some pages are shared already, and the pages it shares. */
  function Cost(s: Section, split: set<nat>): nat {
    HeadCost(s, split) + RestCost(s.base + HeadSize(s), s.size - HeadSize(s), split + HeadSplit(s))
  }

  function HeadCost(s: Section, split: set<nat>): nat {
    if s.base % PAGE == 0 then 0 else PieceCost(s.base / PAGE, split)
  }

  /** The prefix of a remainder that is registered next: its whole pages, if it has any. */
  function WholePages(size: nat): nat {
    if size < PAGE then size else size - size % PAGE
  }

  function NextCost(base: nat, size: nat, split: set<nat>): nat {
    if size < PAGE then PieceCost(base / PAGE, split) else 1
  }

  function NextSplit(base: nat, size: nat): set<nat> {
    if size < PAGE then {base / PAGE} else {}
  }

  lemma HeadBoundary(s: Section)
    requires s.size > 0
    ensures HeadSize(s) <= s.size && ((s.base + HeadSize(s)) % PAGE == 0 || HeadSize(s) == s.size)
  {}

  /** One round takes its part of what the remainder costs. */
  lemma RestStep(base: nat, size: nat, split: set<nat>, done: nat)
    requires size > 0 && base % PAGE == 0 && done == WholePages(size)
    ensures 0 < done <= size && ((base + done) % PAGE == 0 || done == size)
    ensures RestCost(base, size, split)
         == NextCost(base, size, split) + RestCost(base + done, size - done, split + NextSplit(base, size))
    ensures split + RestSplit(base, size)
         == split + NextSplit(base, size) + RestSplit(base + done, size - done)
  {
    assert size < PAGE ==> (base + size) / PAGE == base / PAGE;
  }

  function Shares(s: Section): set<nat> {
    HeadSplit(s) + RestSplit(s.base + HeadSize(s), s.size - HeadSize(s))
  }

  /** The section numbers in use after the sections from i on are added. */
  function Needed(list: seq<Section>, i: nat, used: nat, split: set<nat>): (r: nat)
    requires i <= |list|
    ensures used <= r
    decreases |list| - i
  {
    if i == |list| then used else Needed(list, i + 1, used + Cost(list[i], split), split + Shares(list[i]))
  }

  lemma CostBounds(s: Section, split: set<nat>)
    requires s.size > 0
    ensures 1 <= Cost(s, split) <= 5
    ensures s.base % PAGE == 0 && s.size % PAGE == 0 ==> Cost(s, split) == 1
  {}

  /** Sections of whole pages need one number each. */
  lemma {:induction false} NeededWhole(list: seq<Section>, i: nat, used: nat, split: set<nat>)
    requires i <= |list| && forall s <- list :: PageAligned(s)
    ensures Needed(list, i, used, split) == used + |list| - i
    decreases |list| - i
  {
    if i < |list| {
      assert list[i] in list;
      CostBounds(list[i], split);
      NeededWhole(list, i + 1, used + 1, split + Shares(list[i]));
    }
  }

  /** No section needs more than five. */
  lemma {:induction false} NeededAtMost(list: seq<Section>, i: nat, used: nat, split: set<nat>)
    requires i <= |list| && forall s <- list :: s.size > 0
    ensures Needed(list, i, used, split) <= used + 5 * (|list| - i)
    decreases |list| - i
  {
    if i < |list| {
      assert list[i] in list;
      CostBounds(list[i], split);
      NeededAtMost(list, i + 1, used + Cost(list[i], split), split + Shares(list[i]));
    }
  }

  class Dispatch {
    const table: PageTable
    var sections: seq<Section>
    var subpages: seq<Subpage>
    /** Every piece handed to register_subpage or register_multipage. */
    ghost var regs: seq<Section>
    /** The pages shared by pieces. */
    ghost var split: set<nat>

    ghost function View(): nat -> nat
      reads table
    {
      var nodes, root := table.nodes, table.root;
      (x: nat) => Walk(nodes, root, LEVELS, x)
    }

    ghost predicate Valid()
      reads this, table
    {
      && table.Valid()
      && Good(View(), sections, subpages, regs)
      && |table.nodes| <= 11 * |sections| && |sections| <= PAGE
      && SplitOk(View(), sections, split)
    }

    /** mem_begin */
    constructor ()
      ensures Valid() && regs == [] && |sections| == 4 && split == {} && fresh(table)
    {
      table := new PageTable();
      sections := [Section(IoUnassigned, 0, TWO64, 0), Section(IoNotDirty, 0, TWO64, 0),
                   Section(IoRom, 0, TWO64, 0), Section(IoWatch, 0, TWO64, 0)];
      subpages, regs, split := [], [], {};
      new;
      assert forall x: nat :: View()(x) == table.Map(x);
    }

    /** phys_section_add: there are as many section numbers as a page has bytes. */
    method SectionAdd(s: Section) returns (ok: bool, n: nat)
      modifies this`sections
      ensures ok <==> |old(sections)| < PAGE
      ensures n == |old(sections)| && sections == if ok then old(sections) + [s] else old(sections)
    {
      n := |sections|;
      ok := n < PAGE;
      if ok {
        sections := sections + [s];
      }
    }

    method RegisterMultipage(now: Section) returns (ok: bool)
      requires Valid() && PageAligned(now) && Proper(now)
      requires forall r <- regs :: Disjoint(r, now)
      modifies this, table
      ensures ok <==> |old(sections)| < PAGE
      ensures ok ==> Valid() && regs == old(regs) + [now] && |sections| == |old(sections)| + 1 && split == old(split)
    {
      ghost var m, secs := View(), sections;
      var n;
      ok, n := SectionAdd(now);
      if !ok {
        return;
      }
      MapPages(now, n, m, secs);
      regs := regs + [now];
      MultipageGood(m, View(), secs, subpages, old(regs), now);
      PagesFit();
      SplitKept(m, View(), secs, subpages, old(regs), split, now);
    }

    /** The pages of a section are mapped to its number. */
    method MapPages(now: Section, n: nat, ghost m: nat -> nat, ghost secs: seq<Section>)
      requires table.Valid() && m == View() && Good(m, secs, subpages, regs) && PageAligned(now) && Proper(now)
      requires forall r <- regs :: Disjoint(r, now)
      requires 4 <= n < PAGE && n == |secs| && |table.nodes| <= 11 * n
      modifies table
      ensures table.Valid() && |table.nodes| <= 11 * (n + 1)
      ensures forall x: nat | x < Size(LEVELS) ::
                View()(x) == if now.base <= x * PAGE < now.base + now.size then n else m(x)
    {
      var first, pages := now.base / PAGE, now.size / PAGE;
      PagesFit();
      assert first + pages <= PAGES;
      forall x: nat | first <= x < first + pages ensures table.Map(x) == UNASSIGNED {
        PageOfAddress(x, now);
        RangeFree(m, secs, subpages, regs, now, x);
        assert m(x) == table.Map(x);
      }
      table.SetPages(first, pages, n);
      forall x: nat | x < Size(LEVELS)
        ensures View()(x) == if now.base <= x * PAGE < now.base + now.size then n else m(x)
      {
        PageOfAddress(x, now);
        assert View()(x) == table.Map(x) && m(x) == old(table.Map(x));
      }
    }

    /** subpage_register: both ends are checked before the loop. */
    method SubpageRegister(n: nat, start: nat, end: nat, t: nat) returns (ok: bool)
      requires n < |subpages| && |subpages[n].sub| == PAGE
      modifies this`subpages
      ensures ok == (start < PAGE && end < PAGE)
      ensures !ok ==> subpages == old(subpages)
      ensures ok ==>
        subpages == old(subpages)[n := old(subpages)[n].(sub := Registered(old(subpages)[n].sub, start, end, t))]
    {
      if start >= PAGE || end >= PAGE {
        return false;
      }
      var sub := subpages[n].sub;
      var idx := start;
      while idx <= end
        invariant |sub| == PAGE && start <= idx
        invariant forall b | 0 <= b < PAGE :: sub[b] == if start <= b < idx && b <= end then t else subpages[n].sub[b]
      {
        sub := sub[idx := t];
        idx := idx + 1;
      }
      assert sub == Registered(subpages[n].sub, start, end, t);
      subpages := subpages[n := subpages[n].(sub := sub)];
      ok := true;
    }

    /** phys_page_find: walk down, then check that the section really covers the address. */
    method FindSection(addr: nat) returns (s: nat)
      requires Levelled(table.nodes, table.root, table.place) && |sections| > 0
      requires View()(addr / PAGE) < |sections|
      ensures s < |sections|
      ensures s == FindIndex(sections, View()(addr / PAGE), addr)
    {
      var index := addr / PAGE;
      var lp := table.root;
      var i: nat := LEVELS;
      while lp.skip > 0 && i >= lp.skip
        invariant EntryOk(table.nodes, table.place, lp, i)
        invariant Walk(table.nodes, lp, i, index) == View()(index)
        decreases i
      {
        i := i - lp.skip;
        if lp.ptr == NODE_NIL {
          assert View()(index) == UNASSIGNED;
          return FindIndex(sections, UNASSIGNED, addr);
        }
        ghost var n := lp.ptr;
        lp := table.nodes[lp.ptr][Digit(index, i)];
        assert EntryOk(table.nodes, table.place, table.nodes[n][Digit(index, i)], table.place[n].level);
      }
      if RangeCheck(sections[lp.ptr], addr) {
        s := lp.ptr;
      } else {
        s := UNASSIGNED;
      }
    }

    /** A page without pieces gets a subpage table of its own and the piece in it. */
    method SplitPage(now: Section, x: nat) returns (ok: bool)
      requires table.Valid() && 4 <= |sections| <= PAGE
      requires |table.nodes| <= 11 * |sections|
      requires x < PAGES && now.base % PAGE + now.size <= PAGE && now.size > 0
      requires View()(x) == UNASSIGNED
      modifies this`sections, this`subpages, table
      ensures ok <==> |old(sections)| + 2 <= PAGE
      ensures ok ==> table.Valid() && |table.nodes| <= 11 * |sections|
      ensures ok ==> sections == old(sections) + [Section(SubpageIo(|old(subpages)|), x * PAGE, PAGE, 0), now]
      ensures ok ==> subpages == old(subpages) + [WithPiece(Subpage(x * PAGE, EmptyTable()), now, |old(sections)| + 1)]
      ensures ok ==> forall z: nat | z < Size(LEVELS) ::
                View()(z) == if z == x then |old(sections)| else old(View())(z)
    {
      ghost var m := View();
      PagesFit();
      var start, n := now.base % PAGE, |subpages|;
      subpages := subpages + [Subpage(x * PAGE, EmptyTable())];
      var own, t;
      ok, own := SectionAdd(Section(SubpageIo(n), x * PAGE, PAGE, 0));
      if !ok {
        return;
      }
      assert table.Map(x) == m(x);
      table.SetPages(x, 1, own);
      ok, t := SectionAdd(now);
      if !ok {
        return;
      }
      var _ := SubpageRegister(n, start, start + now.size - 1, t);
      forall z: nat | z < Size(LEVELS) ensures View()(z) == if z == x then own else m(z) {
        assert View()(z) == table.Map(z) && m(z) == old(table.Map(z));
      }
    }

    method FirstPiece(now: Section, x: nat) returns (ok: bool)
      requires Valid() && Proper(now)
      requires x == now.base / PAGE && now.base % PAGE + now.size <= PAGE && x < PAGES
      requires forall r <- regs :: Disjoint(r, now)
      requires View()(x) == UNASSIGNED
      modifies this, table
      ensures ok <==> |old(sections)| + 2 <= PAGE
      ensures ok ==> Valid() && regs == old(regs) + [now] && |sections| == |old(sections)| + 2
      ensures ok ==> split == old(split) + {x}
    {
      ghost var m := View();
      ok := SplitPage(now, x);
      if !ok {
        return;
      }
      FreshSubpageGood(m, View(), old(sections), old(subpages), old(regs), now, x);
      PagesFit();
      SplitMore(m, View(), old(sections), sections, old(subpages), old(regs), split, x);
      regs, split := regs + [now], split + {x};
    }

    /** A page that is split already takes the piece into its table. */
    method ExtendPage(now: Section, x: nat, w: nat) returns (ok: bool)
      requires Valid() && Proper(now)
      requires x == now.base / PAGE && now.base % PAGE + now.size <= PAGE && x < PAGES
      requires forall r <- regs :: Disjoint(r, now)
      requires w == View()(x) && w != UNASSIGNED && w < |sections| && sections[w].mr.SubpageIo?
      modifies this`sections, this`subpages, this`regs
      ensures ok <==> |old(sections)| < PAGE
      ensures ok ==> Valid() && regs == old(regs) + [now] && |sections| == |old(sections)| + 1
    {
      KnownSubpageGood(View(), sections, subpages, regs, now, x);
      SplitSame(View(), sections, subpages, regs, split, now);
      ok := TakePiece(now, sections[w].mr.n);
      if !ok {
        return;
      }
      regs := regs + [now];
    }

    method TakePiece(now: Section, n: nat) returns (ok: bool)
      requires n < |subpages| && |subpages[n].sub| == PAGE
      requires now.base % PAGE + now.size <= PAGE && now.size > 0
      modifies this`sections, this`subpages
      ensures ok <==> |old(sections)| < PAGE
      ensures ok ==> sections == old(sections) + [now]
      ensures ok ==> subpages == old(subpages)[n := WithPiece(old(subpages)[n], now, |old(sections)|)]
    {
      var start := now.base % PAGE;
      var t;
      ok, t := SectionAdd(now);
      if ok {
        var _ := SubpageRegister(n, start, start + now.size - 1, t);
      }
    }

    method RegisterSubpage(now: Section) returns (ok: bool)
      requires Valid() && Proper(now)
      requires now.base % PAGE + now.size <= PAGE
      requires forall r <- regs :: Disjoint(r, now)
      modifies this, table
      ensures ok <==> |old(sections)| + PieceCost(now.base / PAGE, old(split)) <= PAGE
      ensures ok ==> Valid() && regs == old(regs) + [now] && split == old(split) + {now.base / PAGE}
      ensures ok ==> |sections| == |old(sections)| + PieceCost(now.base / PAGE, old(split))
    {
      var x := now.base / PAGE;
      PagesFit();
      SubpageOrNothing(View(), sections, subpages, regs, now, x);
      ShapeIsLevelled(table.nodes, table.root, table.place);
      assert x * PAGE / PAGE == x;
      var existing := FindSection(x * PAGE);
      assert sections[existing].mr.SubpageIo? || sections[existing].mr == IoUnassigned;
      assert x in split <==> IsSplit(View(), sections, x);
      if !sections[existing].mr.SubpageIo? {
        ok := FirstPiece(now, x);
      } else {
        ok := ExtendPage(now, x, existing);
        assert split == split + {x};
      }
    }

    /** The section number that phys_page_find ends at. */
    ghost function PageIndex(addr: nat): nat
      reads this, table
    {
      FindIndex(sections, View()(addr / PAGE), addr)
    }

    /** The section number a lookup with subpage resolution ends at. */
    ghost function Index(addr: nat): nat
      reads this, table
    {
      LookupIndex(sections, subpages, View()(addr / PAGE), addr)
    }

    /** Every address finds the registered piece containing it, or nothing where no
        piece is registered. */
    ghost predicate Committed()
      reads this, table
    {
      && Levelled(table.nodes, table.root, table.place) && Fixed(sections) && Tables(sections, subpages)
      && (forall x: nat | x < PAGES :: View()(x) < |sections|)
      && (forall addr: nat | addr < TWO64 :: ByteOk(sections, regs, Index(addr), addr))
    }

    ghost function Goes(addr: nat): Target
      requires Committed() && addr < TWO64
      reads this, table
    {
      TargetOf(sections, Index(addr), addr)
    }

    /** mem_commit: compaction changes no answer of phys_page_find, although it drops
        index digits. */
    method Commit()
      requires Valid()
      modifies table
      ensures Committed() && Compacted(table.nodes, table.root, LEVELS)
      ensures forall addr: nat | addr < TWO64 ::
                FindIndex(sections, View()(addr / PAGE), addr) == FindIndex(sections, old(View())(addr / PAGE), addr)
    {
      ghost var m, nodes, root := View(), table.nodes, table.root;
      PagesFit();
      table.CompactAll();
      forall x: nat | x < PAGES ensures View()(x) < |sections| {
        var y := Landing(m, nodes, root, table.nodes, table.root, x);
        assert PageOk(sections, subpages, regs, m(x), x);
        if y < PAGES { assert PageOk(sections, subpages, regs, m(y), y); }
      }
      forall addr: nat | addr < TWO64
        ensures FindIndex(sections, View()(addr / PAGE), addr) == FindIndex(sections, m(addr / PAGE), addr)
      {
        var y := Landing(m, nodes, root, table.nodes, table.root, addr / PAGE);
        SameAfterCompaction(m, View()(addr / PAGE), sections, subpages, regs, addr, y);
      }
      forall addr: nat | addr < TWO64 ensures ByteOk(sections, regs, Index(addr), addr) {
        LookupFindsPiece(m, sections, subpages, regs, addr);
      }
    }

    /** address_space_lookup_region */
    method Lookup(addr: nat, resolveSubpage: bool) returns (s: Section)
      requires Committed() && addr < TWO64
      ensures resolveSubpage ==>
                if NoneAt(regs, addr) then s == sections[UNASSIGNED] else s in regs && In(s, addr)
      ensures resolveSubpage ==> Index(addr) < |sections| && s == sections[Index(addr)]
      ensures resolveSubpage ==>
        Goes(addr) == if NoneAt(regs, addr) then Nothing else Target(s.mr, addr - s.base + s.regionOffset)
      ensures !resolveSubpage ==> PageIndex(addr) < |sections| && s == sections[PageIndex(addr)]
    {
      PagesFit();
      var n := FindSection(addr);
      s := sections[n];
      assert ByteOk(sections, regs, Index(addr), addr);
      if resolveSubpage && s.mr.SubpageIo? {
        assert n == FindIndex(sections, View()(addr / PAGE), addr);
        s := sections[subpages[s.mr.n].sub[addr % PAGE]];
      }
    }

    /** The prefix of a remainder that is registered next. */
    method RegisterPrefix(remain: Section) returns (ok: bool, now: Section)
      requires Valid() && Proper(remain)
      requires remain.base % PAGE == 0
      requires forall r <- regs :: Disjoint(r, remain)
      modifies this, table
      ensures now == remain.(size := WholePages(remain.size))
      ensures ok <==> |old(sections)| + NextCost(remain.base, remain.size, old(split)) <= PAGE
      ensures ok ==> Valid() && regs == old(regs) + [now]
      ensures ok ==> |sections| == |old(sections)| + NextCost(remain.base, remain.size, old(split))
      ensures ok ==> split == old(split) + NextSplit(remain.base, remain.size)
    {
      now := remain;
      if remain.size < PAGE {
        ok := RegisterSubpage(now);
      } else {
        // What remains starts on a page, so the source's middle branch is never taken.
        now := now.(size := remain.size - remain.size % PAGE);
        ok := RegisterMultipage(now);
        assert split + {} == split;
      }
    }

    /** The section numbers in use and those that a remainder from a page boundary on will take. */
    ghost function Owing(base: nat, size: nat): nat
      reads `sections, `split
    {
      |sections| + RestCost(base, size, split)
    }

    /** The pages shared and those that the remainder will share. */
    ghost function Sharing(base: nat, size: nat): set<nat>
      reads `split
    {
      split + RestSplit(base, size)
    }

    /** One round of the loop in mem_add.  What is owed stays the same, and the round fails only if it is too
        much. */
    method RegisterNext(remain: Section) returns (ok: bool, now: Section)
      requires Valid() && Proper(remain)
      requires remain.base % PAGE == 0
      requires forall r <- regs :: Disjoint(r, remain)
      modifies this, table
      ensures now == remain.(size := now.size) && 0 < now.size <= remain.size
      ensures (now.base + now.size) % PAGE == 0 || now.size == remain.size
      ensures !ok ==> old(Owing(remain.base, remain.size)) > PAGE
      ensures ok ==> Valid() && regs == old(regs) + [now]
      ensures ok ==> Owing(remain.base + now.size, remain.size - now.size) == old(Owing(remain.base, remain.size))
      ensures ok ==> Sharing(remain.base + now.size, remain.size - now.size) == old(Sharing(remain.base, remain.size))
    {
      RestStep(remain.base, remain.size, split, WholePages(remain.size));
      ok, now := RegisterPrefix(remain);
    }

    /** The part of a section up to the next page boundary, if it does not start on one. */
    method RegisterHead(section: Section) returns (ok: bool, now: Section)
      requires Valid() && Proper(section)
      requires forall r <- regs :: Disjoint(r, section)
      modifies this, table
      ensures now == section.(size := now.size) && now.size <= section.size
      ensures (now.base + now.size) % PAGE == 0 || now.size == section.size
      ensures !ok ==> |old(sections)| + Cost(section, old(split)) > PAGE
      ensures ok ==> Valid() && old(regs) <= regs && Cut(section, regs[|old(regs)|..], now.base + now.size)
      ensures ok ==> Owing(section.base + now.size, section.size - now.size)
                     == |old(sections)| + Cost(section, old(split))
      ensures ok ==> Sharing(section.base + now.size, section.size - now.size) == old(split) + Shares(section)
    {
      HeadBoundary(section);
      now, ok := section.(size := HeadSize(section)), true;
      if section.base % PAGE != 0 {
        ok := RegisterSubpage(now);
        if ok {
          NothingCut(section, old(regs));
          PieceAdded(section, old(regs), old(regs), section.base, now);
        }
      } else {
        NothingCut(section, regs);
        assert split + {} == split;
      }
    }

    /** What holds between the rounds of mem_add. */
    ghost predicate Adding(section: Section, remain: Section, now: Section, was: seq<Section>, cost: nat,
                           shares: set<nat>)
      reads this, table
    {
      && Valid() && was <= regs && now == remain.(size := now.size) && now.size <= remain.size
      && PieceOf(remain, section) && remain.base + remain.size == section.base + section.size
      && ((now.base + now.size) % PAGE == 0 || now.size == remain.size)
      && Cut(section, regs[|was|..], now.base + now.size)
      && Owing(remain.base + now.size, remain.size - now.size) == cost
      && Sharing(remain.base + now.size, remain.size - now.size) == shares
    }

    method Round(section: Section, remain: Section, now: Section,
                 ghost was: seq<Section>, ghost cost: nat, ghost shares: set<nat>)
      returns (ok: bool, remain': Section, now': Section)
      requires Adding(section, remain, now, was, cost, shares) && remain.size != now.size
      requires Proper(section) && forall r <- was :: Disjoint(r, section)
      modifies this, table
      ensures remain'.size == remain.size - now.size && now'.size > 0
      ensures if ok then Adding(section, remain', now', was, cost, shares) else cost > PAGE
    {
      remain' := Section(remain.mr, remain.base + now.size, remain.size - now.size, remain.regionOffset + now.size);
      RestDisjoint(section, was, regs, remain'.base, remain');
      ghost var before := regs;
      ok, now' := RegisterNext(remain');
      if ok {
        PieceAdded(section, was, before, remain'.base, now');
      }
    }

    /** mem_add: cut a section into an unaligned head, whole pages and a tail, and register each piece.
        This fails exactly if the section numbers run out. */
    method MemAdd(section: Section) returns (ok: bool)
      requires Valid() && Proper(section)
      requires forall r <- regs :: Disjoint(r, section)
      modifies this, table
      ensures ok <==> |old(sections)| + Cost(section, old(split)) <= PAGE
      ensures ok ==> Valid() && old(regs) <= regs && split == old(split) + Shares(section)
      ensures ok ==> |sections| == |old(sections)| + Cost(section, old(split))
      ensures ok ==> Cut(section, regs[|old(regs)|..], section.base + section.size)
    {
      ghost var cost, shares := |sections| + Cost(section, split), split + Shares(section);
      var remain, now := section, section;
      ok, now := RegisterHead(section);
      while ok && remain.size != now.size
        invariant if ok then Adding(section, remain, now, old(regs), cost, shares) else cost > PAGE
        decreases if ok then 1 else 0, remain.size - now.size
      {
        ok, remain, now := Round(section, remain, now, old(regs), cost, shares);
      }
    }
  }

  /** A piece of a listed section sends an address where the list says. */
  lemma PiecesMeanList(list: seq<Section>, regs: seq<Section>, sections: seq<Section>, t: nat, addr: nat)
    requires forall a, b | 0 <= a < b < |list| :: Disjoint(list[a], list[b])
    requires Partition(list, regs)
    requires Fixed(sections) && ByteOk(sections, regs, t, addr)
    ensures TargetOf(sections, t, addr) == LinearSearch(list, addr)
  {
    if t == UNASSIGNED {
      assert !Filled(regs, addr);
      LinearSearchMisses(list, addr);
    } else {
      var j :| 0 <= j < |regs| && regs[j] == sections[t];
      var i :| 0 <= i < |list| && PieceOf(regs[j], list[i]);
      LinearSearchFinds(list, addr, i);
    }
  }

  function TargetOf(sections: seq<Section>, t: nat, addr: nat): Target
    requires t == UNASSIGNED || (t < |sections| && In(sections[t], addr))
  {
    if t == UNASSIGNED then Nothing
    else Target(sections[t].mr, addr - sections[t].base + sections[t].regionOffset)
  }

  /** The registered pieces are parts of the listed sections and together fill them. */
  ghost predicate Partition(list: seq<Section>, regs: seq<Section>) {
    && (forall j | 0 <= j < |regs| :: HasWhole(list, regs[j]))
    && (forall i, addr: nat | 0 <= i < |list| && In(list[i], addr) :: Filled(regs, addr))
  }

  ghost predicate HasWhole(list: seq<Section>, p: Section) {
    exists i :: 0 <= i < |list| && PieceOf(p, list[i])
  }

  lemma PartitionGrows(list: seq<Section>, regs: seq<Section>, s: Section, regs': seq<Section>)
    requires Partition(list, regs) && regs <= regs'
    requires Cut(s, regs'[|regs|..], s.base + s.size)
    ensures Partition(list + [s], regs')
  {
    var list' := list + [s];
    forall j | 0 <= j < |regs'| ensures HasWhole(list', regs'[j]) {
      if j < |regs| {
        assert HasWhole(list, regs[j]);
        var i :| 0 <= i < |list| && PieceOf(regs[j], list[i]);
        assert PieceOf(regs'[j], list'[i]);
      } else {
        assert regs'[j] == regs'[|regs|..][j - |regs|];
        assert PieceOf(regs'[j], list'[|list|]);
      }
    }
    forall i, addr: nat | 0 <= i < |list'| && In(list'[i], addr) ensures Filled(regs', addr) {
      if i < |list| {
        assert Filled(regs, addr);
        var j :| 0 <= j < |regs| && In(regs[j], addr);
        assert In(regs'[j], addr);
      } else {
        assert Filled(regs'[|regs|..], addr);
        var j :| 0 <= j < |regs'[|regs|..]| && In(regs'[|regs|..][j], addr);
        assert In(regs'[|regs| + j], addr);
      }
    }
  }

  lemma PartitionDisjoint(list: seq<Section>, regs: seq<Section>, s: Section)
    requires Partition(list, regs)
    requires forall i | 0 <= i < |list| :: Disjoint(list[i], s)
    ensures forall r <- regs :: Disjoint(r, s)
  {
    forall j | 0 <= j < |regs| ensures Disjoint(regs[j], s) {
      assert HasWhole(list, regs[j]);
      var i :| 0 <= i < |list| && PieceOf(regs[j], list[i]);
      assert Disjoint(list[i], s);
    }
  }

  /** The whole life of a dispatch table: begin, add every section of a list, commit.  This fails exactly if
      the list needs more section numbers than there are.  Otherwise, whatever the list, a lookup agrees with
      searching the list. */
  method Build(list: seq<Section>) returns (ok: bool, d: Dispatch)
    requires forall s <- list :: Proper(s)
    requires forall a, b | 0 <= a < b < |list| :: Disjoint(list[a], list[b])
    ensures ok <==> Needed(list, 0, 4, {}) <= PAGE
    ensures ok ==> d.Committed() && Partition(list, d.regs)
    ensures ok ==> forall addr: nat | addr < TWO64 :: d.Goes(addr) == LinearSearch(list, addr)
  {
    d := new Dispatch();
    ok := AddAll(d, list, 0);
    if ok {
      assert list[..|list|] == list && Fixed(d.sections);
      d.Commit();
      forall addr: nat | addr < TWO64 ensures d.Goes(addr) == LinearSearch(list, addr) {
        PiecesMeanList(list, d.regs, d.sections, d.Index(addr), addr);
      }
    }
  }

  /** The first sections of a list are added. */
  ghost predicate Filling(d: Dispatch, list: seq<Section>, i: nat)
    reads d, d.table
  {
    i <= |list| && d.Valid() && Partition(list[..i], d.regs)
  }

  method AddNext(d: Dispatch, list: seq<Section>, i: nat) returns (ok: bool)
    requires Filling(d, list, i) && i < |list| && Proper(list[i])
    requires forall a | 0 <= a < i :: Disjoint(list[a], list[i])
    modifies d, d.table
    ensures ok <==> |old(d.sections)| + Cost(list[i], old(d.split)) <= PAGE
    ensures ok ==> Filling(d, list, i + 1)
    ensures ok ==> |d.sections| == |old(d.sections)| + Cost(list[i], old(d.split))
    ensures ok ==> d.split == old(d.split) + Shares(list[i])
  {
    ghost var before := d.regs;
    PartitionDisjoint(list[..i], d.regs, list[i]);
    ok := d.MemAdd(list[i]);
    if ok {
      PartitionGrows(list[..i], before, list[i], d.regs);
      assert list[..i] + [list[i]] == list[..i + 1];
    }
  }

  /** The sections of a list are added one after the other. */
  method AddAll(d: Dispatch, list: seq<Section>, i: nat) returns (ok: bool)
    requires Filling(d, list, i)
    requires forall s <- list :: Proper(s)
    requires forall a, b | 0 <= a < b < |list| :: Disjoint(list[a], list[b])
    modifies d, d.table
    ensures ok <==> Needed(list, i, |old(d.sections)|, old(d.split)) <= PAGE
    ensures ok ==> Filling(d, list, |list|)
    decreases |list| - i
  {
    ok := true;
    if i < |list| {
      assert Needed(list, i, |d.sections|, d.split)
        == Needed(list, i + 1, |d.sections| + Cost(list[i], d.split), d.split + Shares(list[i]));
      ok := AddNext(d, list, i);
      if ok {
        ok := AddAll(d, list, i + 1);
      }
    }
  }

  /** The pieces are parts of the section and fill it up to `done`. */
  ghost predicate Cut(section: Section, pieces: seq<Section>, done: nat) {
    && (forall p <- pieces :: PieceOf(p, section) && p.base + p.size <= done)
    && (forall addr: nat | section.base <= addr < done :: Filled(pieces, addr))
  }

  ghost predicate Filled(pieces: seq<Section>, addr: nat) {
    exists i :: 0 <= i < |pieces| && In(pieces[i], addr)
  }

  lemma RestDisjoint(section: Section, old': seq<Section>, regs: seq<Section>, done: nat, rest: Section)
    requires old' <= regs && forall r <- old' :: Disjoint(r, section)
    requires Cut(section, regs[|old'|..], done) && PieceOf(rest, section) && rest.base == done
    ensures forall r <- regs :: Disjoint(r, rest)
  {
    forall i | 0 <= i < |regs| ensures Disjoint(regs[i], rest) {
      if i < |old'| {
        assert regs[i] == old'[i] && Disjoint(old'[i], section);
      } else {
        assert regs[i] == regs[|old'|..][i - |old'|];
      }
    }
  }

  lemma NothingCut(section: Section, was: seq<Section>)
    ensures Cut(section, was[|was|..], section.base)
  {}

  /** A registered piece extends what is cut. */
  lemma PieceAdded(section: Section, was: seq<Section>, before: seq<Section>, done: nat, now: Section)
    requires was <= before && Cut(section, before[|was|..], done) && PieceOf(now, section) && now.base == done
    ensures was <= before + [now] && Cut(section, (before + [now])[|was|..], done + now.size)
  {
    CutGrows(section, before[|was|..], done, now);
    assert (before + [now])[|was|..] == before[|was|..] + [now];
  }

  lemma CutGrows(section: Section, pieces: seq<Section>, done: nat, now: Section)
    requires Cut(section, pieces, done) && PieceOf(now, section) && now.base == done
    ensures Cut(section, pieces + [now], done + now.size)
  {
    var all := pieces + [now];
    forall addr: nat | section.base <= addr < done + now.size ensures Filled(all, addr) {
      if addr < done {
        assert Filled(pieces, addr);
        var i :| 0 <= i < |pieces| && In(pieces[i], addr);
        assert In(all[i], addr);
      } else {
        assert In(all[|pieces|], addr);
      }
    }
  }
}
