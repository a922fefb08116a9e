/**
 The memory slots that KVM is given (kvm-all.c 128-185, 613-771): a map from guest physical
 to host addresses, kept as ranges in a fixed array.
 */
module KvmSlots {
  import opened Common

  const PAGE: nat := 4096

  /** A slot of size 0 is free. */
  datatype Slot = Slot(start: nat, size: nat, ram: int)

  predicate Covers(s: Slot, a: nat) {
    s.start <= a < s.start + s.size
  }

  predicate Overlaps(s: Slot, lo: nat, hi: nat) {
    s.size > 0 && hi > s.start && lo < s.start + s.size
  }

  ghost predicate Disjoint(slots: seq<Slot>) {
    forall i, j | 0 <= i < |slots| && 0 <= j < |slots| && i != j ::
      slots[i].size == 0 || slots[j].size == 0
      || slots[i].start + slots[i].size <= slots[j].start || slots[j].start + slots[j].size <= slots[i].start
  }

  ghost predicate Aligned(slots: seq<Slot>) {
    forall i | 0 <= i < |slots| && slots[i].size > 0 :: slots[i].start % PAGE == 0 && slots[i].size % PAGE == 0
  }

  ghost predicate Good(slots: seq<Slot>) {
    Disjoint(slots) && Aligned(slots)
  }

  /** The host address of a guest address. */
  ghost function Host(slots: seq<Slot>, a: nat): Option<int> {
    if exists i :: 0 <= i < |slots| && Covers(slots[i], a)
    then var i :| 0 <= i < |slots| && Covers(slots[i], a); Some(slots[i].ram + a - slots[i].start)
    else None
  }

  function Used(slots: seq<Slot>, n: nat): (r: nat)
    requires n <= |slots|
    ensures r <= n
  {
    if n == 0 then 0 else Used(slots, n - 1) + (if slots[n - 1].size > 0 then 1 else 0)
  }

  /** The number of slots that overlap a range. */
  function Overlapping(slots: seq<Slot>, lo: nat, hi: nat, n: nat): nat
    requires n <= |slots|
  {
    if n == 0 then 0 else Overlapping(slots, lo, hi, n - 1) + (if Overlaps(slots[n - 1], lo, hi) then 1 else 0)
  }

  /** The pieces of a slot outside a range. */
  function Pieces(s: Slot, lo: nat, hi: nat): nat {
    if Overlaps(s, lo, hi) then Bit(s.start < lo) + Bit(s.start + s.size > hi) else Bit(s.size > 0)
  }

  /** The pieces of all slots: the slots it takes to clear the range. */
  function Kept(slots: seq<Slot>, lo: nat, hi: nat, n: nat): nat
    requires n <= |slots|
  {
    if n == 0 then 0 else Kept(slots, lo, hi, n - 1) + Pieces(slots[n - 1], lo, hi)
  }

  // ---------------------------------------------------------------- counting

  lemma {:induction false} UsedSet(slots: seq<Slot>, i: nat, s: Slot, n: nat)
    requires i < |slots| && n <= |slots|
    ensures Used(slots[i := s], n) == Used(slots, n)
          + (if i < n then (if s.size > 0 then 1 else 0) - (if slots[i].size > 0 then 1 else 0) else 0)
  {
    if n > 0 { UsedSet(slots, i, s, n - 1); }
  }

  lemma {:induction false} OverlappingSet(slots: seq<Slot>, i: nat, s: Slot, lo: nat, hi: nat, n: nat)
    requires i < |slots| && n <= |slots|
    ensures Overlapping(slots[i := s], lo, hi, n) == Overlapping(slots, lo, hi, n)
          + (if i < n then Bit(Overlaps(s, lo, hi)) - Bit(Overlaps(slots[i], lo, hi)) else 0)
  {
    if n > 0 { OverlappingSet(slots, i, s, lo, hi, n - 1); }
  }

  lemma {:induction false} KeptSet(slots: seq<Slot>, i: nat, s: Slot, lo: nat, hi: nat, n: nat)
    requires i < |slots| && n <= |slots|
    ensures Kept(slots[i := s], lo, hi, n) == Kept(slots, lo, hi, n)
          + (if i < n then Pieces(s, lo, hi) - Pieces(slots[i], lo, hi) else 0)
  {
    if n > 0 { KeptSet(slots, i, s, lo, hi, n - 1); }
  }

  /** Once the range is clear, every slot is one piece. */
  lemma {:induction false} KeptFree(slots: seq<Slot>, lo: nat, hi: nat, n: nat)
    requires n <= |slots| && Free(slots, lo, hi)
    ensures Kept(slots, lo, hi, n) == Used(slots, n)
  {
    if n > 0 {
      assert !Overlaps(slots[n - 1], lo, hi);
      KeptFree(slots, lo, hi, n - 1);
    }
  }

  lemma {:induction false} UsedFull(slots: seq<Slot>, n: nat)
    requires n <= |slots| && forall i | 0 <= i < n :: slots[i].size > 0
    ensures Used(slots, n) == n
  {
    if n > 0 { UsedFull(slots, n - 1); }
  }

  // ---------------------------------------------------------------- the map

  lemma HostAt(slots: seq<Slot>, i: nat, a: nat)
    requires Disjoint(slots) && i < |slots| && Covers(slots[i], a)
    ensures Host(slots, a) == Some(slots[i].ram + a - slots[i].start)
  {
    var j :| 0 <= j < |slots| && Covers(slots[j], a) && Host(slots, a) == Some(slots[j].ram + a - slots[j].start);
    assert Covers(slots[j], a);
    assert slots[j].start <= a < slots[j].start + slots[j].size;
  }

  /** A slot is freed: its range is unmapped and nothing else changes. */
  lemma HostFree(slots: seq<Slot>, i: nat, a: nat)
    requires Disjoint(slots) && i < |slots|
    ensures var slots' := slots[i := slots[i].(size := 0)];
      Disjoint(slots') && Host(slots', a) == if Covers(slots[i], a) then None else Host(slots, a)
  {
    var slots' := slots[i := slots[i].(size := 0)];
    assert forall j | 0 <= j < |slots| && j != i :: slots'[j] == slots[j];
    if j :| 0 <= j < |slots| && Covers(slots'[j], a) {
      HostAt(slots', j, a);
      HostAt(slots, j, a);
      assert !Covers(slots[i], a);
    } else {
      forall j | 0 <= j < |slots| && j != i ensures !Covers(slots[j], a) {
        assert slots'[j] == slots[j];
      }
    }
  }

  /** A free slot is taken: its range is mapped and nothing else changes. */
  lemma HostTake(slots: seq<Slot>, i: nat, s: Slot, a: nat)
    requires Disjoint(slots) && i < |slots| && slots[i].size == 0
    requires forall j | 0 <= j < |slots| :: !Overlaps(slots[j], s.start, s.start + s.size)
    ensures Disjoint(slots[i := s])
    ensures Host(slots[i := s], a) == if Covers(s, a) then Some(s.ram + a - s.start) else Host(slots, a)
  {
    var slots' := slots[i := s];
    assert Disjoint(slots') by {
      forall j, k | 0 <= j < |slots| && 0 <= k < |slots| && j != k
        ensures slots'[j].size == 0 || slots'[k].size == 0
             || slots'[j].start + slots'[j].size <= slots'[k].start
             || slots'[k].start + slots'[k].size <= slots'[j].start
      {
        assert !Overlaps(slots[j], s.start, s.start + s.size) && !Overlaps(slots[k], s.start, s.start + s.size);
      }
    }
    if Covers(s, a) {
      HostAt(slots', i, a);
    } else if j :| 0 <= j < |slots| && Covers(slots[j], a) {
      assert slots'[j] == slots[j];
      HostAt(slots, j, a);
      HostAt(slots', j, a);
    } else {
      assert forall j | 0 <= j < |slots| :: !Covers(slots'[j], a);
    }
  }

  ghost predicate Free(slots: seq<Slot>, lo: nat, hi: nat) {
    forall j | 0 <= j < |slots| :: !Overlaps(slots[j], lo, hi)
  }

  /** The maps agree outside lo..hi, and inside the first one maps nothing that the second did not. */
  ghost predicate Trimmed(slots: seq<Slot>, was: seq<Slot>, lo: nat, hi: nat) {
    forall a: nat :: Host(slots, a) == Host(was, a) || (lo <= a < hi && Host(slots, a) == None)
  }

  /** The map is the old one with a hole from x to y, which no slot overlaps. */
  ghost predicate Hole(slots: seq<Slot>, was: seq<Slot>, x: nat, y: nat) {
    && Good(slots) && Free(slots, x, y)
    && forall a: nat :: Host(slots, a) == if x <= a < y then None else Host(was, a)
  }

  /** An aligned slot whose range was mapped as the slot says. */
  ghost predicate Was(s: Slot, was: seq<Slot>) {
    && s.size > 0 && s.start % PAGE == 0 && s.size % PAGE == 0
    && forall a: nat | Covers(s, a) :: Host(was, a) == Some(s.ram + a - s.start)
  }

  /** A piece at one end of a hole. */
  ghost predicate EndOf(s: Slot, x: nat, y: nat, x': nat, y': nat) {
    && x <= x' <= y' <= y
    && ((s.start == x && s.start + s.size == x' && y' == y) || (s.start == y' && s.start + s.size == y && x' == x))
  }

  lemma HoleFilled(slots: seq<Slot>, was: seq<Slot>, i: nat, s: Slot, x: nat, y: nat, x': nat, y': nat)
    requires Hole(slots, was, x, y) && EndOf(s, x, y, x', y') && i < |slots| && slots[i].size == 0
    requires Was(s, was)
    ensures Hole(slots[i := s], was, x', y')
  {
    forall j | 0 <= j < |slots|
      ensures !Overlaps(slots[j], s.start, s.start + s.size) && !Overlaps(slots[i := s][j], x', y')
    {
      assert !Overlaps(slots[j], x, y);
    }
    forall a: nat ensures Host(slots[i := s], a) == if x' <= a < y' then None else Host(was, a) {
      HostTake(slots, i, s, a);
    }
    HostTake(slots, i, s, 0);
  }

  lemma HoleMade(slots: seq<Slot>, m: nat)
    requires Good(slots) && m < |slots| && slots[m].size > 0
    ensures Hole(slots[m := slots[m].(size := 0)], slots, slots[m].start, slots[m].start + slots[m].size)
  {
    FreedRange(slots, m, slots[m].start, slots[m].start + slots[m].size);
    forall a: nat
      ensures Host(slots[m := slots[m].(size := 0)], a) == if Covers(slots[m], a) then None else Host(slots, a)
    {
      HostFree(slots, m, a);
    }
    HostFree(slots, m, 0);
  }

  /** A range that no slot overlaps is not mapped. */
  lemma FreeUnmapped(slots: seq<Slot>, lo: nat, hi: nat, a: nat)
    requires Free(slots, lo, hi) && lo <= a < hi
    ensures Host(slots, a) == None
  {
    forall i | 0 <= i < |slots| ensures !Covers(slots[i], a) {
      assert !Overlaps(slots[i], lo, hi);
    }
  }

  /** The range of a slot is not overlapped once the slot is freed. */
  lemma FreedRange(slots: seq<Slot>, i: nat, lo: nat, hi: nat)
    requires Disjoint(slots) && i < |slots| && slots[i].size > 0
    requires slots[i].start <= lo <= hi <= slots[i].start + slots[i].size
    ensures Free(slots[i := slots[i].(size := 0)], lo, hi)
  {
    var slots' := slots[i := slots[i].(size := 0)];
    forall j | 0 <= j < |slots| ensures !Overlaps(slots'[j], lo, hi) {
      if j != i {
        assert slots'[j] == slots[j];
        assert slots[i].size == 0 || slots[j].size == 0
          || slots[i].start + slots[i].size <= slots[j].start || slots[j].start + slots[j].size <= slots[i].start;
      }
    }
  }

  /** No slot has come to overlap the range. */
  ghost predicate NoneNew(slots: seq<Slot>, was: seq<Slot>, lo: nat, hi: nat) {
    |slots| == |was| && forall j | 0 <= j < |slots| && Overlaps(slots[j], lo, hi) :: slots[j] == was[j]
  }

  /** If the lowest overlapping slot ends behind the range, no other one overlaps it. */
  lemma LowestAlone(slots: seq<Slot>, m: nat, lo: nat, hi: nat)
    requires Disjoint(slots) && m < |slots| && Overlaps(slots[m], lo, hi) && slots[m].start + slots[m].size > hi
    requires forall j | 0 <= j < |slots| && Overlaps(slots[j], lo, hi) :: slots[m].start <= slots[j].start
    ensures forall j | 0 <= j < |slots| && Overlaps(slots[j], lo, hi) :: j == m
  {}

  // ---------------------------------------------------------------- sections

  /** What a section asks for. */
  datatype Section = Section(start: nat, size: nat, ram: int, isRam: bool, readonly: bool, romDevice: bool,
                             romdMode: bool)

  datatype Range = Range(lo: nat, hi: nat, ram: int, add: bool)

  /** The checks and adjustments at the start of kvm_set_phys_mem: the range to set or clear, if
      any. */
  function Wanted(s: Section, add: bool, readonlyMemAllowed: bool): (r: Option<Range>)
    ensures r.Some? ==>
      && s.start <= r.value.lo < r.value.hi <= s.start + s.size
      && r.value.lo % PAGE == 0 && r.value.hi % PAGE == 0
      && (r.value.add ==> add && r.value.ram - r.value.lo == s.ram - s.start)
  {
    var delta := (PAGE - s.size % PAGE) % PAGE;
    if delta > s.size then None
    else
      var start, size := s.start + delta, s.size - delta - (s.size - delta) % PAGE;
      if size == 0 || start % PAGE != 0 then None
      else if !s.isRam && ((!s.readonly && !s.romDevice) || !readonlyMemAllowed) then None
      else Some(Range(start, start + size, s.ram + delta, add && (s.isRam || s.romdMode)))
  }

  /** When there is something to do, where, and whether the range is added: RAM always, ROM devices while
      they are in ROM mode, and read-only memory only if the kernel supports it. */
  lemma WantedExactly(s: Section, add: bool, readonlyMemAllowed: bool)
    ensures var delta := RoundUp(s.size, PAGE) - s.size;
      && (Wanted(s, add, readonlyMemAllowed).Some? <==>
            && delta + PAGE <= s.size && (s.start + delta) % PAGE == 0
            && (s.isRam || ((s.readonly || s.romDevice) && readonlyMemAllowed)))
      && (Wanted(s, add, readonlyMemAllowed).Some? ==>
            && var r := Wanted(s, add, readonlyMemAllowed).value;
            && r.lo == s.start + delta && r.hi == s.start + delta + AlignDown(s.size - delta, PAGE)
            && r.ram == s.ram + delta && (r.add <==> add && (s.isRam || s.romdMode)))
  {}

  /** An aligned section of RAM is wanted as it is. */
  lemma WantedAligned(s: Section, add: bool, readonlyMemAllowed: bool)
    requires s.start % PAGE == 0 && s.size % PAGE == 0 && s.size > 0 && s.isRam
    ensures Wanted(s, add, readonlyMemAllowed) == Some(Range(s.start, s.start + s.size, s.ram, add))
  {}

  datatype Outcome = Done | NoFreeSlot

  datatype Cleared = Unmapped | Mapped | Aborted

  /** The map is the old one, changed as wanted. */
  ghost predicate Effect(slots: seq<Slot>, was: seq<Slot>, wanted: Option<Range>) {
    forall a: nat :: Host(slots, a) ==
      if wanted.Some? && wanted.value.lo <= a < wanted.value.hi
      then (if wanted.value.add then Some(wanted.value.ram + a - wanted.value.lo) else None)
      else Host(was, a)
  }

  lemma TrimmedTrans(slots: seq<Slot>, mid: seq<Slot>, was: seq<Slot>, lo: nat, hi: nat)
    requires Trimmed(slots, mid, lo, hi) && Trimmed(mid, was, lo, hi)
    ensures Trimmed(slots, was, lo, hi)
  {
    forall a: nat ensures Host(slots, a) == Host(was, a) || (lo <= a < hi && Host(slots, a) == None) {
      assert Host(mid, a) == Host(was, a) || (lo <= a < hi && Host(mid, a) == None);
    }
  }

  lemma RangeCleared(slots: seq<Slot>, was: seq<Slot>, r: Range)
    requires Trimmed(slots, was, r.lo, r.hi) && Free(slots, r.lo, r.hi) && !r.add
    ensures Effect(slots, was, Some(r))
  {
    forall a: nat ensures Host(slots, a) == if r.lo <= a < r.hi then None else Host(was, a) {
      if r.lo <= a < r.hi { FreeUnmapped(slots, r.lo, r.hi, a); }
    }
  }

  lemma RangeAddedAt(slots: seq<Slot>, was: seq<Slot>, i: nat, s: Slot, r: Range, a: nat)
    requires Good(slots) && Trimmed(slots, was, r.lo, r.hi) && Free(slots, r.lo, r.hi)
    requires i < |slots| && slots[i].size == 0 && r.lo < r.hi && s == Slot(r.lo, r.hi - r.lo, r.ram)
    ensures Host(slots[i := s], a) == if r.lo <= a < r.hi then Some(r.ram + a - r.lo) else Host(was, a)
  {
    HostTake(slots, i, s, a);
    assert Host(slots, a) == Host(was, a) || (r.lo <= a < r.hi && Host(slots, a) == None);
  }

  lemma RangeAdded(slots: seq<Slot>, was: seq<Slot>, i: nat, s: Slot, slots': seq<Slot>, r: Range)
    requires Good(slots) && Trimmed(slots, was, r.lo, r.hi) && Free(slots, r.lo, r.hi)
    requires i < |slots| && slots[i].size == 0
    requires r.add && r.lo < r.hi && r.lo % PAGE == 0 && r.hi % PAGE == 0
    requires s == Slot(r.lo, r.hi - r.lo, r.ram) && slots' == slots[i := s]
    ensures Good(slots') && Effect(slots', was, Some(r))
  {
    forall a: nat
      ensures Host(slots', a) == if r.lo <= a < r.hi then Some(r.ram + a - r.lo) else Host(was, a)
    {
      RangeAddedAt(slots, was, i, s, r, a);
    }
    GoodTake(slots, i, s);
  }

  lemma GoodTake(slots: seq<Slot>, i: nat, s: Slot)
    requires Good(slots) && i < |slots| && slots[i].size == 0 && s.start % PAGE == 0 && s.size % PAGE == 0
    requires Free(slots, s.start, s.start + s.size)
    ensures Good(slots[i := s])
  {
    HostTake(slots, i, s, 0);
  }

  /** Whether the slot maps the range already. */
  predicate Fits(s: Slot, r: Range) {
    s.start <= r.lo && r.hi <= s.start + s.size && r.ram - r.lo == s.ram - s.start
  }

  /** Some slot maps the range already, and it is to be mapped. */
  ghost predicate Matched(slots: seq<Slot>, r: Range) {
    r.add && exists i :: 0 <= i < |slots| && slots[i].size > 0 && Fits(slots[i], r)
  }

  /** A slot that maps the range is the only one that overlaps it. */
  lemma MatchedAlone(slots: seq<Slot>, m: nat, r: Range)
    requires Disjoint(slots) && r.lo < r.hi && m < |slots| && Overlaps(slots[m], r.lo, r.hi)
    ensures Matched(slots, r) <==> r.add && Fits(slots[m], r)
  {}

  lemma FreeUnmatched(slots: seq<Slot>, r: Range)
    requires Free(slots, r.lo, r.hi) && r.lo < r.hi
    ensures !Matched(slots, r)
  {
    forall i | 0 <= i < |slots| && slots[i].size > 0 ensures !Fits(slots[i], r) {
      assert !Overlaps(slots[i], r.lo, r.hi);
    }
  }

  lemma NeverMatched(slots: seq<Slot>, was: seq<Slot>, r: Range)
    requires NoneNew(slots, was, r.lo, r.hi) && r.lo < r.hi && !Matched(was, r)
    ensures !Matched(slots, r)
  {}

  class SlotTable {
    const slots: array<Slot>

    ghost predicate Valid()
      reads slots
    {
      Good(slots[..])
    }

    constructor (n: nat)
      ensures Valid() && fresh(slots) && slots.Length == n
      ensures forall a: nat :: Host(slots[..], a) == None
    {
      slots := new Slot[n](_ => Slot(0, 0, 0));
    }

    /** kvm_alloc_slot; there may be none, and then the source gives up. */
    method AllocSlot() returns (r: Option<nat>)
      ensures r.Some? ==> r.value < slots.Length && slots[r.value].size == 0
      ensures r.None? <==> Used(slots[..], slots.Length) == slots.Length
    {
      for i := 0 to slots.Length
        invariant forall j | 0 <= j < i :: slots[j].size > 0
      {
        if slots[i].size == 0 {
          UsedSet(slots[..], i, Slot(0, 1, 0), slots.Length);
          return Some(i);
        }
      }
      UsedFull(slots[..], slots.Length);
      r := None;
    }

    /** kvm_lookup_overlapping_slot: of the overlapping slots the one that starts lowest. */
    method LookupOverlapping(lo: nat, hi: nat) returns (r: Option<nat>)
      ensures r.None? ==> Free(slots[..], lo, hi)
      ensures r.Some? ==> r.value < slots.Length && Overlaps(slots[r.value], lo, hi)
      ensures r.Some? ==> forall j | 0 <= j < slots.Length && Overlaps(slots[j], lo, hi) ::
        slots[r.value].start <= slots[j].start
    {
      r := None;
      for i := 0 to slots.Length
        invariant r.None? ==> forall j | 0 <= j < i :: !Overlaps(slots[j], lo, hi)
        invariant r.Some? ==> r.value < i && Overlaps(slots[r.value], lo, hi)
        invariant r.Some? ==> forall j | 0 <= j < i && Overlaps(slots[j], lo, hi) ::
          slots[r.value].start <= slots[j].start
      {
        if slots[i].size == 0 || (r.Some? && slots[r.value].start < slots[i].start) {
          continue;
        }
        if hi > slots[i].start && lo < slots[i].start + slots[i].size {
          r := Some(i);
        }
      }
    }

    /** A free slot takes a range. */
    method Register(s: Slot) returns (r: Option<nat>)
      modifies slots
      ensures r.None? ==> slots[..] == old(slots[..])
      ensures r.None? <==> old(Used(slots[..], slots.Length)) == slots.Length
      ensures r.Some? ==> r.value < slots.Length && old(slots[r.value]).size == 0
      ensures r.Some? ==> slots[..] == old(slots[..])[r.value := s]
    {
      r := AllocSlot();
      if r.Some? {
        slots[r.value] := s;
      }
    }

    /** A piece of a slot that was freed is registered again. */
    method PutBack(s: Slot, lo: nat, hi: nat, ghost was: seq<Slot>, ghost x: nat, ghost y: nat, ghost x': nat,
                   ghost y': nat) returns (ok: bool)
      requires Hole(slots[..], was, x, y) && EndOf(s, x, y, x', y') && !Overlaps(s, lo, hi)
      requires Was(s, was)
      modifies slots
      ensures !ok <==> old(Used(slots[..], slots.Length)) == slots.Length
      ensures !ok ==> slots[..] == old(slots[..])
      ensures ok ==> Hole(slots[..], was, x', y')
      ensures ok ==> Used(slots[..], slots.Length) == old(Used(slots[..], slots.Length)) + 1
      ensures ok ==> Overlapping(slots[..], lo, hi, slots.Length) == old(Overlapping(slots[..], lo, hi, slots.Length))
      ensures ok ==> Kept(slots[..], lo, hi, slots.Length) == old(Kept(slots[..], lo, hi, slots.Length)) + 1
      ensures NoneNew(slots[..], old(slots[..]), lo, hi)
    {
      var r := Register(s);
      ok := r.Some?;
      if ok {
        HoleFilled(old(slots[..]), was, r.value, s, x, y, x', y');
        UsedSet(old(slots[..]), r.value, s, slots.Length);
        OverlappingSet(old(slots[..]), r.value, s, lo, hi, slots.Length);
        KeptSet(old(slots[..]), r.value, s, lo, hi, slots.Length);
      }
    }

    /** A slot is freed. */
    method Release(m: nat, lo: nat, hi: nat) returns (s: Slot)
      requires Valid() && m < slots.Length && Overlaps(slots[m], lo, hi)
      modifies slots
      ensures s == old(slots[m]) && Was(s, old(slots[..]))
      ensures Hole(slots[..], old(slots[..]), s.start, s.start + s.size)
      ensures Used(slots[..], slots.Length) + 1 == old(Used(slots[..], slots.Length))
      ensures Overlapping(slots[..], lo, hi, slots.Length) + 1 == old(Overlapping(slots[..], lo, hi, slots.Length))
      ensures Kept(slots[..], lo, hi, slots.Length) + Pieces(s, lo, hi) == old(Kept(slots[..], lo, hi, slots.Length))
      ensures slots[..] == old(slots[..])[m := s.(size := 0)]
    {
      s := slots[m];
      forall a: nat | Covers(s, a) ensures Host(slots[..], a) == Some(s.ram + a - s.start) {
        HostAt(slots[..], m, a);
      }
      HoleMade(slots[..], m);
      UsedSet(slots[..], m, s.(size := 0), slots.Length);
      OverlappingSet(slots[..], m, s.(size := 0), lo, hi, slots.Length);
      KeptSet(slots[..], m, s.(size := 0), lo, hi, slots.Length);
      slots[m] := s.(size := 0);
      assert slots[..] == old(slots[..])[m := s.(size := 0)];
    }

    /** The part of a freed slot below the range is registered again. */
    method KeepBelow(s: Slot, lo: nat, hi: nat, ghost was: seq<Slot>) returns (ok: bool)
      requires Hole(slots[..], was, s.start, s.start + s.size) && Was(s, was) && Overlaps(s, lo, hi) && lo % PAGE == 0
      modifies slots
      ensures !ok <==> s.start < lo && old(Used(slots[..], slots.Length)) == slots.Length
      ensures ok ==> Hole(slots[..], was, Max(s.start, lo), s.start + s.size)
      ensures ok ==>
        Used(slots[..], slots.Length) == old(Used(slots[..], slots.Length)) + Bit(s.start < lo)
      ensures ok ==> Overlapping(slots[..], lo, hi, slots.Length) == old(Overlapping(slots[..], lo, hi, slots.Length))
      ensures ok ==>
        Kept(slots[..], lo, hi, slots.Length) == old(Kept(slots[..], lo, hi, slots.Length)) + Bit(s.start < lo)
      ensures NoneNew(slots[..], old(slots[..]), lo, hi)
    {
      ok := true;
      if s.start < lo {
        ok := PutBack(Slot(s.start, lo - s.start, s.ram), lo, hi, was, s.start, s.start + s.size, lo, s.start + s.size);
      }
    }

    /** The part above it. */
    method KeepAbove(s: Slot, lo: nat, hi: nat, ghost was: seq<Slot>) returns (ok: bool)
      requires Hole(slots[..], was, Max(s.start, lo), s.start + s.size) && Was(s, was) && Overlaps(s, lo, hi) && lo < hi
      requires hi % PAGE == 0
      modifies slots
      ensures !ok <==> s.start + s.size > hi && old(Used(slots[..], slots.Length)) == slots.Length
      ensures ok ==> Hole(slots[..], was, Max(s.start, lo), Min(s.start + s.size, hi))
      ensures ok ==>
        Used(slots[..], slots.Length) == old(Used(slots[..], slots.Length)) + Bit(s.start + s.size > hi)
      ensures ok ==> Overlapping(slots[..], lo, hi, slots.Length) == old(Overlapping(slots[..], lo, hi, slots.Length))
      ensures ok ==>
        Kept(slots[..], lo, hi, slots.Length) == old(Kept(slots[..], lo, hi, slots.Length)) + Bit(s.start + s.size > hi)
      ensures NoneNew(slots[..], old(slots[..]), lo, hi)
    {
      ok := true;
      if s.start + s.size > hi {
        ok := PutBack(Slot(hi, s.start + s.size - hi, s.ram + (hi - s.start)), lo, hi, was,
                      Max(s.start, lo), s.start + s.size, Max(s.start, lo), hi);
      }
    }

    /** An overlapping slot is replaced by what it has outside lo..hi. */
    method Split(m: nat, lo: nat, hi: nat) returns (ok: bool)
      requires Valid() && m < slots.Length && Overlaps(slots[m], lo, hi)
      requires lo < hi && lo % PAGE == 0 && hi % PAGE == 0
      requires forall j | 0 <= j < slots.Length && Overlaps(slots[j], lo, hi) :: slots[m].start <= slots[j].start
      modifies slots
      ensures !ok ==> old(Used(slots[..], slots.Length)) == slots.Length
      ensures !ok ==> old(Kept(slots[..], lo, hi, slots.Length)) == slots.Length + 1
      ensures ok ==> Kept(slots[..], lo, hi, slots.Length) == old(Kept(slots[..], lo, hi, slots.Length))
      ensures NoneNew(slots[..], old(slots[..]), lo, hi)
      ensures ok ==> Valid() && Trimmed(slots[..], old(slots[..]), lo, hi)
      ensures ok ==> Overlapping(slots[..], lo, hi, slots.Length) < old(Overlapping(slots[..], lo, hi, slots.Length))
      ensures ok ==> Used(slots[..], slots.Length) <= old(Used(slots[..], slots.Length)) + 1
      ensures ok && Used(slots[..], slots.Length) > old(Used(slots[..], slots.Length)) ==> Free(slots[..], lo, hi)
    {
      ghost var was := slots[..];
      var s := Release(m, lo, hi);
      if s.start + s.size > hi {
        LowestAlone(was, m, lo, hi);
        assert Free(slots[..], lo, hi);
      }
      ok := KeepBelow(s, lo, hi, was);
      if ok {
        if s.start + s.size > hi {
          KeptFree(slots[..], lo, hi, slots.Length);
        }
        ok := KeepAbove(s, lo, hi, was);
      }
    }

    /** The loop of kvm_set_phys_mem: the range is cleared, or found to be mapped already. */
    method Clear(r: Range) returns (out: Cleared)
      requires Valid() && r.lo < r.hi && r.lo % PAGE == 0 && r.hi % PAGE == 0
      modifies slots
      ensures out.Aborted? ==> old(Used(slots[..], slots.Length)) == slots.Length
      ensures out.Mapped? <==> old(Matched(slots[..], r))
      ensures out.Mapped? ==> slots[..] == old(slots[..])
      ensures out.Aborted? <==>
        !old(Matched(slots[..], r)) && old(Kept(slots[..], r.lo, r.hi, slots.Length)) > slots.Length
      ensures out.Unmapped? ==>
        Used(slots[..], slots.Length) == old(Kept(slots[..], r.lo, r.hi, slots.Length))
      ensures !out.Aborted? ==> Valid() && Trimmed(slots[..], old(slots[..]), r.lo, r.hi)
      ensures !out.Aborted? ==> Used(slots[..], slots.Length) <= old(Used(slots[..], slots.Length)) + 1
      ensures out.Unmapped? ==> Free(slots[..], r.lo, r.hi)
      ensures out.Mapped? ==> r.add && forall a: nat | r.lo <= a < r.hi :: Host(slots[..], a) == Some(r.ram + a - r.lo)
    {
      while true
        invariant Valid() && Trimmed(slots[..], old(slots[..]), r.lo, r.hi)
        invariant Used(slots[..], slots.Length) <= old(Used(slots[..], slots.Length)) + 1
        invariant Used(slots[..], slots.Length) > old(Used(slots[..], slots.Length)) ==> Free(slots[..], r.lo, r.hi)
        invariant Kept(slots[..], r.lo, r.hi, slots.Length) == old(Kept(slots[..], r.lo, r.hi, slots.Length))
        invariant slots[..] == old(slots[..]) || (!old(Matched(slots[..], r)) && !Matched(slots[..], r))
        decreases Overlapping(slots[..], r.lo, r.hi, slots.Length)
      {
        var m := LookupOverlapping(r.lo, r.hi);
        if m.None? {
          KeptFree(slots[..], r.lo, r.hi, slots.Length);
          FreeUnmatched(slots[..], r);
          return Unmapped;
        }
        MatchedAlone(slots[..], m.value, r);
        var s := slots[m.value];
        if r.add && Fits(s, r) {
          forall a: nat | r.lo <= a < r.hi ensures Host(slots[..], a) == Some(r.ram + a - r.lo) {
            HostAt(slots[..], m.value, a);
          }
          return Mapped;
        }
        ghost var before := slots[..];
        var ok := Split(m.value, r.lo, r.hi);
        if !ok {
          return Aborted;
        }
        NeverMatched(slots[..], before, r);
        assert Trimmed(slots[..], old(slots[..]), r.lo, r.hi) by {
          TrimmedTrans(slots[..], before, old(slots[..]), r.lo, r.hi);
        }
      }
    }

    /** kvm_set_phys_mem: the map is set or cleared exactly on the range of the section. */
    method SetPhysMem(section: Section, add: bool, readonlyMemAllowed: bool) returns (out: Outcome)
      requires Valid()
      modifies slots
      ensures out.Done? ==> Valid() && Effect(slots[..], old(slots[..]), Wanted(section, add, readonlyMemAllowed))
      ensures out.Done? ==> Used(slots[..], slots.Length) <= old(Used(slots[..], slots.Length)) + 2
      ensures old(Used(slots[..], slots.Length)) + 2 <= slots.Length ==> out.Done?
      ensures Wanted(section, add, readonlyMemAllowed).None? ==> out.Done? && slots[..] == old(slots[..])
      ensures Wanted(section, add, readonlyMemAllowed).Some? ==>
        var r := Wanted(section, add, readonlyMemAllowed).value;
        var needed := old(Kept(slots[..], r.lo, r.hi, slots.Length)) + Bit(r.add);
        if old(Matched(slots[..], r)) then out.Done? && slots[..] == old(slots[..])
        else (out.Done? <==> needed <= slots.Length) && (out.Done? ==> Used(slots[..], slots.Length) == needed)
    {
      var wanted := Wanted(section, add, readonlyMemAllowed);
      if wanted.None? {
        return Done;
      }
      var r := wanted.value;
      var cleared := Clear(r);
      if cleared.Aborted? {
        return NoFreeSlot;
      }
      ghost var slots1 := slots[..];
      if cleared.Unmapped? && r.add {
        var i := Register(Slot(r.lo, r.hi - r.lo, r.ram));
        if i.None? {
          return NoFreeSlot;
        }
        UsedSet(slots1, i.value, Slot(r.lo, r.hi - r.lo, r.ram), slots.Length);
        RangeAdded(slots1, old(slots[..]), i.value, Slot(r.lo, r.hi - r.lo, r.ram), slots[..], r);
      } else if cleared.Unmapped? {
        RangeCleared(slots1, old(slots[..]), r);
      }
      out := Done;
    }
  }
}
