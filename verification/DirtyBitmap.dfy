/**
 The dirty bitmap of a RAM migration and its synchronisation with the dirty log
 (arch_init.c 397-467).
 */
module DirtyBitmap {
  import opened Common
  import opened RamStream

  const BITS_PER_LONG: nat := 64

  // ---------------------------------------------------------------- counting

  /** The number of set bits below n. */
  function Count(bits: seq<bool>, n: nat): nat
    requires n <= |bits|
  {
    if n == 0 then 0 else Count(bits, n - 1) + Bit(bits[n - 1])
  }

  lemma {:induction false} CountSame(a: seq<bool>, b: seq<bool>, n: nat)
    requires n <= |a| && n <= |b| && forall k | 0 <= k < n :: a[k] == b[k]
    ensures Count(a, n) == Count(b, n)
  {
    if n > 0 { CountSame(a, b, n - 1); }
  }

  lemma {:induction false} CountUpdate(bits: seq<bool>, i: nat, v: bool, n: nat)
    requires i < n <= |bits|
    ensures Count(bits[i := v], n) + Bit(bits[i]) == Count(bits, n) + Bit(v)
  {
    if i == n - 1 {
      CountSame(bits[i := v], bits, n - 1);
    } else {
      CountUpdate(bits, i, v, n - 1);
    }
  }

  lemma {:induction false} CountAll(bits: seq<bool>, n: nat)
    requires n <= |bits| && forall k | 0 <= k < |bits| :: bits[k] <==> k < n
    ensures Count(bits, |bits|) == n
  {
    CountTrue(bits, n);
    CountFalse(bits, n, |bits|);
  }

  lemma {:induction false} CountTrue(bits: seq<bool>, n: nat)
    requires n <= |bits| && forall k | 0 <= k < n :: bits[k]
    ensures Count(bits, n) == n
  {
    if n > 0 { CountTrue(bits, n - 1); }
  }

  lemma {:induction false} CountFalse(bits: seq<bool>, lo: nat, n: nat)
    requires lo <= n <= |bits| && forall k | lo <= k < n :: !bits[k]
    ensures Count(bits, n) == Count(bits, lo)
  {
    if lo < n { CountFalse(bits, lo, n - 1); }
  }

  // ---------------------------------------------------------------- pages of blocks

  function PageNo(blocks: seq<Block>, b: nat, o: nat): nat
    requires b < |blocks|
  {
    blocks[b].start + o
  }

  predicate Dirty(blocks: seq<Block>, bits: seq<bool>, b: nat, o: nat)
    requires b < |blocks| && PageNo(blocks, b, o) < |bits|
  {
    bits[PageNo(blocks, b, o)]
  }

  /** The page belongs to a block. */
  ghost predicate InBlock(blocks: seq<Block>, p: nat) {
    exists b :: 0 <= b < |blocks| && Within(blocks[b], p)
  }

  predicate Within(k: Block, p: nat) {
    k.start <= p < k.start + k.pages
  }

  /** Different places are different pages. */
  lemma PagesDiffer(blocks: seq<Block>, cap: nat, b: nat, o: nat, c: nat, u: nat)
    requires Layout(blocks, cap) && b < |blocks| && o < blocks[b].pages && c < |blocks| && u < blocks[c].pages
    requires b != c || o != u
    ensures PageNo(blocks, b, o) != PageNo(blocks, c, u)
  {
    if b < c {
      assert
        || blocks[b].start + blocks[b].pages <= blocks[c].start
        || blocks[c].start + blocks[c].pages <= blocks[b].start;
    } else if c < b {
      assert
        || blocks[c].start + blocks[c].pages <= blocks[b].start
        || blocks[b].start + blocks[b].pages <= blocks[c].start;
    }
  }

  /** find_next_bit within a block: the first set bit from o on, or the number of pages. */
  function FirstDirty(blocks: seq<Block>, bits: seq<bool>, b: nat, o: nat): (r: nat)
    requires b < |blocks| && o <= blocks[b].pages && blocks[b].start + blocks[b].pages <= |bits|
    ensures o <= r <= blocks[b].pages
    ensures r < blocks[b].pages ==> Dirty(blocks, bits, b, r)
    ensures forall u | o <= u < r :: !Dirty(blocks, bits, b, u)
    decreases blocks[b].pages - o
  {
    if o == blocks[b].pages || Dirty(blocks, bits, b, o) then o else FirstDirty(blocks, bits, b, o + 1)
  }

  // ---------------------------------------------------------------- synchronisation

  /** Every mark of the log has moved to the bitmap or stayed; none was lost or invented. */
  ghost predicate Moved(bitmap: seq<bool>, log: seq<bool>, bitmap': seq<bool>, log': seq<bool>) {
    && |bitmap'| == |bitmap| == |log| == |log'|
    && forall p | 0 <= p < |bitmap| ::
         && (bitmap[p] ==> bitmap'[p])
         && (log'[p] ==> log[p])
         && ((bitmap'[p] || log'[p]) <==> (bitmap[p] || log[p]))
  }

  lemma MovedTrans(b0: seq<bool>, l0: seq<bool>, b1: seq<bool>, l1: seq<bool>, b2: seq<bool>, l2: seq<bool>)
    requires Moved(b0, l0, b1, l1) && Moved(b1, l1, b2, l2)
    ensures Moved(b0, l0, b2, l2)
  {}

  /** The words from a word boundary on that hold a number of pages, within a log of whole words. */
  lemma WordsCover(word: nat, pages: nat, count: nat, size: nat)
    requires count == (pages + BITS_PER_LONG - 1) / BITS_PER_LONG
    requires word * BITS_PER_LONG + pages <= size && size % BITS_PER_LONG == 0
    ensures word * BITS_PER_LONG + pages <= BITS_PER_LONG * (word + count) <= size
  {}

  /** The marks of the log in lo..hi that the bitmap does not have yet. */
  function NewBits(bitmap: seq<bool>, log: seq<bool>, lo: nat, hi: nat): nat
    requires lo <= hi <= |bitmap| && hi <= |log|
    decreases hi - lo
  {
    if lo == hi then 0 else NewBits(bitmap, log, lo, hi - 1) + Bit(log[hi - 1] && !bitmap[hi - 1])
  }

  function Merge(bitmap: seq<bool>, log: seq<bool>, lo: nat, hi: nat): (r: seq<bool>)
    requires lo <= hi <= |bitmap| && hi <= |log|
    ensures |r| == |bitmap|
  {
    seq(|bitmap|, k requires 0 <= k < |bitmap| => bitmap[k] || (lo <= k < hi && log[k]))
  }

  function Erase(log: seq<bool>, lo: nat, hi: nat): (r: seq<bool>)
    ensures |r| == |log|
  {
    seq(|log|, k requires 0 <= k < |log| => log[k] && !(lo <= k < hi))
  }

  lemma {:induction false} CountMerge(bitmap: seq<bool>, log: seq<bool>, lo: nat, hi: nat, n: nat)
    requires lo <= hi <= |bitmap| && hi <= |log| && lo <= n <= |bitmap|
    ensures Count(Merge(bitmap, log, lo, hi), n) == Count(bitmap, n) + NewBits(bitmap, log, lo, Min(n, hi))
    decreases n
  {
    if n == lo {
      CountSame(Merge(bitmap, log, lo, hi), bitmap, lo);
    } else {
      CountMerge(bitmap, log, lo, hi, n - 1);
    }
  }

  /** The bitmap, its number of set bits and the dirty log. */
  class Tracker {
    var bitmap: seq<bool>
    var dirtyPages: nat
    var log: seq<bool>

    /** The allocation is in whole words, the counter is right. */
    ghost predicate Valid()
      reads this
    {
      |bitmap| == |log| && |log| % BITS_PER_LONG == 0 && dirtyPages == Count(bitmap, |bitmap|)
    }

    /** ram_save_setup: every page below the last one is dirty. */
    constructor (pages: nat, log: seq<bool>)
      requires pages <= |log| && |log| % BITS_PER_LONG == 0
      ensures Valid() && this.log == log && dirtyPages == pages
      ensures bitmap == seq(|log|, k => k < pages)
    {
      this.log := log;
      bitmap := seq(|log|, k => k < pages);
      dirtyPages := pages;
      new;
      CountAll(bitmap, pages);
    }

    /** One word of the bitmap takes over one word of the log. */
    method SyncWord(k: nat)
      requires Valid() && BITS_PER_LONG * (k + 1) <= |log|
      modifies this
      ensures Valid() && Moved(old(bitmap), old(log), bitmap, log)
      ensures forall p | 0 <= p < |log| ::
                log[p] == (old(log)[p] && !(BITS_PER_LONG * k <= p < BITS_PER_LONG * (k + 1)))
    {
      var lo, hi := BITS_PER_LONG * k, BITS_PER_LONG * (k + 1);
      var added := NewBits(bitmap, log, lo, hi);
      CountMerge(bitmap, log, lo, hi, |bitmap|);
      bitmap := Merge(bitmap, log, lo, hi);
      dirtyPages := dirtyPages + added;
      log := Erase(log, lo, hi);
    }

    /** cpu_physical_memory_reset_dirty and migration_bitmap_set_dirty of one page. */
    method SyncPage(p: nat)
      requires Valid() && p < |log|
      modifies this
      ensures Valid() && Moved(old(bitmap), old(log), bitmap, log)
      ensures log == old(log)[p := false]
    {
      if log[p] {
        log := log[p := false];
        CountUpdate(bitmap, p, true, |bitmap|);
        if !bitmap[p] {
          dirtyPages := dirtyPages + 1;
        }
        bitmap := bitmap[p := true];
      }
    }

    /** migration_bitmap_sync_range: by words if the range starts at one, and then up to
        the end of the last word, or page by page. */
    method SyncRange(start: nat, pages: nat)
      requires Valid() && start + pages <= |log|
      modifies this
      ensures Valid() && Moved(old(bitmap), old(log), bitmap, log)
      ensures forall p | start <= p < start + pages :: !log[p]
    {
      var word := start / BITS_PER_LONG;
      if word * BITS_PER_LONG == start {
        var count := (pages + BITS_PER_LONG - 1) / BITS_PER_LONG;
        WordsCover(word, pages, count, |log|);
        SyncWords(word, count);
      } else {
        SyncPages(start, pages);
      }
    }

    method SyncPages(start: nat, pages: nat)
      requires Valid() && start + pages <= |log|
      modifies this
      ensures Valid() && Moved(old(bitmap), old(log), bitmap, log)
      ensures forall p | start <= p < start + pages :: !log[p]
    {
      var p := start;
      while p < start + pages
        invariant start <= p <= start + pages && |log| == old(|log|)
        invariant Valid() && Moved(old(bitmap), old(log), bitmap, log)
        invariant forall q | start <= q < p :: !log[q]
      {
        ghost var b1, l1 := bitmap, log;
        SyncPage(p);
        MovedTrans(old(bitmap), old(log), b1, l1, bitmap, log);
        p := p + 1;
      }
    }

    method SyncWords(word: nat, count: nat)
      requires Valid() && BITS_PER_LONG * (word + count) <= |log|
      modifies this
      ensures Valid() && Moved(old(bitmap), old(log), bitmap, log)
      ensures forall p | BITS_PER_LONG * word <= p < BITS_PER_LONG * (word + count) :: !log[p]
    {
      var k := word;
      while k < word + count
        invariant word <= k <= word + count && |log| == old(|log|)
        invariant Valid() && Moved(old(bitmap), old(log), bitmap, log)
        invariant forall q | BITS_PER_LONG * word <= q < BITS_PER_LONG * k :: !log[q]
      {
        ghost var b1, l1 := bitmap, log;
        SyncWord(k);
        MovedTrans(old(bitmap), old(log), b1, l1, bitmap, log);
        k := k + 1;
      }
    }

    /** The loop of migration_bitmap_sync: afterwards no page of a block is marked in the
        log, and nothing was lost on the way. */
    method Sync(blocks: seq<Block>)
      requires Valid() && Layout(blocks, |log|)
      modifies this
      ensures Valid() && Moved(old(bitmap), old(log), bitmap, log)
      ensures forall p | 0 <= p < |log| && InBlock(blocks, p) :: !log[p]
    {
      var b := 0;
      while b < |blocks|
        invariant 0 <= b <= |blocks| && |log| == old(|log|)
        invariant Valid() && Moved(old(bitmap), old(log), bitmap, log)
        invariant forall c, p | 0 <= c < b && 0 <= p < |log| && Within(blocks[c], p) :: !log[p]
      {
        ghost var b1, l1 := bitmap, log;
        SyncRange(blocks[b].start, blocks[b].pages);
        MovedTrans(old(bitmap), old(log), b1, l1, bitmap, log);
        b := b + 1;
      }
    }

    /** migration_bitmap_find_and_reset_dirty: in the bulk stage simply the next page, which
        is known to be dirty, and otherwise the first dirty page from o on. */
    method FindAndReset(blocks: seq<Block>, bulk: bool, b: nat, o: nat) returns (r: nat)
      requires Valid() && Layout(blocks, |log|) && b < |blocks| && o <= blocks[b].pages
      requires bulk ==> o < blocks[b].pages && (0 < o && o + 1 < blocks[b].pages ==> Dirty(blocks, bitmap, b, o + 1))
      modifies `bitmap, `dirtyPages
      ensures Valid() && |bitmap| == old(|bitmap|)
      ensures r == if bulk && o > 0 then o + 1 else FirstDirty(blocks, old(bitmap), b, o)
      ensures r < blocks[b].pages ==> Dirty(blocks, old(bitmap), b, r)
      ensures r < blocks[b].pages ==> bitmap == old(bitmap)[PageNo(blocks, b, r) := false]
      ensures r < blocks[b].pages ==> dirtyPages + 1 == old(dirtyPages)
      ensures r >= blocks[b].pages ==> bitmap == old(bitmap) && dirtyPages == old(dirtyPages)
    {
      if bulk && o > 0 {
        r := o + 1;
      } else {
        r := o;
        while r < blocks[b].pages && !bitmap[blocks[b].start + r]
          invariant o <= r <= blocks[b].pages
          invariant FirstDirty(blocks, bitmap, b, o) == FirstDirty(blocks, bitmap, b, r)
        {
          r := r + 1;
        }
      }
      if r < blocks[b].pages {
        CountUpdate(bitmap, blocks[b].start + r, false, |bitmap|);
        bitmap := bitmap[blocks[b].start + r := false];
        dirtyPages := dirtyPages - 1;
      }
    }
  }
}
