/**
 The pages of a kdump file and its two bitmaps (dump.c 1015-1177).
 */
module KdumpBitmap {
  import opened Common
  import opened Bytes
  import opened KdumpFile

  const PAGE: nat := 4096
  /** The number of pages that one buffer of bits describes. */
  const PFN_BUFBITMAP: nat := 32768

  // ---------------------------------------------------------------- guest memory

  /** A block of guest memory: its first page frame number and its pages. */
  datatype Block = Block(start: nat, pages: seq<seq<Byte>>) {
    function End(): nat { start + |pages| }
  }

  predicate Inside(b: Block, pfn: nat) {
    b.start <= pfn < b.End()
  }

  /** Blocks come in ascending order and are not empty. */
  ghost predicate Sorted(blocks: seq<Block>) {
    && |blocks| > 0
    && (forall i | 0 <= i < |blocks| :: |blocks[i].pages| > 0)
    && (forall i, j | 0 <= i < j < |blocks| :: blocks[i].End() <= blocks[j].start)
  }

  ghost predicate Exists(blocks: seq<Block>, pfn: nat) {
    exists i :: 0 <= i < |blocks| && Inside(blocks[i], pfn)
  }

  /** The number of pages in the first i blocks. */
  function Total(blocks: seq<Block>, i: nat): nat
    requires i <= |blocks|
  {
    if i == 0 then 0 else Total(blocks, i - 1) + |blocks[i - 1].pages|
  }

  datatype Iter = Begin | Page(block: nat, pfn: nat) | Done

  ghost predicate IterOk(blocks: seq<Block>, it: Iter) {
    it.Page? ==> it.block < |blocks| && Inside(blocks[it.block], it.pfn)
  }

  /** get_next_page */
  function Next(blocks: seq<Block>, it: Iter): (r: Iter)
    requires Sorted(blocks) && IterOk(blocks, it) && !it.Done?
    ensures IterOk(blocks, r) && !r.Begin?
  {
    if it.Begin? then Page(0, blocks[0].start)
    else if it.pfn + 1 < blocks[it.block].End() then Page(it.block, it.pfn + 1)
    else if it.block + 1 < |blocks| then Page(it.block + 1, blocks[it.block + 1].start)
    else Done
  }

  /** How many pages come before. */
  function Rank(blocks: seq<Block>, it: Iter): nat
    requires IterOk(blocks, it)
  {
    match it
    case Begin => 0
    case Page(b, pfn) => Total(blocks, b) + (pfn - blocks[b].start)
    case Done => Total(blocks, |blocks|)
  }

  /** The page is one that has been reached. */
  ghost predicate Reached(blocks: seq<Block>, it: Iter, pfn: nat) {
    Exists(blocks, pfn) && (it.Done? || (it.Page? && pfn <= it.pfn))
  }

  /** The walk goes up, visits pages one after the other and leaves none out. */
  lemma NextStep(blocks: seq<Block>, it: Iter)
    requires Sorted(blocks) && IterOk(blocks, it) && !it.Done?
    ensures var it' := Next(blocks, it);
      && Rank(blocks, it') == (if it.Begin? then 0 else Rank(blocks, it) + 1)
      && (it.Page? && it'.Page? ==> it.pfn < it'.pfn)
      && (it'.Page? ==> forall pfn: nat :: Reached(blocks, it', pfn) <==> Reached(blocks, it, pfn) || pfn == it'.pfn)
      && (it'.Done? ==> forall pfn: nat :: Reached(blocks, it', pfn) <==> Reached(blocks, it, pfn))
  {
    var it' := Next(blocks, it);
    if it'.Page? {
      forall pfn: nat ensures Reached(blocks, it', pfn) <==> Reached(blocks, it, pfn) || pfn == it'.pfn {
        if Exists(blocks, pfn) && pfn < it'.pfn {
          var i :| 0 <= i < |blocks| && Inside(blocks[i], pfn);
          assert i <= it'.block;
          if it.Page? { assert pfn <= it.pfn; }
        }
        assert Inside(blocks[it'.block], it'.pfn);
      }
    } else {
      forall pfn: nat ensures Reached(blocks, it', pfn) <==> Reached(blocks, it, pfn) {
        if Exists(blocks, pfn) {
          var i :| 0 <= i < |blocks| && Inside(blocks[i], pfn);
          assert i <= it.block;
        }
      }
    }
  }

  // ---------------------------------------------------------------- bits and bytes

  /** The number whose n low bits are those from i on, the first one lowest. */
  function Number(bits: seq<bool>, i: nat, n: nat): (r: nat)
    requires i + n <= |bits|
    ensures r < Pow2(n)
    decreases n
  {
    if n == 0 then 0 else Bit(bits[i]) + 2 * Number(bits, i + 1, n - 1)
  }

  predicate BitIn(x: nat, k: nat) {
    if k == 0 then x % 2 == 1 else BitIn(x / 2, k - 1)
  }

  lemma {:induction false} BitInNumber(bits: seq<bool>, i: nat, n: nat, k: nat)
    requires i + n <= |bits| && k < n
    ensures BitIn(Number(bits, i, n), k) == bits[i + k]
    decreases n
  {
    if k > 0 { BitInNumber(bits, i + 1, n - 1, k - 1); }
  }

  /** Eight bits as a byte. */
  function ToByte(bits: seq<bool>, i: nat): Byte
    requires i + 8 <= |bits|
  {
    assert Pow2(8) == 256;
    Number(bits, i, 8) as Byte
  }

  /** Bit n of the bitmap that starts at base. */
  function BitOf(f: File, base: nat, n: nat): bool {
    BitIn(ByteOf(f, base + n / 8) as nat, n % 8)
  }

  /** A buffer of bits as bytes. */
  function Packed(bits: seq<bool>): (r: seq<Byte>)
    requires |bits| % 8 == 0
    ensures |r| == |bits| / 8
  {
    seq(|bits| / 8, j requires 0 <= j < |bits| / 8 => ToByte(bits, 8 * j))
  }

  /** A bitmap in the file. */
  ghost predicate BitsHold(f: File, base: nat, bits: seq<bool>, from: nat, to: nat)
    requires to <= |bits|
  {
    forall n | from <= n < to :: BitOf(f, base, n) == bits[n]
  }

  lemma PackedBits(f: File, base: nat, chunk: nat, buf: seq<bool>, k: nat)
    requires |buf| == PFN_BUFBITMAP && k < PFN_BUFBITMAP && Holds(f, base + PAGE * chunk, Packed(buf))
    ensures BitOf(f, base, PFN_BUFBITMAP * chunk + k) == buf[k]
  {
    var n := PFN_BUFBITMAP * chunk + k;
    assert n / 8 == PAGE * chunk + k / 8 && n % 8 == k % 8;
    assert ByteOf(f, base + PAGE * chunk + k / 8) == Packed(buf)[k / 8];
    BitInNumber(buf, 8 * (k / 8), 8, k % 8);
  }

  lemma BitsKept(f: File, g: File, lo: nat, hi: nat, base: nat, bits: seq<bool>, to: nat)
    requires Outside(f, g, lo, hi) && to <= |bits| && BitsHold(f, base, bits, 0, to) && to % 8 == 0
    requires base + to / 8 <= lo || hi <= base
    ensures BitsHold(g, base, bits, 0, to)
  {
    forall n | 0 <= n < to ensures BitOf(g, base, n) == bits[n] {
      assert BitOf(f, base, n) == bits[n];
      assert ByteOf(g, base + n / 8) == ByteOf(f, base + n / 8);
    }
  }

  // ---------------------------------------------------------------- the buffer

  const NO_BITS: seq<bool> := seq(PFN_BUFBITMAP, _ => false)

  class Bitmaps {
    const out: Output
    /** The first bitmap, its length and so the second one. */
    const base: nat
    const len: nat
    var buf: seq<bool>
    /** Both bitmaps as they are to be, and the part of them that is in the buffer. */
    ghost var bits: seq<bool>
    ghost var chunk: nat

    ghost predicate Valid()
      reads this, out
    {
      && |buf| == PFN_BUFBITMAP && |bits| == 8 * len && len % PAGE == 0 && PFN_BUFBITMAP * chunk <= |bits|
      && BitsHold(out.file, base, bits, 0, PFN_BUFBITMAP * chunk)
      && BitsHold(out.file, base + len, bits, 0, PFN_BUFBITMAP * chunk)
      && (forall k | 0 <= k < PFN_BUFBITMAP ::
            buf[k] == (PFN_BUFBITMAP * chunk + k < |bits| && bits[PFN_BUFBITMAP * chunk + k]))
      && (forall n | PFN_BUFBITMAP * (chunk + 1) <= n < |bits| :: !bits[n])
    }

    constructor (out: Output, base: nat, len: nat)
      requires len % PAGE == 0
      ensures Valid() && chunk == 0 && bits == seq(8 * len, _ => false) && this.out == out && this.base == base
      ensures this.len == len
    {
      this.out, this.base, this.len, buf, chunk := out, base, len, NO_BITS, 0;
      bits := seq(8 * len, _ => false);
    }

    method WriteBoth(oldOffset: nat, data: seq<Byte>) returns (ghost mid: File)
      requires |data| == PAGE
      modifies out
      ensures Wrote(old(out.file), mid, base + oldOffset, data) && Wrote(mid, out.file, base + len + oldOffset, data)
    {
      out.WriteBuffer(base + oldOffset, data);
      mid := out.file;
      out.WriteBuffer(base + len + oldOffset, data);
    }

    /** The buffer goes into both bitmaps and starts afresh. */
    method FlushChunk(oldOffset: nat)
      requires Valid() && PFN_BUFBITMAP * (chunk + 1) <= |bits| && oldOffset == PAGE * chunk
      modifies this, out
      ensures Valid() && chunk == old(chunk) + 1 && bits == old(bits) && buf == NO_BITS
      ensures Outside(old(out.file), out.file, base, base + 2 * len)
    {
      ghost var mid := WriteBoth(oldOffset, Packed(buf));
      BothWritten(old(out.file), mid, out.file, base, base + len, base + 2 * len,
                  base + oldOffset, base + len + oldOffset, Packed(buf), bits, buf, chunk);
      buf := NO_BITS;
      chunk := chunk + 1;
    }

    /** set_dump_bitmap: full buffers are written until the bit falls into the current one.  Beyond
        the last one a bit may only be cleared. */
    method Set(last: nat, pfn: nat, value: bool)
      requires Valid() && last <= pfn && last / PFN_BUFBITMAP == chunk
      requires PFN_BUFBITMAP * (pfn / PFN_BUFBITMAP) <= |bits| && (value ==> pfn < |bits|)
      requires !value ==> pfn / PFN_BUFBITMAP > chunk
      modifies this, out
      ensures Valid() && chunk == pfn / PFN_BUFBITMAP
      ensures bits == if value then old(bits)[pfn := true] else old(bits)
      ensures Outside(old(out.file), out.file, base, base + 2 * len)
    {
      var oldOffset := PAGE * (last / PFN_BUFBITMAP);
      var newOffset := PAGE * (pfn / PFN_BUFBITMAP);
      while oldOffset < newOffset
        invariant Valid() && oldOffset == PAGE * chunk && old(chunk) <= chunk <= pfn / PFN_BUFBITMAP
        invariant bits == old(bits)
        invariant chunk > old(chunk) ==> buf == NO_BITS
        invariant Outside(old(out.file), out.file, base, base + 2 * len)
      {
        ghost var before := out.file;
        FlushChunk(oldOffset);
        OutsideTrans(old(out.file), before, out.file, base, base + 2 * len);
        oldOffset := oldOffset + PAGE;
      }
      buf := buf[pfn % PFN_BUFBITMAP := value];
      if value {
        bits := bits[pfn := true];
      }
    }
  }

  /** From f to g one buffer was written. */
  ghost predicate Wrote(f: File, g: File, at: nat, data: seq<Byte>) {
    |data| == PAGE && Holds(g, at, data) && Outside(f, g, at, at + PAGE)
  }

  lemma FirstWritten(f: File, mid: File, g: File, base: nat, one: nat, two: nat, data: seq<Byte>, bits: seq<bool>,
                     buf: seq<bool>, chunk: nat)
    requires InBuffer(bits, buf, chunk) && data == Packed(buf) && BitsHold(f, base, bits, 0, PFN_BUFBITMAP * chunk)
    requires Wrote(f, mid, one, data) && Wrote(mid, g, two, data) && one == base + PAGE * chunk && one + PAGE <= two
    ensures BitsHold(g, base, bits, 0, PFN_BUFBITMAP * (chunk + 1))
  {
    HoldsKept(mid, g, two, two + PAGE, one, data);
    OneMore(f, mid, g, base, one, two, bits, buf, chunk);
  }

  lemma SecondWritten(f: File, mid: File, g: File, base: nat, one: nat, two: nat, data: seq<Byte>, bits: seq<bool>,
                      buf: seq<bool>, chunk: nat)
    requires InBuffer(bits, buf, chunk) && data == Packed(buf) && BitsHold(f, base, bits, 0, PFN_BUFBITMAP * chunk)
    requires Wrote(f, mid, one, data) && Wrote(mid, g, two, data) && two == base + PAGE * chunk && one + PAGE <= base
    ensures BitsHold(g, base, bits, 0, PFN_BUFBITMAP * (chunk + 1))
  {
    OneMore(f, mid, g, base, one, two, bits, buf, chunk);
  }

  lemma OnlyBitmaps(f: File, mid: File, g: File, base: nat, end: nat, one: nat, two: nat, data: seq<Byte>)
    requires Wrote(f, mid, one, data) && Wrote(mid, g, two, data)
    requires base <= one && one + PAGE <= end && base <= two && two + PAGE <= end
    ensures Outside(f, g, base, end)
  {
    OutsideWiden(f, mid, one, one + PAGE, base, end);
    OutsideWiden(mid, g, two, two + PAGE, base, end);
    OutsideTrans(f, mid, g, base, end);
  }

  lemma BothWritten(f: File, mid: File, g: File, base: nat, second: nat, end: nat, one: nat, two: nat,
                    data: seq<Byte>, bits: seq<bool>, buf: seq<bool>, chunk: nat)
    requires InBuffer(bits, buf, chunk) && data == Packed(buf) && base + |bits| / 8 == second
    requires second + |bits| / 8 == end
    requires BitsHold(f, base, bits, 0, PFN_BUFBITMAP * chunk) && BitsHold(f, second, bits, 0, PFN_BUFBITMAP * chunk)
    requires Wrote(f, mid, one, data) && Wrote(mid, g, two, data)
    requires one == base + PAGE * chunk && two == second + PAGE * chunk
    ensures BitsHold(g, base, bits, 0, PFN_BUFBITMAP * (chunk + 1))
    ensures BitsHold(g, second, bits, 0, PFN_BUFBITMAP * (chunk + 1))
    ensures Outside(f, g, base, end)
  {
    FirstWritten(f, mid, g, base, one, two, data, bits, buf, chunk);
    SecondWritten(f, mid, g, second, one, two, data, bits, buf, chunk);
    OnlyBitmaps(f, mid, g, base, end, one, two, data);
  }

  /** The buffer has the bits of its part of the bitmap. */
  ghost predicate InBuffer(bits: seq<bool>, buf: seq<bool>, chunk: nat) {
    && |buf| == PFN_BUFBITMAP && PFN_BUFBITMAP * (chunk + 1) <= |bits|
    && forall k | 0 <= k < PFN_BUFBITMAP :: buf[k] == bits[PFN_BUFBITMAP * chunk + k]
  }

  /** One more buffer of a bitmap stands in the file. */
  lemma OneMore(f: File, mid: File, g: File, base: nat, one: nat, two: nat, bits: seq<bool>, buf: seq<bool>, chunk: nat)
    requires InBuffer(bits, buf, chunk) && BitsHold(f, base, bits, 0, PFN_BUFBITMAP * chunk)
    requires Outside(f, mid, one, one + PAGE) && Outside(mid, g, two, two + PAGE)
    requires (base + PAGE * chunk <= one || one + PAGE <= base) && (base + PAGE * chunk <= two || two + PAGE <= base)
    requires Holds(g, base + PAGE * chunk, Packed(buf))
    ensures BitsHold(g, base, bits, 0, PFN_BUFBITMAP * (chunk + 1))
  {
    BitsKept(f, mid, one, one + PAGE, base, bits, PFN_BUFBITMAP * chunk);
    BitsKept(mid, g, two, two + PAGE, base, bits, PFN_BUFBITMAP * chunk);
    forall n | PFN_BUFBITMAP * chunk <= n < PFN_BUFBITMAP * (chunk + 1) ensures BitOf(g, base, n) == bits[n] {
      PackedBits(g, base, chunk, buf, n - PFN_BUFBITMAP * chunk);
    }
  }
}
