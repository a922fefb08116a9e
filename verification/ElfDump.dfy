/**
 The memory part of an ELF vmcore (dump.c 417-503, 639-694, 1507-1533): which part of which
 block is stored, where it is written, and where the program headers say it is.
 */
module ElfDump {
  import opened Common
  import opened Bytes

  const PAGE: nat := 4096

  /** A block of guest physical memory and its contents. */
  datatype Block = Block(start: nat, data: seq<Byte>) {
    function End(): nat { start + |data| }
  }

  datatype Filter = All | Only(begin: nat, length: nat) {
    function End(): nat
      requires Only?
    {
      begin + length
    }
  }

  /** The address lies in the block, and the filter asks for it. */
  predicate Asked(b: Block, f: Filter, addr: nat) {
    b.start <= addr < b.End() && (f.Only? ==> f.begin <= addr < f.End())
  }

  /** The bytes asked for among the first n of a block. */
  function Selected(b: Block, f: Filter, n: nat): seq<Byte>
    requires n <= |b.data|
  {
    if n == 0 then []
    else if Asked(b, f, b.start + (n - 1)) then Selected(b, f, n - 1) + [b.data[n - 1]]
    else Selected(b, f, n - 1)
  }

  /** The number of bytes asked for before block i. */
  function Before(blocks: seq<Block>, f: Filter, i: nat): nat
    requires i <= |blocks|
  {
    if i == 0 then 0 else Before(blocks, f, i - 1) + |Selected(blocks[i - 1], f, |blocks[i - 1].data|)|
  }

  /** What the file must hold of the blocks before block i. */
  function Image(blocks: seq<Block>, f: Filter, i: nat): (r: seq<Byte>)
    requires i <= |blocks|
    ensures |r| == Before(blocks, f, i)
  {
    if i == 0 then [] else Image(blocks, f, i - 1) + Selected(blocks[i - 1], f, |blocks[i - 1].data|)
  }

  predicate OutOfRange(b: Block, f: Filter) {
    f.Only? && (b.start >= f.End() || b.End() <= f.begin)
  }

  /** The first address of a block that is stored. */
  function From(b: Block, f: Filter): (r: nat)
    ensures b.start <= r
  {
    if f.Only? && f.begin > b.start then f.begin else b.start
  }

  /** How much of a block is stored. */
  function SizeIn(b: Block, f: Filter): (r: nat)
    ensures OutOfRange(b, f) ==> r == 0
    ensures !OutOfRange(b, f) ==> From(b, f) + r <= b.End()
  {
    if OutOfRange(b, f) then 0
    else if f.Only? && f.End() < b.End() then f.End() - From(b, f)
    else b.End() - From(b, f)
  }

  /** The bytes of a block that are stored. */
  function Run(b: Block, f: Filter): (r: seq<Byte>)
    ensures |r| == SizeIn(b, f)
  {
    if OutOfRange(b, f) then []
    else Part(b.data, From(b, f) - b.start, From(b, f) - b.start + SizeIn(b, f))
  }

  /** The number of bytes stored before block i. */
  function Offset(blocks: seq<Block>, f: Filter, i: nat): nat
    requires i <= |blocks|
  {
    if i == 0 then 0 else Offset(blocks, f, i - 1) + SizeIn(blocks[i - 1], f)
  }

  /** What is stored of the blocks before block i. */
  function Stored(blocks: seq<Block>, f: Filter, i: nat): (r: seq<Byte>)
    requires i <= |blocks|
    ensures |r| == Offset(blocks, f, i)
  {
    if i == 0 then []
    else if OutOfRange(blocks[i - 1], f) then Stored(blocks, f, i - 1)
    else Stored(blocks, f, i - 1) + Run(blocks[i - 1], f)
  }

  /** What is stored first stays where it is, and the next run comes behind it. */
  lemma StoredGrows(blocks: seq<Block>, f: Filter, i: nat, s: seq<Byte>, t: seq<Byte>, run: seq<Byte>)
    requires i < |blocks| && s == Stored(blocks, f, i) && t == Stored(blocks, f, i + 1) && run == Run(blocks[i], f)
    ensures At(t, 0, s) && At(t, |s|, run)
  {
    assert t == s + run;
    AtAppend(s, run);
  }

  /** The run of a block stands in the stored bytes at the block's offset. */
  lemma {:induction false} StoredRun(blocks: seq<Block>, f: Filter, i: nat, n: nat)
    requires i < n <= |blocks|
    ensures At(Stored(blocks, f, n), Offset(blocks, f, i), Run(blocks[i], f))
    decreases n
  {
    var s, t := Stored(blocks, f, n - 1), Stored(blocks, f, n);
    StoredGrows(blocks, f, n - 1, s, t, Run(blocks[n - 1], f));
    if i < n - 1 {
      StoredRun(blocks, f, i, n - 1);
      AtExtend(s, t, Offset(blocks, f, i), Run(blocks[i], f));
    }
  }

  /** Blocks that store nothing can be skipped. */
  lemma {:induction false} StoredSkip(blocks: seq<Block>, f: Filter, i: nat, j: nat)
    requires i <= j <= |blocks| && forall k | i <= k < j :: OutOfRange(blocks[k], f)
    ensures Stored(blocks, f, i) == Stored(blocks, f, j)
    decreases j - i
  {
    if i < j {
      StoredSkip(blocks, f, i, j - 1);
    }
  }

  /** A stored address: it lies in the stored part of a block. */
  predicate StoredIn(b: Block, f: Filter, addr: nat) {
    !OutOfRange(b, f) && From(b, f) <= addr < From(b, f) + SizeIn(b, f)
  }

  /** What is stored is what is asked for. */
  lemma StoredAsked(b: Block, f: Filter, addr: nat)
    ensures StoredIn(b, f, addr) <==> Asked(b, f, addr)
  {}

  lemma {:induction false} SelectedPart(b: Block, f: Filter, n: nat)
    requires n <= |b.data|
    ensures Selected(b, f, n) ==
      if OutOfRange(b, f) then []
      else Part(b.data, Min(From(b, f) - b.start, n), Min(From(b, f) - b.start + SizeIn(b, f), n))
  {
    if n > 0 {
      SelectedPart(b, f, n - 1);
      StoredAsked(b, f, b.start + (n - 1));
    }
  }

  lemma SelectedRun(b: Block, f: Filter)
    ensures Run(b, f) == Selected(b, f, |b.data|)
  {
    SelectedPart(b, f, |b.data|);
  }

  lemma {:induction false} StoredImage(blocks: seq<Block>, f: Filter, i: nat)
    requires i <= |blocks|
    ensures Stored(blocks, f, i) == Image(blocks, f, i)
  {
    if i > 0 {
      StoredImage(blocks, f, i - 1);
      SelectedRun(blocks[i - 1], f);
    }
  }

  /** Where an address range is in the file: nowhere, or from an offset on for some bytes. */
  datatype Range = Nowhere | Range(offset: nat, filesz: nat)

  /** get_offset_range */
  method GetOffsetRange(blocks: seq<Block>, f: Filter, memoryOffset: nat, addr: nat, length: nat) returns (r: Range)
    ensures r.Nowhere? <==> forall i | 0 <= i < |blocks| :: !Asked(blocks[i], f, addr)
    ensures r.Range? ==> exists i :: 0 <= i < |blocks| && Locates(blocks, f, memoryOffset, addr, length, r, i)
  {
    var offset := memoryOffset;
    if f.Only? && (addr < f.begin || addr >= f.End()) {
      return Nowhere;
    }
    forall i | 0 <= i < |blocks| {
      StoredAsked(blocks[i], f, addr);
    }
    for i := 0 to |blocks|
      invariant offset == memoryOffset + Offset(blocks, f, i)
      invariant forall j | 0 <= j < i :: !StoredIn(blocks[j], f, addr)
    {
      var block := blocks[i];
      if f.Only? && (block.start >= f.End() || block.End() <= f.begin) {
        continue;
      }
      var start := if f.Only? && f.begin > block.start then f.begin else block.start;
      var sizeInBlock := block.End() - start;
      if f.Only? && f.End() < block.End() {
        sizeInBlock := sizeInBlock - (block.End() - f.End());
      }
      if start <= addr < start + sizeInBlock {
        var filesz := if addr + length <= start + sizeInBlock then length else sizeInBlock - (addr - start);
        r := Range(addr - start + offset, filesz);
        LocatesRun(blocks, f, memoryOffset, addr, length, r, i);
        return;
      }
      offset := offset + sizeInBlock;
    }
    r := Nowhere;
  }

  /** From an address on so many bytes are asked for, up to the length wanted. */
  ghost predicate Reaches(b: Block, f: Filter, addr: nat, length: nat, n: nat) {
    && n <= length && addr + n <= b.End() && (forall x | addr <= x < addr + n :: Asked(b, f, x))
    && (n < length ==> !Asked(b, f, addr + n))
  }

  lemma RunReaches(b: Block, f: Filter, addr: nat, length: nat)
    requires StoredIn(b, f, addr)
    ensures Reaches(b, f, addr, length, Min(length, From(b, f) + SizeIn(b, f) - addr))
  {}

  /** A range in an image is the contents of a block from the address on, within lo..hi: as many bytes as
      wanted, or all that are asked for from there on. */
  ghost predicate Holds(b: Block, f: Filter, addr: nat, length: nat, image: seq<Byte>, lo: nat, hi: nat, at: int,
                        n: nat) {
    && Asked(b, f, addr) && Reaches(b, f, addr, length, n) && lo <= at && at + n <= hi
    && At(image, at, Part(b.data, addr - b.start, addr - b.start + n))
  }

  /** The range of the file is the contents of block i. */
  ghost predicate Locates(blocks: seq<Block>, f: Filter, memoryOffset: nat, addr: nat, length: nat, r: Range, i: nat)
    requires r.Range? && i < |blocks|
  {
    Holds(blocks[i], f, addr, length, Image(blocks, f, |blocks|), Before(blocks, f, i), Before(blocks, f, i + 1),
          r.offset - memoryOffset, r.filesz)
  }

  lemma HoldsRun(b: Block, f: Filter, addr: nat, length: nat, image: seq<Byte>, lo: nat, hi: nat, at: int, n: nat)
    requires StoredIn(b, f, addr) && At(image, lo, Run(b, f)) && hi == lo + SizeIn(b, f)
    requires at == lo + (addr - From(b, f)) && n == Min(length, From(b, f) + SizeIn(b, f) - addr)
    ensures Holds(b, f, addr, length, image, lo, hi, at, n)
  {
    RunReaches(b, f, addr, length);
    RunFrom(image, lo, b, f, addr, n);
  }

  lemma LocatesRun(blocks: seq<Block>, f: Filter, memoryOffset: nat, addr: nat, length: nat, r: Range, i: nat)
    requires i < |blocks| && StoredIn(blocks[i], f, addr)
    requires r == Range(addr - From(blocks[i], f) + memoryOffset + Offset(blocks, f, i),
                        Min(length, From(blocks[i], f) + SizeIn(blocks[i], f) - addr))
    ensures Locates(blocks, f, memoryOffset, addr, length, r, i)
  {
    BeforeOffset(blocks, f, i);
    BeforeOffset(blocks, f, i + 1);
    ImageRun(blocks, f, i, |blocks|);
    HoldsRun(blocks[i], f, addr, length, Image(blocks, f, |blocks|), Before(blocks, f, i), Before(blocks, f, i + 1),
             r.offset - memoryOffset, r.filesz);
  }

  lemma {:induction false} BeforeOffset(blocks: seq<Block>, f: Filter, i: nat)
    requires i <= |blocks|
    ensures Before(blocks, f, i) == Offset(blocks, f, i)
  {
    if i > 0 {
      BeforeOffset(blocks, f, i - 1);
      SelectedRun(blocks[i - 1], f);
    }
  }

  lemma ImageRun(blocks: seq<Block>, f: Filter, i: nat, n: nat)
    requires i < |blocks| && n == |blocks|
    ensures At(Image(blocks, f, n), Offset(blocks, f, i), Run(blocks[i], f))
  {
    StoredRun(blocks, f, i, n);
    StoredImage(blocks, f, n);
  }

  lemma RunFrom(s: seq<Byte>, at: nat, b: Block, f: Filter, addr: nat, n: nat)
    requires StoredIn(b, f, addr) && addr + n <= From(b, f) + SizeIn(b, f) && At(s, at, Run(b, f))
    ensures At(s, at + (addr - From(b, f)), Part(b.data, addr - b.start, addr - b.start + n))
  {
    PartOfRun(s, at, b.data, From(b, f) - b.start, SizeIn(b, f), addr - From(b, f), n);
  }

  lemma PartOfRun(s: seq<Byte>, at: nat, data: seq<Byte>, from: nat, size: nat, skip: nat, n: nat)
    requires from + size <= |data| && skip + n <= size && At(s, at, Part(data, from, from + size))
    ensures At(s, at + skip, Part(data, from + skip, from + skip + n))
  {
    var run, part := Part(data, from, from + size), Part(data, from + skip, from + skip + n);
    forall k | 0 <= k < n ensures s[at + skip + k] == part[k] {
      assert s[at + (skip + k)] == run[skip + k];
    }
  }

  // ---------------------------------------------------------------- writing

  class Dump {
    const blocks: seq<Block>
    const filter: Filter
    /** The next block and where in it to start. */
    var next: nat
    var start: nat
    /** The memory part of the file. */
    var out: seq<Byte>

    constructor (blocks: seq<Block>, filter: Filter)
      ensures this.blocks == blocks && this.filter == filter && out == []
    {
      this.blocks, this.filter, next, start, out := blocks, filter, 0, 0, [];
    }

    /** write_memory: page by page, then the rest. */
    method WriteMemory(b: Block, from: nat, size: nat)
      requires from + size <= |b.data|
      modifies `out
      ensures out == old(out) + Part(b.data, from, from + size)
    {
      var i := 0;
      while i < size / PAGE
        invariant 0 <= i <= size / PAGE
        invariant out == old(out) + Part(b.data, from, from + i * PAGE)
      {
        PartSplit(b.data, from, from + i * PAGE, from + (i + 1) * PAGE);
        out := out + Part(b.data, from + i * PAGE, from + (i + 1) * PAGE);
        i := i + 1;
      }
      if size % PAGE != 0 {
        PartSplit(b.data, from, from + i * PAGE, from + size);
        out := out + Part(b.data, from + i * PAGE, from + size);
      }
    }

    /** The blocks from the next one on are still to be written. */
    ghost predicate Pending()
      reads `next, `start
    {
      next < |blocks| && !OutOfRange(blocks[next], filter) && start == From(blocks[next], filter) - blocks[next].start
    }

    /** get_start_block: false if the filter leaves nothing. */
    method GetStartBlock() returns (ok: bool)
      requires |blocks| > 0
      modifies `next, `start
      ensures ok ==> Pending() && Image(blocks, filter, next) == []
      ensures !ok ==> Image(blocks, filter, |blocks|) == []
      ensures !ok ==> forall j | 0 <= j < |blocks| :: OutOfRange(blocks[j], filter)
    {
      if filter.All? {
        next, start := 0, 0;
        StoredImage(blocks, filter, 0);
        return true;
      }
      ok := FindInRange(0);
      StoredSkip(blocks, filter, 0, if ok then next else |blocks|);
      StoredImage(blocks, filter, if ok then next else |blocks|);
    }

    /** The first block from i on that is in range. */
    method FindInRange(i: nat) returns (ok: bool)
      requires i <= |blocks|
      modifies `next, `start
      ensures ok ==> i <= next && Pending()
      ensures forall j | i <= j < (if ok then next else |blocks|) :: OutOfRange(blocks[j], filter)
    {
      var j := i;
      while j < |blocks|
        invariant i <= j <= |blocks|
        invariant forall k | i <= k < j :: OutOfRange(blocks[k], filter)
      {
        var b := blocks[j];
        if !(filter.Only? && (b.start >= filter.End() || b.End() <= filter.begin)) {
          next := j;
          start := if filter.Only? && filter.begin > b.start then filter.begin - b.start else 0;
          return true;
        }
        j := j + 1;
      }
      ok := false;
    }

    /** The stored part of the next block is written. */
    method WriteNext()
      requires Pending()
      modifies `out
      ensures out == old(out) + Run(blocks[next], filter)
    {
      var b := blocks[next];
      var size := |b.data|;
      if filter.Only? {
        size := size - start;
        if filter.End() < b.End() {
          size := size - (b.End() - filter.End());
        }
      }
      WriteMemory(b, start, size);
    }

    /** dump_iterate: every stored byte is written, in order. */
    method Iterate()
      requires Pending() && out == [] && Image(blocks, filter, next) == []
      modifies this
      ensures out == Image(blocks, filter, |blocks|)
    {
      StoredImage(blocks, filter, next);
      StoredImage(blocks, filter, |blocks|);
      while true
        invariant next <= |blocks| && Pending() && out == Stored(blocks, filter, next)
        decreases |blocks| - next
      {
        WriteNext();
        ghost var was := next;
        var more := FindInRange(next + 1);
        StoredSkip(blocks, filter, was + 1, if more then next else |blocks|);
        if !more {
          return;
        }
      }
    }
  }

  lemma PartSplit(s: seq<Byte>, i: nat, j: nat, k: nat)
    requires i <= j <= k <= |s|
    ensures Part(s, i, j) + Part(s, j, k) == Part(s, i, k)
  {}
}
