/**
 The kdump-compressed file (dump.c 883-889, 1125-1177, 1274-1505, 1621-1625): header and notes,
 two bitmaps, one descriptor for each page, and the data of the pages.
 */
module Kdump {
  import opened Common
  import opened Bytes
  import opened KdumpFile
  import opened KdumpBitmap

  const DESC_SIZE: nat := 24
  const BUFSIZE_DATA_CACHE: nat := 16384

  // ---------------------------------------------------------------- the bitmaps

  /** The last page frame number, and one more. */
  function MaxMapnr(blocks: seq<Block>): nat
    requires |blocks| > 0
  {
    blocks[|blocks| - 1].End()
  }

  /** The length of a bitmap: whole pages of bits for that many pages. */
  function BitmapLength(blocks: seq<Block>): (r: nat)
    requires Sorted(blocks)
    ensures r % PAGE == 0 && 8 * r - PFN_BUFBITMAP < MaxMapnr(blocks) <= 8 * r
  {
    var bytes := (MaxMapnr(blocks) + 7) / 8;
    (bytes + PAGE - 1) / PAGE * PAGE
  }

  lemma {:induction false} TotalGrows(blocks: seq<Block>, i: nat, j: nat)
    requires i <= j <= |blocks|
    ensures Total(blocks, i) <= Total(blocks, j)
    decreases j - i
  {
    if i < j { TotalGrows(blocks, i, j - 1); }
  }

  lemma BelowMax(blocks: seq<Block>, it: Iter)
    requires Sorted(blocks) && IterOk(blocks, it) && it.Page?
    ensures it.pfn < MaxMapnr(blocks)
  {
    if it.block < |blocks| - 1 {
      assert blocks[it.block].End() <= blocks[|blocks| - 1].start;
    }
  }

  /** The walk has come from prev to the next page, and everything up to prev is marked. */
  ghost predicate Marking(m: Bitmaps, blocks: seq<Block>, prev: Iter, last: nat)
    reads m, m.out
  {
    && m.Valid() && Sorted(blocks) && MaxMapnr(blocks) <= |m.bits|
    && IterOk(blocks, prev) && !prev.Done? && last == (if prev.Page? then prev.pfn else 0)
    && last < |m.bits| && last / PFN_BUFBITMAP == m.chunk
    && forall n: nat | n < |m.bits| :: m.bits[n] == Reached(blocks, prev, n)
  }

  method MarkPage(m: Bitmaps, blocks: seq<Block>, prev: Iter, last: nat)
    requires Marking(m, blocks, prev, last) && Next(blocks, prev).Page?
    modifies m, m.out
    ensures Marking(m, blocks, Next(blocks, prev), Next(blocks, prev).pfn)
    ensures Outside(old(m.out.file), m.out.file, m.base, m.base + 2 * m.len)
  {
    BelowMax(blocks, Next(blocks, prev));
    NextStep(blocks, prev);
    m.Set(last, Next(blocks, prev).pfn, true);
  }

  /** write_dump_bitmap: in both bitmaps exactly the pages that exist are marked. */
  method WriteDumpBitmap(blocks: seq<Block>, out: Output, base: nat) returns (dumpable: nat)
    requires Sorted(blocks)
    modifies out
    ensures dumpable == Total(blocks, |blocks|)
    ensures Outside(old(out.file), out.file, base, base + 2 * BitmapLength(blocks))
    ensures Marks(out.file, base, blocks, 8 * BitmapLength(blocks))
    ensures Marks(out.file, base + BitmapLength(blocks), blocks, 8 * BitmapLength(blocks))
  {
    var len := BitmapLength(blocks);
    var bitmaps := new Bitmaps(out, base, len);
    var prev, last: nat := Begin, 0;
    dumpable := 0;
    NextStep(blocks, Begin);
    while Next(blocks, prev).Page?
      invariant fresh(bitmaps) && bitmaps.out == out && bitmaps.base == base && bitmaps.len == len
      invariant Marking(bitmaps, blocks, prev, last) && dumpable == Rank(blocks, Next(blocks, prev))
      invariant Outside(old(out.file), out.file, base, base + 2 * len)
      decreases Total(blocks, |blocks|) - dumpable
    {
      ghost var before := out.file;
      MarkPage(bitmaps, blocks, prev, last);
      OutsideTrans(old(out.file), before, out.file, base, base + 2 * len);
      prev := Next(blocks, prev);
      last := prev.pfn;
      dumpable := dumpable + 1;
      PageOfRank(blocks, prev, |blocks|);
      NextStep(blocks, prev);
    }
    ghost var before := out.file;
    FinishMarks(bitmaps, blocks, prev, last);
    OutsideTrans(old(out.file), before, out.file, base, base + 2 * len);
  }

  /** The last buffer is written out. */
  method FinishMarks(m: Bitmaps, blocks: seq<Block>, ghost prev: Iter, last: nat)
    requires Marking(m, blocks, prev, last) && Next(blocks, prev).Done? && m.len == BitmapLength(blocks)
    modifies m, m.out
    ensures Outside(old(m.out.file), m.out.file, m.base, m.base + 2 * m.len)
    ensures Marks(m.out.file, m.base, blocks, 8 * m.len) && Marks(m.out.file, m.base + m.len, blocks, 8 * m.len)
  {
    LastOne(blocks, prev);
    m.Set(last, last + PFN_BUFBITMAP, false);
    assert 8 * m.len == PFN_BUFBITMAP * m.chunk;
  }

  /** Bit n of the bitmap tells whether page n exists. */
  ghost predicate Marks(f: File, base: nat, blocks: seq<Block>, size: nat) {
    forall n: nat | n < size :: BitOf(f, base, n) <==> Exists(blocks, n)
  }

  /** The walk ends at the last page of the last block, when every page has been reached. */
  lemma LastOne(blocks: seq<Block>, it: Iter)
    requires Sorted(blocks) && IterOk(blocks, it) && !it.Done? && Next(blocks, it).Done?
    ensures it.Page? && it.pfn + 1 == MaxMapnr(blocks)
    ensures forall n: nat :: Reached(blocks, it, n) <==> Exists(blocks, n)
  {
    NextStep(blocks, it);
  }

  // ---------------------------------------------------------------- the pages

  const TWO32: nat := 0x1_0000_0000
  const TWO64: nat := 0x1_0000_0000_0000_0000

  datatype Desc = Desc(offset: nat, size: nat, flags: nat)

  /** A descriptor as it stands in the file: offset, size, flags, and page flags that are not used. */
  function DescBytes(d: Desc): (r: seq<Byte>)
    ensures |r| == DESC_SIZE
  {
    seq(DESC_SIZE, k requires 0 <= k < DESC_SIZE => DescByte(d, k))
  }

  function DescByte(d: Desc, k: nat): Byte {
    if k < 8 then Be(d.offset, 8)[k]
    else if k < 12 then Be(d.size, 4)[k - 8]
    else if k < 16 then Be(d.flags, 4)[k - 12]
    else 0
  }

  lemma FieldAt(s: seq<Byte>, i: nat, x: seq<Byte>, from: nat, field: seq<Byte>)
    requires At(s, i, x) && from + |field| <= |x| && forall k | 0 <= k < |field| :: x[from + k] == field[k]
    ensures At(s, i + from, field)
  {
    forall k | 0 <= k < |field| ensures s[i + from + k] == field[k] {
      assert s[i + (from + k)] == x[from + k];
    }
  }

  /** The descriptor can be read back. */
  lemma DescRoundTrip(s: seq<Byte>, i: nat, d: Desc)
    requires At(s, i, DescBytes(d)) && d.offset < TWO64 && d.size < TWO32 && d.flags < TWO32
    ensures UnBe(s, i, 8) == d.offset && UnBe(s, i + 8, 4) == d.size && UnBe(s, i + 12, 4) == d.flags
  {
    FieldAt(s, i, DescBytes(d), 0, Be(d.offset, 8));
    FieldAt(s, i, DescBytes(d), 8, Be(d.size, 4));
    FieldAt(s, i, DescBytes(d), 12, Be(d.flags, 4));
    Pow256Values();
    BeRoundTrip(s, i, d.offset, 8);
    BeRoundTrip(s, i + 8, d.size, 4);
    BeRoundTrip(s, i + 12, d.flags, 4);
  }

  function ZeroPage(): (r: seq<Byte>)
    ensures |r| == PAGE
  {
    seq(PAGE, _ => 0)
  }

  /** A compression: it may fail, and is only used if it makes the page smaller. */
  type Compressor = seq<Byte> -> Option<seq<Byte>>

  predicate Shrinks(compress: Compressor, page: seq<Byte>) {
    compress(page).Some? && |compress(page).value| < PAGE
  }

  /** How a page is stored: all zero pages share one, others are compressed if that helps. */
  function Content(page: seq<Byte>, compress: Compressor): (r: seq<Byte>)
    requires |page| == PAGE
    ensures |r| <= PAGE
  {
    if page != ZeroPage() && Shrinks(compress, page) then compress(page).value else page
  }

  function Flags(page: seq<Byte>, compress: Compressor, flag: nat): nat {
    if page != ZeroPage() && Shrinks(compress, page) then flag else 0
  }

  /** How a page must be described: all pages of zeros by one copy, a page that gets smaller compressed, and
      any other as it is. */
  ghost predicate StoredAs(d: Desc, page: seq<Byte>, compress: Compressor, flag: nat, zeroAt: nat) {
    if forall k | 0 <= k < |page| :: page[k] == 0 then d == Desc(zeroAt, PAGE, 0)
    else if compress(page).Some? && |compress(page).value| < PAGE then
      d.size == |compress(page).value| && d.flags == flag
    else d.size == PAGE && d.flags == 0
  }

  lemma ContentStored(d: Desc, page: seq<Byte>, compress: Compressor, flag: nat, zeroAt: nat)
    requires |page| == PAGE && d.size == |Content(page, compress)| && d.flags == Flags(page, compress, flag)
    requires page == ZeroPage() ==> d.offset == zeroAt
    ensures StoredAs(d, page, compress, flag, zeroAt)
  {
    if forall k | 0 <= k < |page| :: page[k] == 0 {
      assert page == ZeroPage();
    }
  }

  ghost predicate Paged(blocks: seq<Block>) {
    forall i, k | 0 <= i < |blocks| && 0 <= k < |blocks[i].pages| :: |blocks[i].pages[k]| == PAGE
  }

  function PageAt(blocks: seq<Block>, it: Iter): seq<Byte>
    requires it.Page? && it.block < |blocks| && Inside(blocks[it.block], it.pfn)
  {
    blocks[it.block].pages[it.pfn - blocks[it.block].start]
  }

  /** The page of rank q. */
  function PageOf(blocks: seq<Block>, i: nat, q: nat): seq<Byte>
    requires i <= |blocks| && q < Total(blocks, i)
  {
    if q >= Total(blocks, i - 1) then blocks[i - 1].pages[q - Total(blocks, i - 1)] else PageOf(blocks, i - 1, q)
  }

  lemma {:induction false} PageOfRank(blocks: seq<Block>, it: Iter, i: nat)
    requires IterOk(blocks, it) && it.Page? && it.block < i <= |blocks|
    ensures Rank(blocks, it) < Total(blocks, i) && PageOf(blocks, i, Rank(blocks, it)) == PageAt(blocks, it)
    decreases i
  {
    if it.block < i - 1 {
      PageOfRank(blocks, it, i - 1);
    }
  }

  /** The descriptor of rank q says where and how the page is stored. */
  ghost predicate Describes(desc: seq<Byte>, data: seq<Byte>, dataBase: nat, q: nat, d: Desc, page: seq<Byte>,
                            compress: Compressor, flag: nat)
  {
    && |page| == PAGE && At(desc, DESC_SIZE * q, DescBytes(d)) && dataBase <= d.offset
    && (page == ZeroPage() ==> d.offset == dataBase)
    && At(data, d.offset - dataBase, Content(page, compress))
    && d.size == |Content(page, compress)| && d.flags == Flags(page, compress, flag)
  }

  lemma DescribesMore(desc: seq<Byte>, data: seq<Byte>, desc': seq<Byte>, data': seq<Byte>, dataBase: nat, q: nat,
                      d: Desc, page: seq<Byte>, compress: Compressor, flag: nat)
    requires Describes(desc, data, dataBase, q, d, page, compress, flag) && At(desc', 0, desc) && At(data', 0, data)
    ensures Describes(desc', data', dataBase, q, d, page, compress, flag)
  {
    AtExtend(desc, desc', DESC_SIZE * q, DescBytes(d));
    AtExtend(data, data', d.offset - dataBase, Content(page, compress));
  }

  /** The first pages are described, and the zero page comes first in the data. */
  ghost predicate Written(desc: seq<Byte>, data: seq<Byte>, dataBase: nat, blocks: seq<Block>, descs: seq<Desc>,
                          compress: Compressor, flag: nat) {
    && |descs| <= Total(blocks, |blocks|) && |desc| == DESC_SIZE * |descs| && At(data, 0, ZeroPage())
    && forall q | 0 <= q < |descs| ::
         Describes(desc, data, dataBase, q, descs[q], PageOf(blocks, |blocks|, q), compress, flag)
  }

  /** One more page. */
  lemma WrittenMore(desc: seq<Byte>, data: seq<Byte>, desc': seq<Byte>, data': seq<Byte>, dataBase: nat,
                    blocks: seq<Block>, descs: seq<Desc>, compress: Compressor, flag: nat, d: Desc)
    requires Written(desc, data, dataBase, blocks, descs, compress, flag) && |descs| < Total(blocks, |blocks|)
    requires At(desc', 0, desc) && At(data', 0, data) && |desc'| == |desc| + DESC_SIZE
    requires Describes(desc', data', dataBase, |descs|, d, PageOf(blocks, |blocks|, |descs|), compress, flag)
    ensures Written(desc', data', dataBase, blocks, descs + [d], compress, flag)
  {
    AtExtend(data, data', 0, ZeroPage());
    var descs' := descs + [d];
    forall q | 0 <= q < |descs'|
      ensures Describes(desc', data', dataBase, q, descs'[q], PageOf(blocks, |blocks|, q), compress, flag)
    {
      if q < |descs| {
        assert descs'[q] == descs[q];
        DescribesMore(desc, data, desc', data', dataBase, q, descs[q], PageOf(blocks, |blocks|, q), compress, flag);
      }
    }
  }

  /** A zero page gets a descriptor of the shared one, any other page its own data. */
  method PutPage(w: PageWriter, page: seq<Byte>, zeroAt: nat, offsetData: nat, compress: Compressor, flag: nat,
                 ghost blocks: seq<Block>, ghost descs: seq<Desc>) returns (next: nat, ghost d: Desc)
    requires w.Valid() && w.desc.size == w.data.size == BUFSIZE_DATA_CACHE
    requires zeroAt == w.data.base && offsetData == w.data.base + |w.data.All()|
    requires Written(w.desc.All(), w.data.All(), w.data.base, blocks, descs, compress, flag)
    requires |descs| < Total(blocks, |blocks|) && w.desc.base + DESC_SIZE * Total(blocks, |blocks|) <= w.data.base
    requires page == PageOf(blocks, |blocks|, |descs|) && |page| == PAGE
    modifies w.desc, w.data, w.out
    ensures w.Valid() && offsetData <= next == w.data.base + |w.data.All()| <= offsetData + PAGE
    ensures Written(w.desc.All(), w.data.All(), w.data.base, blocks, descs + [d], compress, flag)
    ensures Outside(old(w.out.file), w.out.file, w.desc.base, next)
  {
    ghost var desc0, data0, file0 := w.desc.All(), w.data.All(), w.out.file;
    if page == ZeroPage() {
      d := Desc(zeroAt, PAGE, 0);
      w.PutDesc(DescBytes(Desc(zeroAt, PAGE, 0)));
      next := offsetData;
      ZeroDescribed(desc0, w.desc.All(), data0, w.data.base, |descs|, d, page, compress, flag);
      WrittenMore(desc0, data0, w.desc.All(), w.data.All(), w.data.base, blocks, descs, compress, flag, d);
    } else {
      var content := Content(page, compress);
      w.PutData(content);
      ghost var mid := w.out.file;
      d := Desc(offsetData, |content|, Flags(page, compress, flag));
      w.PutDesc(DescBytes(Desc(offsetData, |content|, Flags(page, compress, flag))));
      next := offsetData + |content|;
      PageDescribed(desc0, data0, w.desc.All(), w.data.All(), w.data.base, |descs|, d, page, compress, flag);
      WrittenMore(desc0, data0, w.desc.All(), w.data.All(), w.data.base, blocks, descs, compress, flag, d);
      OutsideTrans(file0, mid, w.out.file, w.desc.base, next);
    }
  }

  lemma DescAppended(desc: seq<Byte>, desc': seq<Byte>, q: nat, d: seq<Byte>)
    requires |desc| == DESC_SIZE * q && desc' == desc + d
    ensures At(desc', 0, desc) && At(desc', DESC_SIZE * q, d)
  {
    AtAppend(desc, d);
  }

  lemma ZeroDescribed(desc: seq<Byte>, desc': seq<Byte>, data: seq<Byte>, dataBase: nat, q: nat, d: Desc,
                      page: seq<Byte>, compress: Compressor, flag: nat)
    requires |desc| == DESC_SIZE * q && page == ZeroPage() && At(data, 0, page)
    requires d.offset == dataBase && d.size == PAGE && d.flags == 0 && desc' == desc + DescBytes(d)
    ensures At(desc', 0, desc) && At(data, 0, data) && Describes(desc', data, dataBase, q, d, page, compress, flag)
  {
    DescAppended(desc, desc', q, DescBytes(d));
  }

  lemma PageDescribed(desc: seq<Byte>, data: seq<Byte>, desc': seq<Byte>, data': seq<Byte>, dataBase: nat, q: nat,
                      d: Desc, page: seq<Byte>, compress: Compressor, flag: nat)
    requires |desc| == DESC_SIZE * q && |page| == PAGE && page != ZeroPage()
    requires d == Desc(dataBase + |data|, |Content(page, compress)|, Flags(page, compress, flag))
    requires desc' == desc + DescBytes(d) && data' == data + Content(page, compress)
    ensures At(desc', 0, desc) && At(data', 0, data) && Describes(desc', data', dataBase, q, d, page, compress, flag)
  {
    DescAppended(desc, desc', q, DescBytes(d));
    AtAppend(data, Content(page, compress));
  }

  /** In the file, the descriptor of rank q says where and how the page is stored. */
  ghost predicate Located(f: File, base: nat, q: nat, d: Desc, page: seq<Byte>, compress: Compressor, flag: nat)
  {
    && |page| == PAGE && Holds(f, base + DESC_SIZE * q, DescBytes(d)) && Holds(f, d.offset, Content(page, compress))
    && d.size == |Content(page, compress)| && d.flags == Flags(page, compress, flag)
  }

  lemma DescribedLocated(f: File, base: nat, desc: seq<Byte>, data: seq<Byte>, dataBase: nat, q: nat, d: Desc,
                         page: seq<Byte>, compress: Compressor, flag: nat)
    requires Describes(desc, data, dataBase, q, d, page, compress, flag) && Holds(f, base, desc)
    requires Holds(f, dataBase, data)
    ensures Located(f, base, q, d, page, compress, flag)
  {
    DescFound(f, base, desc, DESC_SIZE * q, d);
    DataFound(f, dataBase, data, d.offset, Content(page, compress));
  }

  lemma DescFound(f: File, base: nat, desc: seq<Byte>, i: nat, d: Desc)
    requires Holds(f, base, desc) && At(desc, i, DescBytes(d))
    ensures Holds(f, base + i, DescBytes(d))
  {
    HoldsPart(f, base, desc, i, DescBytes(d));
  }

  lemma DataFound(f: File, dataBase: nat, data: seq<Byte>, offset: nat, content: seq<Byte>)
    requires Holds(f, dataBase, data) && dataBase <= offset && At(data, offset - dataBase, content)
    ensures Holds(f, offset, content)
  {
    HoldsPart(f, dataBase, data, offset - dataBase, content);
  }

  /** The page at a place of the walk is described next. */
  ghost predicate Walking(w: PageWriter, blocks: seq<Block>, it: Iter, descs: seq<Desc>, compress: Compressor,
                          flag: nat)
    reads w, w.desc, w.data, w.out
  {
    && w.Valid() && w.desc.size == w.data.size == BUFSIZE_DATA_CACHE
    && Sorted(blocks) && Paged(blocks) && w.desc.base + DESC_SIZE * Total(blocks, |blocks|) == w.data.base
    && IterOk(blocks, it) && !it.Begin? && |descs| == Rank(blocks, it)
    && Written(w.desc.All(), w.data.All(), w.data.base, blocks, descs, compress, flag)
    && |w.data.All()| <= PAGE * (1 + |descs|)
  }

  method PutNext(w: PageWriter, blocks: seq<Block>, it: Iter, zeroAt: nat, offsetData: nat, compress: Compressor,
                 flag: nat, ghost descs: seq<Desc>)
    returns (next: nat, ghost d: Desc)
    requires Walking(w, blocks, it, descs, compress, flag) && it.Page?
    requires zeroAt == w.data.base && offsetData == w.data.base + |w.data.All()|
    modifies w.desc, w.data, w.out
    ensures Walking(w, blocks, Next(blocks, it), descs + [d], compress, flag)
    ensures offsetData <= next == w.data.base + |w.data.All()|
    ensures Outside(old(w.out.file), w.out.file, w.desc.base, next)
  {
    PageOfRank(blocks, it, |blocks|);
    next, d := PutPage(w, PageAt(blocks, it), zeroAt, offsetData, compress, flag, blocks, descs);
    NextStep(blocks, it);
  }

  /** The loop of write_dump_pages. */
  method PutAll(w: PageWriter, blocks: seq<Block>, zeroAt: nat, start: nat, compress: Compressor, flag: nat)
    returns (ghost descs: seq<Desc>)
    requires Sorted(blocks) && Walking(w, blocks, Next(blocks, Begin), [], compress, flag)
    requires zeroAt == w.data.base && start == w.data.base + |w.data.All()|
    modifies w.desc, w.data, w.out
    ensures Walking(w, blocks, Done, descs, compress, flag)
    ensures Outside(old(w.out.file), w.out.file, w.desc.base, w.data.base + |w.data.All()|)
  {
    var offsetData := start;
    var it := Next(blocks, Begin);
    descs := [];
    while it.Page?
      invariant Walking(w, blocks, it, descs, compress, flag) && offsetData == w.data.base + |w.data.All()|
      invariant Outside(old(w.out.file), w.out.file, w.desc.base, offsetData)
      decreases Total(blocks, |blocks|) - |descs|, it.Page?
    {
      ghost var before, was := w.out.file, offsetData;
      ghost var d;
      offsetData, d := PutNext(w, blocks, it, zeroAt, offsetData, compress, flag, descs);
      OutsideWiden(old(w.out.file), before, w.desc.base, was, w.desc.base, offsetData);
      OutsideTrans(old(w.out.file), before, w.out.file, w.desc.base, offsetData);
      descs := descs + [d];
      it := Next(blocks, it);
    }
  }

  /** write_dump_pages: the descriptors stand one after the other, in the order of the pages, and
      each of them tells where the page is. */
  method WriteDumpPages(blocks: seq<Block>, out: Output, offsetPage: nat, dumpable: nat, compress: Compressor,
                        flag: nat)
    returns (ghost descs: seq<Desc>, ghost end: nat)
    requires Sorted(blocks) && Paged(blocks) && dumpable == Total(blocks, |blocks|)
    modifies out
    ensures |descs| == Total(blocks, |blocks|) && Outside(old(out.file), out.file, offsetPage, end)
    ensures end <= offsetPage + (DESC_SIZE + PAGE) * |descs| + PAGE
    ensures forall q | 0 <= q < |descs| :: descs[q].offset <= end
    ensures forall q | 0 <= q < |descs| && PageOf(blocks, |blocks|, q) == ZeroPage() ::
      descs[q].offset == offsetPage + DESC_SIZE * Total(blocks, |blocks|)
    ensures forall q | 0 <= q < |descs| ::
              Located(out.file, offsetPage, q, descs[q], PageOf(blocks, |blocks|, q), compress, flag)
  {
    var offsetData := offsetPage + DESC_SIZE * dumpable;
    var w := new PageWriter(out, offsetPage, offsetData, BUFSIZE_DATA_CACHE);
    w.PutData(ZeroPage());
    assert w.data.All() == ZeroPage();
    NextStep(blocks, Begin);
    ghost var file1 := out.file;
    descs := PutAll(w, blocks, offsetData, offsetData + PAGE, compress, flag);
    end := w.data.base + |w.data.All()|;
    ghost var desc, data, file2 := w.desc.All(), w.data.All(), out.file;
    w.Sync();
    OutsideWiden(old(out.file), file1, offsetPage, offsetData + PAGE, offsetPage, end);
    OutsideTrans(old(out.file), file1, file2, offsetPage, end);
    OutsideTrans(old(out.file), file2, out.file, offsetPage, end);
    forall q | 0 <= q < |descs|
      ensures Located(out.file, offsetPage, q, descs[q], PageOf(blocks, |blocks|, q), compress, flag)
    {
      var page := PageOf(blocks, |blocks|, q);
      DescribedLocated(out.file, offsetPage, desc, data, w.data.base, q, descs[q], page, compress, flag);
    }
  }

  // ---------------------------------------------------------------- the rank of a page

  /** The number of set bits below n, as a reader of the file counts them. */
  function CountBits(f: File, base: nat, n: nat): nat {
    if n == 0 then 0 else CountBits(f, base, n - 1) + Bit(BitOf(f, base, n - 1))
  }

  /** The number of pages of a block below n. */
  function PagesBelow(b: Block, n: nat): nat {
    if n <= b.start then 0 else if n >= b.End() then |b.pages| else n - b.start
  }

  function Below(blocks: seq<Block>, i: nat, n: nat): nat
    requires i <= |blocks|
  {
    if i == 0 then 0 else Below(blocks, i - 1, n) + PagesBelow(blocks[i - 1], n)
  }

  lemma {:induction false} BelowStep(blocks: seq<Block>, i: nat, n: nat)
    requires Sorted(blocks) && i <= |blocks|
    ensures Below(blocks, i, n + 1)
         == Below(blocks, i, n) + (if exists j :: 0 <= j < i && Inside(blocks[j], n) then 1 else 0)
    decreases i
  {
    if i > 0 {
      BelowStep(blocks, i - 1, n);
      if Inside(blocks[i - 1], n) {
        forall j | 0 <= j < i - 1 ensures !Inside(blocks[j], n) {
          assert blocks[j].End() <= blocks[i - 1].start;
        }
      }
    }
  }

  lemma {:induction false} BelowZero(blocks: seq<Block>, i: nat)
    requires i <= |blocks|
    ensures Below(blocks, i, 0) == 0
  {
    if i > 0 { BelowZero(blocks, i - 1); }
  }

  lemma {:induction false} CountIsBelow(f: File, base: nat, blocks: seq<Block>, size: nat, n: nat)
    requires Sorted(blocks) && Marks(f, base, blocks, size) && n <= size
    ensures CountBits(f, base, n) == Below(blocks, |blocks|, n)
    decreases n
  {
    if n == 0 {
      BelowZero(blocks, |blocks|);
    } else {
      CountIsBelow(f, base, blocks, size, n - 1);
      BelowStep(blocks, |blocks|, n - 1);
    }
  }

  lemma {:induction false} BelowIsRank(blocks: seq<Block>, it: Iter, i: nat)
    requires Sorted(blocks) && IterOk(blocks, it) && it.Page? && i <= |blocks|
    ensures Below(blocks, i, it.pfn) == if i <= it.block then Total(blocks, i) else Rank(blocks, it)
    decreases i
  {
    if i > 0 {
      BelowIsRank(blocks, it, i - 1);
      if i - 1 < it.block {
        assert blocks[i - 1].End() <= blocks[it.block].start;
      } else if i - 1 > it.block {
        assert blocks[it.block].End() <= blocks[i - 1].start;
      }
    }
  }

  // ---------------------------------------------------------------- the whole file

  /** The contents of the header, the sub header and the notes. */
  datatype Headers = Headers(main: seq<Byte>, sub: seq<Byte>, note: seq<Byte>)

  function Blocks(n: nat): nat { (n + PAGE - 1) / PAGE }

  function OffsetBitmap(h: Headers): nat {
    (1 + Blocks(|h.sub| + |h.note|)) * PAGE
  }

  function OffsetPage(h: Headers, blocks: seq<Block>): nat
    requires Sorted(blocks)
  {
    (1 + Blocks(|h.sub| + |h.note|) + 2 * Blocks(BitmapLength(blocks))) * PAGE
  }

  /** Each part ends before the next one begins. */
  lemma PartsApart(h: Headers, blocks: seq<Block>)
    requires Sorted(blocks)
    ensures PAGE + |h.sub| + |h.note| <= OffsetBitmap(h) < PAGE + |h.sub| + |h.note| + PAGE
    ensures OffsetBitmap(h) % PAGE == 0
    ensures OffsetBitmap(h) + 2 * BitmapLength(blocks) == OffsetPage(h, blocks)
  {
    var len := BitmapLength(blocks);
    assert Blocks(len) * PAGE == len;
  }

  ghost predicate HeadersStand(f: File, h: Headers) {
    Holds(f, 0, h.main) && Holds(f, PAGE, h.sub) && Holds(f, PAGE + |h.sub|, h.note)
  }

  /** Positions in the file fit 64 bits. */
  ghost predicate Fits(h: Headers, blocks: seq<Block>)
    requires Sorted(blocks)
  {
    OffsetPage(h, blocks) + (DESC_SIZE + PAGE) * Total(blocks, |blocks|) + PAGE < TWO64
  }

  /** The bytes of the file from a position on. */
  function ReadBytes(f: File, at: nat, n: nat): (r: seq<Byte>)
    ensures |r| == n
  {
    seq(n, k requires 0 <= k < n => ByteOf(f, at + k))
  }

  /** The descriptor that a reader finds at a position. */
  function ReadDesc(f: File, at: nat): Desc {
    var s := ReadBytes(f, at, DESC_SIZE);
    Desc(UnBe(s, 0, 8), UnBe(s, 8, 4), UnBe(s, 12, 4))
  }

  /** The page that a reader finds through the descriptor at a position. */
  function ReadPage(f: File, at: nat, decompress: seq<Byte> -> seq<Byte>): seq<Byte> {
    var d := ReadDesc(f, at);
    if d.flags == 0 then ReadBytes(f, d.offset, d.size) else decompress(ReadBytes(f, d.offset, d.size))
  }

  /** The reader counts the set bits below a page to find its descriptor. */
  function DescAt(f: File, h: Headers, blocks: seq<Block>, pfn: nat): nat
    requires Sorted(blocks)
  {
    OffsetPage(h, blocks) + DESC_SIZE * CountBits(f, OffsetBitmap(h), pfn)
  }

  ghost predicate Undoes(decompress: seq<Byte> -> seq<Byte>, compress: Compressor) {
    forall page: seq<Byte> | compress(page).Some? :: decompress(compress(page).value) == page
  }

  lemma HeldBytes(f: File, at: nat, x: seq<Byte>)
    requires Holds(f, at, x)
    ensures ReadBytes(f, at, |x|) == x
  {}

  lemma DescHeld(f: File, at: nat, d: Desc)
    requires Holds(f, at, DescBytes(d)) && d.offset < TWO64 && d.size < TWO32 && d.flags < TWO32
    ensures ReadDesc(f, at) == d
  {
    var s := ReadBytes(f, at, DESC_SIZE);
    assert s == DescBytes(d) by {
      HeldBytes(f, at, DescBytes(d));
    }
    DescRoundTrip(s, 0, d);
  }

  /** The stored bytes give the page. */
  lemma ContentUndone(page: seq<Byte>, compress: Compressor, flag: nat, decompress: seq<Byte> -> seq<Byte>)
    requires |page| == PAGE && flag > 0 && Undoes(decompress, compress)
    ensures page == if Flags(page, compress, flag) == 0 then Content(page, compress)
                    else decompress(Content(page, compress))
  {}

  lemma LocatedDesc(f: File, base: nat, q: nat, d: Desc, page: seq<Byte>, compress: Compressor, flag: nat, at: nat)
    requires Located(f, base, q, d, page, compress, flag) && d.offset < TWO64 && flag < TWO32
    requires at == base + DESC_SIZE * q
    ensures ReadDesc(f, at) == d
  {
    DescHeld(f, at, d);
  }

  lemma LocatedContent(f: File, base: nat, q: nat, d: Desc, page: seq<Byte>, compress: Compressor, flag: nat)
    requires Located(f, base, q, d, page, compress, flag)
    ensures ReadBytes(f, d.offset, d.size) == Content(page, compress) && d.flags == Flags(page, compress, flag)
  {
    HeldBytes(f, d.offset, Content(page, compress));
  }

  /** What was described is read back. */
  lemma ReadBack(f: File, base: nat, q: nat, d: Desc, page: seq<Byte>, compress: Compressor, flag: nat,
                 decompress: seq<Byte> -> seq<Byte>, at: nat)
    requires Located(f, base, q, d, page, compress, flag) && d.offset < TWO64 && 0 < flag < TWO32
    requires Undoes(decompress, compress) && at == base + DESC_SIZE * q
    ensures ReadPage(f, at, decompress) == page
  {
    LocatedDesc(f, base, q, d, page, compress, flag, at);
    LocatedContent(f, base, q, d, page, compress, flag);
    ContentUndone(page, compress, flag, decompress);
  }

  /** The reader counts its way to the descriptor of a page. */
  lemma DescCounted(f: File, h: Headers, blocks: seq<Block>, it: Iter, at: nat)
    requires Sorted(blocks) && IterOk(blocks, it) && it.Page?
    requires Marks(f, OffsetBitmap(h), blocks, 8 * BitmapLength(blocks))
    requires at == OffsetPage(h, blocks) + DESC_SIZE * Rank(blocks, it)
    ensures DescAt(f, h, blocks, it.pfn) == at
  {
    BelowMax(blocks, it);
    CountIsBelow(f, OffsetBitmap(h), blocks, 8 * BitmapLength(blocks), it.pfn);
    BelowIsRank(blocks, it, |blocks|);
  }

  /** Where the page of zeros is. */
  function ZeroAt(h: Headers, blocks: seq<Block>): nat
    requires Sorted(blocks)
  {
    OffsetPage(h, blocks) + DESC_SIZE * Total(blocks, |blocks|)
  }

  /** A file with descriptors that tell where the pages are, and with the bits that lead to them. */
  ghost predicate Complete(f: File, h: Headers, blocks: seq<Block>, descs: seq<Desc>, compress: Compressor, flag: nat)
    requires Sorted(blocks)
  {
    && |descs| == Total(blocks, |blocks|) && Marks(f, OffsetBitmap(h), blocks, 8 * BitmapLength(blocks))
    && forall q | 0 <= q < |descs| ::
         && descs[q].offset < TWO64
         && (PageOf(blocks, |blocks|, q) == ZeroPage() ==> descs[q].offset == ZeroAt(h, blocks))
         && Located(f, OffsetPage(h, blocks), q, descs[q], PageOf(blocks, |blocks|, q), compress, flag)
  }

  lemma PageLocated(f: File, h: Headers, blocks: seq<Block>, descs: seq<Desc>, compress: Compressor, flag: nat,
                    it: Iter, q: nat, page: seq<Byte>)
    requires Sorted(blocks) && IterOk(blocks, it) && it.Page? && Complete(f, h, blocks, descs, compress, flag)
    requires q == Rank(blocks, it) && page == PageAt(blocks, it)
    ensures q < |descs| && descs[q].offset < TWO64 && (page == ZeroPage() ==> descs[q].offset == ZeroAt(h, blocks))
    ensures Located(f, OffsetPage(h, blocks), q, descs[q], page, compress, flag)
  {
    PageOfRank(blocks, it, |blocks|);
  }

  /** Every page is found and read. */
  lemma PageRead(f: File, h: Headers, blocks: seq<Block>, descs: seq<Desc>, compress: Compressor, flag: nat,
                 decompress: seq<Byte> -> seq<Byte>, it: Iter)
    requires Sorted(blocks) && IterOk(blocks, it) && it.Page?
    requires Complete(f, h, blocks, descs, compress, flag) && 0 < flag < TWO32 && Undoes(decompress, compress)
    ensures ReadPage(f, DescAt(f, h, blocks, it.pfn), decompress) == PageAt(blocks, it)
    ensures StoredAs(ReadDesc(f, DescAt(f, h, blocks, it.pfn)), PageAt(blocks, it), compress, flag, ZeroAt(h, blocks))
  {
    var q, page, base := Rank(blocks, it), PageAt(blocks, it), OffsetPage(h, blocks);
    PageLocated(f, h, blocks, descs, compress, flag, it, q, page);
    ReadBack(f, base, q, descs[q], page, compress, flag, decompress, base + DESC_SIZE * q);
    LocatedDesc(f, base, q, descs[q], page, compress, flag, base + DESC_SIZE * q);
    ContentStored(descs[q], page, compress, flag, ZeroAt(h, blocks));
    DescCounted(f, h, blocks, it, base + DESC_SIZE * q);
  }

  /** The header part of the file. */
  method WriteHeaders(out: Output, h: Headers)
    requires |h.main| <= PAGE
    modifies out
    ensures HeadersStand(out.file, h)
  {
    out.WriteBuffer(0, h.main);
    ghost var f1 := out.file;
    out.WriteBuffer(PAGE, h.sub);
    ghost var f2 := out.file;
    HoldsKept(f1, f2, PAGE, PAGE + |h.sub|, 0, h.main);
    out.WriteBuffer(PAGE + |h.sub|, h.note);
    HoldsKept(f2, out.file, PAGE + |h.sub|, PAGE + |h.sub| + |h.note|, 0, h.main);
    HoldsKept(f2, out.file, PAGE + |h.sub|, PAGE + |h.sub| + |h.note|, PAGE, h.sub);
  }

  lemma HeadersKept(f: File, g: File, lo: nat, hi: nat, h: Headers)
    requires HeadersStand(f, h) && Outside(f, g, lo, hi) && |h.main| <= PAGE && PAGE + |h.sub| + |h.note| <= lo
    ensures HeadersStand(g, h)
  {
    HoldsKept(f, g, lo, hi, 0, h.main);
    HoldsKept(f, g, lo, hi, PAGE, h.sub);
    HoldsKept(f, g, lo, hi, PAGE + |h.sub|, h.note);
  }

  lemma MarksKept(f: File, g: File, lo: nat, hi: nat, base: nat, blocks: seq<Block>, len: nat)
    requires Marks(f, base, blocks, 8 * len) && Outside(f, g, lo, hi) && base + len <= lo
    ensures Marks(g, base, blocks, 8 * len)
  {
    forall n: nat | n < 8 * len ensures BitOf(g, base, n) <==> Exists(blocks, n) {
      assert ByteOf(g, base + n / 8) == ByteOf(f, base + n / 8);
      assert BitOf(f, base, n) <==> Exists(blocks, n);
    }
  }

  /** create_kdump_vmcore: the headers stand where they were written, the bitmaps mark exactly the
      pages that exist, and every page can be found and read. */
  method CreateKdump(h: Headers, blocks: seq<Block>, compress: Compressor, flag: nat,
                     ghost decompress: seq<Byte> -> seq<Byte>) returns (out: Output)
    requires Sorted(blocks) && Paged(blocks) && |h.main| <= PAGE
    requires Fits(h, blocks) && 0 < flag < TWO32 && Undoes(decompress, compress)
    ensures HeadersStand(out.file, h)
    ensures Marks(out.file, OffsetBitmap(h), blocks, 8 * BitmapLength(blocks))
    ensures Marks(out.file, OffsetBitmap(h) + BitmapLength(blocks), blocks, 8 * BitmapLength(blocks))
    ensures forall it | IterOk(blocks, it) && it.Page? ::
              ReadPage(out.file, DescAt(out.file, h, blocks, it.pfn), decompress) == PageAt(blocks, it)
    ensures forall it | IterOk(blocks, it) && it.Page? ::
              StoredAs(ReadDesc(out.file, DescAt(out.file, h, blocks, it.pfn)), PageAt(blocks, it), compress, flag,
                       ZeroAt(h, blocks))
  {
    out := new Output();
    WriteHeaders(out, h);
    ghost var f1, base, len := out.file, OffsetBitmap(h), BitmapLength(blocks);
    PartsApart(h, blocks);
    var dumpable := WriteDumpBitmap(blocks, out, OffsetBitmap(h));
    ghost var f2 := out.file;
    HeadersKept(f1, f2, base, base + 2 * len, h);
    ghost var descs, end := WriteDumpPages(blocks, out, OffsetPage(h, blocks), dumpable, compress, flag);
    HeadersKept(f2, out.file, OffsetPage(h, blocks), end, h);
    MarksKept(f2, out.file, OffsetPage(h, blocks), end, base, blocks, len);
    MarksKept(f2, out.file, OffsetPage(h, blocks), end, base + len, blocks, len);
    assert Complete(out.file, h, blocks, descs, compress, flag);
    forall it | IterOk(blocks, it) && it.Page?
      ensures ReadPage(out.file, DescAt(out.file, h, blocks, it.pfn), decompress) == PageAt(blocks, it)
      ensures StoredAs(ReadDesc(out.file, DescAt(out.file, h, blocks, it.pfn)), PageAt(blocks, it), compress, flag,
                       ZeroAt(h, blocks))
    {
      PageRead(out.file, h, blocks, descs, compress, flag, decompress, it);
    }
  }
}
