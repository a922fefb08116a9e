/**
 The flattened dump file (dump.c 755-774, 1179-1219): a list of records, each a position and
 bytes, and the cache through which descriptors and page data are written.
 */
module KdumpFile {
  import opened Common
  import opened Bytes

  /** The records written so far, the latest one outermost. */
  datatype File = Empty | Write(before: File, offset: nat, data: seq<Byte>)

  /** What a reader that replays the records finds at a position. */
  function ByteOf(f: File, pos: nat): Byte {
    match f
    case Empty => 0
    case Write(before, offset, data) =>
      if offset <= pos < offset + |data| then data[pos - offset] else ByteOf(before, pos)
  }

  ghost predicate Holds(f: File, at: nat, x: seq<Byte>) {
    forall k | 0 <= k < |x| :: ByteOf(f, at + k) == x[k]
  }

  /** The files agree outside lo..hi. */
  ghost predicate Outside(f: File, g: File, lo: nat, hi: nat) {
    forall pos: nat | pos < lo || pos >= hi :: ByteOf(g, pos) == ByteOf(f, pos)
  }

  lemma WriteHolds(f: File, offset: nat, data: seq<Byte>)
    ensures Holds(Write(f, offset, data), offset, data)
    ensures Outside(f, Write(f, offset, data), offset, offset + |data|)
  {}

  lemma HoldsKept(f: File, g: File, lo: nat, hi: nat, at: nat, x: seq<Byte>)
    requires Outside(f, g, lo, hi) && Holds(f, at, x) && (at + |x| <= lo || hi <= at)
    ensures Holds(g, at, x)
  {
    forall k | 0 <= k < |x| ensures ByteOf(g, at + k) == x[k] {
      assert ByteOf(g, at + k) == ByteOf(f, at + k);
    }
  }

  lemma HoldsAppend(f: File, at: nat, x: seq<Byte>, y: seq<Byte>)
    requires Holds(f, at, x) && Holds(f, at + |x|, y)
    ensures Holds(f, at, x + y)
  {
    forall k | 0 <= k < |x + y| ensures ByteOf(f, at + k) == (x + y)[k] {
      if k >= |x| {
        assert ByteOf(f, at + |x| + (k - |x|)) == y[k - |x|];
      }
    }
  }

  lemma HoldsPart(f: File, at: nat, x: seq<Byte>, i: nat, y: seq<Byte>)
    requires Holds(f, at, x) && At(x, i, y)
    ensures Holds(f, at + i, y)
  {
    forall k | 0 <= k < |y| ensures ByteOf(f, at + i + k) == y[k] {
      assert ByteOf(f, at + (i + k)) == x[i + k];
    }
  }

  lemma OutsideTrans(f: File, g: File, h: File, lo: nat, hi: nat)
    requires Outside(f, g, lo, hi) && Outside(g, h, lo, hi)
    ensures Outside(f, h, lo, hi)
  {
    forall pos: nat | pos < lo || pos >= hi ensures ByteOf(h, pos) == ByteOf(f, pos) {
      assert ByteOf(g, pos) == ByteOf(f, pos);
    }
  }

  lemma OutsideWiden(f: File, g: File, lo: nat, hi: nat, lo': nat, hi': nat)
    requires Outside(f, g, lo, hi) && lo' <= lo && hi <= hi'
    ensures Outside(f, g, lo', hi')
  {}

  class Output {
    var file: File

    constructor ()
      ensures file == Empty
    {
      file := Empty;
    }

    /** write_buffer */
    method WriteBuffer(offset: nat, data: seq<Byte>)
      modifies this
      ensures Holds(file, offset, data) && Outside(old(file), file, offset, offset + |data|)
    {
      WriteHolds(file, offset, data);
      file := Write(file, offset, data);
    }
  }

  class DataCache {
    const out: Output
    ghost const base: nat
    const size: nat
    var offset: nat
    var buf: seq<Byte>
    ghost var flushed: seq<Byte>

    /** What was flushed stands in the file, from the base on; the buffer comes next. */
    ghost predicate Valid()
      reads this, out
    {
      |buf| <= size && offset == base + |flushed| && Holds(out.file, base, flushed)
    }

    /** Everything given to the cache. */
    ghost function All(): seq<Byte>
      reads this
    {
      flushed + buf
    }

    /** prepare_data_cache */
    constructor (out: Output, offset: nat, size: nat)
      ensures Valid() && All() == [] && this.out == out && base == offset && this.size == size
    {
      this.out, this.base, this.size, this.offset, buf, flushed := out, offset, size, offset, [], [];
    }

    method Flush()
      requires Valid()
      modifies this, out
      ensures Valid() && All() == old(All()) && buf == []
      ensures Outside(old(out.file), out.file, base, base + |All()|)
    {
      out.WriteBuffer(offset, buf);
      HoldsKept(old(out.file), out.file, offset, offset + |buf|, base, flushed);
      HoldsAppend(out.file, base, flushed, buf);
      OutsideWiden(old(out.file), out.file, offset, offset + |buf|, base, offset + |buf|);
      flushed := flushed + buf;
      offset := offset + |buf|;
      buf := [];
    }

    /** write_cache without synchronisation: the bytes are taken, the buffer is written out first
        if they do not fit. */
    method Put(data: seq<Byte>)
      requires Valid() && |data| <= size
      modifies this, out
      ensures Valid() && All() == old(All()) + data
      ensures Outside(old(out.file), out.file, base, base + |All()|)
    {
      if |buf| + |data| > size {
        Flush();
      }
      assert flushed + (buf + data) == flushed + buf + data;
      buf := buf + data;
    }

    /** write_cache with synchronisation: afterwards everything stands in the file. */
    method Sync()
      requires Valid()
      modifies this, out
      ensures Valid() && All() == old(All()) && Holds(out.file, base, All())
      ensures Outside(old(out.file), out.file, base, base + |All()|)
    {
      if |buf| > 0 {
        Flush();
      }
      assert buf == [];
      assert flushed + buf == flushed;
    }
  }

  /** The caches of the descriptors and of the page data, which come right behind them. */
  class PageWriter {
    const out: Output
    const desc: DataCache
    const data: DataCache

    ghost predicate Valid()
      reads this, desc, data, out
    {
      && desc != data && desc.out == out && data.out == out && desc.Valid() && data.Valid()
      && desc.base + |desc.All()| <= data.base
    }

    constructor (out: Output, offsetDesc: nat, offsetData: nat, size: nat)
      requires offsetDesc <= offsetData
      ensures Valid() && fresh(desc) && fresh(data) && this.out == out
      ensures desc.base == offsetDesc && data.base == offsetData && desc.size == data.size == size
      ensures desc.All() == [] && data.All() == []
    {
      this.out := out;
      desc := new DataCache(out, offsetDesc, size);
      data := new DataCache(out, offsetData, size);
    }

    /** Page data; the descriptors are not affected. */
    method PutData(bytes: seq<Byte>)
      requires Valid() && |bytes| <= data.size
      modifies data, out
      ensures Valid() && data.All() == old(data.All()) + bytes && desc.All() == old(desc.All())
      ensures Outside(old(out.file), out.file, desc.base, data.base + |data.All()|)
    {
      data.Put(bytes);
      HoldsKept(old(out.file), out.file, data.base, data.base + |data.All()|, desc.base, desc.flushed);
    }

    /** A descriptor, as long as there is room for it; the data is not affected. */
    method PutDesc(bytes: seq<Byte>)
      requires Valid() && |bytes| <= desc.size && desc.base + |desc.All()| + |bytes| <= data.base
      modifies desc, out
      ensures Valid() && desc.All() == old(desc.All()) + bytes && data.All() == old(data.All())
      ensures Outside(old(out.file), out.file, desc.base, data.base + |data.All()|)
    {
      desc.Put(bytes);
      HoldsKept(old(out.file), out.file, desc.base, desc.base + |desc.All()|, data.base, data.flushed);
    }

    /** Everything stands in the file. */
    method Sync()
      requires Valid()
      modifies desc, data, out
      ensures Holds(out.file, desc.base, old(desc.All())) && Holds(out.file, data.base, old(data.All()))
      ensures Outside(old(out.file), out.file, desc.base, data.base + old(|data.All()|))
    {
      desc.Sync();
      ghost var mid := out.file;
      HoldsKept(old(out.file), mid, desc.base, desc.base + |desc.All()|, data.base, data.flushed);
      data.Sync();
      HoldsKept(mid, out.file, data.base, data.base + |data.All()|, desc.base, desc.All());
      OutsideWiden(old(out.file), mid, desc.base, desc.base + |desc.All()|, desc.base, data.base + |data.All()|);
      OutsideWiden(mid, out.file, data.base, data.base + |data.All()|, desc.base, data.base + |data.All()|);
      OutsideTrans(old(out.file), mid, out.file, desc.base, data.base + |data.All()|);
    }
  }
}
