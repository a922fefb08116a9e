/**
 The sending side of a live RAM migration (arch_init.c 324-641, 726-907): pages are sent
 while the guest goes on writing, the dirty log tells which of them must be sent again,
 and a direct-mapped cache of the pages sent last lets a page travel as a delta.
 */
module RamMigration {
  import opened Common
  import opened Bytes
  import opened RamStream
  import RamSetup
  import opened DirtyBitmap
  import opened RamSearch
  import opened RamPace
  import Xbzrle

  datatype Item = Item(page: nat, data: seq<Byte>)

  datatype Write = Write(page: nat, data: seq<Byte>)

  // ---------------------------------------------------------------- what holds of the pages

  /** A page of a block that is marked nowhere is the same on both sides. */
  ghost predicate Clean(blocks: seq<Block>, src: Memory, dst: Memory, bitmap: seq<bool>, log: seq<bool>,
                        lost: set<nat>) {
    && |src| == |dst| == |bitmap| == |log|
    && forall p | 0 <= p < |src| && InBlock(blocks, p) && !bitmap[p] && !log[p] && p !in lost :: src[p] == dst[p]
  }

  /** Every cached page sits in its slot. */
  ghost predicate Shaped(cache: seq<Option<Item>>, cap: nat) {
    forall i | 0 <= i < |cache| && cache[i].Some? ::
      cache[i].value.page < cap && cache[i].value.page % |cache| == i && |cache[i].value.data| == PAGE
  }

  /** Cached data, other than that of page `but`, is what the receiver has.  In the last
      stage this is only kept up for pages still to be sent. */
  ghost predicate Mirrors(cache: seq<Option<Item>>, bitmap: seq<bool>, lost: set<nat>, dst: Memory, last: bool,
                          but: Option<nat>)
    requires |bitmap| == |dst| && Shaped(cache, |dst|)
  {
    forall i | 0 <= i < |cache| && cache[i].Some? && but != Some(cache[i].value.page) ::
      || (last && !bitmap[cache[i].value.page] && cache[i].value.page !in lost)
      || cache[i].value.data == dst[cache[i].value.page]
  }

  ghost predicate Empty(cache: seq<Option<Item>>) {
    forall i | 0 <= i < |cache| :: cache[i].None?
  }

  /** A page whose mark is back is not lost. */
  ghost predicate Unmarked(lost: set<nat>, bitmap: seq<bool>) {
    forall p | 0 <= p < |bitmap| && bitmap[p] :: p !in lost
  }

  /** What the guest may do to memory and log: a page it changes is marked. */
  ghost predicate GuestStep(src: Memory, log: seq<bool>, src': Memory, log': seq<bool>) {
    && |src'| == |src| == |log| == |log'|
    && forall p | 0 <= p < |src| :: (log[p] ==> log'[p]) && (!log'[p] ==> src'[p] == src[p])
  }

  /** The bytes that a page takes behind a header of `head` bytes, given what the cache has of it: one for a
      page of zeros, a delta if it fits, none if nothing has changed, and all of the page otherwise. */
  function PageBytes(head: nat, data: seq<Byte>, cached: Option<seq<Byte>>): nat
    requires |data| == PAGE && (cached.Some? ==> |cached.value| == PAGE)
  {
    if data == Filled(0) then head + 1 else ContentBytes(head, data, cached)
  }

  function ContentBytes(head: nat, data: seq<Byte>, cached: Option<seq<Byte>>): nat
    requires |data| == PAGE && (cached.Some? ==> |cached.value| == PAGE)
  {
    if cached.None? then head + PAGE
    else
      match Xbzrle.Encode(cached.value, data, PAGE)
      case None => head + PAGE
      case Some(code) => if code == [] then 0 else head + 3 + |code|
  }

  /** A write of the guest; one that is not a whole page of its memory does not count. */
  function Land(mem: Memory, w: Write): Memory {
    if w.page < |mem| && |w.data| == PAGE then mem[w.page := w.data] else mem
  }

  /** The first n writes, one after the other. */
  function Replay(mem: Memory, writes: seq<Write>, n: nat): (r: Memory)
    requires n <= |writes|
    ensures |r| == |mem|
  {
    if n == 0 then mem else Land(Replay(mem, writes, n - 1), writes[n - 1])
  }

  lemma CleanGuest(blocks: seq<Block>, src: Memory, dst: Memory, bitmap: seq<bool>, log: seq<bool>, lost: set<nat>,
                   src': Memory, log': seq<bool>)
    requires Clean(blocks, src, dst, bitmap, log, lost) && GuestStep(src, log, src', log')
    ensures Clean(blocks, src', dst, bitmap, log', lost)
  {}

  lemma CleanSent(blocks: seq<Block>, src: Memory, dst: Memory, bitmap: seq<bool>, log: seq<bool>, lost: set<nat>,
                  p: nat, page: seq<Byte>)
    requires Clean(blocks, src, dst, bitmap, log, lost) && p < |src| && (!log[p] ==> src[p] == page)
    ensures Clean(blocks, src, dst[p := page], bitmap, log, lost - {p})
  {}

  lemma CleanReset(blocks: seq<Block>, src: Memory, dst: Memory, bitmap: seq<bool>, log: seq<bool>, lost: set<nat>,
                   p: nat)
    requires Clean(blocks, src, dst, bitmap, log, lost) && p < |src|
    ensures Clean(blocks, src, dst, bitmap[p := false], log, lost + {p})
  {}

  lemma CleanSync(blocks: seq<Block>, src: Memory, dst: Memory, bitmap: seq<bool>, log: seq<bool>, lost: set<nat>,
                  bitmap': seq<bool>, log': seq<bool>)
    requires Clean(blocks, src, dst, bitmap, log, lost) && Moved(bitmap, log, bitmap', log')
    ensures Clean(blocks, src, dst, bitmap', log', lost)
  {}

  lemma MirrorsReset(cache: seq<Option<Item>>, bitmap: seq<bool>, lost: set<nat>, dst: Memory, last: bool, p: nat)
    requires |bitmap| == |dst| && Shaped(cache, |dst|) && Mirrors(cache, bitmap, lost, dst, last, None)
    requires p < |dst| && bitmap[p]
    ensures Mirrors(cache, bitmap[p := false], lost + {p}, dst, last, None)
  {}

  lemma MirrorsSent(cache: seq<Option<Item>>, bitmap: seq<bool>, lost: set<nat>, dst: Memory, last: bool, p: nat,
                    page: seq<Byte>)
    requires |bitmap| == |dst| && Shaped(cache, |dst|) && Mirrors(cache, bitmap, lost, dst, last, Some(p))
    requires p < |dst| && !bitmap[p]
    requires !last ==>
      forall i | 0 <= i < |cache| && cache[i].Some? && cache[i].value.page == p :: cache[i].value.data == page
    ensures Mirrors(cache, bitmap, lost - {p}, dst[p := page], last, None)
  {}

  lemma MirrorsInsert(cache: seq<Option<Item>>, bitmap: seq<bool>, lost: set<nat>, dst: Memory, last: bool, p: nat,
                      data: seq<Byte>)
    requires |bitmap| == |dst| && Shaped(cache, |dst|) && Mirrors(cache, bitmap, lost, dst, last, Some(p))
    requires p < |dst| && |cache| > 0 && |data| == PAGE
    ensures var cache' := cache[p % |cache| := Some(Item(p, data))];
      Shaped(cache', |dst|) && Mirrors(cache', bitmap, lost, dst, last, Some(p))
  {}

  /** With no mark left, only lost pages differ. */
  lemma AllClear(blocks: seq<Block>, cap: nat, src: Memory, dst: Memory, bitmap: seq<bool>, log: seq<bool>,
                 lost: set<nat>)
    requires Layout(blocks, cap) && |src| == cap && Clean(blocks, src, dst, bitmap, log, lost)
    requires NoneDirty(blocks, bitmap)
    requires forall p | 0 <= p < cap && InBlock(blocks, p) :: !log[p]
    ensures forall p | 0 <= p < cap && InBlock(blocks, p) && p !in lost :: dst[p] == src[p]
  {
    forall p | 0 <= p < cap && InBlock(blocks, p) ensures !bitmap[p] {
      var b :| 0 <= b < |blocks| && Within(blocks[b], p);
      assert !Dirty(blocks, bitmap, b, p - blocks[b].start);
    }
  }

  /** Setting bits leaves the cursor where it is. */
  lemma CursorSync(blocks: seq<Block>, bits: seq<bool>, bits': seq<bool>, bulk: bool, seen: Option<nat>, offset: nat)
    requires |bits| == |bits'| && Layout(blocks, |bits|) && CursorOk(blocks, bits, bulk, seen, offset)
    requires forall k | 0 <= k < |bits| && bits[k] :: bits'[k]
    ensures CursorOk(blocks, bits', bulk, seen, offset)
  {
    if bulk {
      forall b, o | 0 <= b < |blocks| && 0 <= o < blocks[b].pages && (seen.Some? ==> Before(seen.value, offset, b, o))
        ensures Dirty(blocks, bits', b, o)
      {
        assert Dirty(blocks, bits, b, o);
      }
    }
  }

  // ---------------------------------------------------------------- the sender

  class Migration {
    const blocks: seq<Block>
    const useXbzrle: bool
    const dirty: Tracker
    ghost const cap: nat
    /** The receiver before the migration. */
    ghost const first: LoadState

    var running: bool
    var src: Memory
    var cache: seq<Option<Item>>
    var stream: seq<Byte>
    var lastSeen: Option<nat>
    var lastOffset: nat
    var lastSent: Option<nat>
    var bulk: bool
    var bytesTransferred: nat

    /** The receiver's memory and current block once it has read the stream so far. */
    ghost var dst: Memory
    ghost var receiver: Option<nat>
    /** Pages whose mark was cleared without sending them. */
    ghost var lost: set<nat>

    ghost predicate Base()
      reads `src, `cache, `stream, `bulk, `dst, `receiver, `lost, dirty
    {
      && dirty.Valid() && |dirty.log| == cap && Layout(blocks, cap) && Named(blocks)
      && Paged(src, cap) && Received(blocks, cap, stream, first, LoadState(dst, receiver))
      && (useXbzrle ==> |cache| > 0) && Shaped(cache, cap)
      && (bulk || !useXbzrle ==> Empty(cache))
      && Unmarked(lost, dirty.bitmap)
    }

    /** Between pages. */
    ghost predicate Steady(last: bool)
      reads `src, `cache, `stream, `bulk, `dst, `receiver, `lost, dirty, `lastSent
    {
      && Base() && receiver == lastSent
      && Clean(blocks, src, dst, dirty.bitmap, dirty.log, lost)
      && Mirrors(cache, dirty.bitmap, lost, dst, last, None)
    }

    /** What every operation keeps. */
    ghost predicate Valid(last: bool)
      reads `src, `cache, `stream, `bulk, `dst, `receiver, `lost, dirty, `lastSent, `lastSeen, `lastOffset
    {
      Steady(last) && CursorOk(blocks, dirty.bitmap, bulk, lastSeen, lastOffset)
    }

    /** The next call of SaveBlock will forget a page. */
    ghost predicate AtHazard()
      requires dirty.Valid() && Layout(blocks, |dirty.log|)
      reads `bulk, `lastSeen, `lastOffset, dirty
    {
      Hazard(blocks, dirty.bitmap, bulk, lastSeen, lastOffset)
    }

    ghost function Now(): View
      reads dirty`bitmap, dirty`log, `bulk, `lastSeen, `lastOffset
    {
      View(dirty.bitmap, dirty.log, bulk, lastSeen, lastOffset)
    }

    /** ram_save_setup: every page is dirty, the cache is empty, nothing was visited. */
    constructor (blocks: seq<Block>, pages: nat, src: Memory, log: seq<bool>, useXbzrle: bool, cacheSize: nat,
                 ghost mem: Memory)
      requires Layout(blocks, |log|) && Named(blocks) && Paged(src, |log|) && Paged(mem, |log|)
      requires pages <= |log| && |log| % BITS_PER_LONG == 0
      requires forall b | 0 <= b < |blocks| :: blocks[b].start + blocks[b].pages <= pages
      requires useXbzrle ==> cacheSize > 0
      ensures Running(false) && lost == {} && fresh(dirty) && running && bulk && lastSeen.None? && lastOffset == 0
      ensures this.blocks == blocks && this.src == src && this.useXbzrle == useXbzrle && dirty.log == log
      ensures cap == |log| && first == LoadState(mem, None) == LoadState(dst, receiver) && stream == []
      ensures dirty.bitmap == seq(|log|, k => k < pages) && |cache| == cacheSize && Empty(cache)
    {
      this.blocks, this.useXbzrle, this.cap, this.first := blocks, useXbzrle, |log|, LoadState(mem, None);
      this.dirty := new Tracker(pages, log);
      this.src, this.cache, this.stream := src, seq(cacheSize, _ => None), [];
      running, bulk, lastSeen, lastOffset, lastSent, bytesTransferred := true, true, None, 0, None, 0;
      dst, receiver, lost := mem, None, {};
      new;
      assert forall p | 0 <= p < |src| && InBlock(blocks, p) :: dirty.bitmap[p];
    }

    // -------------------------------------------------------------- the guest

    /** A write of the guest is logged. */
    method GuestWrite(w: Write)
      requires Paged(src, |dirty.log|) && w.page < |src| && |w.data| == PAGE
      modifies `src, dirty`log
      ensures src == old(src)[w.page := w.data] && dirty.log == old(dirty.log)[w.page := true]
    {
      src := src[w.page := w.data];
      dirty.log := dirty.log[w.page := true];
    }

    /** Writes of the guest while it runs. */
    method Guest(writes: seq<Write>)
      requires Paged(src, |dirty.log|)
      modifies `src, dirty`log
      ensures Paged(src, |dirty.log|) && GuestStep(old(src), old(dirty.log), src, dirty.log)
      ensures !running ==> src == old(src) && dirty.log == old(dirty.log)
      ensures running ==> src == Replay(old(src), writes, |writes|)
      ensures running && |writes| == 1 && writes[0].page < |old(src)| && |writes[0].data| == PAGE ==>
        && src == old(src)[writes[0].page := writes[0].data]
        && dirty.log == old(dirty.log)[writes[0].page := true]
    {
      var k := 0;
      while k < |writes|
        invariant 0 <= k <= |writes| && Paged(src, |dirty.log|) && GuestStep(old(src), old(dirty.log), src, dirty.log)
        invariant !running || k == 0 ==> src == old(src) && dirty.log == old(dirty.log)
        invariant running ==> src == Replay(old(src), writes, k)
        invariant running && k == 1 && writes[0].page < |old(src)| && |writes[0].data| == PAGE ==>
          && src == old(src)[writes[0].page := writes[0].data]
          && dirty.log == old(dirty.log)[writes[0].page := true]
      {
        var w := writes[k];
        if running && w.page < |src| && |w.data| == PAGE {
          GuestWrite(w);
        }
        k := k + 1;
      }
    }

    /** The guest may write at any moment: before each look at one of its pages it does
        whatever it likes. */
    method GuestRun()
      requires Paged(src, |dirty.log|)
      modifies `src, dirty`log
      ensures Paged(src, |dirty.log|) && GuestStep(old(src), old(dirty.log), src, dirty.log)
      ensures !running ==> src == old(src) && dirty.log == old(dirty.log)
    {
      var writes: seq<Write> := *;
      Guest(writes);
    }

    // -------------------------------------------------------------- one page

    /** The size of the header of a page: the name of the block is left out if the page before was of the
        same block. */
    ghost function Head(b: nat): nat
      requires b < |blocks|
      reads `lastSent
    {
      if lastSent == Some(b) then 8 else 9 + |blocks[b].name|
    }

    /** A record goes into the stream; the result is the number of bytes the source
        accounts for it. */
    method Send(b: nat, o: nat, rec: Record, ghost page: seq<Byte>) returns (n: nat)
      requires Received(blocks, cap, stream, first, LoadState(dst, receiver)) && Named(blocks) && receiver == lastSent
      requires b < |blocks| && o < blocks[b].pages && Sendable(rec)
      requires Meaning(rec, dst[PageNo(blocks, b, o)]) == Some(page)
      modifies `stream, `dst, `receiver
      ensures Received(blocks, cap, stream, first, LoadState(dst, receiver))
      ensures dst == old(dst)[PageNo(blocks, b, o) := page] && receiver == Some(b)
      ensures n > 0 && |stream| == |old(stream)| + n
      ensures n == Head(b) + match rec case Zero => 1 case Full(_) => PAGE case Delta(code) => 3 + |code|
    {
      var cont := lastSent == Some(b);
      n := 8;
      if !cont {
        n := n + 1 + |blocks[b].name|;
      }
      n := n + match rec case Zero => 1 case Full(_) => PAGE case Delta(code) => |code| + 1 + 2;
      EmitSize(blocks[b].name, o, cont, rec);
      ghost var next := LoadState(dst[PageNo(blocks, b, o) := page], Some(b));
      ghost var now := stream + Emit(blocks[b].name, o, cont, rec);
      SendPage(blocks, cap, stream, now, first, LoadState(dst, receiver), b, o, rec, page, next);
      stream := stream + Emit(blocks[b].name, o, cont, rec);
      dst, receiver := next.mem, next.block;
    }

    /** While page p is being sent, nothing else is out of date; `but` says whether the cache
        may be ahead of the receiver in that page. */
    ghost predicate Sending(last: bool, p: nat, but: Option<nat>)
      reads `src, `cache, `stream, `bulk, `dst, `receiver, `lost, dirty, `lastSent
    {
      && Base() && receiver == lastSent && p < cap && !dirty.bitmap[p] && p in lost
      && Clean(blocks, src, dst, dirty.bitmap, dirty.log, lost)
      && Mirrors(cache, dirty.bitmap, lost, dst, last, but)
    }

    /** Page p is up to date as well. */
    ghost predicate Sent(last: bool, p: nat)
      reads `src, `cache, `stream, `bulk, `dst, `receiver, `lost, dirty
    {
      && Base() && p < cap
      && Clean(blocks, src, dst, dirty.bitmap, dirty.log, lost - {p})
      && Mirrors(cache, dirty.bitmap, lost - {p}, dst, last, None)
    }

    /** What the cache has of the page, if it is in use. */
    ghost function InCache(p: nat): Option<seq<Byte>>
      reads `cache, `bulk
    {
      if bulk || !useXbzrle || |cache| == 0 then None
      else
        var it := cache[p % |cache|];
        if it.Some? && it.value.page == p then Some(it.value.data) else None
    }

    /** The guest's page at this moment. */
    method Look(p: nat, ghost last: bool, ghost but: Option<nat>) returns (data: seq<Byte>)
      requires Sending(last, p, but)
      modifies `src, dirty`log
      ensures Sending(last, p, but) && data == src[p] && |data| == PAGE
      ensures GuestStep(old(src), old(dirty.log), src, dirty.log)
      ensures !running ==> src == old(src) && dirty.log == old(dirty.log)
    {
      GuestRun();
      CleanGuest(blocks, old(src), dst, dirty.bitmap, old(dirty.log), lost, src, dirty.log);
      data := src[p];
    }

    method CacheInsert(p: nat, data: seq<Byte>, ghost last: bool)
      requires Sending(last, p, Some(p)) && !bulk && useXbzrle && |data| == PAGE
      modifies `cache
      ensures Sending(last, p, Some(p)) && |cache| == old(|cache|)
      ensures cache == old(cache)[p % |cache| := Some(Item(p, data))]
    {
      MirrorsInsert(cache, dirty.bitmap, lost, dst, last, p, data);
      cache := cache[p % |cache| := Some(Item(p, data))];
    }

    /** The page is sent as a record; the cache has the same contents unless the last stage
        leaves it behind. */
    method SendRecord(b: nat, o: nat, rec: Record, ghost page: seq<Byte>, ghost last: bool) returns (n: nat)
      requires b < |blocks| && o < blocks[b].pages && Sending(last, PageNo(blocks, b, o), Some(PageNo(blocks, b, o)))
      requires Sendable(rec) && Meaning(rec, dst[PageNo(blocks, b, o)]) == Some(page)
      requires !dirty.log[PageNo(blocks, b, o)] ==> src[PageNo(blocks, b, o)] == page
      requires !last ==>
        forall i | 0 <= i < |cache| && cache[i].Some? && cache[i].value.page == PageNo(blocks, b, o) ::
          cache[i].value.data == page
      modifies `stream, `dst, `receiver
      ensures Sent(last, PageNo(blocks, b, o)) && receiver == Some(b)
      ensures n > 0 && |stream| == |old(stream)| + n
      ensures n == Head(b) + match rec case Zero => 1 case Full(_) => PAGE case Delta(code) => 3 + |code|
    {
      ghost var p := PageNo(blocks, b, o);
      CleanSent(blocks, src, dst, dirty.bitmap, dirty.log, lost, p, page);
      MirrorsSent(cache, dirty.bitmap, lost, dst, last, p, page);
      n := Send(b, o, rec, page);
    }

    /** The cache holds the page, up to what the log reports. */
    ghost predicate Cached(p: nat)
      reads `cache, `src, dirty`log
    {
      && 0 < |cache| && p < |src| && p < |dirty.log|
      && var it := cache[p % |cache|];
         it.Some? && it.value.page == p && |it.value.data| == PAGE && (!dirty.log[p] ==> src[p] == it.value.data)
    }

    /** The guest's page goes into the cache, from where it will be sent. */
    method LookAndInsert(p: nat, ghost last: bool)
      requires Sending(last, p, Some(p)) && !bulk && useXbzrle
      modifies `src, dirty`log, `cache
      ensures Sending(last, p, Some(p)) && Cached(p) && |cache| == old(|cache|)
      ensures !running ==> src == old(src) && dirty.log == old(dirty.log)
    {
      var data := Look(p, last, Some(p));
      CacheInsert(p, data, last);
    }

    /** A page that the receiver has need not be sent. */
    lemma Unmodified(p: nat, last: bool)
      requires Sending(last, p, None) && useXbzrle && Cached(p) && cache[p % |cache|].value.data == src[p]
      ensures Sent(last, p)
    {
      CleanSent(blocks, src, dst, dirty.bitmap, dirty.log, lost, p, dst[p]);
      MirrorsSent(cache, dirty.bitmap, lost, dst, last, p, dst[p]);
      assert dst[p := dst[p]] == dst;
    }

    method SaveDelta(b: nat, o: nat, prev: seq<Byte>, current: seq<Byte>, code: seq<Byte>, last: bool) returns (n: nat)
      requires b < |blocks| && o < blocks[b].pages && Sending(last, PageNo(blocks, b, o), None) && !bulk && useXbzrle
      requires prev == dst[PageNo(blocks, b, o)] && |prev| == |current| == PAGE
      requires Xbzrle.Encode(prev, current, PAGE) == Some(code)
      requires !dirty.log[PageNo(blocks, b, o)] ==> src[PageNo(blocks, b, o)] == current
      modifies `cache, `stream, `dst, `receiver
      ensures Sent(last, PageNo(blocks, b, o)) && receiver == Some(b)
      ensures n > 0 && |stream| == |old(stream)| + n && |cache| == old(|cache|) && n == Head(b) + 3 + |code|
    {
      var p := PageNo(blocks, b, o);
      if !last {
        CacheInsert(p, current, last);
      }
      Xbzrle.EmptyIffUnchanged(prev, current, PAGE);
      Xbzrle.RoundTrip(prev, current, PAGE);
      n := SendRecord(b, o, Delta(code), current, last);
    }

    /** save_xbzrle_page: -1 if the page must be sent in full, 0 if it need not be sent. */
    method SaveXbzrlePage(b: nat, o: nat, last: bool) returns (r: int)
      requires b < |blocks| && o < blocks[b].pages && Sending(last, PageNo(blocks, b, o), None)
      requires !bulk && useXbzrle
      modifies `src, dirty`log, `cache, `stream, `dst, `receiver
      ensures -1 <= r
      ensures !running ==> src == old(src) && dirty.log == old(dirty.log)
      ensures r > 0 ==> Sent(last, PageNo(blocks, b, o)) && receiver == Some(b) && |stream| == |old(stream)| + r
      ensures r == 0 ==> Sent(last, PageNo(blocks, b, o))
      ensures r <= 0 ==> stream == old(stream) && receiver == old(receiver) && dst == old(dst)
      ensures r == -1 ==> Sending(last, PageNo(blocks, b, o), Some(PageNo(blocks, b, o)))
      ensures r == -1 && !last ==> Cached(PageNo(blocks, b, o))
      ensures Empty(old(cache)) ==> r == -1
      ensures !running ==> var page := old(src[PageNo(blocks, b, o)]);
        var cached := old(InCache(PageNo(blocks, b, o)));
        && (r == -1 <==> cached.None? || Xbzrle.Encode(cached.value, page, PAGE).None?)
        && (r != -1 ==> r == ContentBytes(Head(b), page, cached))
    {
      var p := PageNo(blocks, b, o);
      var pos := p % |cache|;
      if cache[pos].None? || cache[pos].value.page != p {
        if !last {
          LookAndInsert(p, last);
        }
        return -1;
      }
      var prev := cache[pos].value.data;
      var current := Look(p, last, None);
      var code := Xbzrle.EncodeBuffer(prev, current, PAGE);
      if code == Some([]) {
        Xbzrle.EmptyIffUnchanged(prev, current, PAGE);
        Unmodified(p, last);
        return 0;
      }
      if code.None? {
        LookAndInsert(p, last);
        return -1;
      }
      r := SaveDelta(b, o, prev, current, code.value, last);
    }

    /** The page travels in full: from the cache, so that the cache stays right, or from the
        guest if it is not cached. */
    method SaveFull(b: nat, o: nat, last: bool) returns (n: nat)
      requires b < |blocks| && o < blocks[b].pages && Sending(last, PageNo(blocks, b, o), Some(PageNo(blocks, b, o)))
      requires !last && !bulk && useXbzrle ==> Cached(PageNo(blocks, b, o))
      modifies `src, dirty`log, `stream, `dst, `receiver
      ensures Sent(last, PageNo(blocks, b, o)) && receiver == Some(b)
      ensures !running ==> src == old(src) && dirty.log == old(dirty.log)
      ensures n > 0 && |stream| == |old(stream)| + n && n == Head(b) + PAGE
    {
      var p := PageNo(blocks, b, o);
      var data;
      if !last && !bulk && useXbzrle {
        data := cache[p % |cache|].value.data;
      } else {
        data := Look(p, last, Some(p));
      }
      n := SendRecord(b, o, Full(data), data, last);
    }

    /** The body of ram_save_block for one page: the number of bytes sent, 0 if the receiver
        has the page already. */
    method SavePage(b: nat, o: nat, last: bool) returns (n: nat)
      requires b < |blocks| && o < blocks[b].pages && Sending(last, PageNo(blocks, b, o), None)
      modifies `src, dirty`log, `cache, `stream, `dst, `receiver, `lost
      ensures Base() && Clean(blocks, src, dst, dirty.bitmap, dirty.log, lost)
      ensures Mirrors(cache, dirty.bitmap, lost, dst, last, None)
      ensures lost == old(lost) - {PageNo(blocks, b, o)}
      ensures !running ==> src == old(src) && dirty.log == old(dirty.log)
      ensures |stream| == |old(stream)| + n
      ensures n == 0 ==> stream == old(stream) && receiver == old(receiver) && dst == old(dst)
      ensures n > 0 ==> receiver == Some(b)
      ensures Empty(old(cache)) ==> n > 0
      ensures !running ==>
        n == PageBytes(Head(b), old(src[PageNo(blocks, b, o)]), old(InCache(PageNo(blocks, b, o))))
    {
      var p := PageNo(blocks, b, o);
      var data := Look(p, last, None);
      if data == Filled(0) {
        n := SaveZero(b, o, last);
      } else {
        n := SaveContents(b, o, last);
      }
      lost := lost - {p};
    }

    /** A page that is not zero goes as a delta if that is possible, otherwise in full. */
    method SaveContents(b: nat, o: nat, last: bool) returns (n: nat)
      requires b < |blocks| && o < blocks[b].pages && Sending(last, PageNo(blocks, b, o), None)
      modifies `src, dirty`log, `cache, `stream, `dst, `receiver
      ensures Sent(last, PageNo(blocks, b, o)) && |stream| == |old(stream)| + n
      ensures !running ==> src == old(src) && dirty.log == old(dirty.log)
      ensures n == 0 ==> stream == old(stream) && receiver == old(receiver) && dst == old(dst)
      ensures n > 0 ==> receiver == Some(b)
      ensures Empty(old(cache)) ==> n > 0
      ensures !running ==>
        n == ContentBytes(Head(b), old(src[PageNo(blocks, b, o)]), old(InCache(PageNo(blocks, b, o))))
    {
      var r := -1;
      if !bulk && useXbzrle {
        r := SaveXbzrlePage(b, o, last);
      }
      if r == -1 {
        n := SaveFull(b, o, last);
      } else {
        n := r;
      }
    }

    /** The zero page: a stale page in the cache must not survive it. */
    method SaveZero(b: nat, o: nat, ghost last: bool) returns (n: nat)
      requires b < |blocks| && o < blocks[b].pages && Sending(last, PageNo(blocks, b, o), None)
      requires !dirty.log[PageNo(blocks, b, o)] ==> src[PageNo(blocks, b, o)] == Filled(0)
      modifies `cache, `stream, `dst, `receiver
      ensures Sent(last, PageNo(blocks, b, o)) && receiver == Some(b)
      ensures n > 0 && |stream| == |old(stream)| + n && n == Head(b) + 1
    {
      var p := PageNo(blocks, b, o);
      if !bulk && useXbzrle {
        CacheInsert(p, Filled(0), last);
      }
      n := SendRecord(b, o, Zero, Filled(0), last);
    }

    // -------------------------------------------------------------- the search

    /** The bit of a page is cleared, so that the page must be sent. */
    method TakeDirty(b: nat, o: nat, ghost last: bool) returns (r: nat)
      requires Steady(last) && b < |blocks| && o <= blocks[b].pages
      requires bulk ==> o < blocks[b].pages
      requires bulk ==> (0 < o && o + 1 < blocks[b].pages ==> Dirty(blocks, dirty.bitmap, b, o + 1))
      modifies dirty`bitmap, dirty`dirtyPages, `lost
      ensures Steady(last) && |dirty.bitmap| == old(|dirty.bitmap|)
      ensures r == if bulk && o > 0 then o + 1 else FirstDirty(blocks, old(dirty.bitmap), b, o)
      ensures r < blocks[b].pages ==> lost == old(lost) + {PageNo(blocks, b, r)}
      ensures r < blocks[b].pages ==> dirty.bitmap == old(dirty.bitmap)[PageNo(blocks, b, r) := false]
      ensures r < blocks[b].pages ==> dirty.dirtyPages < old(dirty.dirtyPages)
      ensures r >= blocks[b].pages ==> lost == old(lost) && dirty.bitmap == old(dirty.bitmap)
      ensures r >= blocks[b].pages ==> dirty.dirtyPages == old(dirty.dirtyPages)
    {
      r := dirty.FindAndReset(blocks, bulk, b, o);
      if r < blocks[b].pages {
        ghost var p := PageNo(blocks, b, r);
        CleanReset(blocks, src, dst, old(dirty.bitmap), dirty.log, lost, p);
        MirrorsReset(cache, old(dirty.bitmap), lost, dst, last, p);
        lost := lost + {p};
      }
    }

    /** The search s is the one this object is engaged in. */
    ghost predicate EngagedIn(s: Search)
      reads `cache, `bulk, dirty, `lastSeen, `lastOffset
    {
      && Searching(blocks, s) && s.seen == lastSeen && s.from == lastOffset
      && s.bits == dirty.bitmap && s.bulk == bulk && (s.wasBulk ==> Empty(cache))
    }

    ghost predicate Engaged(s: Search, last: bool)
      reads `src, `cache, `stream, `bulk, `dst, `receiver, `lost, dirty, `lastSent, `lastSeen, `lastOffset
    {
      Steady(last) && EngagedIn(s)
    }

    /** A bit was looked for, and the page taken if there was one. */
    ghost predicate Looked(s: Search, last: bool, r: nat, before: set<nat>)
      reads `src, `cache, `stream, `bulk, `dst, `receiver, `lost, dirty, `lastSent, `lastSeen, `lastOffset
    {
      && Steady(last) && Found(blocks, s, r) && |s.bits| == cap
      && s.seen == lastSeen && s.from == lastOffset && s.bulk == bulk && (s.wasBulk ==> Empty(cache))
      && (if r < blocks[s.b].pages
          then dirty.bitmap == s.bits[PageNo(blocks, s.b, r) := false] && lost == before + {PageNo(blocks, s.b, r)}
          else dirty.bitmap == s.bits && lost == before)
    }

    method TakeLook(b: nat, o: nat, ghost last: bool, ghost s: Search) returns (r: nat)
      requires Engaged(s, last) && s.b == b && s.o == o
      modifies dirty`bitmap, dirty`dirtyPages, `lost
      ensures Looked(s, last, r, old(lost))
      ensures r < blocks[b].pages ==> dirty.dirtyPages < old(dirty.dirtyPages)
      ensures r >= blocks[b].pages ==> dirty.dirtyPages == old(dirty.dirtyPages)
    {
      MayLook(blocks, s);
      r := TakeDirty(b, o, last);
    }

    /** A found page is sent, or the search goes on from it. */
    method SaveFound(b: nat, r: nat, last: bool, ghost s: Search, ghost before: set<nat>)
      returns (n: nat, ghost s': Search)
      requires Looked(s, last, r, before) && s.b == b && r < blocks[b].pages
      requires !(s.round && lastSeen == Some(b) && r >= lastOffset)
      modifies `src, dirty`log, `cache, `stream, `dst, `receiver, `lost, `lastSent
      ensures |stream| == |old(stream)| + n && lost <= before
      ensures !running ==> src == old(src) && dirty.log == old(dirty.log)
      ensures n > 0 ==> Ended(s, last, n, b, r, before)
      ensures n == 0 ==> Engaged(s', last) && stream == old(stream) && dst == old(dst)
      ensures n == 0 ==> s' == s.(bits := dirty.bitmap, o := r)
    {
      PageFound(blocks, s, r);
      n := SavePage(b, r, last);
      s' := s.(bits := dirty.bitmap, o := r);
      if n > 0 {
        lastSent := Some(b);
        SentEnds(s, last, n, b, r, before);
      } else {
        PageSkipped(blocks, s, r, s');
      }
    }

    lemma SentEnds(s: Search, last: bool, n: nat, b: nat, r: nat, before: set<nat>)
      requires n > 0 && Steady(last) && Searching(blocks, s) && |s.bits| == cap && bulk == s.bulk && lost <= before
      requires Sends(blocks, s, b, r) && dirty.bitmap == s.bits[PageNo(blocks, b, r) := false]
      requires CursorOk(blocks, dirty.bitmap, s.bulk, Some(b), r)
      ensures Ended(s, last, n, b, r, before)
    {}

    /** No dirty page in this block: on to the next one, after the last one from the start
        again and no longer in bulk. */
    method Advance(b: nat, round: bool, ghost last: bool, ghost s: Search, ghost r: nat, ghost before: set<nat>)
      returns (b': nat, round': bool, ghost s': Search)
      requires Looked(s, last, r, before) && s.b == b && s.round == round
      requires r >= blocks[b].pages && !(round && lastSeen == Some(b) && r >= lastOffset)
      modifies `bulk
      ensures Engaged(s', last) && s' == s.(bulk := bulk, round := round', b := b', o := 0)
      ensures (round' && !round) || (round' == round && b' == b + 1)
    {
      s' := if b + 1 < |blocks| then s.(b := b + 1, o := 0) else s.(b := 0, o := 0, round := true, bulk := false);
      NextBlock(blocks, s, r, s');
      b', round' := b + 1, round;
      if b' == |blocks| {
        b', round', bulk := 0, true, false;
      }
    }

    /** How a search that began with s ends at a place, with n bytes sent. */
    ghost predicate EndedAt(s: Search, n: nat, b: nat, o: nat, before: set<nat>)
      requires |dirty.bitmap| == cap && Layout(blocks, cap)
      reads `bulk, `lost, dirty
    {
      && CursorOk(blocks, dirty.bitmap, bulk, Some(b), o) && Fewer(dirty.bitmap, s.was)
      && (n > 0 ==> Sends(blocks, s, b, o) && bulk == s.bulk && lost <= before)
      && (n > 0 ==> |s.bits| == cap && dirty.bitmap == s.bits[PageNo(blocks, b, o) := false])
      && (n == 0 ==> Stops(blocks, s) && !bulk && NoneDirty(blocks, dirty.bitmap))
      && (n == 0 ==> Forgets(blocks, s) <= lost <= before + Forgets(blocks, s))
    }

    ghost predicate Ended(s: Search, last: bool, n: nat, b: nat, o: nat, before: set<nat>)
      reads `src, `cache, `stream, `bulk, `dst, `receiver, `lost, dirty, `lastSent
    {
      Steady(last) && EndedAt(s, n, b, o, before)
    }

    /** Back at the cursor after a whole round. */
    lemma RoundEnds(s: Search, last: bool, r: nat, before: set<nat>)
      requires Looked(s, last, r, before) && s.round && s.seen == Some(s.b) && r >= s.from
      ensures Ended(s, last, 0, s.b, r, before)
    {
      RoundDone(blocks, s, r);
    }

    /** A search under way or ended, which began with the pages `before` lost. */
    ghost predicate Sought(done: bool, s: Search, last: bool, n: nat, b: nat, o: nat, round: bool, before: set<nat>)
      reads `src, `cache, `stream, `bulk, `dst, `receiver, `lost, dirty, `lastSent, `lastSeen, `lastOffset
    {
      && Steady(last) && (done ==> EndedAt(s, n, b, o, before))
      && (!done ==> EngagedIn(s) && s.b == b && s.o == o && s.round == round && n == 0 && lost <= before)
    }

    /** One turn of the loop of ram_save_block. */
    method Turn(b: nat, o: nat, round: bool, last: bool, ghost s: Search, ghost before: set<nat>)
      returns (done: bool, n: nat, b': nat, o': nat, round': bool, ghost s': Search)
      requires Sought(false, s, last, 0, b, o, round, before)
      modifies dirty, `src, `cache, `stream, `dst, `receiver, `lost, `lastSent, `bulk
      ensures |stream| == |old(stream)| + n && (n == 0 ==> stream == old(stream) && dst == old(dst))
      ensures !running ==> src == old(src) && dirty.log == old(dirty.log)
      ensures Sought(done, s', last, n, b', o', round', before) && Began(s', s.seen, s.from, s.wasBulk, s.was)
      ensures !done ==>
        || dirty.dirtyPages < old(dirty.dirtyPages)
        || (dirty.dirtyPages == old(dirty.dirtyPages) && ((round' && !round) || (round' == round && b' == b + 1)))
      ensures dirty.dirtyPages <= old(dirty.dirtyPages)
      ensures n > 0 ==> dirty.dirtyPages < old(dirty.dirtyPages)
    {
      n, b', round', s' := 0, b, round, s;
      o' := TakeLook(b, o, last, s);
      done := round && lastSeen == Some(b) && o' >= lastOffset;
      if done {
        RoundEnds(s, last, o', old(lost));
      } else if o' >= blocks[b].pages {
        b', round', s' := Advance(b, round, last, s, o', old(lost));
        o' := 0;
      } else {
        ghost var t;
        n, t := SaveFound(b, o', last, s, old(lost));
        done := n > 0;
        s' := if done then s else t;
      }
    }

    /** Where a call starts. */
    method StartSearch(ghost last: bool) returns (b: nat, o: nat, ghost s: Search)
      requires Valid(last)
      ensures (lastSeen.Some? ==> lastSeen == Some(b)) && (lastSeen.None? ==> b == 0) && o == lastOffset
      ensures Sought(false, s, last, 0, b, o, false, lost)
      ensures Began(s, lastSeen, lastOffset, bulk, dirty.bitmap)
    {
      b, o := if lastSeen.Some? then lastSeen.value else 0, lastOffset;
      s := Search(lastSeen, lastOffset, bulk, dirty.bitmap, dirty.bitmap, bulk, false, b, o);
      SearchStart(blocks, s);
    }

    /** The loop of ram_save_block. */
    method Seek(last: bool) returns (n: nat, b: nat, o: nat, ghost s: Search)
      requires Valid(last)
      modifies dirty, `src, `cache, `stream, `dst, `receiver, `lost, `lastSent, `bulk
      ensures |stream| == |old(stream)| + n && (n == 0 ==> stream == old(stream) && dst == old(dst))
      ensures !running ==> src == old(src) && dirty.log == old(dirty.log)
      ensures Began(s, lastSeen, lastOffset, old(bulk), old(dirty.bitmap))
      ensures Ended(s, last, n, b, o, old(lost)) && (n > 0 ==> dirty.dirtyPages < old(dirty.dirtyPages))
    {
      b, o, s := StartSearch(last);
      var round, done := false, false;
      n := 0;
      while !done
        invariant Sought(done, s, last, n, b, o, round, old(lost))
        invariant Began(s, lastSeen, lastOffset, old(bulk), old(dirty.bitmap))
        invariant |stream| == |old(stream)| + n && (n == 0 ==> stream == old(stream) && dst == old(dst))
        invariant !running ==> src == old(src) && dirty.log == old(dirty.log)
        invariant dirty.dirtyPages + (if n > 0 then 1 else 0) <= old(dirty.dirtyPages)
        decreases if done then 0 else 1, dirty.dirtyPages, if round then 0 else 1, |blocks| - b
      {
        done, n, b, o, round, s := Turn(b, o, round, last, s, old(lost));
      }
    }

    /** ram_save_block: the next page that the receiver lacks is sent.  The result is the number
        of bytes written, 0 if no page is dirty.  A page is forgotten exactly in the hazard, and no
        call leaves the hazard behind. */
    method SaveBlock(last: bool) returns (n: nat)
      requires Valid(last)
      modifies dirty, `src, `cache, `stream, `dst, `receiver, `lost, `lastSent, `bulk, `lastSeen, `lastOffset
      ensures Valid(last) && |stream| == |old(stream)| + n
      ensures !running ==> src == old(src) && dirty.log == old(dirty.log)
      ensures n > 0 ==> dirty.dirtyPages < old(dirty.dirtyPages)
      ensures n == 0 ==> NoneDirty(blocks, dirty.bitmap) && stream == old(stream) && dst == old(dst)
      ensures old(NoneDirty(blocks, dirty.bitmap)) ==> n == 0
      ensures !old(AtHazard()) ==> lost <= old(lost)
      ensures old(AtHazard()) ==> n == 0 && old(lost) !! LastPages(blocks)
      ensures old(AtHazard()) ==> LastPages(blocks) <= lost <= old(lost) + LastPages(blocks)
      ensures !AtHazard() && (bulk ==> old(bulk)) && Fewer(dirty.bitmap, old(dirty.bitmap))
      ensures old(bulk) ==> InOrder(blocks, old(dirty.bitmap), old(lastSeen), old(lastOffset), n, Now())
    {
      var b, o;
      ghost var s;
      n, b, o, s := Seek(last);
      CallOver(s, n, b, o, old(lost));
      lastSeen, lastOffset := Some(b), o;
    }

    /** What a call has done, given how its search ended. */
    lemma CallOver(s: Search, n: nat, b: nat, o: nat, before: set<nat>)
      requires |dirty.bitmap| == cap && Layout(blocks, cap) && EndedAt(s, n, b, o, before)
      requires Started(blocks, s) && Unmarked(before, s.was)
      ensures var hazard := Hazard(blocks, s.was, s.wasBulk, s.seen, s.from);
        && (!hazard ==> lost <= before)
        && (hazard ==> n == 0 && before !! LastPages(blocks))
        && (hazard ==> LastPages(blocks) <= lost <= before + LastPages(blocks))
      ensures !Hazard(blocks, dirty.bitmap, bulk, Some(b), o) && (bulk ==> s.wasBulk)
      ensures NoneDirty(blocks, s.was) ==> n == 0
      ensures s.wasBulk ==>
        InOrder(blocks, s.was, s.seen, s.from, n, View(dirty.bitmap, dirty.log, bulk, Some(b), o))
    {
      HazardPage(blocks, s);
      NoHazardLeft(blocks, n, b, o, dirty.bitmap, bulk);
      BulkInOrder(blocks, s, n, b, o, View(dirty.bitmap, dirty.log, bulk, Some(b), o));
    }

    // -------------------------------------------------------------- whole runs

    /** At most the last page is lost. */
    ghost predicate Running(last: bool)
      reads `src, `cache, `stream, `bulk, `dst, `receiver, `lost, dirty, `lastSent, `lastSeen, `lastOffset
    {
      Valid(last) && lost <= LastPages(blocks)
    }

    /** migration_bitmap_sync */
    method Sync()
      requires Running(false)
      modifies dirty, `lost
      ensures Running(false) && Moved(old(dirty.bitmap), old(dirty.log), dirty.bitmap, dirty.log)
      ensures lost <= old(lost) && (Forgetful(blocks, Now()) <==> old(ForgetfulSynced(blocks, Now())))
      ensures NoneDirty(blocks, dirty.bitmap) <==> old(NoneDirty(blocks, Merged(dirty.bitmap, dirty.log)))
      ensures forall p | 0 <= p < cap && InBlock(blocks, p) :: !dirty.log[p]
    {
      dirty.Sync(blocks);
      CleanSync(blocks, src, dst, old(dirty.bitmap), old(dirty.log), lost, dirty.bitmap, dirty.log);
      CursorSync(blocks, old(dirty.bitmap), dirty.bitmap, bulk, lastSeen, lastOffset);
      lost := set p | p in lost && !(p < |dirty.bitmap| && dirty.bitmap[p]);
      ghost var merged := Merged(old(dirty.bitmap), old(dirty.log));
      HazardSame(blocks, dirty.bitmap, merged, bulk, lastSeen, lastOffset);
      NoneDirtySame(blocks, dirty.bitmap, merged);
    }

    /** The end of a section. */
    method EndSection(ghost last: bool)
      requires Running(last)
      modifies `stream
      ensures Running(last)
      ensures stream == old(stream) + Be(FLAG_EOS, 8)
    {
      SendEos(blocks, cap, stream, stream + Be(FLAG_EOS, 8), first, LoadState(dst, receiver));
      stream := stream + Be(FLAG_EOS, 8);
    }

    /** The rest of ram_save_setup: the log is synchronised, and the blocks are announced. */
    method Setup()
      requires Running(false) && stream == [] && LoadState(dst, receiver) == first
      modifies dirty, `lost, `stream
      ensures Running(false) && lost <= old(lost)
      ensures Moved(old(dirty.bitmap), old(dirty.log), dirty.bitmap, dirty.log)
      ensures stream == RamSetup.Setup(blocks) + Be(FLAG_EOS, 8)
      ensures forall p | 0 <= p < cap && InBlock(blocks, p) :: !dirty.log[p]
    {
      Sync();
      Announce();
      EndSection(false);
    }

    /** The block list goes into the stream; the receiver accepts it and stays as it is. */
    method Announce()
      requires Running(false) && LoadState(dst, receiver) == first
      modifies `stream
      ensures Running(false) && stream == RamSetup.Setup(blocks)
    {
      var setup := RamSetup.Setup(blocks);
      assert Received(blocks, cap, setup, first, first) by {
        RamSetup.SendSetup(blocks, cap, first);
      }
      stream := setup;
    }

    /** One call of a round that began with v. */
    method SaveOne(ghost i: nat, ghost v: View) returns (n: nat)
      requires Running(false) && Spent(blocks, v, Now(), i)
      modifies dirty, `src, `cache, `stream, `dst, `receiver, `lost, `lastSent, `bulk, `lastSeen, `lastOffset
      ensures Running(false) && |stream| == |old(stream)| + n && Spent(blocks, v, Now(), i + 1)
      ensures Fewer(dirty.bitmap, old(dirty.bitmap)) && !AtHazard() && (n == 0 ==> !bulk)
      ensures n == 0 ==> NoneDirty(blocks, dirty.bitmap) && dst == old(dst)
      ensures old(NoneDirty(blocks, dirty.bitmap)) ==> n == 0
      ensures old(AtHazard()) ==> n == 0 && lost == LastPages(blocks)
      ensures !old(AtHazard()) ==> lost <= old(lost)
      ensures !running ==> src == old(src) && dirty.log == old(dirty.log)
    {
      n := SaveBlock(false);
      SpendOne(blocks, v, old(Now()), i, n, Now());
    }

    /** Up to `budget` pages are sent.  Only the first call can forget one. */
    method SaveSome(budget: nat) returns (total: nat)
      requires Running(false)
      modifies dirty, `src, `cache, `stream, `dst, `receiver, `lost, `lastSent, `bulk, `lastSeen, `lastOffset
      ensures Running(false) && |stream| == |old(stream)| + total
      ensures Spent(blocks, old(Now()), Now(), budget) && Fewer(dirty.bitmap, old(dirty.bitmap))
      ensures budget == 0 ==> lost == old(lost) && total == 0
      ensures total == 0 ==> dst == old(dst) && (budget > 0 ==> NoneDirty(blocks, dirty.bitmap))
      ensures old(NoneDirty(blocks, dirty.bitmap)) ==> total == 0
      ensures budget > 0 ==> !AtHazard()
      ensures budget > 0 && old(AtHazard()) ==> total == 0 && lost == LastPages(blocks)
      ensures !old(AtHazard()) ==> lost <= old(lost)
      ensures !running ==> src == old(src) && dirty.log == old(dirty.log)
    {
      total := 0;
      var i := 0;
      while i < budget
        invariant 0 <= i <= budget && Running(false) && |stream| == |old(stream)| + total
        invariant Spent(blocks, old(Now()), Now(), i) && Fewer(dirty.bitmap, old(dirty.bitmap))
        invariant !running ==> src == old(src) && dirty.log == old(dirty.log)
        invariant (i == 0 <==> total == 0) && (i == 0 ==> lost == old(lost) && dst == old(dst))
        invariant i > 0 ==> !AtHazard() && !old(AtHazard()) && !old(NoneDirty(blocks, dirty.bitmap))
        invariant !old(AtHazard()) ==> lost <= old(lost)
      {
        var n := SaveOne(i, old(Now()));
        if n == 0 {
          break;
        }
        total := total + n;
        i := i + 1;
      }
    }

    /** ram_save_iterate; `budget` is the number of pages after which the rate limit or the
        clock ends the loop.  A page is forgotten exactly if the round begins in the hazard. */
    method Iterate(budget: nat) returns (total: nat)
      requires Running(false)
      modifies this, dirty
      ensures Running(false) && running == old(running)
      ensures |stream| == |old(stream)| + total + 8 && bytesTransferred == old(bytesTransferred) + total + 8
      ensures Spent(blocks, old(Now()), Now(), budget) && Fewer(dirty.bitmap, old(dirty.bitmap))
      ensures budget == 0 ==> lost == old(lost) && total == 0
      ensures total == 0 ==> dst == old(dst) && (budget > 0 ==> NoneDirty(blocks, dirty.bitmap))
      ensures old(NoneDirty(blocks, dirty.bitmap)) ==> total == 0
      ensures budget > 0 ==> !AtHazard()
      ensures budget > 0 && old(AtHazard()) ==> total == 0 && lost == LastPages(blocks)
      ensures !old(AtHazard()) ==> lost <= old(lost)
      ensures !running ==> src == old(src) && dirty.log == old(dirty.log)
    {
      total := SaveSome(budget);
      EndSection(false);
      bytesTransferred := bytesTransferred + total + 8;
    }

    /** ram_save_pending */
    method Pending(maxSize: nat) returns (remaining: nat)
      requires Running(false)
      modifies dirty, `lost
      ensures Running(false) && remaining == Count(dirty.bitmap, cap) * PAGE && lost <= old(lost)
      ensures Moved(old(dirty.bitmap), old(dirty.log), dirty.bitmap, dirty.log)
      ensures old(Count(dirty.bitmap, cap)) * PAGE < maxSize ==>
        forall p | 0 <= p < cap && InBlock(blocks, p) :: !dirty.log[p]
    {
      remaining := dirty.dirtyPages * PAGE;
      if remaining < maxSize {
        Sync();
        remaining := dirty.dirtyPages * PAGE;
      }
    }

    /** xbzrle_cache_resize: a cache of another size is a new, empty one. */
    method ResizeCache(size: nat)
      requires Running(false) && size > 0
      modifies `cache
      ensures Running(false)
      ensures if useXbzrle && PowFloor(size) != |old(cache)| then |cache| == PowFloor(size) && Empty(cache)
              else cache == old(cache)
    {
      if useXbzrle && PowFloor(size) != |cache| {
        cache := seq(PowFloor(size), _ => None);
      }
    }

    /** The loop of ram_save_complete.  Only the first call can forget a page. */
    method SaveAll() returns (total: nat)
      requires Running(true) && !running
      modifies dirty, `src, `cache, `stream, `dst, `receiver, `lost, `lastSent, `bulk, `lastSeen, `lastOffset
      ensures Running(true) && |stream| == |old(stream)| + total
      ensures src == old(src) && dirty.log == old(dirty.log) && NoneDirty(blocks, dirty.bitmap)
      ensures old(AtHazard()) ==> total == 0 && dst == old(dst) && lost == LastPages(blocks)
      ensures old(NoneDirty(blocks, dirty.bitmap)) ==> dst == old(dst)
      ensures !old(AtHazard()) ==> lost <= old(lost)
    {
      total := SaveBlock(true);
      var done := total == 0;
      while !done
        invariant Running(true) && |stream| == |old(stream)| + total
        invariant src == old(src) && dirty.log == old(dirty.log)
        invariant done ==> NoneDirty(blocks, dirty.bitmap)
        invariant old(AtHazard()) ==> done && total == 0 && dst == old(dst) && lost == LastPages(blocks)
        invariant old(NoneDirty(blocks, dirty.bitmap)) ==> done && dst == old(dst)
        invariant !AtHazard() && (!old(AtHazard()) ==> lost <= old(lost))
        decreases if done then 0 else 1, dirty.dirtyPages
      {
        var n := SaveBlock(true);
        total := total + n;
        done := n == 0;
      }
    }

    method SaveRest() returns (total: nat)
      requires Running(false) && !running
      modifies dirty, `src, `cache, `stream, `dst, `receiver, `lost, `lastSent, `bulk, `lastSeen, `lastOffset
      ensures Running(true) && |stream| == |old(stream)| + total
      ensures src == old(src) && NoneDirty(blocks, dirty.bitmap)
      ensures forall p | 0 <= p < cap && InBlock(blocks, p) :: !dirty.log[p]
      ensures !old(ForgetfulSynced(blocks, Now())) ==> lost <= old(lost)
      ensures old(ForgetfulSynced(blocks, Now())) ==> dst == old(dst) && lost == LastPages(blocks)
      ensures old(NoneDirty(blocks, Merged(dirty.bitmap, dirty.log))) ==> dst == old(dst)
    {
      Sync();
      total := SaveAll();
    }

    /** ram_save_complete, with the guest stopped: the receiver ends with the guest's memory, but for
        a last page that was lost before or is forgotten now.  The latter happens exactly if the cursor
        of the bulk stage stands on it and it is the only page marked in bitmap or log. */
    method Complete()
      requires Running(false) && !running
      modifies this, dirty
      ensures Running(true) && src == old(src) && NoneDirty(blocks, dirty.bitmap)
      ensures forall p | 0 <= p < cap && InBlock(blocks, p) && p !in lost :: dst[p] == src[p]
      ensures !old(ForgetfulSynced(blocks, Now())) ==> lost <= old(lost)
      ensures old(ForgetfulSynced(blocks, Now())) ==> dst == old(dst) && lost == LastPages(blocks)
      ensures old(NoneDirty(blocks, Merged(dirty.bitmap, dirty.log))) ==> dst == old(dst)
      ensures bytesTransferred - old(bytesTransferred) == |stream| - |old(stream)| - 8
    {
      var total := SaveRest();
      bytesTransferred := bytesTransferred + total;
      AllClear(blocks, cap, src, dst, dirty.bitmap, dirty.log, lost);
      EndSection(true);
    }
  }
}
