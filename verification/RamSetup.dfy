/**
 The setup section of a RAM migration (arch_init.c 769-788, 1012-1048): the sender announces its
 blocks, and the receiver compares them with its own.
 */
module RamSetup {
  import opened Common
  import opened Bytes
  import opened RamStream

  /** ram_bytes_total, in pages. */
  function TotalPages(blocks: seq<Block>, from: nat): nat
    requires from <= |blocks|
    decreases |blocks| - from
  {
    if from == |blocks| then 0 else blocks[from].pages + TotalPages(blocks, from + 1)
  }

  function BlockEntry(b: Block): (r: seq<Byte>)
    requires |b.name| <= 255
    ensures |r| == 9 + |b.name|
  {
    [|b.name| as Byte] + (b.name + Be(b.pages * PAGE, 8))
  }

  ghost predicate Announced(blocks: seq<Block>) {
    && (forall b | 0 <= b < |blocks| :: |blocks[b].name| <= 255 && blocks[b].pages > 0)
    && TotalPages(blocks, 0) * PAGE < TWO64
  }

  function Entries(blocks: seq<Block>, from: nat): seq<Byte>
    requires from <= |blocks| && forall b | 0 <= b < |blocks| :: |blocks[b].name| <= 255
    decreases |blocks| - from
  {
    if from == |blocks| then [] else BlockEntry(blocks[from]) + Entries(blocks, from + 1)
  }

  /** What ram_save_setup writes. */
  function Setup(blocks: seq<Block>): seq<Byte>
    requires forall b | 0 <= b < |blocks| :: |blocks[b].name| <= 255
  {
    Be(TotalPages(blocks, 0) * PAGE + FLAG_MEM_SIZE, 8) + Entries(blocks, 0)
  }

  /** The receiver has a block of that name, and the first one has that length. */
  predicate Known(mine: seq<Block>, b: Block) {
    var i := FindBlock(mine, b.name, 0);
    i.Some? && mine[i.value].pages == b.pages
  }

  lemma {:induction false} TotalFrom(blocks: seq<Block>, from: nat)
    requires from <= |blocks|
    ensures TotalPages(blocks, from) <= TotalPages(blocks, 0)
    decreases from
  {
    if from > 0 {
      TotalFrom(blocks, from - 1);
    }
  }

  /** The receiver reads this entry at a position. */
  ghost predicate EntryAt(s: seq<Byte>, at: nat, b: Block) {
    && at + 9 + |b.name| <= |s| && s[at] as nat == |b.name|
    && Part(s, at + 1, at + 1 + |b.name|) == b.name && UnBe(s, at + 1 + |b.name|, 8) == b.pages * PAGE
  }

  lemma EntryRead(s: seq<Byte>, at: nat, b: Block)
    requires |b.name| <= 255 && b.pages * PAGE < TWO64 && At(s, at, BlockEntry(b))
    ensures EntryAt(s, at, b)
  {
    var length := Be(b.pages * PAGE, 8);
    AtSplit(s, at, [|b.name| as Byte], b.name + length);
    ByteAt(s, at, |b.name| as Byte);
    AtSplit(s, at + 1, b.name, length);
    AtPart(s, at + 1, b.name);
    Pow256Values();
    BeRoundTrip(s, at + 1 + |b.name|, b.pages * PAGE, 8);
  }

  function EntriesEnd(blocks: seq<Block>, from: nat, at: nat): nat
    requires from <= |blocks|
    decreases |blocks| - from
  {
    if from == |blocks| then at else EntriesEnd(blocks, from + 1, at + 9 + |blocks[from].name|)
  }

  ghost predicate EntriesAt(s: seq<Byte>, at: nat, blocks: seq<Block>, from: nat)
    requires from <= |blocks|
    decreases |blocks| - from
  {
    if from == |blocks| then at <= |s|
    else EntryAt(s, at, blocks[from]) && EntriesAt(s, at + 9 + |blocks[from].name|, blocks, from + 1)
  }

  lemma {:induction false} EntriesRead(s: seq<Byte>, at: nat, blocks: seq<Block>, from: nat)
    requires Announced(blocks) && from <= |blocks| && At(s, at, Entries(blocks, from))
    ensures EntriesAt(s, at, blocks, from) && EntriesEnd(blocks, from, at) == at + |Entries(blocks, from)|
    decreases |blocks| - from
  {
    if from < |blocks| {
      TotalFrom(blocks, from);
      AtSplit(s, at, BlockEntry(blocks[from]), Entries(blocks, from + 1));
      EntryRead(s, at, blocks[from]);
      EntriesRead(s, at + 9 + |blocks[from].name|, blocks, from + 1);
    }
  }

  predicate AllKnown(mine: seq<Block>, blocks: seq<Block>, from: nat)
    requires from <= |blocks|
    decreases |blocks| - from
  {
    from == |blocks| || (Known(mine, blocks[from]) && AllKnown(mine, blocks, from + 1))
  }

  lemma {:induction false} KnownEach(mine: seq<Block>, blocks: seq<Block>, from: nat)
    requires from <= |blocks|
    ensures AllKnown(mine, blocks, from) <==> forall b | from <= b < |blocks| :: Known(mine, blocks[b])
    decreases |blocks| - from
  {
    if from < |blocks| {
      KnownEach(mine, blocks, from + 1);
    }
  }

  /** One round of the receiver's loop. */
  lemma ListStep(mine: seq<Block>, s: seq<Byte>, at: nat, b: Block, total: nat)
    requires b.pages > 0 && EntryAt(s, at, b) && b.pages * PAGE <= total < TWO64
    ensures BlockList(mine, s, at, total)
         == if Known(mine, b) then BlockList(mine, s, at + 9 + |b.name|, total - b.pages * PAGE) else None
  {}

  /** The list is accepted exactly if every block of the sender is known. */
  lemma {:induction false} ListAccepted(mine: seq<Block>, blocks: seq<Block>, s: seq<Byte>, at: nat, from: nat,
                                        total: nat)
    requires Announced(blocks) && from <= |blocks| && EntriesAt(s, at, blocks, from)
    requires total == TotalPages(blocks, from) * PAGE
    ensures BlockList(mine, s, at, total)
         == if AllKnown(mine, blocks, from) then Some(EntriesEnd(blocks, from, at)) else None
    decreases |blocks| - from
  {
    if from < |blocks| {
      var b := blocks[from];
      TotalFrom(blocks, from);
      ListStep(mine, s, at, b, total);
      ListAccepted(mine, blocks, s, at + 9 + |b.name|, from + 1, total - b.pages * PAGE);
    }
  }

  /** The record of the setup section, given what its parts say. */
  lemma SetupRecord(mine: seq<Block>, cap: nat, s: seq<Byte>, at: nat, st: LoadState, total: nat, end: Option<nat>)
    requires Loadable(mine, cap, st) && at + 8 <= |s| && BlockList(mine, s, at + 8, total * PAGE) == end
    requires UnBe(s, at, 8) % PAGE == FLAG_MEM_SIZE && UnBe(s, at, 8) / PAGE == total
    ensures LoadRecord(mine, cap, s, at, st) == if end.Some? then Loaded(end.value, st, false) else Failed
  {}

  lemma SetupParts(blocks: seq<Block>, s: seq<Byte>, at: nat)
    requires Announced(blocks) && At(s, at, Setup(blocks))
    ensures At(s, at, Be(TotalPages(blocks, 0) * PAGE + FLAG_MEM_SIZE, 8)) && At(s, at + 8, Entries(blocks, 0))
    ensures |Setup(blocks)| == 8 + |Entries(blocks, 0)|
  {
    AtSplit(s, at, Be(TotalPages(blocks, 0) * PAGE + FLAG_MEM_SIZE, 8), Entries(blocks, 0));
  }

  lemma EntriesAccepted(mine: seq<Block>, blocks: seq<Block>, s: seq<Byte>, at: nat, total: nat, end: nat)
    requires Announced(blocks) && At(s, at, Entries(blocks, 0)) && end == at + |Entries(blocks, 0)|
    requires total == TotalPages(blocks, 0) * PAGE
    ensures BlockList(mine, s, at, total)
         == if forall b | 0 <= b < |blocks| :: Known(mine, blocks[b]) then Some(end) else None
  {
    EntriesRead(s, at, blocks, 0);
    ListAccepted(mine, blocks, s, at, 0, total);
    KnownEach(mine, blocks, 0);
  }

  /** The receiver goes on after the setup section exactly if it knows every block of the sender with the
      same length; nothing else about the two lists matters. */
  lemma SetupAccepted(mine: seq<Block>, cap: nat, blocks: seq<Block>, s: seq<Byte>, at: nat, st: LoadState, end: nat)
    requires Loadable(mine, cap, st) && Announced(blocks) && At(s, at, Setup(blocks)) && end == at + |Setup(blocks)|
    ensures LoadRecord(mine, cap, s, at, st)
         == if forall b | 0 <= b < |blocks| :: Known(mine, blocks[b]) then Loaded(end, st, false) else Failed
  {
    var total := TotalPages(blocks, 0);
    SetupParts(blocks, s, at);
    HeaderWord(s, at, total, FLAG_MEM_SIZE);
    EntriesAccepted(mine, blocks, s, at + 8, total * PAGE, end);
    SetupRecord(mine, cap, s, at, st, total, BlockList(mine, s, at + 8, total * PAGE));
  }

  // ---------------------------------------------------------------- the total fits

  function Range(lo: nat, n: nat): (r: set<nat>)
    ensures |r| == n && forall p <- r :: lo <= p < lo + n
    ensures forall p | lo <= p < lo + n :: p in r
  {
    if n == 0 then {} else Range(lo, n - 1) + {lo + n - 1}
  }

  /** The pages of the blocks from one on. */
  function PagesFrom(blocks: seq<Block>, from: nat): set<nat>
    requires from <= |blocks|
    decreases |blocks| - from
  {
    if from == |blocks| then {} else Range(blocks[from].start, blocks[from].pages) + PagesFrom(blocks, from + 1)
  }

  lemma {:induction false} PagesCounted(blocks: seq<Block>, cap: nat, from: nat)
    requires Layout(blocks, cap) && from <= |blocks|
    ensures PagesFrom(blocks, from) <= Range(0, cap) && |PagesFrom(blocks, from)| == TotalPages(blocks, from)
    ensures forall p <- PagesFrom(blocks, from) ::
              exists b :: from <= b < |blocks| && p in Range(blocks[b].start, blocks[b].pages)
    decreases |blocks| - from
  {
    if from < |blocks| {
      var r := Range(blocks[from].start, blocks[from].pages);
      PagesCounted(blocks, cap, from + 1);
      assert r !! PagesFrom(blocks, from + 1);
    }
  }

  lemma {:induction false} SubsetSize(a: set<nat>, b: set<nat>)
    requires a <= b
    ensures |a| <= |b|
  {
    if a != {} {
      var x :| x in a;
      SubsetSize(a - {x}, b - {x});
    }
  }

  /** Disjoint blocks have no more pages than the memory. */
  lemma TotalFits(blocks: seq<Block>, cap: nat)
    requires Layout(blocks, cap) && Named(blocks)
    ensures TotalPages(blocks, 0) <= cap && Announced(blocks)
  {
    PagesCounted(blocks, cap, 0);
    SubsetSize(PagesFrom(blocks, 0), Range(0, cap));
  }

  /** A receiver with the same blocks accepts them. */
  lemma SendSetup(blocks: seq<Block>, cap: nat, first: LoadState)
    requires Loadable(blocks, cap, first) && Named(blocks)
    ensures Received(blocks, cap, Setup(blocks), first, first)
  {
    TotalFits(blocks, cap);
    SetupAccepted(blocks, cap, blocks, Setup(blocks), 0, first, |Setup(blocks)|);
    LoadLast(blocks, cap, Setup(blocks), 0, first, first);
  }
}
