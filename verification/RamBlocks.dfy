/**
 The list of RAM blocks (exec.c 742-763, 1143-1176, 1250-1315, 1344-1391).
 */
module RamBlocks {
  import opened Common

  const PAGE: nat := 4096
  const RAM_ADDR_MAX: nat := 0xffff_ffff_ffff_ffff

  datatype Block = Block(offset: nat, length: nat) {
    function End(): nat { offset + length }
  }

  predicate Contains(b: Block, addr: nat) {
    b.offset <= addr < b.End()
  }

  predicate Apart(b: Block, c: Block) {
    b.End() <= c.offset || c.End() <= b.offset
  }

  /** Blocks are not empty, do not overlap, lie in the address space, and the bigger come first. */
  ghost predicate Good(blocks: seq<Block>) {
    && (forall i | 0 <= i < |blocks| :: blocks[i].length > 0 && blocks[i].End() <= RAM_ADDR_MAX)
    && (forall i, j | 0 <= i < j < |blocks| :: Apart(blocks[i], blocks[j]) && blocks[i].length >= blocks[j].length)
  }

  /** The first block, from i on, that contains the address. */
  function Scan(blocks: seq<Block>, addr: nat, i: nat): (r: Option<nat>)
    requires i <= |blocks|
    ensures r.Some? ==> i <= r.value < |blocks| && Contains(blocks[r.value], addr)
    ensures r.None? ==> forall j | i <= j < |blocks| :: !Contains(blocks[j], addr)
    decreases |blocks| - i
  {
    if i == |blocks| then None else if Contains(blocks[i], addr) then Some(i) else Scan(blocks, addr, i + 1)
  }

  /** An address lies in one block only. */
  lemma ScanUnique(blocks: seq<Block>, addr: nat, i: nat)
    requires Good(blocks) && i < |blocks| && Contains(blocks[i], addr)
    ensures Scan(blocks, addr, 0) == Some(i)
  {
    var j := Scan(blocks, addr, 0).value;
    assert i < j ==> Apart(blocks[i], blocks[j]);
    assert j < i ==> Apart(blocks[j], blocks[i]);
  }

  // ---------------------------------------------------------------- gaps

  /** The start of the next block at or above an address. */
  function NextStart(blocks: seq<Block>, end: nat, n: nat): (r: nat)
    requires n <= |blocks|
    ensures r <= RAM_ADDR_MAX && (end <= RAM_ADDR_MAX ==> end <= r)
  {
    if n == 0 then RAM_ADDR_MAX
    else
      var r := NextStart(blocks, end, n - 1);
      if blocks[n - 1].offset >= end && blocks[n - 1].offset < r then blocks[n - 1].offset else r
  }

  /** It is the start of a block, or the end of the address space. */
  lemma {:induction false} NextStartAttained(blocks: seq<Block>, end: nat, n: nat)
    requires n <= |blocks|
    ensures var r := NextStart(blocks, end, n);
      r == RAM_ADDR_MAX || exists i :: 0 <= i < n && blocks[i].offset == r >= end
    decreases n
  {
    if n > 0 {
      NextStartAttained(blocks, end, n - 1);
      var r := NextStart(blocks, end, n - 1);
      if NextStart(blocks, end, n) != r {
        assert blocks[n - 1].offset == NextStart(blocks, end, n);
      } else if r != RAM_ADDR_MAX {
        var i :| 0 <= i < n - 1 && blocks[i].offset == r >= end;
        assert blocks[i].offset == NextStart(blocks, end, n);
      }
    }
  }

  lemma {:induction false} NextStartBelow(blocks: seq<Block>, end: nat, n: nat, i: nat)
    requires i < n <= |blocks| && blocks[i].offset >= end
    ensures NextStart(blocks, end, n) <= blocks[i].offset
    decreases n
  {
    if i < n - 1 { NextStartBelow(blocks, end, n - 1, i); }
  }

  /** The room behind a block. */
  function Gap(blocks: seq<Block>, i: nat): (r: nat)
    requires i < |blocks| && blocks[i].End() <= RAM_ADDR_MAX
  {
    NextStart(blocks, blocks[i].End(), |blocks|) - blocks[i].End()
  }

  /** A size fits behind a block exactly if it meets no block there and stays in the address space. */
  lemma GapExactly(blocks: seq<Block>, i: nat, size: nat)
    requires Good(blocks) && i < |blocks| && size > 0
    ensures size <= Gap(blocks, i) <==>
      && blocks[i].End() + size <= RAM_ADDR_MAX
      && forall j | 0 <= j < |blocks| :: Apart(Block(blocks[i].End(), size), blocks[j])
  {
    var end := blocks[i].End();
    NextStartAttained(blocks, end, |blocks|);
    if size <= Gap(blocks, i) {
      forall j | 0 <= j < |blocks| ensures Apart(Block(end, size), blocks[j]) {
        GapFree(blocks, i, size, j);
      }
    } else if NextStart(blocks, end, |blocks|) < RAM_ADDR_MAX {
      var j :| 0 <= j < |blocks| && blocks[j].offset == NextStart(blocks, end, |blocks|) >= end;
      assert !Apart(Block(end, size), blocks[j]);
    }
  }

  /** What fits in the room behind a block does not meet any block. */
  lemma GapFree(blocks: seq<Block>, i: nat, size: nat, j: nat)
    requires Good(blocks) && i < |blocks| && size <= Gap(blocks, i) && j < |blocks|
    ensures Apart(Block(blocks[i].End(), size), blocks[j])
  {
    if blocks[j].offset >= blocks[i].End() {
      NextStartBelow(blocks, blocks[i].End(), |blocks|, j);
    } else if j != i {
      assert if i < j then Apart(blocks[i], blocks[j]) else Apart(blocks[j], blocks[i]);
    }
  }

  class RamList {
    var blocks: seq<Block>
    var mru: Option<nat>

    ghost predicate Valid()
      reads this
    {
      Good(blocks) && (mru.Some? ==> mru.value < |blocks|)
    }

    constructor ()
      ensures Valid() && blocks == []
    {
      blocks, mru := [], None;
    }

    /** qemu_get_ram_block: the block used last is tried first, and the answer is that of a full
        scan; without one the source gives up. */
    method GetRamBlock(addr: nat) returns (r: Option<nat>)
      requires Valid()
      modifies `mru
      ensures Valid() && r == Scan(blocks, addr, 0) && (r.Some? ==> mru == r)
    {
      if mru.Some? && Contains(blocks[mru.value], addr) {
        ScanUnique(blocks, addr, mru.value);
        return mru;
      }
      var i := 0;
      while i < |blocks| && !Contains(blocks[i], addr)
        invariant 0 <= i <= |blocks| && Scan(blocks, addr, 0) == Scan(blocks, addr, i)
      {
        i := i + 1;
      }
      if i == |blocks| {
        return None;
      }
      mru := Some(i);
      r := mru;
    }

    /** The inner loop of find_ram_offset. */
    method FindNext(end: nat) returns (next: nat)
      requires Valid()
      ensures next == NextStart(blocks, end, |blocks|)
    {
      next := RAM_ADDR_MAX;
      for i := 0 to |blocks|
        invariant next == NextStart(blocks, end, i)
      {
        if blocks[i].offset >= end {
          next := if next < blocks[i].offset then next else blocks[i].offset;
        }
      }
    }

    /** find_ram_offset: the smallest gap behind a block that is big enough; without one the source
        gives up. */
    method FindRamOffset(size: nat) returns (r: Option<nat>)
      requires Valid() && size > 0
      ensures blocks == [] ==> r == Some(0)
      ensures r.None? <==> blocks != [] && NoGap(blocks, size)
      ensures r.Some? && blocks != [] ==>
        exists i :: 0 <= i < |blocks| && BestGap(blocks, i, size) && r.value == blocks[i].End()
    {
      if |blocks| == 0 {
        return Some(0);
      }
      r := None;
      var mingap := RAM_ADDR_MAX;
      ghost var best := 0;
      for i := 0 to |blocks|
        invariant r.None? ==> mingap == RAM_ADDR_MAX && forall j | 0 <= j < i :: Gap(blocks, j) < size
        invariant r.Some? ==> 0 <= best < i && r.value == blocks[best].End() && mingap == Gap(blocks, best) >= size
        invariant r.Some? ==> forall j | 0 <= j < i && Gap(blocks, j) >= size :: mingap <= Gap(blocks, j)
      {
        var end := blocks[i].End();
        var next := FindNext(end);
        assert next - end == Gap(blocks, i);
        if next - end >= size && next - end < mingap {
          r, mingap, best := Some(end), next - end, i;
        }
      }
      assert r.Some? ==> BestGap(blocks, best, size);
    }

    /** qemu_ram_alloc_from_ptr: the new block does not meet any other, and stands behind all that are
        not smaller. */
    method Alloc(size: nat) returns (r: Option<nat>)
      requires Valid() && 0 < size && size + PAGE <= RAM_ADDR_MAX
      modifies this
      ensures Valid()
      ensures r.None? ==> blocks == old(blocks)
      ensures r.None? <==> old(blocks) != [] && old(NoGap(blocks, RoundUp(size, PAGE)))
      ensures r.Some? ==>
        if old(blocks) == [] then r.value == 0
        else
          exists i :: 0 <= i < |old(blocks)|
            && old(BestGap(blocks, i, RoundUp(size, PAGE)) && r.value == blocks[i].End())
      ensures r.Some? ==> exists p ::
        && 0 <= p <= |old(blocks)|
        && blocks == old(blocks)[..p] + [Block(r.value, RoundUp(size, PAGE))] + old(blocks)[p..]
        && (forall i | 0 <= i < |old(blocks)| :: Apart(Block(r.value, RoundUp(size, PAGE)), old(blocks)[i]))
        && (forall i | 0 <= i < p :: old(blocks)[i].length >= RoundUp(size, PAGE))
        && (forall i | p <= i < |old(blocks)| :: old(blocks)[i].length < RoundUp(size, PAGE))
    {
      var length := RoundUp(size, PAGE);
      r := FindRamOffset(length);
      if r.None? {
        return;
      }
      NewApart(blocks, Block(r.value, length));
      Insert(Block(r.value, length));
    }

    /** The list stays sorted from biggest to smallest. */
    method Insert(b: Block)
      requires Valid() && b.length > 0 && b.End() <= RAM_ADDR_MAX && forall i | 0 <= i < |blocks| :: Apart(b, blocks[i])
      modifies this
      ensures Valid()
      ensures exists p ::
        && 0 <= p <= |old(blocks)| && blocks == old(blocks)[..p] + [b] + old(blocks)[p..]
        && (forall i | 0 <= i < p :: old(blocks)[i].length >= b.length)
        && (forall i | p <= i < |old(blocks)| :: old(blocks)[i].length < b.length)
    {
      var p := 0;
      while p < |blocks| && blocks[p].length >= b.length
        invariant 0 <= p <= |blocks| && forall i | 0 <= i < p :: blocks[i].length >= b.length
      {
        p := p + 1;
      }
      InsertGood(blocks, b, p);
      blocks := blocks[..p] + [b] + blocks[p..];
      mru := None;
    }

    /** qemu_ram_free */
    method Free(addr: nat)
      requires Valid()
      modifies this
      ensures Valid()
      ensures (exists i :: 0 <= i < |old(blocks)| && old(blocks)[i].offset == addr
                        && blocks == old(blocks)[..i] + old(blocks)[i + 1..])
           || (blocks == old(blocks) && forall i | 0 <= i < |blocks| :: blocks[i].offset != addr)
    {
      var i := 0;
      while i < |blocks| && blocks[i].offset != addr
        invariant 0 <= i <= |blocks| && forall j | 0 <= j < i :: blocks[j].offset != addr
      {
        i := i + 1;
      }
      if i < |blocks| {
        blocks, mru := blocks[..i] + blocks[i + 1..], None;
      }
    }
  }

  /** No gap is big enough. */
  ghost predicate NoGap(blocks: seq<Block>, size: nat)
    requires forall j | 0 <= j < |blocks| :: blocks[j].End() <= RAM_ADDR_MAX
  {
    forall i | 0 <= i < |blocks| :: Gap(blocks, i) < size
  }

  /** Big enough, and no gap that is big enough is smaller. */
  ghost predicate BestGap(blocks: seq<Block>, i: nat, size: nat)
    requires i < |blocks| && forall j | 0 <= j < |blocks| :: blocks[j].End() <= RAM_ADDR_MAX
  {
    Gap(blocks, i) >= size && forall j | 0 <= j < |blocks| && Gap(blocks, j) >= size :: Gap(blocks, i) <= Gap(blocks, j)
  }

  lemma NewApart(blocks: seq<Block>, b: Block)
    requires Good(blocks) && 0 < b.length <= RAM_ADDR_MAX
    requires blocks == [] ==> b.offset == 0
    requires blocks != [] ==>
      exists i :: 0 <= i < |blocks| && BestGap(blocks, i, b.length) && b.offset == blocks[i].End()
    ensures b.End() <= RAM_ADDR_MAX && forall j | 0 <= j < |blocks| :: Apart(b, blocks[j])
  {
    if blocks != [] {
      var i :| 0 <= i < |blocks| && BestGap(blocks, i, b.length) && b.offset == blocks[i].End();
      forall j | 0 <= j < |blocks| ensures Apart(b, blocks[j]) {
        GapFree(blocks, i, b.length, j);
      }
    }
  }

  lemma InsertGood(blocks: seq<Block>, b: Block, p: nat)
    requires Good(blocks) && p <= |blocks| && b.length > 0 && b.End() <= RAM_ADDR_MAX
    requires forall j | 0 <= j < |blocks| :: Apart(b, blocks[j])
    requires forall i | 0 <= i < p :: blocks[i].length >= b.length
    requires p < |blocks| ==> blocks[p].length < b.length
    ensures Good(blocks[..p] + [b] + blocks[p..])
  {
    var r := blocks[..p] + [b] + blocks[p..];
    forall i, j | 0 <= i < j < |r| ensures Apart(r[i], r[j]) && r[i].length >= r[j].length {
      var x, y := if i <= p then i else i - 1, if j <= p then j else j - 1;
      if i != p && j != p {
        assert r[i] == blocks[x] && r[j] == blocks[y];
      } else if i == p && p < y {
        assert blocks[p].length >= blocks[y].length;
      }
    }
  }
}
