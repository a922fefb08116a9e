/**
 phys_page_set and its helpers (exec.c) on a growing node array that is written in
 place.  Setting a range of unassigned pages maps exactly that range, never outgrows
 the nodes reserved up front, and never goes below the bottom level.
 */
module PhysPageTable {
  import opened Common
  import opened PhysMap
  import opened PhysCompact

  /** How many nodes one call on a level may allocate: a range that starts at the
      first page of the node or reaches its last one has a single ragged edge. */
  function AllocBound(level: nat, prefix: nat, index: nat, nb: nat): nat {
    if index == prefix * Size(level + 1) || index + nb >= prefix * Size(level + 1) + Size(level + 1)
    then level + 1
    else 2 * level + 1
  }

  /** First page below slot k of the node at (level, prefix). */
  function SlotBase(level: nat, prefix: nat, k: nat): nat {
    (prefix * 512 + k) * Size(level)
  }

  lemma SlotBaseNext(level: nat, prefix: nat, k: nat)
    ensures SlotBase(level, prefix, k + 1) == SlotBase(level, prefix, k) + Size(level)
    ensures SlotBase(level, prefix, 0) == prefix * Size(level + 1)
    ensures SlotBase(level, prefix, 512) == prefix * Size(level + 1) + Size(level + 1)
  {
    var z := Size(level);
    assert (prefix * 512 + k + 1) * z == (prefix * 512 + k) * z + z;
    assert prefix * (512 * z) == (prefix * 512) * z;
    assert (prefix * 512 + 512) * z == (prefix * 512) * z + 512 * z;
  }

  /** The alignment test of the loop asks whether the index starts the slot. */
  lemma AlignedAtSlot(level: nat, prefix: nat, k: nat, index: nat)
    requires SlotBase(level, prefix, k) <= index < SlotBase(level, prefix, k) + Size(level)
    ensures index % Size(level) == 0 <==> index == SlotBase(level, prefix, k)
    ensures Shift(index, level) == prefix * 512 + k
  {
    DivUnique(index, Size(level), prefix * 512 + k, index - SlotBase(level, prefix, k));
    ShiftRange(index, level, prefix * 512 + k);
  }

  lemma IndexInSlot(level: nat, prefix: nat, index: nat)
    requires Shift(index, level + 1) == prefix
    ensures var k := Digit(index, level);
            SlotBase(level, prefix, k) <= index < SlotBase(level, prefix, k) + Size(level)
  {
    ShiftNext(index, level);
    ShiftRange(index, level, prefix * 512 + Digit(index, level));
  }

  lemma SlotBaseBounds(level: nat, prefix: nat, k: nat)
    requires k < L2_SIZE
    ensures SlotBase(level, prefix, 0) <= SlotBase(level, prefix, k)
    ensures k > 0 ==> SlotBase(level, prefix, 0) < SlotBase(level, prefix, k)
    ensures SlotBase(level, prefix, k) + Size(level) <= SlotBase(level, prefix, 512)
  {
    var z := Size(level);
    assert (prefix * 512 + k) * z == (prefix * 512) * z + k * z;
    assert (prefix * 512 + 512) * z == (prefix * 512) * z + 512 * z;
    assert 512 * z == k * z + (512 - k) * z;
    MulGe(512 - k, z);
    MulGe(k, z);
  }

  /** What filling one slot may allocate: nothing for a leaf. */
  function SlotAlloc(level: nat, prefix: nat, k: nat, index: nat, nb: nat): nat {
    if level == 0 || (index == SlotBase(level, prefix, k) && nb >= Size(level)) then 0
    else AllocBound(level - 1, prefix * 512 + k, index, nb)
  }

  /** The pages of a range below one node have at most two ragged slots, the first
      and the last one; this is what filling the next slot may still allocate. */
  lemma Budget(level: nat, prefix: nat, k0: nat, index0: nat, nb0: nat, k: nat, index: nat, nb: nat)
    requires k0 <= k < L2_SIZE && nb > 0 && index + nb == index0 + nb0
    requires SlotBase(level, prefix, k0) <= index0 < SlotBase(level, prefix, k0) + Size(level)
    requires SlotBase(level, prefix, k) <= index < SlotBase(level, prefix, k) + Size(level)
    requires index != index0 ==> index == SlotBase(level, prefix, k)
    requires index == index0 ==> k == k0
    ensures var used := if index != index0 && index0 != SlotBase(level, prefix, k0) then level else 0;
      var more := SlotAlloc(level, prefix, k, index, nb);
      && 1 + used + more <= AllocBound(level, prefix, index0, nb0)
      && (index + nb > SlotBase(level, prefix, k) + Size(level) ==>
            used + more <= if index0 != SlotBase(level, prefix, k0) then level else 0)
  {
    SlotBaseNext(level, prefix, k);
    SlotBaseBounds(level, prefix, k0);
    SlotBaseBounds(level, prefix, k);
    if level > 0 {
      assert (prefix * 512 + k) * Size(level - 1 + 1) == SlotBase(level, prefix, k);
    }
  }

  lemma RefinesAllReflexive(nodes: seq<Node>, root: Entry, place: seq<Place>)
    requires Levelled(nodes, root, place)
    ensures RefinesAll(nodes, root, nodes, root, place)
  {
    forall n, k | 0 <= n < |nodes| && 0 <= k < L2_SIZE
      ensures Refines(nodes, nodes[n][k], nodes, nodes[n][k], place[n].level)
    {
      RefinesReflexive(nodes, nodes, nodes[n][k], place[n].level);
    }
    RefinesReflexive(nodes, nodes, root, LEVELS);
  }

  lemma LocEntryOk(nodes: seq<Node>, root: Entry, place: seq<Place>, loc: Loc)
    requires Levelled(nodes, root, place)
    requires loc.At? ==> loc.n < |nodes| && loc.k < L2_SIZE
    ensures EntryOk(nodes, place, Get(nodes, root, loc), LevelOf(place, loc))
  {
    if loc.At? { assert EntryOk(nodes, place, nodes[loc.n][loc.k], place[loc.n].level); }
  }

  class PageTable {
    var nodes: seq<Node>
    var nodesAlloc: nat
    var root: Entry
    ghost var place: seq<Place>

    ghost predicate Valid()
      reads this
    {
      Shape(nodes, root, place) && |nodes| <= nodesAlloc
    }

    /** The section number page x maps to. */
    ghost function Map(x: nat): nat
      reads this`nodes, this`root
    {
      Walk(nodes, root, LEVELS, x)
    }

    constructor ()
      ensures Valid() && root == NIL && nodes == []
      ensures forall x: nat :: Map(x) == UNASSIGNED
    {
      nodes, nodesAlloc, root, place := [], 0, NIL, [];
    }

    /** phys_map_node_reserve */
    method Reserve(n: nat)
      requires |nodes| <= nodesAlloc
      modifies this`nodesAlloc
      ensures |nodes| + n <= nodesAlloc
    {
      if |nodes| + n > nodesAlloc {
        nodesAlloc := Max(nodesAlloc * 2, 16);
        nodesAlloc := Max(nodesAlloc, |nodes| + n);
      }
    }

    /** The node below `loc`, allocated if there is none yet. */
    method NodeBelow(loc: Loc, level: nat, ghost prefix: nat) returns (n: nat)
      requires Valid() && level < LEVELS && LocOk(nodes, place, loc, level, prefix)
      requires loc.At? ==> level + 1 < LEVELS
      requires Get(nodes, root, loc).skip == 1 && ReachedLoc(nodes, root, place, loc)
      requires |nodes| < nodesAlloc && |nodes| < NODE_NIL
      modifies this`nodes, this`root, this`place
      ensures Valid() && old(place) <= place && |place| <= |old(place)| + 1
      ensures n < |nodes| && place[n] == Place(level, prefix) && Reached(nodes, root, place, n)
      ensures loc.At? ==> root == old(root)
      ensures LocOk(nodes, place, loc, level, prefix) && Get(nodes, root, loc).skip == 1
      ensures forall m | 0 <= m < |old(nodes)| && loc != At(m, if loc.At? then loc.k else 0) ::
                nodes[m] == old(nodes)[m]
      ensures loc.At? ==> nodes[loc.n] == old(nodes)[loc.n][loc.k := nodes[loc.n][loc.k]]
      ensures forall x: nat | x < Size(LEVELS) :: Map(x) == old(Map(x))
    {
      var e := Get(nodes, root, loc);
      if e.ptr == NODE_NIL {
        LinkShape(nodes, root, place, loc, level, prefix);
        ReachedFresh(nodes, root, place, loc, level, prefix);
        forall x: nat | x < Size(LEVELS) {
          LinkRootWalk(nodes, root, place, loc, level, prefix, x);
        }
        n := |nodes|;
        place := place + [Place(level, prefix)];
        nodes := nodes + [FreshNode(level)];
        if loc.Root? {
          root := Entry(1, n);
        } else {
          nodes := nodes[loc.n := nodes[loc.n][loc.k := Entry(1, n)]];
        }
      } else {
        ReachedChild(nodes, root, place, loc, level, prefix);
        n := e.ptr;
      }
    }

    /** `lp->skip = 0; lp->ptr = leaf` for slot k of node n. */
    method PutLeaf(n: nat, k: nat, leaf: nat)
      requires Valid() && n < |nodes| && k < L2_SIZE && place[n].level < LEVELS
      requires Reached(nodes, root, place, n)
      requires leaf != UNASSIGNED && leaf != NODE_NIL
      modifies this`nodes
      ensures Valid() && |nodes| == |old(nodes)| && Reached(nodes, root, place, n)
      ensures forall m | 0 <= m < |nodes| && m != n :: nodes[m] == old(nodes)[m]
      ensures var lo := SlotBase(place[n].level, place[n].prefix, k);
        forall x: nat | x < Size(LEVELS) ::
          Map(x) == if lo <= x < lo + Size(place[n].level) then leaf else old(Map(x))
    {
      LeafShape(nodes, root, place, n, k, leaf);
      ghost var before, after := nodes, nodes[n := nodes[n][k := Entry(0, leaf)]];
      ghost var lo := SlotBase(place[n].level, place[n].prefix, k);
      forall x: nat | x < Size(LEVELS)
        ensures Walk(after, root, LEVELS, x)
             == if lo <= x < lo + Size(place[n].level) then leaf else Walk(before, root, LEVELS, x)
      {
        LeafWalk(nodes, root, place, n, k, leaf, x);
        ShiftRange(x, place[n].level, place[n].prefix * 512 + k);
      }
      ReachedFrame(nodes, root, place, after, place, n);
      nodes := nodes[n := nodes[n][k := Entry(0, leaf)]];
      assert nodes == after;
    }

    /** One round of the loop in phys_page_set_level: slot k takes a leaf, or the next
        level down fills part of it. */
    method SetSlot(n: nat, k: nat, index0: nat, nb0: nat, leaf: nat, level: nat, ghost prefix: nat)
      returns (index: nat, nb: nat)
      requires Valid() && level < LEVELS && n < |nodes| && k < L2_SIZE
      requires place[n] == Place(level, prefix) && Reached(nodes, root, place, n)
      requires nb0 > 0 && index0 + nb0 <= Size(LEVELS)
      requires SlotBase(level, prefix, k) <= index0 < SlotBase(level, prefix, k) + Size(level)
      requires forall x: nat | index0 <= x < index0 + nb0 :: Map(x) == UNASSIGNED
      requires leaf != UNASSIGNED && leaf != NODE_NIL
      requires |nodes| + SlotAlloc(level, prefix, k, index0, nb0) <= Min(nodesAlloc, NODE_NIL)
      modifies this`nodes, this`root, this`place
      ensures Valid() && old(place) <= place && root == old(root)
      ensures Reached(nodes, root, place, n)
      ensures |nodes| <= |old(nodes)| + SlotAlloc(level, prefix, k, index0, nb0)
      ensures index == Min(index0 + nb0, SlotBase(level, prefix, k) + Size(level))
      ensures index + nb == index0 + nb0
      ensures forall x: nat | x < Size(LEVELS) ::
                Map(x) == if index0 <= x < index then leaf else old(Map(x))
      ensures forall m | 0 <= m < |old(nodes)| && old(place)[m].level > level :: nodes[m] == old(nodes)[m]
      decreases level, 0
    {
      AlignedAtSlot(level, prefix, k, index0);
      if index0 % Size(level) == 0 && nb0 >= Size(level) {
        PutLeaf(n, k, leaf);
        index, nb := index0 + Size(level), nb0 - Size(level);
      } else {
        assert Map(index0) == UNASSIGNED;
        SlotNotLeaf(nodes, root, place, n, k, index0);
        index, nb := SetLevel(At(n, k), index0, nb0, leaf, level - 1, prefix * 512 + k);
        ReachedFrame(old(nodes), root, old(place), nodes, place, n);
      }
    }

    /** The loop of phys_page_set_level over the slots of node n. */
    method FillSlots(n: nat, index0: nat, nb0: nat, leaf: nat, level: nat, ghost prefix: nat)
      returns (index: nat, nb: nat)
      requires Valid() && level < LEVELS && n < |nodes|
      requires place[n] == Place(level, prefix) && Reached(nodes, root, place, n)
      requires nb0 > 0 && Shift(index0, level + 1) == prefix && index0 + nb0 <= Size(LEVELS)
      requires forall x: nat | index0 <= x < index0 + nb0 :: Map(x) == UNASSIGNED
      requires leaf != UNASSIGNED && leaf != NODE_NIL
      requires |nodes| + AllocBound(level, prefix, index0, nb0) <= Min(nodesAlloc, NODE_NIL) + 1
      modifies this`nodes, this`root, this`place
      ensures Valid() && old(place) <= place && root == old(root)
      ensures |nodes| + 1 <= |old(nodes)| + AllocBound(level, prefix, index0, nb0)
      ensures index == Min(index0 + nb0, prefix * Size(level + 1) + Size(level + 1))
      ensures index + nb == index0 + nb0
      ensures forall x: nat | x < Size(LEVELS) ::
                Map(x) == if index0 <= x < index then leaf else old(Map(x))
      ensures forall m | 0 <= m < |old(nodes)| && old(place)[m].level > level :: nodes[m] == old(nodes)[m]
      decreases level, 1
    {
      index, nb := index0, nb0;
      var k := Digit(index, level);
      IndexInSlot(level, prefix, index);
      SlotBaseNext(level, prefix, k);
      SlotBaseBounds(level, prefix, k);
      ghost var k0, start := k, SlotBase(level, prefix, k);
      ghost var slot, end := start, SlotBase(level, prefix, 512);
      while nb > 0 && k < L2_SIZE
        invariant Valid() && old(place) <= place && root == old(root) && n < |old(nodes)| <= |nodes|
        invariant Reached(nodes, root, place, n)
        invariant forall m | 0 <= m < |old(nodes)| && old(place)[m].level > level :: nodes[m] == old(nodes)[m]
        invariant index0 <= index <= end && index + nb == index0 + nb0
        invariant k0 <= k <= L2_SIZE && slot == SlotBase(level, prefix, k)
        invariant index == index0 ==> k == k0
        invariant nb > 0 ==> if index == index0 then slot <= index < slot + Size(level) else index == slot
        invariant nb > 0 ==>
                    |nodes| <= |old(nodes)| + if index != index0 && index0 != start then level else 0
        invariant |nodes| + 1 <= |old(nodes)| + AllocBound(level, prefix, index0, nb0)
        invariant forall x: nat | x < Size(LEVELS) ::
                    Map(x) == if index0 <= x < index then leaf else old(Map(x))
        decreases L2_SIZE - k
      {
        SlotBaseNext(level, prefix, k);
        SlotBaseBounds(level, prefix, k);
        Budget(level, prefix, k0, index0, nb0, k, index, nb);
        assert forall x: nat | index <= x < index + nb :: Map(x) == UNASSIGNED;
        index, nb := SetSlot(n, k, index, nb, leaf, level, prefix);
        k, slot := k + 1, slot + Size(level);
      }
    }

    /** phys_page_set_level.  Maps the part of [index, index + nb) that lies below the
        node at (level, prefix) and returns what is left. */
    method SetLevel(loc: Loc, index0: nat, nb0: nat, leaf: nat, level: nat, ghost prefix: nat)
      returns (index: nat, nb: nat)
      requires Valid() && level < LEVELS && LocOk(nodes, place, loc, level, prefix)
      requires loc.At? ==> level + 1 < LEVELS
      requires Get(nodes, root, loc).skip == 1 && ReachedLoc(nodes, root, place, loc)
      requires nb0 > 0 && Shift(index0, level + 1) == prefix && index0 + nb0 <= Size(LEVELS)
      requires forall x: nat | index0 <= x < index0 + nb0 :: Map(x) == UNASSIGNED
      requires leaf != UNASSIGNED && leaf != NODE_NIL
      requires |nodes| + AllocBound(level, prefix, index0, nb0) <= Min(nodesAlloc, NODE_NIL)
      modifies this`nodes, this`root, this`place
      ensures Valid() && old(place) <= place
      ensures |nodes| <= |old(nodes)| + AllocBound(level, prefix, index0, nb0)
      ensures index == Min(index0 + nb0, prefix * Size(level + 1) + Size(level + 1))
      ensures index + nb == index0 + nb0
      ensures forall x: nat | x < Size(LEVELS) ::
                Map(x) == if index0 <= x < index then leaf else old(Map(x))
      ensures loc.At? ==> root == old(root)
      ensures forall m | 0 <= m < |old(nodes)| && old(place)[m].level > level
                       && loc != At(m, if loc.At? then loc.k else 0) ::
                nodes[m] == old(nodes)[m]
      decreases level, 2
    {
      var n := NodeBelow(loc, level, prefix);
      assert forall x: nat | index0 <= x < index0 + nb0 :: Map(x) == UNASSIGNED;
      index, nb := FillSlots(n, index0, nb0, leaf, level, prefix);
    }

    /** phys_page_set: reserves 3 * P_L2_LEVELS nodes, uses at most 2 * P_L2_LEVELS - 1 of
        them, and maps exactly the pages [index, index + nb) to the leaf. */
    method SetPages(index: nat, nb: nat, leaf: nat)
      requires Valid() && nb > 0 && index + nb <= Size(LEVELS)
      requires forall x: nat | index <= x < index + nb :: Map(x) == UNASSIGNED
      requires leaf != UNASSIGNED && leaf != NODE_NIL
      requires |nodes| + 2 * LEVELS - 1 <= NODE_NIL
      modifies this
      ensures Valid() && |nodes| <= |old(nodes)| + 2 * LEVELS - 1
      ensures forall x: nat | x < Size(LEVELS) ::
                Map(x) == if index <= x < index + nb then leaf else old(Map(x))
    {
      Reserve(3 * LEVELS);
      ShiftRange(index, LEVELS, 0);
      var end, left := SetLevel(Root, index, nb, leaf, LEVELS - 1, 0);
      assert left == 0;
    }

    /** phys_page_compact: compact the children first, then skip this entry's node if a
        single child is left; the number of levels skipped always fits.  Entries other than
        this one and those below it stay. */
    method Compact(loc: Loc)
      requires Levelled(nodes, root, place)
      requires loc.At? ==> loc.n < |nodes| && loc.k < L2_SIZE
      requires Get(nodes, root, loc).skip > 0
      modifies this`nodes, this`root
      ensures Levelled(nodes, root, place)
      ensures RefinesAll(old(nodes), old(root), nodes, root, place)
      ensures loc.At? ==> root == old(root)
      ensures forall n, k | 0 <= n < |nodes| && 0 <= k < L2_SIZE
                          && place[n].level >= LevelOf(place, loc) && loc != At(n, k) ::
                nodes[n][k] == old(nodes)[n][k]
      ensures Keeps(old(nodes), nodes, place) && Compacted(nodes, Get(nodes, root, loc), LevelOf(place, loc))
      decreases LevelOf(place, loc), 0
    {
      RefinesAllReflexive(nodes, root, place);
      var lp := Get(nodes, root, loc);
      if lp.ptr == NODE_NIL {
        return;
      }
      LocEntryOk(nodes, root, place, loc);
      var validPtr, valid := CompactChildren(lp.ptr);
      assert Get(nodes, root, loc) == lp;
      if valid != 1 {
        BranchCompacted(nodes, root, place, lp, LevelOf(place, loc));
        return;
      }
      var only := nodes[lp.ptr][validPtr];
      SkipCompacted(nodes, root, place, lp, LevelOf(place, loc), validPtr);
      if lp.skip + only.skip >= 8 {
        return;
      }
      ghost var before, entry := nodes, root;
      SkipNode(loc, validPtr);
      RefinesAllTransitive(old(nodes), old(root), before, entry, nodes, root, place);
      KeepsTransitive(old(nodes), before, nodes, place);
    }

    /** Make an entry point past its node to the only valid child. */
    method SkipNode(loc: Loc, validPtr: nat)
      requires Levelled(nodes, root, place) && validPtr < L2_SIZE
      requires loc.At? ==> loc.n < |nodes| && loc.k < L2_SIZE
      requires Get(nodes, root, loc).skip > 0 && Get(nodes, root, loc).ptr < |nodes|
      requires Single(nodes[Get(nodes, root, loc).ptr], validPtr)
      requires var lp := Get(nodes, root, loc);
        Compacted(nodes, nodes[lp.ptr][validPtr], place[lp.ptr].level)
      modifies this`nodes, this`root
      ensures Levelled(nodes, root, place)
      ensures RefinesAll(old(nodes), old(root), nodes, root, place)
      ensures loc.At? ==> root == old(root)
      ensures forall n, k | 0 <= n < |nodes| && 0 <= k < L2_SIZE && loc != At(n, k) ::
                nodes[n][k] == old(nodes)[n][k]
      ensures Keeps(old(nodes), nodes, place) && Compacted(nodes, Get(nodes, root, loc), LevelOf(place, loc))
    {
      var lp := Get(nodes, root, loc);
      var only := nodes[lp.ptr][validPtr];
      LocEntryOk(nodes, root, place, loc);
      lp := Entry(if only.skip == 0 then 0 else lp.skip + only.skip, only.ptr);
      SkipStep(nodes, root, place, loc, lp, validPtr);
      if loc.Root? {
        root := lp;
      } else {
        nodes := nodes[loc.n := nodes[loc.n][loc.k := lp]];
      }
      assert nodes == Put(old(nodes), loc, lp) && Get(nodes, root, loc) == lp;
    }

    /** The loop of phys_page_compact over the slots of node q, counting the valid ones. */
    method CompactChildren(q: nat) returns (validPtr: nat, valid: nat)
      requires Levelled(nodes, root, place) && q < |nodes|
      modifies this`nodes, this`root
      ensures Levelled(nodes, root, place)
      ensures RefinesAll(old(nodes), old(root), nodes, root, place)
      ensures root == old(root)
      ensures forall n, k | 0 <= n < |nodes| && 0 <= k < L2_SIZE && place[n].level >= place[q].level && n != q ::
                nodes[n][k] == old(nodes)[n][k]
      ensures valid == 1 ==> Single(nodes[q], validPtr)
      ensures valid != 1 ==> forall d: nat :: !Single(nodes[q], d)
      ensures Keeps(old(nodes), nodes, place)
      ensures forall d | 0 <= d < L2_SIZE :: Compacted(nodes, nodes[q][d], place[q].level)
      decreases place[q].level, 2
    {
      validPtr, valid := L2_SIZE, 0;
      RefinesAllReflexive(nodes, root, place);
      var i := 0;
      ghost var other := 0;
      while i < L2_SIZE
        invariant 0 <= i <= L2_SIZE
        invariant Levelled(nodes, root, place) && root == old(root) && |nodes| == |old(nodes)|
        invariant RefinesAll(old(nodes), old(root), nodes, root, place)
        invariant forall n, k | 0 <= n < |nodes| && 0 <= k < L2_SIZE && place[n].level >= place[q].level && n != q ::
                    nodes[n][k] == old(nodes)[n][k]
        invariant Counted(nodes[q], i, valid, validPtr, other)
        invariant Keeps(old(nodes), nodes, place)
        invariant forall d | 0 <= d < i :: Compacted(nodes, nodes[q][d], place[q].level)
      {
        if nodes[q][i].ptr != NODE_NIL {
          other := validPtr;
          validPtr, valid := i, valid + 1;
        }
        CompactSlot(q, i, old(nodes));
        i := i + 1;
      }
    }

    /** One slot of it: a valid entry that is not a leaf is compacted. */
    method CompactSlot(q: nat, i: nat, ghost start: seq<Node>)
      requires Levelled(nodes, root, place) && q < |nodes| && i < L2_SIZE
      requires RefinesAll(start, root, nodes, root, place) && Keeps(start, nodes, place)
      requires forall d | 0 <= d < i :: Compacted(nodes, nodes[q][d], place[q].level)
      modifies this`nodes, this`root
      ensures Levelled(nodes, root, place) && root == old(root) && |nodes| == |old(nodes)|
      ensures forall d | 0 <= d < L2_SIZE :: nodes[q][d].ptr == NODE_NIL <==> old(nodes)[q][d].ptr == NODE_NIL
      ensures RefinesAll(start, root, nodes, root, place) && Keeps(start, nodes, place)
      ensures forall d | 0 <= d <= i :: Compacted(nodes, nodes[q][d], place[q].level)
      ensures forall n, k | 0 <= n < |nodes| && 0 <= k < L2_SIZE && place[n].level >= place[q].level
                          && !(n == q && k == i) :: nodes[n][k] == old(nodes)[n][k]
      decreases place[q].level, 1
    {
      if nodes[q][i].ptr != NODE_NIL && nodes[q][i].skip > 0 {
        ghost var before := nodes;
        LocEntryOk(nodes, root, place, At(q, i));
        Compact(At(q, i));
        SlotDone(start, before, nodes, root, place, q, i);
      }
    }

    /** phys_page_compact_all: afterwards every page finds what it found before, or is
        an unassigned page that now ends at a leaf some other page is mapped to; and no node that can be
        reached has a single valid child. */
    method CompactAll()
      requires Valid()
      modifies this`nodes, this`root
      ensures Levelled(nodes, root, place)
      ensures Refines(old(nodes), old(root), nodes, root, LEVELS)
      ensures Compacted(nodes, root, LEVELS)
    {
      ShapeIsLevelled(nodes, root, place);
      if root.skip > 0 {
        Compact(Root);
      } else {
        RefinesReflexive(nodes, nodes, root, LEVELS);
      }
    }
  }

  /** How many of the first i slots are valid: none, one, or at least the two named. */
  ghost predicate Counted(node: Node, i: nat, valid: nat, validPtr: nat, other: nat) {
    && i <= |node|
    && (valid == 0 ==> forall d | 0 <= d < i :: node[d].ptr == NODE_NIL)
    && (valid >= 1 ==> validPtr < i && node[validPtr].ptr != NODE_NIL)
    && (valid == 1 ==> forall d | 0 <= d < i && d != validPtr :: node[d].ptr == NODE_NIL)
    && (valid >= 2 ==> other < validPtr && node[other].ptr != NODE_NIL)
  }

  /** One more slot is compacted. */
  lemma SlotDone(nodes: seq<Node>, mid: seq<Node>, nodes': seq<Node>, root: Entry, place: seq<Place>, q: nat, i: nat)
    requires RefinesAll(nodes, root, mid, root, place) && RefinesAll(mid, root, nodes', root, place)
    requires Keeps(nodes, mid, place) && Keeps(mid, nodes', place)
    requires Levelled(mid, root, place) && q < |nodes| && i < L2_SIZE
    requires forall d | 0 <= d < i :: Compacted(mid, mid[q][d], place[q].level)
    requires forall d | 0 <= d < L2_SIZE && d != i :: nodes'[q][d] == mid[q][d]
    requires Compacted(nodes', nodes'[q][i], place[q].level)
    ensures RefinesAll(nodes, root, nodes', root, place) && Keeps(nodes, nodes', place)
    ensures forall d | 0 <= d <= i :: Compacted(nodes', nodes'[q][d], place[q].level)
  {
    RefinesAllTransitive(nodes, root, mid, root, nodes', root, place);
    KeepsTransitive(nodes, mid, nodes', place);
    forall d | 0 <= d < i ensures Compacted(nodes', nodes'[q][d], place[q].level) {
      assert EntryOk(mid, place, mid[q][d], place[q].level);
    }
  }
}
