/**
 Skip compression of the radix tree (exec.c): what phys_page_compact may do to an
 entry, and why no walk to an assigned page changes its meaning.  Compression drops
 index digits without checking them, so a page off the single path can end at a leaf
 that some other page of the same subtree maps to.  That is all it can do.
 */
module PhysCompact {
  import opened Common
  import opened PhysMap

  /** Some page is mapped to v from entry e. */
  ghost predicate Covers(nodes: seq<Node>, e: Entry, i: nat, v: nat) {
    exists y: nat :: y < Size(LEVELS) && Walk(nodes, e, i, y) == v
  }

  /** The second entry finds for every page what the first one finds, except that an
      unassigned page may end at a leaf some page of the first one is mapped to. */
  ghost predicate Refines(nodes: seq<Node>, e: Entry, nodes': seq<Node>, e': Entry, i: nat) {
    forall x: nat ::
      || Walk(nodes', e', i, x) == Walk(nodes, e, i, x)
      || (Walk(nodes, e, i, x) == UNASSIGNED && Covers(nodes, e, i, Walk(nodes', e', i, x)))
  }

  lemma RefinesTransitive(a: seq<Node>, ea: Entry, b: seq<Node>, eb: Entry, c: seq<Node>, ec: Entry, i: nat)
    requires Refines(a, ea, b, eb, i) && Refines(b, eb, c, ec, i)
    ensures Refines(a, ea, c, ec, i)
  {
    forall x: nat
      ensures Walk(c, ec, i, x) == Walk(a, ea, i, x)
           || (Walk(a, ea, i, x) == UNASSIGNED && Covers(a, ea, i, Walk(c, ec, i, x)))
    {
      if Walk(c, ec, i, x) != Walk(b, eb, i, x) {
        var y: nat :| y < Size(LEVELS) && Walk(b, eb, i, y) == Walk(c, ec, i, x);
        if Walk(b, eb, i, y) == Walk(a, ea, i, y) {
          assert Covers(a, ea, i, Walk(c, ec, i, x));
        }
      }
    }
  }

  // ---------------------------------------------------------------- shape during compaction

  ghost predicate EntryOk(nodes: seq<Node>, place: seq<Place>, e: Entry, i: nat)
    requires |nodes| == |place|
  {
    && (e.skip == 0 ==> e.ptr != NODE_NIL)
    && (e.skip > 0 ==> e.skip <= i)
    && (e.skip > 0 && e.ptr != NODE_NIL ==> e.ptr < |nodes| && place[e.ptr].level == i - e.skip)
  }

  ghost predicate Levelled(nodes: seq<Node>, root: Entry, place: seq<Place>) {
    && |nodes| == |place| && Nodes512(nodes)
    && (forall n, k | 0 <= n < |nodes| && 0 <= k < L2_SIZE :: EntryOk(nodes, place, nodes[n][k], place[n].level))
    && EntryOk(nodes, place, root, LEVELS)
    && (forall n | 0 <= n < |place| :: place[n].level < LEVELS)
  }

  ghost predicate RefinesAll(nodes: seq<Node>, root: Entry, nodes': seq<Node>, root': Entry, place: seq<Place>) {
    && |nodes| == |nodes'| == |place| && Nodes512(nodes) && Nodes512(nodes')
    && (forall n, k | 0 <= n < |nodes| && 0 <= k < L2_SIZE ::
          && Refines(nodes, nodes[n][k], nodes', nodes'[n][k], place[n].level)
          && (nodes[n][k].ptr == NODE_NIL <==> nodes'[n][k].ptr == NODE_NIL))
    && Refines(nodes, root, nodes', root', LEVELS)
  }

  lemma RefinesAllTransitive(a: seq<Node>, ra: Entry, b: seq<Node>, rb: Entry, c: seq<Node>, rc: Entry,
                             place: seq<Place>)
    requires RefinesAll(a, ra, b, rb, place) && RefinesAll(b, rb, c, rc, place)
    ensures RefinesAll(a, ra, c, rc, place)
  {
    forall n, k | 0 <= n < |a| && 0 <= k < L2_SIZE
      ensures Refines(a, a[n][k], c, c[n][k], place[n].level)
    {
      RefinesTransitive(a, a[n][k], b, b[n][k], c, c[n][k], place[n].level);
    }
    RefinesTransitive(a, ra, b, rb, c, rc, LEVELS);
  }

  // ---------------------------------------------------------------- composing digits

  lemma {:induction false} ComposeBound(y: nat, d: nat, j: nat)
    requires d < 512 && j < LEVELS
    ensures Compose(y, d, j) < Size(j + 1) <= Size(LEVELS)
  {
    SizeMonotone(j + 1, LEVELS);
    if j > 0 {
      ComposeBound(y / 512, d, j - 1);
    }
  }

  lemma {:induction false} SizeMonotone(a: nat, b: nat)
    requires a <= b
    ensures Size(a) <= Size(b)
    decreases b
  {
    if a < b {
      SizeMonotone(a, b - 1);
    }
  }

  /** A page below slot d of the node at level j that a given page y selects further down. */
  lemma Redirect(nodes: seq<Node>, g: Entry, y: nat, d: nat, j: nat)
    requires d < 512 && j < LEVELS
    ensures var z := Compose(y, d, j);
      z < Size(LEVELS) && Digit(z, j) == d && Walk(nodes, g, j, z) == Walk(nodes, g, j, y)
  {
    var z := Compose(y, d, j);
    ComposeBound(y, d, j);
    ComposeDigit(y, d, j, j);
    forall m: nat | m < j ensures Digit(z, m) == Digit(y, m) { ComposeDigit(y, d, j, m); }
    WalkLowDigits(nodes, g, j, z, y);
  }

  /** If every slot of a node refines, so does the entry pointing to the node. */
  lemma LiftRefines(nodes: seq<Node>, nodes': seq<Node>, place: seq<Place>, f: Entry, i: nat)
    requires |nodes| == |nodes'| == |place| && Nodes512(nodes) && Nodes512(nodes')
    requires EntryOk(nodes, place, f, i) && f.skip > 0 && f.ptr != NODE_NIL && i <= LEVELS
    requires forall d | 0 <= d < L2_SIZE ::
               Refines(nodes, nodes[f.ptr][d], nodes', nodes'[f.ptr][d], i - f.skip)
    ensures Refines(nodes, f, nodes', f, i)
  {
    var j := i - f.skip;
    forall x: nat
      ensures Walk(nodes', f, i, x) == Walk(nodes, f, i, x)
           || (Walk(nodes, f, i, x) == UNASSIGNED && Covers(nodes, f, i, Walk(nodes', f, i, x)))
    {
      var d := Digit(x, j);
      var g, g' := nodes[f.ptr][d], nodes'[f.ptr][d];
      assert Walk(nodes, f, i, x) == Walk(nodes, g, j, x) && Walk(nodes', f, i, x) == Walk(nodes', g', j, x);
      assert Refines(nodes, g, nodes', g', j);
      if Walk(nodes', g', j, x) != Walk(nodes, g, j, x) {
        var y: nat :| y < Size(LEVELS) && Walk(nodes, g, j, y) == Walk(nodes', g', j, x);
        Redirect(nodes, g, y, d, j);
        assert Walk(nodes, f, i, Compose(y, d, j)) == Walk(nodes', f, i, x);
      }
    }
  }

  lemma RefinesReflexive(nodes: seq<Node>, nodes': seq<Node>, e: Entry, i: nat)
    requires e.skip == 0 || i < e.skip || e.ptr == NODE_NIL || nodes == nodes'
    ensures Refines(nodes, e, nodes', e, i)
  {}

  // ---------------------------------------------------------------- one compaction step

  /** Replacing one slot by an entry that refines it refines every entry. */
  lemma {:induction false} StepRefines(nodes: seq<Node>, root: Entry, place: seq<Place>,
                                       n: nat, k: nat, e': Entry, f: Entry, i: nat)
    requires Levelled(nodes, root, place) && n < |nodes| && k < L2_SIZE
    requires EntryOk(nodes, place, e', place[n].level)
    requires Refines(nodes, nodes[n][k], nodes, e', place[n].level)
    requires EntryOk(nodes, place, f, i) && i <= LEVELS
    ensures Refines(nodes, f, nodes[n := nodes[n][k := e']], f, i)
    decreases i
  {
    var nodes' := nodes[n := nodes[n][k := e']];
    if f.skip == 0 || f.ptr == NODE_NIL {
      RefinesReflexive(nodes, nodes', f, i);
    } else {
      var j := i - f.skip;
      forall d | 0 <= d < L2_SIZE
        ensures Refines(nodes, nodes[f.ptr][d], nodes', nodes'[f.ptr][d], j)
      {
        var g, g' := nodes[f.ptr][d], nodes'[f.ptr][d];
        assert EntryOk(nodes, place, g, place[f.ptr].level);
        StepRefines(nodes, root, place, n, k, e', g', j);
        if f.ptr == n && d == k {
          RefinesTransitive(nodes, g, nodes, g', nodes', g', j);
        }
      }
      LiftRefines(nodes, nodes', place, f, i);
    }
  }

  function Put(nodes: seq<Node>, loc: Loc, e: Entry): seq<Node>
    requires loc.At? ==> loc.n < |nodes| && loc.k < |nodes[loc.n]|
  {
    match loc case Root => nodes case At(n, k) => nodes[n := nodes[n][k := e]]
  }

  /** Levels below the entry at `loc`. */
  ghost function LevelOf(place: seq<Place>, loc: Loc): nat
    requires loc.At? ==> loc.n < |place|
  {
    if loc.Root? then LEVELS else place[loc.n].level
  }

  lemma StepRefinesAll(nodes: seq<Node>, root: Entry, place: seq<Place>, loc: Loc, e': Entry)
    requires Levelled(nodes, root, place)
    requires loc.At? ==> loc.n < |nodes| && loc.k < L2_SIZE
    requires EntryOk(nodes, place, e', LevelOf(place, loc)) && e'.ptr != NODE_NIL
    requires Get(nodes, root, loc).ptr != NODE_NIL
    requires Refines(nodes, Get(nodes, root, loc), nodes, e', LevelOf(place, loc))
    ensures Levelled(Put(nodes, loc, e'), if loc.Root? then e' else root, place)
    ensures RefinesAll(nodes, root, Put(nodes, loc, e'), if loc.Root? then e' else root, place)
  {
    var nodes' := Put(nodes, loc, e');
    var root' := if loc.Root? then e' else root;
    forall n, k | 0 <= n < |nodes| && 0 <= k < L2_SIZE
      ensures EntryOk(nodes', place, nodes'[n][k], place[n].level)
      ensures Refines(nodes, nodes[n][k], nodes', nodes'[n][k], place[n].level)
    {
      assert EntryOk(nodes, place, nodes[n][k], place[n].level);
      if loc.Root? {
        RefinesReflexive(nodes, nodes', nodes[n][k], place[n].level);
      } else {
        StepRefines(nodes, root, place, loc.n, loc.k, e', nodes'[n][k], place[n].level);
        if loc == At(n, k) {
          RefinesTransitive(nodes, nodes[n][k], nodes, e', nodes', e', place[n].level);
        }
      }
    }
    if loc.At? {
      StepRefines(nodes, root, place, loc.n, loc.k, e', root, LEVELS);
    }
  }

  /** Skipping a node with a single valid child refines the entry above it. */
  lemma SkipRefines(nodes: seq<Node>, root: Entry, place: seq<Place>, e: Entry, i: nat, only: nat)
    requires Levelled(nodes, root, place) && EntryOk(nodes, place, e, i) && i <= LEVELS
    requires e.skip > 0 && e.ptr != NODE_NIL && only < L2_SIZE
    requires nodes[e.ptr][only].ptr != NODE_NIL
    requires forall d | 0 <= d < L2_SIZE && d != only :: nodes[e.ptr][d].ptr == NODE_NIL
    ensures var c := nodes[e.ptr][only];
            var e' := Entry(if c.skip == 0 then 0 else e.skip + c.skip, c.ptr);
            EntryOk(nodes, place, e', i) && Refines(nodes, e, nodes, e', i)
  {
    var j := i - e.skip;
    var c := nodes[e.ptr][only];
    var e' := Entry(if c.skip == 0 then 0 else e.skip + c.skip, c.ptr);
    assert EntryOk(nodes, place, c, place[e.ptr].level);
    forall x: nat
      ensures Walk(nodes, e', i, x) == Walk(nodes, e, i, x)
           || (Walk(nodes, e, i, x) == UNASSIGNED && Covers(nodes, e, i, Walk(nodes, e', i, x)))
    {
      assert Walk(nodes, e', i, x) == Walk(nodes, c, j, x);
      var d := Digit(x, j);
      if d != only {
        assert EntryOk(nodes, place, nodes[e.ptr][d], place[e.ptr].level);
        Redirect(nodes, c, x, only, j);
        assert Walk(nodes, e, i, Compose(x, only, j)) == Walk(nodes, e', i, x);
      }
    }
  }

  // ---------------------------------------------------------------- nothing is left to compact

  /** Slot d is the only valid one. */
  ghost predicate Single(node: Node, d: nat) {
    && d < |node| && node[d].ptr != NODE_NIL
    && forall k | 0 <= k < |node| && k != d :: node[k].ptr == NODE_NIL
  }

  /** No node at or below an entry has a single valid child. */
  ghost predicate Compacted(nodes: seq<Node>, e: Entry, i: nat)
    decreases i
  {
    || e.skip == 0 || i < e.skip || e.ptr >= |nodes| || |nodes[e.ptr]| != L2_SIZE
    || (&& (forall d: nat :: !Single(nodes[e.ptr], d))
        && (forall d | 0 <= d < L2_SIZE :: Compacted(nodes, nodes[e.ptr][d], i - e.skip)))
  }

  /** What was compacted still is. */
  ghost predicate Keeps(nodes: seq<Node>, nodes': seq<Node>, place: seq<Place>)
    requires |nodes| == |place|
  {
    forall e: Entry, i: nat {:trigger Compacted(nodes', e, i)} |
      i <= LEVELS && EntryOk(nodes, place, e, i) && Compacted(nodes, e, i) :: Compacted(nodes', e, i)
  }

  lemma KeepsTransitive(a: seq<Node>, b: seq<Node>, c: seq<Node>, place: seq<Place>)
    requires |a| == |b| == |c| == |place| && Keeps(a, b, place) && Keeps(b, c, place)
    ensures Keeps(a, c, place)
  {
    forall e: Entry, i: nat | i <= LEVELS && EntryOk(a, place, e, i) && Compacted(a, e, i) ensures Compacted(c, e, i) {
      assert Compacted(b, e, i);
    }
  }

  lemma SingleNotCompacted(nodes: seq<Node>, root: Entry, place: seq<Place>, n: nat, k: nat, only: nat)
    requires Levelled(nodes, root, place) && n < |nodes| && k < L2_SIZE
    requires nodes[n][k].skip > 0 && nodes[n][k].ptr < |nodes| && Single(nodes[nodes[n][k].ptr], only)
    ensures !Compacted(nodes, nodes[n][k], place[n].level)
  {
    assert EntryOk(nodes, place, nodes[n][k], place[n].level);
  }

  /** Changing an entry above a single child touches nothing that is compacted. */
  lemma {:induction false} SkipKeepsOne(nodes: seq<Node>, root: Entry, place: seq<Place>, n: nat, k: nat, e': Entry,
                                        only: nat, e: Entry, i: nat)
    requires Levelled(nodes, root, place) && n < |nodes| && k < L2_SIZE
    requires nodes[n][k].skip > 0 && nodes[n][k].ptr < |nodes| && Single(nodes[nodes[n][k].ptr], only)
    requires i <= LEVELS && EntryOk(nodes, place, e, i) && Compacted(nodes, e, i)
    ensures Compacted(nodes[n := nodes[n][k := e']], e, i)
    decreases i
  {
    var nodes' := nodes[n := nodes[n][k := e']];
    if e.skip > 0 && e.ptr < |nodes| {
      var j := i - e.skip;
      SingleNotCompacted(nodes, root, place, n, k, only);
      assert e.ptr != n;
      forall d | 0 <= d < L2_SIZE ensures Compacted(nodes', nodes'[e.ptr][d], j) {
        assert EntryOk(nodes, place, nodes[e.ptr][d], place[e.ptr].level);
        SkipKeepsOne(nodes, root, place, n, k, e', only, nodes[e.ptr][d], j);
      }
    }
  }

  /** What skipping a node does to the entry above it, to what is compacted, and to every walk. */
  lemma SkipStep(nodes: seq<Node>, root: Entry, place: seq<Place>, loc: Loc, e': Entry, only: nat)
    requires Levelled(nodes, root, place) && (loc.At? ==> loc.n < |nodes| && loc.k < L2_SIZE)
    requires EntryOk(nodes, place, Get(nodes, root, loc), LevelOf(place, loc))
    requires var lp := Get(nodes, root, loc);
      && lp.skip > 0 && lp.ptr < |nodes| && Single(nodes[lp.ptr], only)
      && Compacted(nodes, nodes[lp.ptr][only], place[lp.ptr].level)
      && var c := nodes[lp.ptr][only]; e' == Entry(if c.skip == 0 then 0 else lp.skip + c.skip, c.ptr)
    ensures Levelled(Put(nodes, loc, e'), if loc.Root? then e' else root, place)
    ensures RefinesAll(nodes, root, Put(nodes, loc, e'), if loc.Root? then e' else root, place)
    ensures Keeps(nodes, Put(nodes, loc, e'), place) && Compacted(Put(nodes, loc, e'), e', LevelOf(place, loc))
  {
    var lp := Get(nodes, root, loc);
    SkipRefines(nodes, root, place, lp, LevelOf(place, loc), only);
    SkipCompacted(nodes, root, place, lp, LevelOf(place, loc), only);
    StepRefinesAll(nodes, root, place, loc, e');
    SkipKeeps(nodes, root, place, loc, e', only);
  }

  lemma SkipKeeps(nodes: seq<Node>, root: Entry, place: seq<Place>, loc: Loc, e': Entry, only: nat)
    requires Levelled(nodes, root, place) && (loc.At? ==> loc.n < |nodes| && loc.k < L2_SIZE)
    requires var lp := Get(nodes, root, loc); lp.skip > 0 && lp.ptr < |nodes| && Single(nodes[lp.ptr], only)
    ensures Keeps(nodes, Put(nodes, loc, e'), place)
  {
    if loc.At? {
      forall e: Entry, i: nat | i <= LEVELS && EntryOk(nodes, place, e, i) && Compacted(nodes, e, i)
        ensures Compacted(Put(nodes, loc, e'), e, i)
      {
        SkipKeepsOne(nodes, root, place, loc.n, loc.k, e', only, e, i);
      }
    }
  }

  lemma BranchCompacted(nodes: seq<Node>, root: Entry, place: seq<Place>, e: Entry, i: nat)
    requires Levelled(nodes, root, place) && EntryOk(nodes, place, e, i) && e.skip > 0 && e.ptr < |nodes|
    requires forall d: nat :: !Single(nodes[e.ptr], d)
    requires forall d | 0 <= d < L2_SIZE :: Compacted(nodes, nodes[e.ptr][d], place[e.ptr].level)
    ensures Compacted(nodes, e, i)
  {}

  /** An entry that skips a node with a compacted single child is compacted. */
  lemma SkipCompacted(nodes: seq<Node>, root: Entry, place: seq<Place>, e: Entry, i: nat, only: nat)
    requires Levelled(nodes, root, place) && EntryOk(nodes, place, e, i) && i <= LEVELS
    requires e.skip > 0 && e.ptr < |nodes| && only < L2_SIZE
    requires Compacted(nodes, nodes[e.ptr][only], i - e.skip)
    ensures var c := nodes[e.ptr][only];
      e.skip + c.skip < 8 && Compacted(nodes, Entry(if c.skip == 0 then 0 else e.skip + c.skip, c.ptr), i)
  {
    assert EntryOk(nodes, place, nodes[e.ptr][only], place[e.ptr].level);
  }

  lemma ShapeIsLevelled(nodes: seq<Node>, root: Entry, place: seq<Place>)
    requires Shape(nodes, root, place)
    ensures Levelled(nodes, root, place)
  {
    forall n, k | 0 <= n < |nodes| && 0 <= k < L2_SIZE
      ensures EntryOk(nodes, place, nodes[n][k], place[n].level)
    {
      assert SlotOk(nodes, place, n, k);
    }
  }
}
