/**
 The radix tree behind physical memory dispatch (exec.c): node arrays of entries,
 the walk of phys_page_find, and how single writes to the node array change it.
 */
module PhysMap {
  import opened Common

  const L2_SIZE: nat := 512
  const LEVELS: nat := 6
  const NODE_NIL: nat := 0x3ff_ffff
  const UNASSIGNED: nat := 0

  /** `skip` levels to the next node, 0 for a leaf; `ptr` a node or a section. */
  datatype Entry = Entry(skip: nat, ptr: nat)

  type Node = seq<Entry>

  const NIL := Entry(1, NODE_NIL)

  // ---------------------------------------------------------------- digits of a page index

  /** 512 to the l: the number of pages below one slot of a level-l node. */
  function Size(l: nat): (r: nat)
    ensures r > 0
  {
    if l == 0 then 1 else 512 * Size(l - 1)
  }

  /** `x >> (l * P_L2_BITS)` */
  function Shift(x: nat, l: nat): nat {
    if l == 0 then x else Shift(x / 512, l - 1)
  }

  function Digit(x: nat, l: nat): (d: nat)
    ensures d < 512
  {
    Shift(x, l) % 512
  }

  lemma {:induction false} ShiftNext(x: nat, l: nat)
    ensures Shift(x, l + 1) == Shift(x, l) / 512
    ensures Shift(x, l) == Shift(x, l + 1) * 512 + Digit(x, l)
  {
    if l > 0 {
      ShiftNext(x / 512, l - 1);
    }
  }

  /** Below slot p of level l lie exactly Size(l) consecutive pages. */
  lemma {:induction false} ShiftRange(x: nat, l: nat, p: nat)
    ensures Shift(x, l) == p <==> p * Size(l) <= x < p * Size(l) + Size(l)
  {
    if l == 0 {
      assert p * Size(l) == p;
    } else {
      var k := Size(l - 1);
      ShiftRange(x / 512, l - 1, p);
      assert p * Size(l) == 512 * (p * k) by { assert p * (512 * k) == 512 * (p * k); }
    }
  }

  /** A page index with digit d at level j and the digits of y below it. */
  function Compose(y: nat, d: nat, j: nat): nat {
    if j == 0 then d else 512 * Compose(y / 512, d, j - 1) + y % 512
  }

  lemma {:induction false} ComposeDigit(y: nat, d: nat, j: nat, m: nat)
    requires d < 512 && m <= j
    ensures Digit(Compose(y, d, j), m) == if m == j then d else Digit(y, m)
  {
    if j > 0 {
      var c := Compose(y / 512, d, j - 1);
      assert (512 * c + y % 512) / 512 == c && (512 * c + y % 512) % 512 == y % 512;
      if m > 0 {
        ComposeDigit(y / 512, d, j - 1, m - 1);
      }
    }
  }

  // ---------------------------------------------------------------- the walk

  /** The loop of phys_page_find: the section number reached for page x from an
      entry that i levels lie below. */
  function Walk(nodes: seq<Node>, e: Entry, i: nat, x: nat): nat
    decreases i, x
  {
    if e.skip == 0 || i < e.skip then e.ptr
    else if e.ptr == NODE_NIL then UNASSIGNED
    else if e.ptr < |nodes| && |nodes[e.ptr]| == L2_SIZE then
      Walk(nodes, nodes[e.ptr][Digit(x, i - e.skip)], i - e.skip, x)
    else UNASSIGNED
  }

  /** Only the digits below the current level matter. */
  lemma {:induction false} WalkLowDigits(nodes: seq<Node>, e: Entry, i: nat, x: nat, y: nat)
    requires forall m: nat | m < i :: Digit(x, m) == Digit(y, m)
    ensures Walk(nodes, e, i, x) == Walk(nodes, e, i, y)
    decreases i
  {
    if e.skip != 0 && i >= e.skip && e.ptr != NODE_NIL && e.ptr < |nodes| && |nodes[e.ptr]| == L2_SIZE {
      var j := i - e.skip;
      assert Digit(x, j) == Digit(y, j);
      WalkLowDigits(nodes, nodes[e.ptr][Digit(x, j)], j, x, y);
    }
  }

  /** The entry met on the way of page x at level l, or where the way ends earlier. */
  function Descend(nodes: seq<Node>, e: Entry, i: nat, x: nat, l: nat): Entry
    decreases i, x
  {
    if i <= l || e.skip != 1 || e.ptr >= |nodes| || |nodes[e.ptr]| != L2_SIZE then e
    else Descend(nodes, nodes[e.ptr][Digit(x, i - 1)], i - 1, x, l)
  }

  lemma {:induction false} DescendWalk(nodes: seq<Node>, e: Entry, i: nat, x: nat, l: nat)
    requires 1 <= l <= i && e.skip <= 1 && |nodes| <= NODE_NIL
    requires forall n, k | 0 <= n < |nodes| && 0 <= k < |nodes[n]| :: nodes[n][k].skip <= 1
    ensures Walk(nodes, e, i, x) == Walk(nodes, Descend(nodes, e, i, x, l), l, x)
    decreases i
  {
    if i > l && e.skip == 1 && e.ptr < |nodes| && |nodes[e.ptr]| == L2_SIZE {
      DescendWalk(nodes, nodes[e.ptr][Digit(x, i - 1)], i - 1, x, l);
    }
  }

  // ---------------------------------------------------------------- shape before compaction

  /** Which level a node is on and which pages it stands for: those x with
      Shift(x, level + 1) == prefix. */
  datatype Place = Place(level: nat, prefix: nat)

  ghost predicate SlotOk(nodes: seq<Node>, place: seq<Place>, n: nat, k: nat)
    requires n < |nodes| == |place| && |nodes[n]| == L2_SIZE && k < L2_SIZE
  {
    var e, at := nodes[n][k], place[n];
    && e.skip <= 1
    && (at.level == 0 ==> e.skip == 0)
    && (e.skip == 0 ==> e.ptr != NODE_NIL)
    && (e.skip == 0 && at.level > 0 ==> e.ptr != UNASSIGNED)
    && (e.skip == 1 && e.ptr != NODE_NIL ==>
          && at.level > 0 && e.ptr < |nodes|
          && place[e.ptr] == Place(at.level - 1, at.prefix * 512 + k))
  }

  ghost predicate Nodes512(nodes: seq<Node>) {
    && |nodes| <= NODE_NIL
    && forall n | 0 <= n < |nodes| :: |nodes[n]| == L2_SIZE
  }

  ghost predicate Shape(nodes: seq<Node>, root: Entry, place: seq<Place>) {
    && |nodes| == |place| && Nodes512(nodes)
    && (forall n, k | 0 <= n < |nodes| && 0 <= k < L2_SIZE :: SlotOk(nodes, place, n, k))
    && (forall n | 0 <= n < |place| :: place[n].level < LEVELS)
    && root.skip == 1
    && (root.ptr != NODE_NIL ==> root.ptr < |nodes| && place[root.ptr] == Place(LEVELS - 1, 0))
  }

  /** An entry that may stand i levels above the bottom on the way of page x. */
  ghost predicate OnWay(nodes: seq<Node>, place: seq<Place>, e: Entry, i: nat, x: nat)
    requires |nodes| == |place|
  {
    && e.skip <= 1
    && (i == 0 ==> e.skip == 0)
    && (e.skip == 1 && e.ptr != NODE_NIL ==>
          i > 0 && e.ptr < |nodes| && place[e.ptr] == Place(i - 1, Shift(x, i)))
  }

  lemma NextOnWay(nodes: seq<Node>, root: Entry, place: seq<Place>, e: Entry, i: nat, x: nat)
    requires Shape(nodes, root, place) && OnWay(nodes, place, e, i, x)
    requires e.skip == 1 && e.ptr != NODE_NIL
    ensures OnWay(nodes, place, nodes[e.ptr][Digit(x, i - 1)], i - 1, x)
  {
    ShiftNext(x, i - 1);
    assert SlotOk(nodes, place, e.ptr, Digit(x, i - 1));
  }

  lemma RootOnWay(nodes: seq<Node>, root: Entry, place: seq<Place>, x: nat)
    requires Shape(nodes, root, place) && x < Size(LEVELS)
    ensures OnWay(nodes, place, root, LEVELS, x)
  {
    ShiftRange(x, LEVELS, 0);
  }

  /** Writing one slot changes no walk that does not lead through that slot. */
  lemma {:induction false} WalkFrame(nodes: seq<Node>, root: Entry, place: seq<Place>,
                                     n: nat, k: nat, e': Entry, e: Entry, i: nat, x: nat)
    requires Shape(nodes, root, place) && n < |nodes| && k < L2_SIZE
    requires OnWay(nodes, place, e, i, x)
    requires Shift(x, place[n].level) != place[n].prefix * 512 + k || i <= place[n].level
    ensures Walk(nodes[n := nodes[n][k := e']], e, i, x) == Walk(nodes, e, i, x)
    decreases i
  {
    if e.skip == 1 && e.ptr != NODE_NIL {
      NextOnWay(nodes, root, place, e, i, x);
      ShiftNext(x, i - 1);
      WalkFrame(nodes, root, place, n, k, e', nodes[e.ptr][Digit(x, i - 1)], i - 1, x);
    }
  }

  /** The same for the way down to a level above the slot's contents. */
  lemma {:induction false} DescendFrame(nodes: seq<Node>, root: Entry, place: seq<Place>, nodes': seq<Node>,
                                        e: Entry, i: nat, x: nat, l: nat)
    requires Shape(nodes, root, place) && OnWay(nodes, place, e, i, x)
    requires |nodes| <= |nodes'|
    requires forall m | 0 <= m < |nodes| && place[m].level >= l :: nodes'[m] == nodes[m]
    requires |nodes'| <= NODE_NIL
    ensures Descend(nodes', e, i, x, l) == Descend(nodes, e, i, x, l)
    decreases i
  {
    if i > l && e.skip == 1 && e.ptr != NODE_NIL {
      NextOnWay(nodes, root, place, e, i, x);
      assert place[e.ptr].level >= l;
      DescendFrame(nodes, root, place, nodes', nodes[e.ptr][Digit(x, i - 1)], i - 1, x, l);
    }
  }

  // ---------------------------------------------------------------- writing a leaf

  predicate Below(at: Place, x: nat) {
    x < Size(LEVELS) && Shift(x, at.level + 1) == at.prefix
  }

  /** Every page below node n finds it on its way. */
  ghost predicate Reached(nodes: seq<Node>, root: Entry, place: seq<Place>, n: nat)
    requires n < |place|
  {
    forall x: nat | Below(place[n], x) ::
      Descend(nodes, root, LEVELS, x, place[n].level + 1) == Entry(1, n)
  }

  lemma LeafShape(nodes: seq<Node>, root: Entry, place: seq<Place>, n: nat, k: nat, v: nat)
    requires Shape(nodes, root, place) && n < |nodes| && k < L2_SIZE
    requires v != UNASSIGNED && v != NODE_NIL
    ensures Shape(nodes[n := nodes[n][k := Entry(0, v)]], root, place)
  {
    var nodes' := nodes[n := nodes[n][k := Entry(0, v)]];
    forall a, b | 0 <= a < |nodes| && 0 <= b < L2_SIZE ensures SlotOk(nodes', place, a, b) {
      assert SlotOk(nodes, place, a, b);
    }
  }

  /** A leaf written at slot k of a reached node maps the pages below that slot and
      no others. */
  lemma LeafWalk(nodes: seq<Node>, root: Entry, place: seq<Place>, n: nat, k: nat, v: nat, x: nat)
    requires Shape(nodes, root, place) && n < |nodes| && k < L2_SIZE && x < Size(LEVELS)
    requires place[n].level < LEVELS && Reached(nodes, root, place, n)
    requires v != UNASSIGNED && v != NODE_NIL
    ensures Walk(nodes[n := nodes[n][k := Entry(0, v)]], root, LEVELS, x)
         == if Shift(x, place[n].level) == place[n].prefix * 512 + k then v
            else Walk(nodes, root, LEVELS, x)
  {
    var nodes' := nodes[n := nodes[n][k := Entry(0, v)]];
    var l := place[n].level;
    RootOnWay(nodes, root, place, x);
    if Shift(x, l) == place[n].prefix * 512 + k {
      ShiftNext(x, l);
      assert Below(place[n], x) && Digit(x, l) == k;
      DescendFrame(nodes, root, place, nodes', root, LEVELS, x, l + 1);
      LeafShape(nodes, root, place, n, k, v);
      ShapeSkips(nodes', root, place);
      DescendWalk(nodes', root, LEVELS, x, l + 1);
    } else {
      WalkFrame(nodes, root, place, n, k, Entry(0, v), root, LEVELS, x);
    }
  }

  lemma ShapeSkips(nodes: seq<Node>, root: Entry, place: seq<Place>)
    requires Shape(nodes, root, place)
    ensures forall n, k | 0 <= n < |nodes| && 0 <= k < |nodes[n]| :: nodes[n][k].skip <= 1
  {
    forall n, k | 0 <= n < |nodes| && 0 <= k < |nodes[n]| ensures nodes[n][k].skip <= 1 {
      assert SlotOk(nodes, place, n, k);
    }
  }

  // ---------------------------------------------------------------- linking a fresh node

  /** phys_map_node_alloc, and the bottom-level initialisation that follows it. */
  function FreshNode(level: nat): (r: Node)
    ensures |r| == L2_SIZE
  {
    seq(L2_SIZE, _ => if level == 0 then Entry(0, UNASSIGNED) else NIL)
  }

  /** Where a pointer to an entry points. */
  datatype Loc = Root | At(n: nat, k: nat)

  ghost predicate LocOk(nodes: seq<Node>, place: seq<Place>, loc: Loc, level: nat, prefix: nat)
    requires |nodes| == |place|
  {
    match loc
    case Root => level == LEVELS - 1 && prefix == 0
    case At(n, k) =>
      && n < |nodes| && k < L2_SIZE && |nodes[n]| == L2_SIZE
      && place[n].level == level + 1 && prefix == place[n].prefix * 512 + k
  }

  function Get(nodes: seq<Node>, root: Entry, loc: Loc): Entry
    requires loc.At? ==> loc.n < |nodes| && loc.k < |nodes[loc.n]|
  {
    match loc case Root => root case At(n, k) => nodes[n][k]
  }

  function Linked(nodes: seq<Node>, loc: Loc, level: nat): seq<Node>
    requires loc.At? ==> loc.n < |nodes| && loc.k < |nodes[loc.n]|
  {
    var grown := nodes + [FreshNode(level)];
    match loc
    case Root => grown
    case At(n, k) => grown[n := grown[n][k := Entry(1, |nodes|)]]
  }

  lemma LinkShape(nodes: seq<Node>, root: Entry, place: seq<Place>, loc: Loc, level: nat, prefix: nat)
    requires Shape(nodes, root, place) && |nodes| < NODE_NIL && level < LEVELS
    requires LocOk(nodes, place, loc, level, prefix) && Get(nodes, root, loc) == NIL
    ensures Shape(Linked(nodes, loc, level), if loc.Root? then Entry(1, |nodes|) else root,
                  place + [Place(level, prefix)])
  {
    var nodes' := Linked(nodes, loc, level);
    var place' := place + [Place(level, prefix)];
    forall a, b | 0 <= a < |nodes'| && 0 <= b < L2_SIZE ensures SlotOk(nodes', place', a, b) {
      if a < |nodes| { assert SlotOk(nodes, place, a, b); }
    }
  }

  /** Linking an empty node is invisible to every walk. */
  lemma {:induction false} LinkWalk(nodes: seq<Node>, root: Entry, place: seq<Place>, loc: Loc, level: nat,
                                    prefix: nat, e: Entry, i: nat, x: nat)
    requires Shape(nodes, root, place) && |nodes| < NODE_NIL && level < LEVELS
    requires LocOk(nodes, place, loc, level, prefix) && Get(nodes, root, loc) == NIL
    requires OnWay(nodes, place, e, i, x)
    ensures Walk(Linked(nodes, loc, level), e, i, x) == Walk(nodes, e, i, x)
    decreases i
  {
    var nodes' := Linked(nodes, loc, level);
    if e.skip == 1 && e.ptr != NODE_NIL {
      var d := Digit(x, i - 1);
      NextOnWay(nodes, root, place, e, i, x);
      LinkWalk(nodes, root, place, loc, level, prefix, nodes[e.ptr][d], i - 1, x);
      if loc == At(e.ptr, d) {
        assert i - 1 == level + 1;
        EmptyWalk(nodes', |nodes|, level, x);
        assert Walk(nodes', Entry(1, |nodes|), level + 1, x) == UNASSIGNED;
        assert nodes'[e.ptr][d] == Entry(1, |nodes|);
      } else {
        assert nodes'[e.ptr][d] == nodes[e.ptr][d];
      }
    }
  }

  lemma EmptyWalk(nodes: seq<Node>, n: nat, level: nat, x: nat)
    requires n < |nodes| && n != NODE_NIL && nodes[n] == FreshNode(level)
    ensures Walk(nodes, Entry(1, n), level + 1, x) == UNASSIGNED
  {}

  lemma LinkRootWalk(nodes: seq<Node>, root: Entry, place: seq<Place>, loc: Loc, level: nat, prefix: nat, x: nat)
    requires Shape(nodes, root, place) && |nodes| < NODE_NIL && level < LEVELS && x < Size(LEVELS)
    requires LocOk(nodes, place, loc, level, prefix) && Get(nodes, root, loc) == NIL
    ensures Walk(Linked(nodes, loc, level), if loc.Root? then Entry(1, |nodes|) else root, LEVELS, x)
         == Walk(nodes, root, LEVELS, x)
  {
    RootOnWay(nodes, root, place, x);
    if loc.Root? {
      EmptyWalk(Linked(nodes, loc, level), |nodes|, level, x);
    } else {
      LinkWalk(nodes, root, place, loc, level, prefix, root, LEVELS, x);
    }
  }

  // ---------------------------------------------------------------- one level down

  lemma {:induction false} DescendStep(nodes: seq<Node>, e: Entry, i: nat, x: nat, l: nat, n: nat)
    requires l < i && Descend(nodes, e, i, x, l + 1) == Entry(1, n)
    requires n < |nodes| && |nodes[n]| == L2_SIZE
    ensures Descend(nodes, e, i, x, l) == nodes[n][Digit(x, l)]
    decreases i
  {
    if i > l + 1 && !(e.skip != 1 || e.ptr >= |nodes| || |nodes[e.ptr]| != L2_SIZE) {
      DescendStep(nodes, nodes[e.ptr][Digit(x, i - 1)], i - 1, x, l, n);
    } else {
      assert e == Entry(1, n);
      assert Descend(nodes, nodes[n][Digit(x, i - 1)], i - 1, x, l) == Descend(nodes, e, i, x, l);
    }
  }

  lemma ReachedSlot(nodes: seq<Node>, root: Entry, place: seq<Place>, n: nat, k: nat, x: nat)
    requires Shape(nodes, root, place) && n < |nodes| && k < L2_SIZE
    requires place[n].level < LEVELS && Reached(nodes, root, place, n)
    requires x < Size(LEVELS) && Shift(x, place[n].level) == place[n].prefix * 512 + k
    ensures Descend(nodes, root, LEVELS, x, place[n].level) == nodes[n][k]
  {
    var l := place[n].level;
    ShiftNext(x, l);
    assert Below(place[n], x);
    DescendStep(nodes, root, LEVELS, x, l, n);
  }

  /** The node holding an entry is on the way of all its pages. */
  ghost predicate ReachedLoc(nodes: seq<Node>, root: Entry, place: seq<Place>, loc: Loc)
    requires |nodes| == |place|
  {
    loc.At? ==> loc.n < |nodes| && Reached(nodes, root, place, loc.n)
  }

  lemma ReachedChild(nodes: seq<Node>, root: Entry, place: seq<Place>, loc: Loc, level: nat, prefix: nat)
    requires Shape(nodes, root, place) && LocOk(nodes, place, loc, level, prefix) && level < LEVELS
    requires loc.At? ==> level + 1 < LEVELS
    requires ReachedLoc(nodes, root, place, loc)
    requires Get(nodes, root, loc).skip == 1 && Get(nodes, root, loc).ptr != NODE_NIL
    ensures Get(nodes, root, loc).ptr < |nodes|
    ensures place[Get(nodes, root, loc).ptr] == Place(level, prefix)
    ensures Reached(nodes, root, place, Get(nodes, root, loc).ptr)
  {
    if loc.At? {
      assert SlotOk(nodes, place, loc.n, loc.k);
      forall x: nat | Below(Place(level, prefix), x)
        ensures Descend(nodes, root, LEVELS, x, level + 1) == nodes[loc.n][loc.k]
      {
        ReachedSlot(nodes, root, place, loc.n, loc.k, x);
      }
    }
  }

  /** A slot above unassigned pages holds no leaf, so the recursion may go on there. */
  lemma SlotNotLeaf(nodes: seq<Node>, root: Entry, place: seq<Place>, n: nat, k: nat, x: nat)
    requires Shape(nodes, root, place) && n < |nodes| && k < L2_SIZE
    requires 0 < place[n].level < LEVELS && Reached(nodes, root, place, n)
    requires x < Size(LEVELS) && Shift(x, place[n].level) == place[n].prefix * 512 + k
    requires Walk(nodes, root, LEVELS, x) == UNASSIGNED
    ensures nodes[n][k].skip == 1
  {
    var l := place[n].level;
    ReachedSlot(nodes, root, place, n, k, x);
    ShapeSkips(nodes, root, place);
    DescendWalk(nodes, root, LEVELS, x, l);
    assert SlotOk(nodes, place, n, k);
  }

  /** Changes below a level leave the way down to it as it was. */
  lemma ReachedFrame(nodes: seq<Node>, root: Entry, place: seq<Place>, nodes': seq<Node>, place': seq<Place>, n: nat)
    requires Shape(nodes, root, place) && Shape(nodes', root, place') && n < |nodes|
    requires place <= place'
    requires forall m | 0 <= m < |nodes| && place[m].level > place[n].level :: nodes'[m] == nodes[m]
    requires Reached(nodes, root, place, n)
    ensures Reached(nodes', root, place', n)
  {
    forall x: nat | Below(place'[n], x)
      ensures Descend(nodes', root, LEVELS, x, place[n].level + 1) == Entry(1, n)
    {
      RootOnWay(nodes, root, place, x);
      DescendFrame(nodes, root, place, nodes', root, LEVELS, x, place[n].level + 1);
      assert Below(place[n], x);
    }
  }

  /** The fresh node is on the way of the pages it stands for. */
  lemma ReachedFresh(nodes: seq<Node>, root: Entry, place: seq<Place>, loc: Loc, level: nat, prefix: nat)
    requires Shape(nodes, root, place) && |nodes| < NODE_NIL && level < LEVELS
    requires loc.At? ==> level + 1 < LEVELS
    requires LocOk(nodes, place, loc, level, prefix) && Get(nodes, root, loc) == NIL
    requires ReachedLoc(nodes, root, place, loc)
    ensures Reached(Linked(nodes, loc, level), if loc.Root? then Entry(1, |nodes|) else root,
                    place + [Place(level, prefix)], |nodes|)
  {
    if loc.At? {
      var nodes' := Linked(nodes, loc, level);
      var place' := place + [Place(level, prefix)];
      LinkShape(nodes, root, place, loc, level, prefix);
      ReachedFrame(nodes, root, place, nodes', place', loc.n);
      ReachedChild(nodes', root, place', loc, level, prefix);
    }
  }
}
