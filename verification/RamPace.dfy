/**
 The pace of the bulk stage (arch_init.c 406-412, 538-641): every call sends one page and moves the
 cursor to the next one, except that the first page of a block is sent again if it was marked while
 the cursor stood on it.
 */
module RamPace {
  import opened Common
  import opened RamStream
  import opened DirtyBitmap
  import opened RamSearch
  import opened RamSetup

  ghost predicate Standing(blocks: seq<Block>, v: View) {
    Layout(blocks, |v.bits|) && |v.log| == |v.bits| && CursorOk(blocks, v.bits, v.bulk, v.seen, v.offset)
  }

  ghost predicate InBulk(blocks: seq<Block>, v: View) {
    Standing(blocks, v) && v.bulk
  }

  /** The pages that the cursor has not reached yet. */
  function Left(blocks: seq<Block>, seen: Option<nat>, offset: nat): nat
    requires seen.Some? ==> seen.value < |blocks| && offset < blocks[seen.value].pages
  {
    if seen.None? then TotalPages(blocks, 0) else TotalPages(blocks, seen.value) - offset - 1
  }

  /** The page under the cursor is marked. */
  ghost predicate Marked(blocks: seq<Block>, v: View)
    requires InBulk(blocks, v)
  {
    v.seen.Some? && Dirty(blocks, v.bits, v.seen.value, v.offset)
  }

  /** The next call sends the page under the cursor again. */
  ghost predicate Again(blocks: seq<Block>, v: View)
    requires InBulk(blocks, v)
  {
    Marked(blocks, v) && v.offset == 0
  }

  ghost predicate Behind(v: View, c: nat, u: nat) {
    v.seen.Some? && Before(c, u, v.seen.value, v.offset)
  }

  /** No page behind the cursor is marked. */
  ghost predicate Tidy(blocks: seq<Block>, v: View)
    requires InBulk(blocks, v)
  {
    forall c, u | 0 <= c < |blocks| && 0 <= u < blocks[c].pages && Behind(v, c, u) :: !Dirty(blocks, v.bits, c, u)
  }

  /** What n calls do that leave the bulk stage on. */
  ghost predicate Paced(blocks: seq<Block>, v: View, w: View, n: nat)
    requires InBulk(blocks, v) && InBulk(blocks, w)
  {
    && Left(blocks, w.seen, w.offset) + n == CallsLeft(blocks, v) && !Marked(blocks, w)
    && (Tidy(blocks, v) && (Marked(blocks, v) ==> v.offset == 0) ==> Tidy(blocks, w))
  }

  /** The number of calls that the stage goes on for. */
  ghost function CallsLeft(blocks: seq<Block>, v: View): nat
    requires InBulk(blocks, v)
  {
    Left(blocks, v.seen, v.offset) + Bit(Again(blocks, v))
  }

  /** Where the cursor goes. */
  lemma NextPlace(blocks: seq<Block>, v: View)
    requires InBulk(blocks, v)
    ensures match BulkNext(blocks, v.bits, v.seen, v.offset) {
      case None => CallsLeft(blocks, v) == 0
      case Some(next) =>
        && next.block < |blocks| && next.offset < blocks[next.block].pages
        && Left(blocks, Some(next.block), next.offset) + 1 == CallsLeft(blocks, v)
        && forall c, u | 0 <= c < |blocks| && 0 <= u < blocks[c].pages && Before(c, u, next.block, next.offset) ::
             Behind(v, c, u) || (v.seen == Some(c) && v.offset == u && !Again(blocks, v))
    }
  {
    if v.seen.Some? && v.offset == 0 && !Marked(blocks, v) && blocks[v.seen.value].pages > 1 {
      assert Dirty(blocks, v.bits, v.seen.value, 1);
    }
    assert TotalPages(blocks, |blocks|) == 0;
  }

  lemma OneCall(blocks: seq<Block>, v: View, n: nat, w: View)
    requires InBulk(blocks, v) && InBulk(blocks, w) && InOrder(blocks, v.bits, v.seen, v.offset, n, w)
    ensures Paced(blocks, v, w, 1)
  {
    NextPlace(blocks, v);
    var next := BulkNext(blocks, v.bits, v.seen, v.offset).value;
    if Tidy(blocks, v) && (Marked(blocks, v) ==> v.offset == 0) {
      forall c, u | 0 <= c < |blocks| && 0 <= u < blocks[c].pages && Behind(w, c, u)
        ensures !Dirty(blocks, w.bits, c, u)
      {
        assert Behind(v, c, u) || (v.seen == Some(c) && v.offset == u && !Again(blocks, v));
        assert !Dirty(blocks, v.bits, c, u);
      }
    }
  }

  /** A call that ends the stage was one too many. */
  lemma LastCall(blocks: seq<Block>, v: View, n: nat, w: View)
    requires InBulk(blocks, v) && InOrder(blocks, v.bits, v.seen, v.offset, n, w) && !w.bulk
    ensures CallsLeft(blocks, v) == 0
  {
    NextPlace(blocks, v);
  }

  lemma MoreCalls(blocks: seq<Block>, v: View, w: View, x: View, n: nat)
    requires InBulk(blocks, v) && InBulk(blocks, w) && InBulk(blocks, x)
    requires Paced(blocks, v, w, n) && Paced(blocks, w, x, 1)
    ensures Paced(blocks, v, x, n + 1)
  {}

  /** What n calls make of the stage: it goes on exactly as long as there are calls left. */
  ghost predicate Spent(blocks: seq<Block>, v: View, w: View, n: nat) {
    && Standing(blocks, v) && Standing(blocks, w) && (n == 0 ==> w == v)
    && (n > 0 && w.bulk ==> v.bulk && Paced(blocks, v, w, n))
    && (v.bulk && !w.bulk ==> n > CallsLeft(blocks, v))
  }

  lemma SpendOne(blocks: seq<Block>, v: View, w: View, n: nat, sent: nat, x: View)
    requires Spent(blocks, v, w, n) && Standing(blocks, x) && (x.bulk ==> w.bulk)
    requires w.bulk ==> InOrder(blocks, w.bits, w.seen, w.offset, sent, x)
    ensures Spent(blocks, v, x, n + 1)
  {
    if x.bulk {
      OneCall(blocks, w, sent, x);
      if n > 0 {
        MoreCalls(blocks, v, w, x, n);
      }
    } else if w.bulk {
      LastCall(blocks, w, sent, x);
    }
  }

  /** The hazard is at the end of the stage. */
  lemma HazardAtEnd(blocks: seq<Block>, v: View, bits: seq<bool>)
    requires InBulk(blocks, v) && |bits| == |v.bits| && Hazard(blocks, bits, true, v.seen, v.offset)
    ensures Left(blocks, v.seen, v.offset) == 0 && LastPages(blocks) != {}
  {
    assert TotalPages(blocks, |blocks|) == 0;
  }

  /** How much is left tells where the cursor stands. */
  lemma {:induction false} TotalFalls(blocks: seq<Block>, a: nat, b: nat)
    requires a < b <= |blocks|
    ensures TotalPages(blocks, a) >= blocks[a].pages + TotalPages(blocks, b)
    decreases b - a
  {
    if a + 1 < b {
      TotalFalls(blocks, a + 1, b);
    }
  }

  lemma LeftTells(blocks: seq<Block>, b: nat, o: nat, c: nat, u: nat)
    requires b < |blocks| && o < blocks[b].pages && c < |blocks| && u < blocks[c].pages
    requires Left(blocks, Some(b), o) == Left(blocks, Some(c), u)
    ensures b == c && o == u
  {
    if b < c {
      TotalFalls(blocks, b, c);
    } else if c < b {
      TotalFalls(blocks, c, b);
    }
  }
}
