/**
 The search for the next dirty page (the loop of ram_save_block, arch_init.c 538-641): where
 it has been, when it comes to its end, and when it forgets a page.
 */
module RamSearch {
  import opened Common
  import opened RamStream
  import opened DirtyBitmap

  ghost predicate Before(b: nat, o: nat, c: nat, u: nat) {
    b < c || (b == c && o < u)
  }

  /** In the bulk stage everything behind the last page visited is still dirty. */
  ghost predicate BulkOk(blocks: seq<Block>, bits: seq<bool>, seen: Option<nat>, offset: nat)
    requires Layout(blocks, |bits|)
  {
    forall b, o | 0 <= b < |blocks| && 0 <= o < blocks[b].pages && (seen.Some? ==> Before(seen.value, offset, b, o)) ::
      Dirty(blocks, bits, b, o)
  }

  /** The cursor is on a page of a block, or just behind the last page of it. */
  ghost predicate CursorOk(blocks: seq<Block>, bits: seq<bool>, bulk: bool, seen: Option<nat>, offset: nat)
    requires Layout(blocks, |bits|)
  {
    && (seen.Some? ==> seen.value < |blocks| && offset <= blocks[seen.value].pages)
    && (seen.None? ==> bulk && offset == 0)
    && (bulk ==> BulkOk(blocks, bits, seen, offset) && (seen.Some? ==> offset < blocks[seen.value].pages))
  }

  ghost predicate NoneDirty(blocks: seq<Block>, bits: seq<bool>)
    requires Layout(blocks, |bits|)
  {
    forall c, u | 0 <= c < |blocks| && 0 <= u < blocks[c].pages :: !Dirty(blocks, bits, c, u)
  }

  /** The one state in which a call forgets a page: the bulk stage has reached the last page
      of all, which has become dirty again, and nothing else is dirty. */
  ghost predicate Hazard(blocks: seq<Block>, bits: seq<bool>, bulk: bool, seen: Option<nat>, offset: nat)
    requires Layout(blocks, |bits|)
  {
    && bulk && seen == Some(|blocks| - 1) && 0 < offset == blocks[|blocks| - 1].pages - 1
    && Dirty(blocks, bits, |blocks| - 1, offset)
    && forall c, u | 0 <= c < |blocks| && 0 <= u < blocks[c].pages && !(c == |blocks| - 1 && u == offset) ::
         !Dirty(blocks, bits, c, u)
  }

  /** The only page that can be forgotten: the last one of all, unless it is alone in its block. */
  function LastPages(blocks: seq<Block>): set<nat> {
    if |blocks| > 0 && blocks[|blocks| - 1].pages > 1
    then {PageNo(blocks, |blocks| - 1, blocks[|blocks| - 1].pages - 1)} else {}
  }

  /** What decides whether a call forgets a page: the bitmap, the log, and the cursor. */
  datatype View = View(bits: seq<bool>, log: seq<bool>, bulk: bool, seen: Option<nat>, offset: nat)

  /** The next call forgets a page. */
  ghost predicate Forgetful(blocks: seq<Block>, v: View)
    requires Layout(blocks, |v.bits|)
  {
    Hazard(blocks, v.bits, v.bulk, v.seen, v.offset)
  }

  /** The next call after a synchronisation forgets a page. */
  ghost predicate ForgetfulSynced(blocks: seq<Block>, v: View)
    requires Layout(blocks, |v.bits|) && |v.log| == |v.bits|
  {
    Hazard(blocks, Merged(v.bits, v.log), v.bulk, v.seen, v.offset)
  }

  /** The bitmap that synchronisation would give. */
  function Merged(bits: seq<bool>, log: seq<bool>): (r: seq<bool>)
    requires |bits| == |log|
    ensures |r| == |bits| && forall p | 0 <= p < |r| :: r[p] == (bits[p] || log[p])
  {
    seq(|bits|, p requires 0 <= p < |bits| => bits[p] || log[p])
  }

  lemma NoneDirtySame(blocks: seq<Block>, bits: seq<bool>, bits': seq<bool>)
    requires |bits| == |bits'| && Layout(blocks, |bits|)
    requires forall p | 0 <= p < |bits| && InBlock(blocks, p) :: bits[p] == bits'[p]
    ensures NoneDirty(blocks, bits) <==> NoneDirty(blocks, bits')
  {
    forall c, u | 0 <= c < |blocks| && 0 <= u < blocks[c].pages
      ensures Dirty(blocks, bits, c, u) == Dirty(blocks, bits', c, u)
    {
      assert Within(blocks[c], PageNo(blocks, c, u));
    }
  }

  /** Only the pages of blocks matter. */
  lemma HazardSame(blocks: seq<Block>, bits: seq<bool>, bits': seq<bool>, bulk: bool, seen: Option<nat>, offset: nat)
    requires |bits| == |bits'| && Layout(blocks, |bits|)
    requires forall p | 0 <= p < |bits| && InBlock(blocks, p) :: bits[p] == bits'[p]
    ensures Hazard(blocks, bits, bulk, seen, offset) <==> Hazard(blocks, bits', bulk, seen, offset)
  {
    forall c, u | 0 <= c < |blocks| && 0 <= u < blocks[c].pages
      ensures Dirty(blocks, bits, c, u) == Dirty(blocks, bits', c, u)
    {
      assert Within(blocks[c], PageNo(blocks, c, u));
    }
  }

  datatype Place = Place(block: nat, offset: nat)

  /** The page the bulk stage sends next, if it is not at its end. */
  function BulkNext(blocks: seq<Block>, bits: seq<bool>, seen: Option<nat>, offset: nat): Option<Place>
    requires |blocks| > 0
    requires seen.Some? ==> seen.value < |blocks| && offset < blocks[seen.value].pages
    requires seen.Some? ==> blocks[seen.value].start + blocks[seen.value].pages <= |bits|
  {
    if seen.None? then Some(Place(0, 0))
    else
      var o := if offset > 0 then offset + 1 else FirstDirty(blocks, bits, seen.value, 0);
      if o < blocks[seen.value].pages then Some(Place(seen.value, o))
      else if seen.value + 1 < |blocks| then Some(Place(seen.value + 1, 0))
      else None
  }

  // ---------------------------------------------------------------- one call

  /** A search under way: how the call began (cursor, stage, bitmap), and where it is now. */
  datatype Search = Search(
    seen: Option<nat>, from: nat, wasBulk: bool, was: seq<bool>,
    bits: seq<bool>, bulk: bool, round: bool, b: nat, o: nat)
  {
    ghost function Ls(): nat { if seen.Some? then seen.value else 0 }

    /** A search that starts behind the cursor has not seen it. */
    ghost predicate Skips(c: nat, u: nat) { wasBulk && from > 0 && c == Ls() && u == from }

    /** The places left behind: from the cursor on, in the second round also from the start. */
    ghost predicate Passed(c: nat, u: nat) {
      || (!Before(c, u, Ls(), from) && !Skips(c, u) && (round || Before(c, u, b, o)))
      || (round && Before(c, u, b, o))
    }
  }

  ghost predicate Scanned(blocks: seq<Block>, s: Search)
    requires Layout(blocks, |s.bits|)
  {
    forall c, u | 0 <= c < |blocks| && 0 <= u < blocks[c].pages && s.Passed(c, u) :: !Dirty(blocks, s.bits, c, u)
  }

  ghost predicate Fewer(bits: seq<bool>, was: seq<bool>) {
    |bits| == |was| && forall k | 0 <= k < |bits| && bits[k] :: was[k]
  }

  ghost predicate Started(blocks: seq<Block>, s: Search) {
    && Layout(blocks, |s.was|) && CursorOk(blocks, s.was, s.wasBulk, s.seen, s.from)
  }

  /** What holds whenever the search looks for the next bit. */
  ghost predicate Searching(blocks: seq<Block>, s: Search) {
    && Started(blocks, s) && Fewer(s.bits, s.was) && s.b < |blocks| && s.o <= blocks[s.b].pages
    && Scanned(blocks, s)
    && (s.wasBulk ==> s.bits == s.was)
    && (s.bulk ==> s.wasBulk && !s.round)
    && (s.bulk && !(s.b == s.Ls() && s.o == s.from) ==>
          s.b == s.Ls() + 1 && s.o == 0 && BulkNext(blocks, s.was, s.seen, s.from) == Some(Place(s.b, 0)))
    && (s.wasBulk && !s.bulk ==> s.round && BulkNext(blocks, s.was, s.seen, s.from) == None)
    && (s.round ==> s.seen.Some? && s.b <= s.Ls())
    && (!s.round ==> !Before(s.b, s.o, s.Ls(), s.from))
    && (s.seen.None? ==> s.bulk && s.b == 0 && s.o == 0)
  }

  lemma SearchStart(blocks: seq<Block>, s: Search)
    requires Started(blocks, s) && s.bits == s.was && s.bulk == s.wasBulk && !s.round && s.b == s.Ls() && s.o == s.from
    ensures Searching(blocks, s)
  {}

  /** The result of looking for the next bit. */
  ghost predicate Found(blocks: seq<Block>, s: Search, r: nat) {
    && Searching(blocks, s)
    && r == if s.bulk && s.o > 0 then s.o + 1 else FirstDirty(blocks, s.bits, s.b, s.o)
  }

  /** Looking for a bit is always possible. */
  lemma MayLook(blocks: seq<Block>, s: Search)
    requires Searching(blocks, s)
    ensures s.bulk ==> s.o < blocks[s.b].pages
    ensures s.bulk ==> (0 < s.o && s.o + 1 < blocks[s.b].pages ==> Dirty(blocks, s.bits, s.b, s.o + 1))
  {}

  /** No bit in this block: on to the next one, or to the second round. */
  lemma NextBlock(blocks: seq<Block>, s: Search, r: nat, s': Search)
    requires Found(blocks, s, r) && r >= blocks[s.b].pages && !(s.round && s.seen == Some(s.b) && r >= s.from)
    requires s.b + 1 < |blocks| ==> s' == s.(b := s.b + 1, o := 0)
    requires s.b + 1 >= |blocks| ==> s' == s.(b := 0, o := 0, round := true, bulk := false)
    ensures Searching(blocks, s') && (s.round ==> s.b + 1 < |blocks|)
  {}

  /** A page that need not be sent: on from there. */
  lemma PageSkipped(blocks: seq<Block>, s: Search, r: nat, s': Search)
    requires Found(blocks, s, r) && r < blocks[s.b].pages && !(s.round && s.seen == Some(s.b) && r >= s.from)
    requires !s.wasBulk && s' == s.(bits := s.bits[PageNo(blocks, s.b, r) := false], o := r)
    ensures Searching(blocks, s')
  {
    forall c, u | 0 <= c < |blocks| && 0 <= u < blocks[c].pages && s'.Passed(c, u)
      ensures !Dirty(blocks, s'.bits, c, u)
    {
      assert !Dirty(blocks, s.bits, c, u);
    }
  }

  /** A page to send: it is a dirty one, in the bulk stage the next one, and the cursor may
      move there. */
  lemma PageFound(blocks: seq<Block>, s: Search, r: nat)
    requires Found(blocks, s, r) && r < blocks[s.b].pages && !(s.round && s.seen == Some(s.b) && r >= s.from)
    ensures Dirty(blocks, s.bits, s.b, r) && Sends(blocks, s, s.b, r)
    ensures CursorOk(blocks, s.bits[PageNo(blocks, s.b, r) := false], s.bulk, Some(s.b), r)
  {
    if s.bulk {
      forall c, u | 0 <= c < |blocks| && 0 <= u < blocks[c].pages && Before(s.b, r, c, u)
        ensures Dirty(blocks, s.bits[PageNo(blocks, s.b, r) := false], c, u)
      {
        assert Dirty(blocks, s.was, c, u);
        PagesDiffer(blocks, |s.was|, c, u, s.b, r);
      }
    }
  }

  /** Back at the cursor after a whole round: nothing is dirty any more, but if a bit was
      found and cleared there, this is the hazard. */
  lemma RoundDone(blocks: seq<Block>, s: Search, r: nat)
    requires Found(blocks, s, r) && s.round && s.seen == Some(s.b) && r >= s.from
    ensures r < blocks[s.b].pages <==> Hazard(blocks, s.was, s.wasBulk, s.seen, s.from)
    ensures r < blocks[s.b].pages ==> r == s.from && NoneDirty(blocks, s.bits[PageNo(blocks, s.b, r) := false])
    ensures r >= blocks[s.b].pages ==> NoneDirty(blocks, s.bits)
    ensures Stops(blocks, s) && !s.bulk
  {
    if r < blocks[s.b].pages {
      assert s.Skips(s.b, r);
      var bits := s.bits[PageNo(blocks, s.b, r) := false];
      forall c, u | 0 <= c < |blocks| && 0 <= u < blocks[c].pages ensures !Dirty(blocks, bits, c, u) {
        assert (c == s.b && u == r) || !Dirty(blocks, s.bits, c, u);
      }
    }
  }

  /** How the call began. */
  ghost predicate Began(s: Search, seen: Option<nat>, from: nat, bulk: bool, bits: seq<bool>) {
    s.seen == seen && s.from == from && s.wasBulk == bulk && s.was == bits
  }

  /** The search ends with a page to send. */
  ghost predicate Sends(blocks: seq<Block>, s: Search, b: nat, o: nat) {
    && Started(blocks, s) && b < |blocks| && o < blocks[b].pages && Dirty(blocks, s.was, b, o)
    && !Hazard(blocks, s.was, s.wasBulk, s.seen, s.from)
    && (s.bulk ==> s.wasBulk && s.bits == s.was && BulkNext(blocks, s.was, s.seen, s.from) == Some(Place(b, o)))
    && (s.wasBulk && !s.bulk ==> BulkNext(blocks, s.was, s.seen, s.from) == None)
  }

  /** The search ends without one. */
  ghost predicate Stops(blocks: seq<Block>, s: Search) {
    Started(blocks, s) && (s.wasBulk ==> BulkNext(blocks, s.was, s.seen, s.from) == None)
  }

  /** After a call the page under the cursor is clean, so the next call does not begin in the hazard. */
  lemma NoHazardLeft(blocks: seq<Block>, n: nat, b: nat, o: nat, bits: seq<bool>, bulk: bool)
    requires Layout(blocks, |bits|) && b < |blocks| && o <= blocks[b].pages
    requires n > 0 ==> o < blocks[b].pages && !Dirty(blocks, bits, b, o)
    requires n == 0 ==> NoneDirty(blocks, bits)
    ensures !Hazard(blocks, bits, bulk, Some(b), o)
  {}

  /** In the bulk stage a call sends the next page in order and leaves the rest alone, or ends the stage. */
  ghost predicate InOrder(blocks: seq<Block>, bits: seq<bool>, seen: Option<nat>, offset: nat, n: nat, v: View)
    requires Layout(blocks, |bits|) && CursorOk(blocks, bits, true, seen, offset)
  {
    match BulkNext(blocks, bits, seen, offset)
    case None => !v.bulk
    case Some(next) =>
      && n > 0 && v.bulk && v.seen == Some(next.block) && v.offset == next.offset
      && next.block < |blocks| && PageNo(blocks, next.block, next.offset) < |bits|
      && v.bits == bits[PageNo(blocks, next.block, next.offset) := false]
  }

  lemma BulkInOrder(blocks: seq<Block>, s: Search, n: nat, b: nat, o: nat, v: View)
    requires Started(blocks, s) && v.seen == Some(b) && v.offset == o
    requires n > 0 ==> Sends(blocks, s, b, o) && |s.bits| == |s.was| && v.bulk == s.bulk
    requires n > 0 ==> v.bits == s.bits[PageNo(blocks, b, o) := false]
    requires n == 0 ==> Stops(blocks, s) && !v.bulk
    ensures s.wasBulk ==> InOrder(blocks, s.was, s.seen, s.from, n, v)
  {}

  lemma HazardPage(blocks: seq<Block>, s: Search)
    requires Started(blocks, s)
    ensures Forgets(blocks, s) == if Hazard(blocks, s.was, s.wasBulk, s.seen, s.from) then LastPages(blocks) else {}
  {}

  /** The pages forgotten by a search that ends without one. */
  ghost function Forgets(blocks: seq<Block>, s: Search): set<nat>
    requires Started(blocks, s)
  {
    if Hazard(blocks, s.was, s.wasBulk, s.seen, s.from) then {PageNo(blocks, s.seen.value, s.from)} else {}
  }
}
