/** Whole migrations: every interleaving of guest, rounds and synchronisation, up to the
    receiver's memory. */
module RamRun {
  import opened Common
  import opened Bytes
  import opened RamStream
  import opened DirtyBitmap
  import opened RamSearch
  import opened RamPace
  import opened RamSetup
  import opened RamMigration
  import RamLoader

  /** What may happen between setup and completion. */
  datatype Op =
    | Guest(writes: seq<Write>) | Iterate(budget: nat) | Pending(maxSize: nat) | Resize(size: nat) | Stop | Resume

  /** How an operation may move bitmap, log and cursor. */
  ghost predicate Follows(blocks: seq<Block>, op: Op, v: View, w: View)
    requires Standing(blocks, v)
  {
    && Standing(blocks, w) && |w.bits| == |v.bits|
    && match op
       case Guest(_) => w == v.(log := w.log) && Fewer(v.log, w.log)
       case Iterate(n) => Spent(blocks, v, w, n) && Fewer(w.bits, v.bits) && (n > 0 ==> !Forgetful(blocks, w))
       case Pending(_) => w == v.(bits := w.bits, log := w.log) && Moved(v.bits, v.log, w.bits, w.log)
       case _ => w == v
  }

  /** The operation forgets a page: a round that begins in the hazard. */
  ghost predicate Forgets(blocks: seq<Block>, op: Op, v: View)
    requires Layout(blocks, |v.bits|)
  {
    op.Iterate? && op.budget > 0 && Forgetful(blocks, v)
  }

  /** Whether the guest runs before operation k. */
  predicate RunningAt(ops: seq<Op>, k: nat)
    requires k <= |ops|
  {
    k == 0 || (ops[k - 1] != Stop && (ops[k - 1] == Resume || RunningAt(ops, k - 1)))
  }

  /** What the guest can have written during an operation: what a guest operation says, anything during a
      round, nothing otherwise and nothing if it is stopped. */
  predicate Wrote(op: Op, running: bool, writes: seq<Write>) {
    if !running then writes == [] else if op.Guest? then writes == op.writes else op.Iterate? || writes == []
  }

  /** The memory after the writes of the first k operations. */
  function ReplayAll(mem: Memory, lists: seq<seq<Write>>, k: nat): Memory
    requires k <= |lists|
  {
    if k == 0 then mem else Replay(ReplayAll(mem, lists, k - 1), lists[k - 1], |lists[k - 1]|)
  }

  /** The guest's writes, operation by operation. */
  ghost predicate Writes(ops: seq<Op>, k: nat, lists: seq<seq<Write>>) {
    k == |lists| <= |ops| && forall j | 0 <= j < k :: Wrote(ops[j], RunningAt(ops, j), lists[j])
  }

  /** No operation finds the guest running. */
  predicate Still(ops: seq<Op>) {
    forall j | 0 <= j < |ops| && (ops[j].Guest? || ops[j].Iterate?) :: !RunningAt(ops, j)
  }

  lemma {:induction false} StoppedStays(ops: seq<Op>, k: nat)
    requires 0 < k <= |ops| && ops[0] == Stop && Resume !in ops
    ensures !RunningAt(ops, k)
  {
    if k > 1 {
      StoppedStays(ops, k - 1);
    }
  }

  /** The guest is stopped first and never resumed. */
  lemma StoppedStill(ops: seq<Op>)
    requires |ops| > 0 && ops[0] == Stop && Resume !in ops
    ensures Still(ops)
  {
    forall j | 0 < j < |ops| ensures !RunningAt(ops, j) {
      StoppedStays(ops, j);
    }
  }

  /** A guest that does not run leaves its memory as it was. */
  lemma {:induction false} StillSame(mem: Memory, ops: seq<Op>, lists: seq<seq<Write>>, k: nat)
    requires Still(ops) && Writes(ops, |ops|, lists) && k <= |ops|
    ensures ReplayAll(mem, lists, k) == mem
  {
    if k > 0 {
      StillSame(mem, ops, lists, k - 1);
      assert Wrote(ops[k - 1], RunningAt(ops, k - 1), lists[k - 1]);
    }
  }

  /** Writes that give a memory its pages. */
  function Rewrite(mem: Memory): (r: seq<Write>)
    ensures |r| == |mem|
  {
    seq(|mem|, p requires 0 <= p < |mem| => Write(p, mem[p]))
  }

  lemma {:induction false} Rewritten(mem: Memory, was: Memory, n: nat)
    requires |was| == |mem| && n <= |mem| && forall p | 0 <= p < |mem| :: |mem[p]| == PAGE
    ensures forall p | 0 <= p < |mem| :: Replay(was, Rewrite(mem), n)[p] == if p < n then mem[p] else was[p]
  {
    if n > 0 {
      Rewritten(mem, was, n - 1);
    }
  }

  lemma AnyMemory(mem: Memory, was: Memory)
    requires |was| == |mem| && forall p | 0 <= p < |mem| :: |mem[p]| == PAGE
    ensures Replay(was, Rewrite(mem), |mem|) == mem
  {
    Rewritten(mem, was, |mem|);
  }

  method Perform(m: Migration, op: Op) returns (ghost writes: seq<Write>)
    requires m.Running(false)
    modifies m, m.dirty
    ensures m.running == (op != Stop && (op == Resume || old(m.running)))
    ensures Wrote(op, old(m.running), writes) && m.src == Replay(old(m.src), writes, |writes|)
    ensures m.Running(false) && Follows(m.blocks, op, old(m.Now()), m.Now())
    ensures old(Forgets(m.blocks, op, m.Now())) ==> m.dst == old(m.dst) && m.lost == LastPages(m.blocks)
    ensures !old(Forgets(m.blocks, op, m.Now())) ==> m.lost <= old(m.lost)
  {
    writes := [];
    match op {
      case Guest(all) =>
        m.Guest(all);
        writes := if m.running then all else [];
        CleanGuest(m.blocks, old(m.src), m.dst, m.dirty.bitmap, old(m.dirty.log), m.lost, m.src, m.dirty.log);
      case Iterate(budget) =>
        var _ := m.Iterate(budget);
        if m.running {
          writes := Rewrite(m.src);
          AnyMemory(m.src, old(m.src));
        }
      case Pending(maxSize) =>
        var _ := m.Pending(maxSize);
      case Resize(size) =>
        if size > 0 {
          m.ResizeCache(size);
        }
      case Stop => m.running := false;
      case Resume => m.running := true;
    }
  }

  /** A migration under way: how its bitmap, log and cursor have moved, and that nothing is lost if
      no operation forgot a page. */
  ghost predicate History(blocks: seq<Block>, ops: seq<Op>, k: nat, views: seq<View>, cap: nat) {
    && Layout(blocks, cap) && k <= |ops| && |views| == k + 1
    && (forall j | 0 <= j <= k :: Standing(blocks, views[j]) && |views[j].bits| == cap)
    && views[0].bulk && views[0].seen.None?
    && (forall p | 0 <= p < cap && InBlock(blocks, p) :: views[0].bits[p])
    && forall j | 0 <= j < k :: Follows(blocks, ops[j], views[j], views[j + 1])
  }

  ghost predicate NothingForgotten(blocks: seq<Block>, ops: seq<Op>, k: nat, views: seq<View>, cap: nat)
    requires History(blocks, ops, k, views, cap)
  {
    forall j | 0 <= j < k :: !Forgets(blocks, ops[j], views[j])
  }

  lemma HistoryGrows(blocks: seq<Block>, ops: seq<Op>, k: nat, views: seq<View>, cap: nat, w: View)
    requires History(blocks, ops, k, views, cap) && k < |ops| && Follows(blocks, ops[k], views[k], w)
    ensures History(blocks, ops, k + 1, views + [w], cap)
    ensures NothingForgotten(blocks, ops, k + 1, views + [w], cap) <==>
      NothingForgotten(blocks, ops, k, views, cap) && !Forgets(blocks, ops[k], views[k])
  {
    var views' := views + [w];
    assert forall j | 0 <= j <= k :: views'[j] == views[j];
    assert views'[k + 1] == w;
  }

  /** A synchronisation between two rounds is what it takes to forget a page before the completion. */
  lemma {:induction false} ForgetsAfterSync(blocks: seq<Block>, ops: seq<Op>, k: nat, views: seq<View>, cap: nat)
    requires History(blocks, ops, k, views, cap) && forall j | 0 <= j < k :: !ops[j].Pending?
    ensures NothingForgotten(blocks, ops, k, views, cap) && !Forgetful(blocks, views[k])
  {
    if k > 0 {
      var before := views[..k];
      assert forall j | 0 <= j < k :: before[j] == views[j];
      ForgetsAfterSync(blocks, ops, k - 1, before, cap);
      assert Follows(blocks, ops[k - 1], views[k - 1], views[k]);
    }
  }

  // ---------------------------------------------------------------- what the operations alone tell

  /** With that many pages left, the cursor stands on the first page of a block. */
  predicate StartsBlock(blocks: seq<Block>, left: nat) {
    exists b :: 0 <= b < |blocks| && TotalPages(blocks, b) == left + 1
  }

  /** After k operations the bulk stage can have this many pages left, with the page under the cursor
      marked or not: a round takes as many pages as it has budget, or one less if it begins by sending
      the first page of a block again, which a synchronisation must have marked. */
  predicate CanStand(blocks: seq<Block>, ops: seq<Op>, k: nat, left: nat, marked: bool)
    requires k <= |ops|
    decreases k
  {
    if k == 0 then left == TotalPages(blocks, 0) && !marked
    else
      var op := ops[k - 1];
      if op.Iterate? && op.budget > 0 then
        && !marked
        && (|| CanStand(blocks, ops, k - 1, left + op.budget, false)
            || CanStand(blocks, ops, k - 1, left + op.budget, true)
            || (StartsBlock(blocks, left + op.budget - 1) && CanStand(blocks, ops, k - 1, left + op.budget - 1, true)))
      else if op.Pending? then
        marked && (CanStand(blocks, ops, k - 1, left, false) || CanStand(blocks, ops, k - 1, left, true))
      else CanStand(blocks, ops, k - 1, left, marked)
  }

  /** A guest could make this run forget the last page: the bulk stage can have reached it when the
      migration completes, or when a round begins after a synchronisation. */
  predicate MayForget(blocks: seq<Block>, ops: seq<Op>) {
    && LastPages(blocks) != {}
    && (|| CanStand(blocks, ops, |ops|, 0, false) || CanStand(blocks, ops, |ops|, 0, true)
        || exists k :: 0 <= k < |ops| && ForgetsAt(blocks, ops, k))
  }

  predicate ForgetsAt(blocks: seq<Block>, ops: seq<Op>, k: nat)
    requires k < |ops|
  {
    ops[k].Iterate? && ops[k].budget > 0 && CanStand(blocks, ops, k, 0, true)
  }

  /** The cursor of a run stands where the operations allow. */
  ghost predicate Stands(blocks: seq<Block>, ops: seq<Op>, k: nat, v: View)
    requires k <= |ops| && InBulk(blocks, v)
  {
    var left := Left(blocks, v.seen, v.offset);
    CanStand(blocks, ops, k, left, true) || (CanStand(blocks, ops, k, left, false) && !Marked(blocks, v))
  }

  lemma StandsNext(blocks: seq<Block>, ops: seq<Op>, k: nat, v: View, w: View)
    requires k < |ops| && Standing(blocks, v) && Follows(blocks, ops[k], v, w) && w.bulk
    requires v.bulk ==> Stands(blocks, ops, k, v)
    ensures v.bulk && Stands(blocks, ops, k + 1, w)
  {
    if ops[k].Iterate? && ops[k].budget > 0 && Again(blocks, v) {
      assert TotalPages(blocks, v.seen.value) == Left(blocks, v.seen, v.offset) + 1;
      assert StartsBlock(blocks, Left(blocks, v.seen, v.offset));
    }
  }

  lemma {:induction false} HistoryStands(blocks: seq<Block>, ops: seq<Op>, n: nat, views: seq<View>, cap: nat, k: nat)
    requires History(blocks, ops, n, views, cap) && k <= n && views[k].bulk
    ensures Stands(blocks, ops, k, views[k])
    decreases k
  {
    if k > 0 {
      assert Follows(blocks, ops[k - 1], views[k - 1], views[k]);
      if views[k - 1].bulk {
        HistoryStands(blocks, ops, n, views, cap, k - 1);
      }
      StandsNext(blocks, ops, k - 1, views[k - 1], views[k]);
    }
  }

  /** A run forgets a page only if its operations allow it. */
  lemma ForgetsAllowed(blocks: seq<Block>, ops: seq<Op>, views: seq<View>, cap: nat, k: nat)
    requires History(blocks, ops, |ops|, views, cap) && k < |ops| && Forgets(blocks, ops[k], views[k])
    ensures MayForget(blocks, ops)
  {
    HistoryStands(blocks, ops, |ops|, views, cap, k);
    HazardAtEnd(blocks, views[k], views[k].bits);
    assert ForgetsAt(blocks, ops, k);
  }

  lemma ForgetsLastAllowed(blocks: seq<Block>, ops: seq<Op>, views: seq<View>, cap: nat)
    requires History(blocks, ops, |ops|, views, cap) && ForgetfulSynced(blocks, views[|ops|])
    ensures MayForget(blocks, ops)
  {
    var last := views[|ops|];
    HistoryStands(blocks, ops, |ops|, views, cap, |ops|);
    HazardAtEnd(blocks, last, Merged(last.bits, last.log));
  }

  lemma NoneForgotten(blocks: seq<Block>, ops: seq<Op>, views: seq<View>, cap: nat)
    requires History(blocks, ops, |ops|, views, cap) && !MayForget(blocks, ops)
    ensures NothingForgotten(blocks, ops, |ops|, views, cap) && !ForgetfulSynced(blocks, views[|ops|])
  {
    forall k | 0 <= k < |ops| && Forgets(blocks, ops[k], views[k]) ensures false {
      ForgetsAllowed(blocks, ops, views, cap, k);
    }
    if ForgetfulSynced(blocks, views[|ops|]) {
      ForgetsLastAllowed(blocks, ops, views, cap);
    }
  }

  /** The budgets of the first k operations, and how many of them synchronise. */
  function Budgets(ops: seq<Op>, k: nat): nat
    requires k <= |ops|
  {
    if k == 0 then 0 else Budgets(ops, k - 1) + if ops[k - 1].Iterate? then ops[k - 1].budget else 0
  }

  function Syncs(ops: seq<Op>, k: nat): nat
    requires k <= |ops|
  {
    if k == 0 then 0 else Syncs(ops, k - 1) + Bit(ops[k - 1].Pending?)
  }

  /** Each synchronisation can make the stage one call longer. */
  lemma {:induction false} PaceBounds(blocks: seq<Block>, ops: seq<Op>, k: nat, left: nat, marked: bool)
    requires k <= |ops| && CanStand(blocks, ops, k, left, marked)
    ensures TotalPages(blocks, 0) <= left + Budgets(ops, k)
    ensures left + Budgets(ops, k) + Bit(marked) <= TotalPages(blocks, 0) + Syncs(ops, k)
    decreases k
  {
    if k > 0 {
      var op := ops[k - 1];
      var n := if op.Iterate? then op.budget else 0;
      if CanStand(blocks, ops, k - 1, left + n, false) {
        PaceBounds(blocks, ops, k - 1, left + n, false);
      }
      if CanStand(blocks, ops, k - 1, left + n, true) {
        PaceBounds(blocks, ops, k - 1, left + n, true);
      }
      if n > 0 && CanStand(blocks, ops, k - 1, left + n - 1, true) {
        PaceBounds(blocks, ops, k - 1, left + n - 1, true);
      }
    }
  }

  /** Nothing is forgotten if the budgets step over the number of pages, by more than one page for each
      synchronisation. */
  lemma StepOver(blocks: seq<Block>, ops: seq<Op>)
    requires forall k | 0 <= k <= |ops| ::
      Budgets(ops, k) < TotalPages(blocks, 0) || Budgets(ops, k) > TotalPages(blocks, 0) + Syncs(ops, k)
    ensures !MayForget(blocks, ops)
  {
    forall k, marked | 0 <= k <= |ops| && CanStand(blocks, ops, k, 0, marked) ensures false {
      PaceBounds(blocks, ops, k, 0, marked);
    }
  }

  /** Without a synchronisation the budgets alone tell where the bulk stage stands. */
  lemma {:induction false} PaceExact(blocks: seq<Block>, ops: seq<Op>, k: nat, left: nat, marked: bool)
    requires k <= |ops| && Syncs(ops, k) == 0
    ensures CanStand(blocks, ops, k, left, marked) <==> !marked && left + Budgets(ops, k) == TotalPages(blocks, 0)
    decreases k
  {
    if k > 0 {
      var op := ops[k - 1];
      var n := if op.Iterate? then op.budget else 0;
      PaceExact(blocks, ops, k - 1, left + n, false);
      PaceExact(blocks, ops, k - 1, left + n, true);
      if n > 0 {
        PaceExact(blocks, ops, k - 1, left + n - 1, true);
      } else {
        PaceExact(blocks, ops, k - 1, left, marked);
      }
    }
  }

  /** Without a synchronisation the only way to forget the last page is to complete right after the bulk
      stage has sent it. */
  lemma MayForgetExact(blocks: seq<Block>, ops: seq<Op>)
    requires Syncs(ops, |ops|) == 0
    ensures MayForget(blocks, ops) <==> LastPages(blocks) != {} && Budgets(ops, |ops|) == TotalPages(blocks, 0)
  {
    PaceExact(blocks, ops, |ops|, 0, false);
    PaceExact(blocks, ops, |ops|, 0, true);
    forall k | 0 <= k < |ops| ensures !ForgetsAt(blocks, ops, k) {
      SyncsGrow(ops, k, |ops|);
      PaceExact(blocks, ops, k, 0, true);
    }
  }

  lemma {:induction false} SyncsGrow(ops: seq<Op>, j: nat, k: nat)
    requires j <= k <= |ops|
    ensures Syncs(ops, j) <= Syncs(ops, k)
    decreases k
  {
    if j < k {
      SyncsGrow(ops, j, k - 1);
    }
  }

  lemma {:induction false} ReplaySame(mem: Memory, lists: seq<seq<Write>>, more: seq<seq<Write>>, k: nat)
    requires k <= |lists| && lists <= more
    ensures ReplayAll(mem, more, k) == ReplayAll(mem, lists, k)
  {
    if k > 0 {
      ReplaySame(mem, lists, more, k - 1);
    }
  }

  lemma WritesGrow(mem: Memory, ops: seq<Op>, k: nat, lists: seq<seq<Write>>, writes: seq<Write>)
    requires k < |ops| && Writes(ops, k, lists) && Wrote(ops[k], RunningAt(ops, k), writes)
    ensures Writes(ops, k + 1, lists + [writes])
    ensures ReplayAll(mem, lists + [writes], k + 1) == Replay(ReplayAll(mem, lists, k), writes, |writes|)
  {
    var more := lists + [writes];
    ReplaySame(mem, lists, more, k);
    assert more[k] == writes && forall j | 0 <= j < k :: more[j] == lists[j];
  }

  /** Everything between setup and completion. */
  method PerformAll(m: Migration, ops: seq<Op>) returns (ghost views: seq<View>, ghost lists: seq<seq<Write>>)
    requires m.Running(false) && m.lost == {} && m.bulk && m.lastSeen.None? && m.running
    requires forall p | 0 <= p < m.cap && InBlock(m.blocks, p) :: m.dirty.bitmap[p]
    modifies m, m.dirty
    ensures m.Running(false) && History(m.blocks, ops, |ops|, views, m.cap) && views[|ops|] == m.Now()
    ensures NothingForgotten(m.blocks, ops, |ops|, views, m.cap) ==> m.lost == {}
    ensures Writes(ops, |ops|, lists) && m.src == ReplayAll(old(m.src), lists, |ops|)
  {
    views, lists := [m.Now()], [];
    var k := 0;
    while k < |ops|
      invariant 0 <= k <= |ops| && m.Running(false)
      invariant History(m.blocks, ops, k, views, m.cap) && views[k] == m.Now()
      invariant NothingForgotten(m.blocks, ops, k, views, m.cap) ==> m.lost == {}
      invariant Writes(ops, k, lists) && m.src == ReplayAll(old(m.src), lists, k) && m.running == RunningAt(ops, k)
    {
      ghost var writes := Perform(m, ops[k]);
      HistoryGrows(m.blocks, ops, k, views, m.cap, m.Now());
      WritesGrow(old(m.src), ops, k, lists, writes);
      views, lists := views + [m.Now()], lists + [writes];
      k := k + 1;
    }
  }

  /** The receiver reads the whole stream. */
  method Receive(m: Migration, mem: Memory) returns (result: Memory)
    requires m.Running(true) && m.first == LoadState(mem, None)
    ensures result == m.dst
  {
    var loader := new RamLoader.Loader(m.blocks, m.stream, mem);
    var _ := loader.Receive();
    result := loader.mem;
  }

  /** Setup: every page is marked, and the blocks are announced. */
  method Start(blocks: seq<Block>, pages: nat, src: Memory, log: seq<bool>, useXbzrle: bool, cacheSize: nat,
               mem: Memory)
    returns (m: Migration)
    requires Layout(blocks, |log|) && Named(blocks) && Paged(src, |log|) && Paged(mem, |log|)
    requires pages <= |log| && |log| % BITS_PER_LONG == 0
    requires forall b | 0 <= b < |blocks| :: blocks[b].start + blocks[b].pages <= pages
    requires useXbzrle ==> cacheSize > 0
    ensures fresh(m) && fresh(m.dirty) && m.Running(false) && m.lost == {} && m.bulk && m.lastSeen.None?
    ensures m.src == src && m.running
    ensures m.blocks == blocks && m.cap == |log| && m.first == LoadState(mem, None)
    ensures forall p | 0 <= p < |log| && InBlock(blocks, p) :: m.dirty.bitmap[p] && !m.dirty.log[p]
  {
    m := new Migration(blocks, pages, src, log, useXbzrle, cacheSize, mem);
    m.Setup();
  }

  /** The guest stops, the migration completes, and the receiver reads its stream. */
  method Finish(m: Migration, mem: Memory) returns (result: Memory)
    requires m.Running(false) && m.first == LoadState(mem, None)
    modifies m, m.dirty
    ensures m.src == old(m.src) && |result| == |m.src| == m.cap
    ensures forall p | 0 <= p < m.cap && InBlock(m.blocks, p) && p !in LastPages(m.blocks) :: result[p] == m.src[p]
    ensures old(m.lost == {} && !ForgetfulSynced(m.blocks, m.Now())) ==>
      forall p | 0 <= p < m.cap && InBlock(m.blocks, p) :: result[p] == m.src[p]
  {
    m.running := false;
    m.Complete();
    result := Receive(m, mem);
  }

  /** A migration from setup to completion, whatever happens in between, and the receiver that reads its
      stream.  The memories agree on every page but the last one of all, and on that page too if it is
      alone in its block, if neither a round nor the completion began in the hazard, or if the operations
      do not allow that. */
  method Migrate(blocks: seq<Block>, pages: nat, src: Memory, log: seq<bool>, useXbzrle: bool, cacheSize: nat,
                 mem: Memory, ops: seq<Op>)
    returns (m: Migration, result: Memory, ghost views: seq<View>, ghost lists: seq<seq<Write>>)
    requires Layout(blocks, |log|) && Named(blocks) && Paged(src, |log|) && Paged(mem, |log|)
    requires pages <= |log| && |log| % BITS_PER_LONG == 0
    requires forall b | 0 <= b < |blocks| :: blocks[b].start + blocks[b].pages <= pages
    requires useXbzrle ==> cacheSize > 0
    ensures |result| == |m.src| == |log|
    ensures Writes(ops, |ops|, lists) && m.src == ReplayAll(src, lists, |ops|) && (Still(ops) ==> m.src == src)
    ensures forall p | 0 <= p < |log| && InBlock(blocks, p) && p !in LastPages(blocks) :: result[p] == m.src[p]
    ensures History(blocks, ops, |ops|, views, |log|)
    ensures NothingForgotten(blocks, ops, |ops|, views, |log|) && !ForgetfulSynced(blocks, views[|ops|]) ==>
      forall p | 0 <= p < |log| && InBlock(blocks, p) :: result[p] == m.src[p]
    ensures !MayForget(blocks, ops) ==> forall p | 0 <= p < |log| && InBlock(blocks, p) :: result[p] == m.src[p]
  {
    m := Start(blocks, pages, src, log, useXbzrle, cacheSize, mem);
    views, lists := PerformAll(m, ops);
    if Still(ops) {
      StillSame(src, ops, lists, |ops|);
    }
    if !MayForget(blocks, ops) {
      NoneForgotten(blocks, ops, views, |log|);
    }
    result := Finish(m, mem);
  }
}
