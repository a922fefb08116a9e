/**
 The forgotten page is real (arch_init.c 552-556): whatever rounds and synchronisations there are, if
 they allow the bulk stage to stand on the last page at the wrong moment, a guest can make the
 migration forget that page.
 */
module RamLoss {
  import opened Common
  import opened RamStream
  import opened DirtyBitmap
  import opened RamSearch
  import opened RamPace
  import opened RamSetup
  import opened RamMigration
  import opened RamRun

  // ---------------------------------------------------------------- runs with a guest in between

  predicate Round(op: Op) {
    op.Iterate? || op.Pending?
  }

  /** A run without what the guest does in it. */
  function Rounds(run: seq<Op>): seq<Op> {
    if run == [] then []
    else
      var op := run[|run| - 1];
      Rounds(run[..|run| - 1]) + if Round(op) then [op] else []
  }

  /** Rounds, and queries that synchronise however much there is to send. */
  predicate Plain(ops: seq<Op>, cap: nat) {
    forall k | 0 <= k < |ops| :: ops[k].Iterate? || (ops[k].Pending? && ops[k].maxSize > cap * PAGE)
  }

  /** The migration has done the first k operations, and the guest something in between. */
  ghost predicate Done(m: Migration, ops: seq<Op>, k: nat, run: seq<Op>, views: seq<View>)
    requires k <= |ops|
    reads m, m.dirty
  {
    History(m.blocks, run, |run|, views, m.cap) && views[|run|] == m.Now() && Rounds(run) == ops[..k]
  }

  lemma RunGrows(blocks: seq<Block>, run: seq<Op>, views: seq<View>, cap: nat, op: Op, w: View)
    requires History(blocks, run, |run|, views, cap) && Follows(blocks, op, views[|run|], w)
    ensures History(blocks, run + [op], |run| + 1, views + [w], cap)
    ensures Rounds(run + [op]) == Rounds(run) + if Round(op) then [op] else []
  {
    var run' := run + [op];
    assert History(blocks, run', |run|, views, cap) by {
      assert forall j | 0 <= j < |run| :: run'[j] == run[j];
    }
    HistoryGrows(blocks, run', |run|, views, cap, w);
    assert run'[..|run|] == run;
  }

  lemma {:induction false} CountBelow(bits: seq<bool>, n: nat)
    requires n <= |bits|
    ensures Count(bits, n) <= n
  {
    if n > 0 {
      CountBelow(bits, n - 1);
    }
  }

  // ---------------------------------------------------------------- where the cursor stands

  /** Before the first operation. */
  ghost predicate Ready(m: Migration)
    reads m, m.dirty
  {
    && m.Running(false) && m.lost == {} && m.bulk && m.lastSeen.None?
    && forall p | 0 <= p < m.cap && InBlock(m.blocks, p) :: m.dirty.bitmap[p] && !m.dirty.log[p]
  }

  ghost predicate LogClear(m: Migration)
    requires |m.dirty.log| == m.cap
    reads m.dirty
  {
    forall p | 0 <= p < m.cap && InBlock(m.blocks, p) :: !m.dirty.log[p]
  }

  /** The page under the cursor. */
  function CursorPage(m: Migration): nat
    requires m.lastSeen.Some? && m.lastSeen.value < |m.blocks|
    reads m`lastSeen, m`lastOffset
  {
    PageNo(m.blocks, m.lastSeen.value, m.lastOffset)
  }

  /** The receiver has something else for the page under the cursor. */
  ghost predicate Stale(m: Migration)
    reads m`lastSeen, m`lastOffset, m`src, m`dst
  {
    && m.lastSeen.Some? && m.lastSeen.value < |m.blocks| && CursorPage(m) < |m.src| == |m.dst|
    && m.dst[CursorPage(m)] != m.src[CursorPage(m)]
  }

  /** In the bulk stage with so many pages left, nothing marked behind the cursor, and the page under
      it marked and stale, or not marked. */
  ghost predicate At(m: Migration, left: nat, marked: bool)
    reads m, m.dirty
  {
    && m.Running(false) && m.lost == {} && m.bulk && LogClear(m)
    && Left(m.blocks, m.lastSeen, m.lastOffset) == left
    && Tidy(m.blocks, m.Now()) && (Marked(m.blocks, m.Now()) <==> marked) && (marked ==> Stale(m))
  }

  lemma CursorFirst(blocks: seq<Block>, v: View)
    requires InBulk(blocks, v) && v.seen.Some? && StartsBlock(blocks, Left(blocks, v.seen, v.offset))
    ensures v.offset == 0
  {
    var b :| 0 <= b < |blocks| && TotalPages(blocks, b) == Left(blocks, v.seen, v.offset) + 1;
    LeftTells(blocks, b, 0, v.seen.value, v.offset);
  }

  lemma StartsBelow(blocks: seq<Block>, left: nat)
    requires StartsBlock(blocks, left)
    ensures left < TotalPages(blocks, 0)
  {
    var b :| 0 <= b < |blocks| && TotalPages(blocks, b) == left + 1;
    TotalFrom(blocks, b);
  }

  lemma CursorLast(blocks: seq<Block>, v: View)
    requires InBulk(blocks, v) && Left(blocks, v.seen, v.offset) == 0
    ensures v.seen == Some(|blocks| - 1) && v.offset == blocks[|blocks| - 1].pages - 1
  {
    var b := |blocks| - 1;
    assert TotalPages(blocks, |blocks|) == 0;
    assert TotalPages(blocks, b) == blocks[b].pages;
    TotalFrom(blocks, b);
    LeftTells(blocks, b, blocks[b].pages - 1, v.seen.value, v.offset);
  }

  /** With nothing left, and only the page under the cursor marked, the next call forgets it. */
  lemma EndsInHazard(blocks: seq<Block>, v: View, bits: seq<bool>)
    requires InBulk(blocks, v) && Left(blocks, v.seen, v.offset) == 0 && LastPages(blocks) != {} && Tidy(blocks, v)
    requires |bits| == |v.bits| && v.seen.Some? && Dirty(blocks, bits, v.seen.value, v.offset)
    requires forall p | 0 <= p < |bits| && InBlock(blocks, p) && bits[p] ::
      v.bits[p] || p == PageNo(blocks, v.seen.value, v.offset)
    ensures Hazard(blocks, bits, true, v.seen, v.offset)
    ensures LastPages(blocks) == {PageNo(blocks, v.seen.value, v.offset)}
  {
    CursorLast(blocks, v);
    forall c, u | 0 <= c < |blocks| && 0 <= u < blocks[c].pages && !(c == |blocks| - 1 && u == v.offset)
      ensures !Dirty(blocks, bits, c, u)
    {
      PagesDiffer(blocks, |bits|, c, u, |blocks| - 1, v.offset);
      assert Within(blocks[c], PageNo(blocks, c, u));
      assert Behind(v, c, u);
    }
  }

  // ---------------------------------------------------------------- the guest's part

  function Other(page: seq<Byte>): (r: seq<Byte>)
    ensures |r| == PAGE && r != page
  {
    assert Filled(0)[0] != Filled(1)[0];
    if page == Filled(0) then Filled(1) else Filled(0)
  }

  /** A round of the bulk stage. */
  method Spend(m: Migration, n: nat, ghost was: nat, ghost again: bool, ghost left: nat)
    requires n > 0 && At(m, was, again) && was + Bit(again) == left + n && (again ==> m.lastOffset == 0)
    modifies m, m.dirty
    ensures At(m, left, false) && Follows(m.blocks, Iterate(n), old(m.Now()), m.Now())
  {
    m.running := false;
    var _ := m.Iterate(n);
  }

  /** A round that may not send anything. */
  method Wait(m: Migration, ghost left: nat, ghost marked: bool)
    requires At(m, left, marked)
    modifies m, m.dirty
    ensures At(m, left, marked) && Follows(m.blocks, Iterate(0), old(m.Now()), m.Now())
  {
    m.running := false;
    var _ := m.Iterate(0);
  }

  /** In the log is the page under the cursor, or nothing. */
  ghost predicate Logged(blocks: seq<Block>, v: View, touched: bool)
    requires InBulk(blocks, v)
  {
    && (touched ==> v.seen.Some? && Dirty(blocks, v.log, v.seen.value, v.offset))
    && forall p | 0 <= p < |v.log| && InBlock(blocks, p) && v.log[p] ::
         touched && p == PageNo(blocks, v.seen.value, v.offset)
  }

  /** In the bulk stage before a synchronisation. */
  ghost predicate Loaded(m: Migration, left: nat, touched: bool)
    reads m, m.dirty
  {
    && m.Running(false) && m.lost == {} && m.bulk && Left(m.blocks, m.lastSeen, m.lastOffset) == left
    && Tidy(m.blocks, m.Now()) && !Marked(m.blocks, m.Now())
    && Logged(m.blocks, m.Now(), touched) && (touched ==> Stale(m))
  }

  /** The guest changes the page under the cursor. */
  method Touch(m: Migration, ghost left: nat) returns (write: Write)
    requires At(m, left, false) && m.lastSeen.Some?
    modifies m`src, m`running, m.dirty`log
    ensures Loaded(m, left, true) && !m.running
    ensures Follows(m.blocks, Guest([write]), old(m.Now()), m.Now())
  {
    assert Within(m.blocks[m.lastSeen.value], CursorPage(m));
    write := Write(CursorPage(m), Other(m.src[CursorPage(m)]));
    m.running := true;
    m.Guest([write]);
    m.running := false;
    CleanGuest(m.blocks, old(m.src), m.dst, m.dirty.bitmap, old(m.dirty.log), m.lost, m.src, m.dirty.log);
  }

  lemma TidySync(blocks: seq<Block>, v: View, w: View, touched: bool)
    requires InBulk(blocks, v) && Tidy(blocks, v) && !Marked(blocks, v) && Logged(blocks, v, touched)
    requires Standing(blocks, w) && w == v.(bits := w.bits, log := w.log) && Moved(v.bits, v.log, w.bits, w.log)
    requires forall p | 0 <= p < |w.log| && InBlock(blocks, p) :: !w.log[p]
    ensures Tidy(blocks, w) && (Marked(blocks, w) <==> touched)
  {
    forall c, u | 0 <= c < |blocks| && 0 <= u < blocks[c].pages && Behind(w, c, u)
      ensures !Dirty(blocks, w.bits, c, u)
    {
      assert Behind(v, c, u);
      PagesDiffer(blocks, |v.bits|, c, u, v.seen.value, v.offset);
      assert Within(blocks[c], PageNo(blocks, c, u));
    }
    if v.seen.Some? {
      assert Within(blocks[v.seen.value], PageNo(blocks, v.seen.value, v.offset));
    }
  }

  /** The log goes into the bitmap. */
  method Query(m: Migration, maxSize: nat, ghost left: nat, ghost touched: bool)
    requires Loaded(m, left, touched) && maxSize > m.cap * PAGE
    modifies m, m.dirty
    ensures At(m, left, touched) && Follows(m.blocks, Pending(maxSize), old(m.Now()), m.Now())
  {
    CountBelow(m.dirty.bitmap, m.cap);
    var _ := m.Pending(maxSize);
    TidySync(m.blocks, old(m.Now()), m.Now(), touched);
  }

  /** What the guest does enters the run. */
  lemma GuestGrows(blocks: seq<Block>, run: seq<Op>, views: seq<View>, cap: nat, write: Write, w: View)
    requires History(blocks, run, |run|, views, cap) && Follows(blocks, Guest([write]), views[|run|], w)
    ensures History(blocks, Touched(run, write), |run| + 3, Watched(views, w), cap)
    ensures Rounds(Touched(run, write)) == Rounds(run)
  {
    var v := views[|run|];
    RunGrows(blocks, run, views, cap, Resume, v);
    RunGrows(blocks, run + [Resume], views + [v], cap, Guest([write]), w);
    RunGrows(blocks, run + [Resume] + [Guest([write])], views + [v] + [w], cap, Stop, w);
  }

  function Touched(run: seq<Op>, write: Write): seq<Op> {
    run + [Resume] + [Guest([write])] + [Stop]
  }

  function Watched(views: seq<View>, w: View): seq<View>
    requires |views| > 0
  {
    views + [views[|views| - 1]] + [w] + [w]
  }

  // ---------------------------------------------------------------- every place can be reached

  /** A place of the bulk stage: so many pages are left, the page under the cursor can be marked, and is. */
  datatype Stand = Stand(left: nat, canMark: bool, marked: bool)

  /** An operation leads from one place to the other. */
  predicate Leads(blocks: seq<Block>, op: Op, from: Stand, to: Stand) {
    if op.Pending? then from.left == to.left && !from.marked && (to.marked ==> to.left < TotalPages(blocks, 0))
    else if op == Iterate(0) then from == to
    else
      && op.Iterate? && !to.marked && from.left + Bit(from.marked) == to.left + op.budget
      && (from.marked ==> StartsBlock(blocks, from.left))
  }

  predicate Allowed(blocks: seq<Block>, ops: seq<Op>, k: nat, at: Stand)
    requires k <= |ops|
  {
    CanStand(blocks, ops, k, at.left, at.canMark) && (at.marked ==> at.canMark && at.left < TotalPages(blocks, 0))
  }

  /** Where the bulk stage can have stood before. */
  method Origin(blocks: seq<Block>, ops: seq<Op>, k: nat, to: Stand) returns (from: Stand)
    requires k < |ops| && Round(ops[k]) && Allowed(blocks, ops, k + 1, to)
    ensures Allowed(blocks, ops, k, from) && Leads(blocks, ops[k], from, to)
  {
    var left := to.left + if ops[k].Iterate? then ops[k].budget else 0;
    if ops[k] == Iterate(0) {
      from := to;
    } else if CanStand(blocks, ops, k, left, false) {
      from := Stand(left, false, false);
    } else if CanStand(blocks, ops, k, left, true) {
      from := Stand(left, true, false);
    } else {
      StartsBelow(blocks, left - 1);
      from := Stand(left - 1, true, true);
    }
  }

  lemma DoneGrows(m: Migration, ops: seq<Op>, k: nat, run: seq<Op>, views: seq<View>)
    requires k < |ops| && Round(ops[k]) && History(m.blocks, run, |run|, views, m.cap) && Rounds(run) == ops[..k]
    requires Follows(m.blocks, ops[k], views[|run|], m.Now())
    ensures Done(m, ops, k + 1, run + [ops[k]], views + [m.Now()])
  {
    RunGrows(m.blocks, run, views, m.cap, ops[k], m.Now());
    PrefixGrows(ops, k);
  }

  lemma PrefixGrows(ops: seq<Op>, k: nat)
    requires k < |ops|
    ensures ops[..k + 1] == ops[..k] + [ops[k]]
  {}

  lemma ReadyAt(m: Migration, ops: seq<Op>)
    requires Ready(m)
    ensures At(m, TotalPages(m.blocks, 0), false) && Done(m, ops, 0, [], [m.Now()])
  {}

  method MayTouch(m: Migration, ghost left: nat, touch: bool, ghost ops: seq<Op>, ghost k: nat, before: seq<Op>,
                  ghost seen: seq<View>) returns (run: seq<Op>, ghost views: seq<View>)
    requires At(m, left, false) && k <= |ops| && Done(m, ops, k, before, seen)
    requires touch ==> left < TotalPages(m.blocks, 0)
    modifies m`src, m`running, m.dirty`log
    ensures Loaded(m, left, touch) && Done(m, ops, k, run, views) && (touch ==> !m.running)
  {
    run, views := before, seen;
    if touch {
      var write := Touch(m, left);
      GuestGrows(m.blocks, run, views, m.cap, write, m.Now());
      run, views := Touched(run, write), Watched(views, m.Now());
    }
  }

  /** A round of the bulk stage. */
  method NextRound(m: Migration, n: nat, ghost from: Stand, ghost to: Stand)
    requires At(m, from.left, from.marked) && Leads(m.blocks, Iterate(n), from, to)
    modifies m, m.dirty
    ensures At(m, to.left, to.marked) && Follows(m.blocks, Iterate(n), old(m.Now()), m.Now())
  {
    if n == 0 {
      Wait(m, from.left, from.marked);
    } else {
      if from.marked {
        CursorFirst(m.blocks, m.Now());
      }
      Spend(m, n, from.left, from.marked, to.left);
    }
  }

  /** The guest's part in an operation, and the operation. */
  method Next(m: Migration, ops: seq<Op>, k: nat, from: Stand, to: Stand, before: seq<Op>, ghost seen: seq<View>)
    returns (run: seq<Op>, ghost views: seq<View>)
    requires k < |ops| && Round(ops[k]) && (ops[k].Pending? ==> ops[k].maxSize > m.cap * PAGE)
    requires At(m, from.left, from.marked) && Done(m, ops, k, before, seen) && Leads(m.blocks, ops[k], from, to)
    modifies m, m.dirty
    ensures At(m, to.left, to.marked) && Done(m, ops, k + 1, run, views)
  {
    if ops[k].Iterate? {
      run, views := before, seen;
      NextRound(m, ops[k].budget, from, to);
    } else {
      run, views := MayTouch(m, to.left, to.marked, ops, k, before, seen);
      Query(m, ops[k].maxSize, to.left, to.marked);
    }
    DoneGrows(m, ops, k, run, views);
    run, views := run + [ops[k]], views + [m.Now()];
  }

  /** A guest that leads the bulk stage to a place that the operations allow. */
  method Reach(m: Migration, ops: seq<Op>, k: nat, to: Stand) returns (run: seq<Op>, ghost views: seq<View>)
    requires Ready(m) && Plain(ops, m.cap) && k <= |ops| && Allowed(m.blocks, ops, k, to)
    modifies m, m.dirty
    ensures At(m, to.left, to.marked) && Done(m, ops, k, run, views)
    decreases k
  {
    if k == 0 {
      ReadyAt(m, ops);
      run, views := [], [m.Now()];
    } else {
      var from := Origin(m.blocks, ops, k - 1, to);
      run, views := Reach(m, ops, k - 1, from);
      run, views := Next(m, ops, k - 1, from, to, run, views);
    }
  }

  // ---------------------------------------------------------------- the page is forgotten

  /** The receiver has something else for the last page. */
  ghost predicate LastStale(m: Migration)
    reads m`src, m`dst
  {
    |m.src| == |m.dst| && forall p | p in LastPages(m.blocks) :: p < |m.src| && m.dst[p] != m.src[p]
  }

  /** The guest is stopped, the last page is stale, and no mark is left anywhere. */
  ghost predicate Forgotten(m: Migration)
    reads m, m.dirty
  {
    m.Running(false) && !m.running && LastStale(m) && LogClear(m) && NoneDirty(m.blocks, m.dirty.bitmap)
  }

  /** The completion will not send the last page, which is stale. */
  ghost predicate Doomed(m: Migration)
    reads m, m.dirty
  {
    && m.Running(false) && !m.running && LastStale(m)
    && var merged := Merged(m.dirty.bitmap, m.dirty.log);
       NoneDirty(m.blocks, merged) || Hazard(m.blocks, merged, m.bulk, m.lastSeen, m.lastOffset)
  }

  lemma ForgottenDooms(m: Migration)
    requires Forgotten(m)
    ensures Doomed(m)
  {
    NoneDirtySame(m.blocks, m.dirty.bitmap, Merged(m.dirty.bitmap, m.dirty.log));
  }

  lemma LoadedDooms(m: Migration)
    requires Loaded(m, 0, true) && !m.running && LastPages(m.blocks) != {}
    ensures Doomed(m)
  {
    EndsInHazard(m.blocks, m.Now(), Merged(m.dirty.bitmap, m.dirty.log));
  }

  /** The round that forgets the page. */
  method ForgetNow(m: Migration, n: nat)
    requires n > 0 && At(m, 0, true) && LastPages(m.blocks) != {}
    modifies m, m.dirty
    ensures Forgotten(m) && Follows(m.blocks, Iterate(n), old(m.Now()), m.Now())
  {
    EndsInHazard(m.blocks, m.Now(), m.dirty.bitmap);
    m.running := false;
    var _ := m.Iterate(n);
  }

  /** Nothing brings it back. */
  method StayForgotten(m: Migration, op: Op)
    requires Forgotten(m) && Round(op)
    modifies m, m.dirty
    ensures Forgotten(m) && Follows(m.blocks, op, old(m.Now()), m.Now())
  {
    if op.Iterate? {
      var _ := m.Iterate(op.budget);
    } else {
      var _ := m.Pending(op.maxSize);
      NoneDirtySame(m.blocks, old(m.dirty.bitmap), m.dirty.bitmap);
    }
  }

  method Rest(m: Migration, ops: seq<Op>, k: nat, before: seq<Op>, ghost seen: seq<View>)
    returns (run: seq<Op>, ghost views: seq<View>)
    requires Forgotten(m) && k <= |ops| && Plain(ops, m.cap) && Done(m, ops, k, before, seen)
    modifies m, m.dirty
    ensures Forgotten(m) && Done(m, ops, |ops|, run, views)
  {
    run, views := before, seen;
    for j := k to |ops|
      invariant Forgotten(m) && Done(m, ops, j, run, views)
    {
      StayForgotten(m, ops[j]);
      DoneGrows(m, ops, j, run, views);
      run, views := run + [ops[j]], views + [m.Now()];
    }
  }

  lemma SomePages(blocks: seq<Block>)
    requires LastPages(blocks) != {}
    ensures TotalPages(blocks, 0) > 0
  {
    TotalFrom(blocks, |blocks| - 1);
  }

  /** A round after a synchronisation forgets the page. */
  method ForgetInRound(m: Migration, ops: seq<Op>, k: nat) returns (run: seq<Op>, ghost views: seq<View>)
    requires Ready(m) && Plain(ops, m.cap) && LastPages(m.blocks) != {} && k < |ops| && ForgetsAt(m.blocks, ops, k)
    modifies m, m.dirty
    ensures Doomed(m) && Done(m, ops, |ops|, run, views)
  {
    SomePages(m.blocks);
    run, views := Reach(m, ops, k, Stand(0, true, true));
    ForgetNow(m, ops[k].budget);
    DoneGrows(m, ops, k, run, views);
    run, views := Rest(m, ops, k + 1, run + [ops[k]], views + [m.Now()]);
    ForgottenDooms(m);
  }

  /** The completion forgets the page. */
  method ForgetAtEnd(m: Migration, ops: seq<Op>, canMark: bool) returns (run: seq<Op>, ghost views: seq<View>)
    requires Ready(m) && Plain(ops, m.cap) && LastPages(m.blocks) != {}
    requires CanStand(m.blocks, ops, |ops|, 0, canMark)
    modifies m, m.dirty
    ensures Doomed(m) && Done(m, ops, |ops|, run, views)
  {
    SomePages(m.blocks);
    run, views := Reach(m, ops, |ops|, Stand(0, canMark, false));
    run, views := MayTouch(m, 0, true, ops, |ops|, run, views);
    LoadedDooms(m);
  }

  method ForgetOne(m: Migration, ops: seq<Op>) returns (run: seq<Op>, ghost views: seq<View>)
    requires Ready(m) && Plain(ops, m.cap) && MayForget(m.blocks, ops)
    modifies m, m.dirty
    ensures Doomed(m) && Done(m, ops, |ops|, run, views)
  {
    if k :| 0 <= k < |ops| && ForgetsAt(m.blocks, ops, k) {
      run, views := ForgetInRound(m, ops, k);
    } else {
      run, views := ForgetAtEnd(m, ops, CanStand(m.blocks, ops, |ops|, 0, true));
    }
  }

  /** Every series of rounds and synchronisations that allows it has a run that forgets the last page:
      the receiver ends with something else than the guest has. */
  method Forget(blocks: seq<Block>, pages: nat, src: Memory, log: seq<bool>, useXbzrle: bool, cacheSize: nat,
                mem: Memory, ops: seq<Op>)
    returns (m: Migration, result: Memory, run: seq<Op>, ghost views: seq<View>)
    requires Layout(blocks, |log|) && Named(blocks) && Paged(src, |log|) && Paged(mem, |log|)
    requires pages <= |log| && |log| % BITS_PER_LONG == 0
    requires forall b | 0 <= b < |blocks| :: blocks[b].start + blocks[b].pages <= pages
    requires useXbzrle ==> cacheSize > 0
    requires Plain(ops, |log|) && MayForget(blocks, ops)
    ensures History(blocks, run, |run|, views, |log|) && Rounds(run) == ops
    ensures LastPages(blocks) != {} && |result| == |m.src| == |log|
    ensures forall p | p in LastPages(blocks) :: p < |log| && result[p] != m.src[p]
  {
    m := Start(blocks, pages, src, log, useXbzrle, cacheSize, mem);
    run, views := ForgetOne(m, ops);
    m.Complete();
    result := Receive(m, mem);
  }

  // ---------------------------------------------------------------- the smallest runs that do

  const TWO_PAGES: seq<Block> := [Block([], 0, 2)]

  lemma TwoPagesHazard(bits: seq<bool>)
    requires |bits| == 64 && !bits[0] && bits[1]
    ensures Layout(TWO_PAGES, 64) && Hazard(TWO_PAGES, bits, true, Some(0), 1)
  {}

  lemma TwoPagesTotal()
    ensures TotalPages(TWO_PAGES, 1) == 0 && TotalPages(TWO_PAGES, 0) == 2 && LastPages(TWO_PAGES) == {1}
  {}

  /** One round sends both pages. */
  lemma OneRound()
    ensures MayForget(TWO_PAGES, [Iterate(2)])
  {
    TwoPagesTotal();
    MayForgetExact(TWO_PAGES, [Iterate(2)]);
  }

  /** The first page is sent twice: the budgets never add up to the number of pages, and still the last
      page can be forgotten. */
  lemma SentTwice(maxSize: nat)
    ensures var ops := [Iterate(1), Pending(maxSize), Iterate(2)];
      && MayForget(TWO_PAGES, ops)
      && forall k | 0 <= k <= |ops| :: Budgets(ops, k) != TotalPages(TWO_PAGES, 0)
  {
    TwoPagesTotal();
    var ops := [Iterate(1), Pending(maxSize), Iterate(2)];
    assert Budgets(ops, 0) == 0 && Budgets(ops, 1) == 1 && Budgets(ops, 2) == 1 && Budgets(ops, 3) == 3;
    assert CanStand(TWO_PAGES, ops, 0, 2, false);
    assert CanStand(TWO_PAGES, ops, 1, 1, false);
    assert CanStand(TWO_PAGES, ops, 2, 1, true);
    assert TotalPages(TWO_PAGES, 0) == 1 + 1;
    assert StartsBlock(TWO_PAGES, 1);
    assert CanStand(TWO_PAGES, ops, 3, 0, false);
  }

  method ForgetSecond(ops: seq<Op>) returns (m: Migration, run: seq<Op>, ghost views: seq<View>)
    requires Plain(ops, 64) && MayForget(TWO_PAGES, ops)
    ensures m.Running(true) && InBlock(m.blocks, 1) && NoneDirty(m.blocks, m.dirty.bitmap)
    ensures History(TWO_PAGES, run, |run|, views, 64) && Rounds(run) == ops
    ensures m.dst[1] != m.src[1]
  {
    TwoPagesTotal();
    assert Named(TWO_PAGES);
    assert Within(TWO_PAGES[0], 1);
    var zero := seq(64, _ => Filled(0));
    m := Start(TWO_PAGES, 2, zero, seq(64, _ => false), false, 0, zero);
    run, views := ForgetOne(m, ops);
    m.Complete();
  }

  /** From setup to completion: one round, and the guest changes the second page behind it. */
  method ForgottenPage() returns (m: Migration, run: seq<Op>, ghost views: seq<View>)
    ensures m.Running(true) && InBlock(m.blocks, 1) && NoneDirty(m.blocks, m.dirty.bitmap)
    ensures History(TWO_PAGES, run, |run|, views, 64) && Rounds(run) == [Iterate(2)]
    ensures m.dst[1] != m.src[1]
  {
    OneRound();
    m, run, views := ForgetSecond([Iterate(2)]);
  }

  /** The same with a synchronisation and budgets that add up to 1 and to 3. */
  method ForgottenLater() returns (m: Migration, run: seq<Op>, ghost views: seq<View>)
    ensures m.Running(true) && InBlock(m.blocks, 1) && NoneDirty(m.blocks, m.dirty.bitmap)
    ensures History(TWO_PAGES, run, |run|, views, 64)
    ensures Rounds(run) == [Iterate(1), Pending(64 * PAGE + 1), Iterate(2)]
    ensures m.dst[1] != m.src[1]
  {
    SentTwice(64 * PAGE + 1);
    m, run, views := ForgetSecond([Iterate(1), Pending(64 * PAGE + 1), Iterate(2)]);
  }
}
