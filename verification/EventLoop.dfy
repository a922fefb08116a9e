/**
 The event loop (async.c 43-146, aio-posix.c 32-93, 122-242): bottom halves and file descriptor
 handlers whose callbacks may do anything, including polling again.
 */
module EventLoop {
  import opened Common

  datatype Bh = Bh(id: nat, scheduled: bool, idle: bool, deleted: bool)

  /** The conditions of poll(2) that matter here. */
  datatype Events = Events(input: bool, hup: bool, err: bool, output: bool)

  datatype Handler = Handler(id: nat, fd: int, read: bool, write: bool, deleted: bool, revents: Events,
                             index: Option<nat>)

  const NO_EVENTS: Events := Events(false, false, false, false)

  /** What a handler waits for. */
  function Wanted(h: Handler): Events {
    Events(h.read, h.read, h.read || h.write, h.write)
  }

  function And(a: Events, b: Events): Events {
    Events(a.input && b.input, a.hup && b.hup, a.err && b.err, a.output && b.output)
  }

  /** What a callback may do. */
  datatype Op = NewBh | Schedule(id: nat) | ScheduleIdle(id: nat) | Cancel(id: nat) | Delete(id: nat)
    | SetHandler(fd: int, read: bool, write: bool) | Poll(blocking: bool)

  /** The k-th element from the end.  Both lists grow at their heads, so this stays the same. */
  function Last<T>(s: seq<T>, k: nat): T
    requires 1 <= k <= |s|
  {
    s[|s| - k]
  }

  function Put<T>(s: seq<T>, k: nat, x: T): (r: seq<T>)
    requires 1 <= k <= |s|
    ensures |r| == |s| && Last(r, k) == x
    ensures forall j | 1 <= j <= |s| && j != k :: Last(r, j) == Last(s, j)
  {
    s[|s| - k := x]
  }

  // ---------------------------------------------------------------- what a state promises of later ones

  datatype Snap = Snap(bhs: seq<Bh>, handlers: seq<Handler>, walkingBh: nat, walkingHandlers: nat, nextId: nat,
    /** By identity: callbacks started, schedulings that took effect, cancellations; and the identities deleted. */
    calls: seq<nat>, schedules: seq<nat>, cancels: seq<nat>, dead: set<nat>)

  predicate Due(e: Bh) { e.scheduled && !e.deleted }

  /** Nothing has been reported of the handler. */
  predicate Quiet(h: Handler) { h.revents == NO_EVENTS }

  predicate Readable(r: Events) { r.input || r.hup || r.err }

  predicate Writable(r: Events) { r.output || r.err }

  /** Something was reported that the handler waits for. */
  predicate Ready(h: Handler) {
    var r := And(h.revents, Wanted(h));
    !h.deleted && ((Readable(r) && h.read) || (Writable(r) && h.write))
  }

  /** A reader waits for input, hang-up and errors, a writer for output and errors. */
  lemma ReadyMeans(h: Handler)
    ensures Ready(h) <==> !h.deleted && ((h.read && Readable(h.revents)) || (h.write && Writable(h.revents)))
    ensures Wanted(h) == NO_EVENTS <==> !h.read && !h.write
  {}

  /** Identities are known and distinct, the deleted ones are dead, and no bottom half has been called
      or is waiting more often than it was scheduled. */
  ghost predicate BhsOk(s: Snap) {
    && |s.calls| == s.nextId && |s.schedules| == s.nextId && |s.cancels| == s.nextId
    && (forall k | 1 <= k <= |s.bhs| ::
          var e := Last(s.bhs, k);
          e.id < s.nextId && (e.deleted <==> e.id in s.dead) && s.calls[e.id] + Bit(e.scheduled) <= s.schedules[e.id])
    && (forall j, k | 1 <= j < k <= |s.bhs| :: Last(s.bhs, j).id != Last(s.bhs, k).id)
  }

  /** Identities are known and distinct, the deleted handlers are dead, and a descriptor has at most one
      live handler. */
  ghost predicate HandlersOk(s: Snap) {
    && (forall k | 1 <= k <= |s.handlers| ::
          && Last(s.handlers, k).id < s.nextId
          && (Last(s.handlers, k).deleted <==> Last(s.handlers, k).id in s.dead))
    && (forall j, k | 1 <= j < k <= |s.handlers| ::
          && Last(s.handlers, j).id != Last(s.handlers, k).id
          && (Last(s.handlers, j).fd == Last(s.handlers, k).fd ==>
                Last(s.handlers, j).deleted || Last(s.handlers, k).deleted))
  }

  ghost predicate Ok(s: Snap) {
    && BhsOk(s) && HandlersOk(s) && (forall id | id in s.dead :: id < s.nextId)
    && forall j, k | 1 <= j <= |s.bhs| && 1 <= k <= |s.handlers| :: Last(s.bhs, j).id != Last(s.handlers, k).id
  }

  /** There was a call or a cancellation. */
  ghost predicate Counted(id: nat, s: Snap, t: Snap) {
    && id < |s.calls| <= |t.calls| && id < |s.cancels| <= |t.cancels|
    && (t.calls[id] > s.calls[id] || t.cancels[id] > s.cancels[id])
  }

  /** A bottom half that was due is still due, and idle as before, or it was called or cancelled. */
  ghost predicate NotMissed(e: Bh, f: Bh, s: Snap, t: Snap) {
    f.id == e.id && (Due(e) ==> (Due(f) && f.idle == e.idle) || Counted(e.id, s, t))
  }

  /** While a walk is under way no bottom half goes away. */
  ghost predicate BhsKept(s: Snap, t: Snap) {
    |s.bhs| <= |t.bhs| && forall k | 1 <= k <= |s.bhs| :: NotMissed(Last(s.bhs, k), Last(t.bhs, k), s, t)
  }

  /** A bottom half goes away only if it is deleted. */
  ghost predicate BhStays(e: Bh, s: Snap, t: Snap) {
    || e.id in t.dead
    || exists j {:trigger NotMissed(e, Last(t.bhs, j), s, t)} :: 1 <= j <= |t.bhs| && NotMissed(e, Last(t.bhs, j), s, t)
  }

  ghost predicate BhsStay(s: Snap, t: Snap) {
    forall k {:trigger BhStays(Last(s.bhs, k), s, t)} | 1 <= k <= |s.bhs| :: BhStays(Last(s.bhs, k), s, t)
  }

  /** What was reported is still there, or the handler was called, or it was changed. */
  ghost predicate Heard(h: Handler, g: Handler, s: Snap, t: Snap) {
    && g.id == h.id && g.fd == h.fd && (Quiet(h) ==> Quiet(g))
    && (Ready(h) ==> Ready(g) || Counted(h.id, s, t))
  }

  /** A handler goes away only if it is deleted. */
  ghost predicate HandlerStays(h: Handler, s: Snap, t: Snap) {
    || h.id in t.dead
    || exists j {:trigger Heard(h, Last(t.handlers, j), s, t)} ::
         1 <= j <= |t.handlers| && Heard(h, Last(t.handlers, j), s, t)
  }

  ghost predicate HandlersStay(s: Snap, t: Snap) {
    forall k {:trigger HandlerStays(Last(s.handlers, k), s, t)} | 1 <= k <= |s.handlers| ::
      HandlerStays(Last(s.handlers, k), s, t)
  }

  /** While a walk is under way no handler goes away, and no report is lost. */
  ghost predicate HandlersKept(s: Snap, t: Snap) {
    && |s.handlers| <= |t.handlers|
    && (forall k | 1 <= k <= |s.handlers| :: Heard(Last(s.handlers, k), Last(t.handlers, k), s, t))
    && (forall k | |s.handlers| < k <= |t.handlers| :: Quiet(Last(t.handlers, k)))
  }

  /** Nothing is reported from the k-th handler on. */
  ghost predicate QuietFrom(hs: seq<Handler>, k: nat) {
    forall j | 1 <= j <= |hs| && k <= j :: Quiet(Last(hs, j))
  }

  /** Nothing reported to the handlers before the k-th was lost. */
  ghost predicate HeardBelow(s: Snap, t: Snap, k: nat) {
    && k <= |s.handlers| + 1 && k <= |t.handlers| + 1
    && forall j | 1 <= j < k :: Heard(Last(s.handlers, j), Last(t.handlers, j), s, t)
  }

  /** The handlers from the k-th on that were ready were called or changed. */
  ghost predicate CountedFrom(s: Snap, t: Snap, k: nat) {
    forall j | 1 <= j <= |s.handlers| && k <= j && Ready(Last(s.handlers, j)) :: Counted(Last(s.handlers, j).id, s, t)
  }

  ghost predicate AllQuiet(s: Snap) {
    forall k | 1 <= k <= |s.handlers| :: Quiet(Last(s.handlers, k))
  }

  ghost predicate CountsGrow(s: Snap, t: Snap) {
    && s.nextId <= t.nextId && |s.calls| <= |t.calls| && |s.cancels| <= |t.cancels|
    && (forall id | 0 <= id < |s.calls| :: s.calls[id] <= t.calls[id])
    && (forall id | 0 <= id < |s.cancels| :: s.cancels[id] <= t.cancels[id])
    && s.dead <= t.dead
    && (forall id | id in s.dead && id < |s.calls| :: t.calls[id] == s.calls[id])
  }

  /** What holds after any operation: the depth of the walks is the same, a deleted entry is not called
      any more, only deleted entries go away, and lists being walked have lost nothing. */
  ghost predicate Later(s: Snap, t: Snap) {
    && Ok(s) && Ok(t) && t.walkingBh == s.walkingBh && t.walkingHandlers == s.walkingHandlers && CountsGrow(s, t)
    && BhsStay(s, t) && HandlersStay(s, t)
    && (s.walkingBh > 0 ==> BhsKept(s, t))
    && (s.walkingHandlers > 0 ==> HandlersKept(s, t))
    && (AllQuiet(s) ==> AllQuiet(t))
  }

  lemma LaterSame(s: Snap)
    requires Ok(s)
    ensures Later(s, s)
  {
    StayPlaced(s, s);
  }

  /** Entries that keep their places stay. */
  lemma StayPlaced(s: Snap, t: Snap)
    ensures BhsKept(s, t) ==> BhsStay(s, t)
    ensures HandlersKept(s, t) ==> HandlersStay(s, t)
  {
    if BhsKept(s, t) {
      forall k | 1 <= k <= |s.bhs| ensures BhStays(Last(s.bhs, k), s, t) {
        assert NotMissed(Last(s.bhs, k), Last(t.bhs, k), s, t);
      }
    }
    if HandlersKept(s, t) {
      forall k | 1 <= k <= |s.handlers| ensures HandlerStays(Last(s.handlers, k), s, t) {
        assert Heard(Last(s.handlers, k), Last(t.handlers, k), s, t);
      }
    }
  }

  lemma LaterTrans(s: Snap, t: Snap, u: Snap)
    requires Later(s, t) && Later(t, u)
    ensures Later(s, u)
  {
    BhsStayTrans(s, t, u);
    HandlersStayTrans(s, t, u);
    if s.walkingBh > 0 {
      BhsKeptTrans(s, t, u);
    }
    if s.walkingHandlers > 0 {
      HandlersKeptTrans(s, t, u);
    }
  }

  lemma HeardTrans(h: Handler, g: Handler, f: Handler, s: Snap, t: Snap, u: Snap)
    requires CountsGrow(s, t) && CountsGrow(t, u) && Heard(h, g, s, t) && Heard(g, f, t, u)
    requires h.id < |s.calls| && h.id < |s.cancels|
    ensures Heard(h, f, s, u)
  {}

  lemma NotMissedTrans(e: Bh, f: Bh, g: Bh, s: Snap, t: Snap, u: Snap)
    requires CountsGrow(s, t) && CountsGrow(t, u) && NotMissed(e, f, s, t) && NotMissed(f, g, t, u)
    requires e.id < |s.calls| && e.id < |s.cancels|
    ensures NotMissed(e, g, s, u)
  {}

  lemma BhsStayTrans(s: Snap, t: Snap, u: Snap)
    requires Ok(s) && CountsGrow(s, t) && CountsGrow(t, u) && BhsStay(s, t) && BhsStay(t, u)
    ensures BhsStay(s, u)
  {
    forall k | 1 <= k <= |s.bhs| ensures BhStays(Last(s.bhs, k), s, u) {
      var e := Last(s.bhs, k);
      assert BhStays(e, s, t);
      if e.id !in u.dead {
        var i :| 1 <= i <= |t.bhs| && NotMissed(e, Last(t.bhs, i), s, t);
        assert BhStays(Last(t.bhs, i), t, u);
        var j :| 1 <= j <= |u.bhs| && NotMissed(Last(t.bhs, i), Last(u.bhs, j), t, u);
        NotMissedTrans(e, Last(t.bhs, i), Last(u.bhs, j), s, t, u);
      }
    }
  }

  lemma HandlersStayTrans(s: Snap, t: Snap, u: Snap)
    requires Ok(s) && CountsGrow(s, t) && CountsGrow(t, u) && HandlersStay(s, t) && HandlersStay(t, u)
    ensures HandlersStay(s, u)
  {
    forall k | 1 <= k <= |s.handlers| ensures HandlerStays(Last(s.handlers, k), s, u) {
      var h := Last(s.handlers, k);
      assert HandlerStays(h, s, t);
      if h.id !in u.dead {
        var i :| 1 <= i <= |t.handlers| && Heard(h, Last(t.handlers, i), s, t);
        assert HandlerStays(Last(t.handlers, i), t, u);
        var j :| 1 <= j <= |u.handlers| && Heard(Last(t.handlers, i), Last(u.handlers, j), t, u);
        HeardTrans(h, Last(t.handlers, i), Last(u.handlers, j), s, t, u);
      }
    }
  }

  lemma HandlersKeptTrans(s: Snap, t: Snap, u: Snap)
    requires Ok(s) && CountsGrow(s, t) && CountsGrow(t, u) && HandlersKept(s, t) && HandlersKept(t, u)
    ensures HandlersKept(s, u)
  {
    forall k | 1 <= k <= |s.handlers| ensures Heard(Last(s.handlers, k), Last(u.handlers, k), s, u) {
      HeardTrans(Last(s.handlers, k), Last(t.handlers, k), Last(u.handlers, k), s, t, u);
    }
    forall k | |s.handlers| < k <= |u.handlers| ensures Quiet(Last(u.handlers, k)) {
      if k <= |t.handlers| {
        assert Quiet(Last(t.handlers, k)) && Heard(Last(t.handlers, k), Last(u.handlers, k), t, u);
      }
    }
  }

  lemma BhsKeptTrans(s: Snap, t: Snap, u: Snap)
    requires Ok(s) && CountsGrow(s, t) && CountsGrow(t, u) && BhsKept(s, t) && BhsKept(t, u)
    ensures BhsKept(s, u)
  {
    forall k | 1 <= k <= |s.bhs| ensures NotMissed(Last(s.bhs, k), Last(u.bhs, k), s, u) {
      NotMissedTrans(Last(s.bhs, k), Last(t.bhs, k), Last(u.bhs, k), s, t, u);
    }
  }

  // ---------------------------------------------------------------- single operations

  /** A bottom half changes: its counts move with it. */
  ghost function Change(s: Snap, k: nat, e: Bh, calls: nat, schedules: nat, cancels: nat): Snap
    requires BhsOk(s) && 1 <= k <= |s.bhs| && e.id == Last(s.bhs, k).id
  {
    s.(bhs := Put(s.bhs, k, e), calls := s.calls[e.id := calls], schedules := s.schedules[e.id := schedules],
       cancels := s.cancels[e.id := cancels], dead := if e.deleted then s.dead + {e.id} else s.dead)
  }

  lemma ChangeLater(s: Snap, k: nat, e: Bh, calls: nat, schedules: nat, cancels: nat)
    requires Ok(s) && 1 <= k <= |s.bhs| && e.id == Last(s.bhs, k).id
    requires s.calls[e.id] <= calls && s.cancels[e.id] <= cancels && calls + Bit(e.scheduled) <= schedules
    requires Last(s.bhs, k).deleted ==> e.deleted && calls == s.calls[e.id]
    requires NotMissed(Last(s.bhs, k), e, s, Change(s, k, e, calls, schedules, cancels))
    ensures Later(s, Change(s, k, e, calls, schedules, cancels))
  {
    var t := Change(s, k, e, calls, schedules, cancels);
    StayPlaced(s, t);
    forall j | 1 <= j <= |s.bhs| && j != k ensures Last(t.bhs, j) == Last(s.bhs, j) && Last(s.bhs, j).id != e.id {
      if j < k {
        assert Last(s.bhs, j).id != Last(s.bhs, k).id;
      } else {
        assert Last(s.bhs, k).id != Last(s.bhs, j).id;
      }
    }
    assert BhsOk(t);
    assert HandlersOk(t);
  }

  lemma LastCons<T>(x: T, s: seq<T>, k: nat)
    requires 1 <= k <= |s| + 1
    ensures Last([x] + s, k) == if k <= |s| then Last(s, k) else x
  {}

  /** A new identity. */
  ghost function Grown(s: Snap): Snap {
    s.(nextId := s.nextId + 1, calls := s.calls + [0], schedules := s.schedules + [0], cancels := s.cancels + [0])
  }

  lemma NewBhLater(s: Snap)
    requires Ok(s)
    ensures Later(s, Grown(s).(bhs := [Bh(s.nextId, false, false, false)] + s.bhs))
  {
    var e := Bh(s.nextId, false, false, false);
    var t := Grown(s).(bhs := [e] + s.bhs);
    StayPlaced(s, t);
    forall k | 1 <= k <= |s.bhs| + 1 ensures Last(t.bhs, k) == if k <= |s.bhs| then Last(s.bhs, k) else e {
      LastCons(e, s.bhs, k);
    }
    assert BhsOk(t);
  }

  lemma NewHandlerLater(s: Snap, h: Handler)
    requires Ok(s) && h.id == s.nextId && !h.deleted && Quiet(h)
    requires forall k | 1 <= k <= |s.handlers| && Last(s.handlers, k).fd == h.fd :: Last(s.handlers, k).deleted
    ensures Later(s, Grown(s).(handlers := [h] + s.handlers))
  {
    var t := Grown(s).(handlers := [h] + s.handlers);
    StayPlaced(s, t);
    forall k | 1 <= k <= |s.handlers| + 1
      ensures Last(t.handlers, k) == if k <= |s.handlers| then Last(s.handlers, k) else h
    {
      LastCons(h, s.handlers, k);
    }
    assert BhsOk(t) && HandlersOk(t);
  }

  /** A handler changes, other than in its identity and descriptor; its counts move with it. */
  ghost function Changed(s: Snap, k: nat, h: Handler, calls: nat, cancels: nat): Snap
    requires BhsOk(s) && 1 <= k <= |s.handlers| && h.id < s.nextId
  {
    s.(handlers := Put(s.handlers, k, h), calls := s.calls[h.id := calls], cancels := s.cancels[h.id := cancels],
       dead := if h.deleted then s.dead + {h.id} else s.dead)
  }

  lemma HandlerLater(s: Snap, k: nat, h: Handler, calls: nat, cancels: nat)
    requires Ok(s) && 1 <= k <= |s.handlers| && h.id == Last(s.handlers, k).id && h.fd == Last(s.handlers, k).fd
    requires s.calls[h.id] <= calls && s.cancels[h.id] <= cancels
    requires Last(s.handlers, k).deleted ==> h.deleted && calls == s.calls[h.id]
    requires Quiet(Last(s.handlers, k)) ==> Quiet(h)
    requires Ready(Last(s.handlers, k)) ==> Ready(h) || calls > s.calls[h.id] || cancels > s.cancels[h.id]
    ensures Later(s, Changed(s, k, h, calls, cancels))
  {
    var t := Changed(s, k, h, calls, cancels);
    ChangedOk(s, k, h, calls, cancels);
    forall j | 1 <= j <= |s.handlers| ensures Heard(Last(s.handlers, j), Last(t.handlers, j), s, t) {}
    forall j | 1 <= j <= |s.bhs| ensures NotMissed(Last(s.bhs, j), Last(t.bhs, j), s, t) {}
    StayPlaced(s, t);
  }

  lemma ChangedOk(s: Snap, k: nat, h: Handler, calls: nat, cancels: nat)
    requires Ok(s) && 1 <= k <= |s.handlers| && h.id == Last(s.handlers, k).id && h.fd == Last(s.handlers, k).fd
    requires Last(s.handlers, k).deleted ==> h.deleted
    ensures Ok(Changed(s, k, h, calls, cancels))
  {
    var t := Changed(s, k, h, calls, cancels);
    forall j | 1 <= j <= |s.handlers| && j != k
      ensures Last(t.handlers, j) == Last(s.handlers, j) && Last(s.handlers, j).id != h.id
    {
      if j < k {
        assert Last(s.handlers, j).id != Last(s.handlers, k).id;
      } else {
        assert Last(s.handlers, k).id != Last(s.handlers, j).id;
      }
    }
    assert BhsOk(t);
    assert HandlersOk(t);
  }

  function Without<T>(s: seq<T>, k: nat): (r: seq<T>)
    requires 1 <= k <= |s|
    ensures |r| == |s| - 1
  {
    s[..|s| - k] + s[|s| - k + 1..]
  }

  lemma LastWithout<T>(s: seq<T>, k: nat, j: nat)
    requires 1 <= k <= |s| && 1 <= j < |s|
    ensures Last(Without(s, k), j) == Last(s, if j < k then j else j + 1)
  {}

  /** With no walk under way a handler may go away for good. */
  lemma RemoveHandlerLater(s: Snap, k: nat)
    requires Ok(s) && 1 <= k <= |s.handlers| && s.walkingHandlers == 0
    ensures Later(s, s.(handlers := Without(s.handlers, k), dead := s.dead + {Last(s.handlers, k).id}))
  {
    var id := Last(s.handlers, k).id;
    var t := s.(handlers := Without(s.handlers, k), dead := s.dead + {id});
    forall j | 1 <= j < |s.handlers|
      ensures Last(t.handlers, j) == Last(s.handlers, if j < k then j else j + 1) && Last(t.handlers, j).id != id
    {
      LastWithout(s.handlers, k, j);
      if j < k {
        assert Last(s.handlers, j).id != Last(s.handlers, k).id;
      } else {
        assert Last(s.handlers, k).id != Last(s.handlers, j + 1).id;
      }
    }
    assert HandlersOk(t);
    assert BhsOk(t);
    StayPlaced(s, t);
    forall i | 1 <= i <= |s.handlers| ensures HandlerStays(Last(s.handlers, i), s, t) {
      if i != k {
        assert Heard(Last(s.handlers, i), Last(t.handlers, if i < k then i else i - 1), s, t);
      }
    }
  }

  // ---------------------------------------------------------------- walks

  /** The entries that are not deleted. */
  function Live(s: seq<Bh>, n: nat): (r: seq<Bh>)
    requires n <= |s|
    ensures |r| <= n
  {
    if n == 0 then [] else if s[n - 1].deleted then Live(s, n - 1) else Live(s, n - 1) + [s[n - 1]]
  }

  lemma {:induction false} LiveEntry(s: seq<Bh>, n: nat, i: nat) returns (j: nat)
    requires n <= |s| && i < |Live(s, n)|
    ensures j < n && Live(s, n)[i] == s[j] && !s[j].deleted
    decreases n
  {
    if s[n - 1].deleted || i < |Live(s, n - 1)| {
      j := LiveEntry(s, n - 1, i);
    } else {
      j := n - 1;
    }
  }

  lemma {:induction false} LiveDistinct(s: seq<Bh>, n: nat, i: nat, j: nat)
    requires n <= |s| && i < j < |Live(s, n)|
    requires forall a, b | 0 <= a < b < |s| :: s[a].id != s[b].id
    ensures Live(s, n)[i].id != Live(s, n)[j].id
    decreases n
  {
    if s[n - 1].deleted || j < |Live(s, n - 1)| {
      LiveDistinct(s, n - 1, i, j);
    } else {
      var a := LiveEntry(s, n - 1, i);
    }
  }

  /** A live entry is kept. */
  lemma {:induction false} LiveKeeps(s: seq<Bh>, n: nat, i: nat) returns (j: nat)
    requires i < n <= |s| && !s[i].deleted
    ensures j < |Live(s, n)| && Live(s, n)[j] == s[i]
    decreases n
  {
    if i == n - 1 {
      j := |Live(s, n - 1)|;
    } else {
      j := LiveKeeps(s, n - 1, i);
    }
  }

  lemma LiveFrom(s: Snap, r: seq<Bh>, k: nat) returns (i: nat)
    requires r == Live(s.bhs, |s.bhs|) && 1 <= k <= |r|
    ensures 1 <= i <= |s.bhs| && Last(r, k) == Last(s.bhs, i) && !Last(s.bhs, i).deleted
  {
    var j := LiveEntry(s.bhs, |s.bhs|, |r| - k);
    i := |s.bhs| - j;
  }

  lemma LiveApart(s: Snap, r: seq<Bh>)
    requires BhsOk(s) && r == Live(s.bhs, |s.bhs|)
    ensures forall j, k | 1 <= j < k <= |r| :: Last(r, j).id != Last(r, k).id
  {
    var n := |s.bhs|;
    forall a, b | 0 <= a < b < n ensures s.bhs[a].id != s.bhs[b].id {
      assert Last(s.bhs, n - b).id != Last(s.bhs, n - a).id;
    }
    forall j, k | 1 <= j < k <= |r| ensures Last(r, j).id != Last(r, k).id {
      LiveDistinct(s.bhs, n, |r| - k, |r| - j);
    }
  }

  /** With no walk under way the deleted bottom halves go away for good. */
  lemma SweepLater(s: Snap)
    requires Ok(s) && s.walkingBh == 0
    ensures Later(s, s.(bhs := Live(s.bhs, |s.bhs|)))
    ensures forall k | 1 <= k <= |Live(s.bhs, |s.bhs|)| :: !Last(Live(s.bhs, |s.bhs|), k).deleted
  {
    var r := Live(s.bhs, |s.bhs|);
    forall k | 1 <= k <= |r|
      ensures exists i :: 1 <= i <= |s.bhs| && Last(r, k) == Last(s.bhs, i) && !Last(s.bhs, i).deleted
    {
      var i := LiveFrom(s, r, k);
    }
    LiveApart(s, r);
    var t := s.(bhs := r);
    assert BhsOk(t);
    StayPlaced(s, t);
    SweepStays(s);
  }

  lemma SweepStays(s: Snap)
    requires BhsOk(s)
    ensures BhsStay(s, s.(bhs := Live(s.bhs, |s.bhs|)))
  {
    var r := Live(s.bhs, |s.bhs|);
    var t := s.(bhs := r);
    forall k | 1 <= k <= |s.bhs| ensures BhStays(Last(s.bhs, k), s, t) {
      if !Last(s.bhs, k).deleted {
        var j := LiveKeeps(s.bhs, |s.bhs|, |s.bhs| - k);
        assert NotMissed(Last(s.bhs, k), Last(t.bhs, |r| - j), s, t);
      }
    }
  }

  /** The same lists and counts at another depth of the walks. */
  ghost predicate Alike(s: Snap, t: Snap) {
    t == s.(walkingBh := t.walkingBh, walkingHandlers := t.walkingHandlers)
  }

  lemma AlikeKept(s: Snap, s': Snap, t: Snap, t': Snap)
    requires Alike(s, s') && Alike(t, t')
    ensures BhsKept(s, t) ==> BhsKept(s', t')
    ensures HandlersKept(s, t) ==> HandlersKept(s', t')
  {
    if BhsKept(s, t) {
      forall k | 1 <= k <= |s.bhs| ensures NotMissed(Last(s'.bhs, k), Last(t'.bhs, k), s', t') {
        assert NotMissed(Last(s.bhs, k), Last(t.bhs, k), s, t);
      }
    }
    if HandlersKept(s, t) {
      forall k | 1 <= k <= |s.handlers| ensures Heard(Last(s'.handlers, k), Last(t'.handlers, k), s', t') {
        assert Heard(Last(s.handlers, k), Last(t.handlers, k), s, t);
      }
    }
  }

  lemma AlikeStay(s: Snap, s': Snap, t: Snap, t': Snap)
    requires Alike(s, s') && Alike(t, t')
    ensures BhsStay(s, t) ==> BhsStay(s', t')
    ensures HandlersStay(s, t) ==> HandlersStay(s', t')
  {
    if BhsStay(s, t) {
      forall k | 1 <= k <= |s.bhs| ensures BhStays(Last(s'.bhs, k), s', t') {
        assert BhStays(Last(s.bhs, k), s, t);
        if Last(s.bhs, k).id !in t.dead {
          var j :| 1 <= j <= |t.bhs| && NotMissed(Last(s.bhs, k), Last(t.bhs, j), s, t);
          assert NotMissed(Last(s'.bhs, k), Last(t'.bhs, j), s', t');
        }
      }
    }
    if HandlersStay(s, t) {
      forall k | 1 <= k <= |s.handlers| ensures HandlerStays(Last(s'.handlers, k), s', t') {
        assert HandlerStays(Last(s.handlers, k), s, t);
        if Last(s.handlers, k).id !in t.dead {
          var j :| 1 <= j <= |t.handlers| && Heard(Last(s.handlers, k), Last(t.handlers, j), s, t);
          assert Heard(Last(s'.handlers, k), Last(t'.handlers, j), s', t');
        }
      }
    }
  }

  lemma AlikeOk(s: Snap, s': Snap)
    requires Alike(s, s') && Ok(s)
    ensures Ok(s') && (AllQuiet(s) <==> AllQuiet(s'))
  {}

  /** Going back to the depth before a walk of the bottom halves. */
  lemma BhWalkOver(s: Snap, t: Snap)
    requires Ok(s) && Later(s.(walkingBh := s.walkingBh + 1), t)
    ensures Later(s, t.(walkingBh := s.walkingBh))
  {
    WalkOver(s, s.(walkingBh := s.walkingBh + 1), t, t.(walkingBh := s.walkingBh));
  }

  lemma HandlerWalkOver(s: Snap, t: Snap)
    requires Ok(s) && Later(s.(walkingHandlers := s.walkingHandlers + 1), t)
    ensures Later(s, t.(walkingHandlers := s.walkingHandlers))
  {
    WalkOver(s, s.(walkingHandlers := s.walkingHandlers + 1), t, t.(walkingHandlers := s.walkingHandlers));
  }

  lemma WalkOver(s: Snap, s': Snap, t: Snap, t': Snap)
    requires Ok(s) && Later(s', t) && Alike(s', s) && Alike(t, t')
    requires t'.walkingBh == s.walkingBh <= s'.walkingBh
    requires t'.walkingHandlers == s.walkingHandlers <= s'.walkingHandlers
    ensures Later(s, t')
  {
    AlikeOk(t, t');
    AlikeOk(s', s);
    AlikeKept(s', s, t, t');
    AlikeStay(s', s, t, t');
  }

  /** A bottom half that was due has been called or cancelled. */
  ghost predicate Served(e: Bh, s: Snap, t: Snap) {
    && e.id < |s.calls| <= |t.calls| && e.id < |s.cancels| <= |t.cancels|
    && (Due(e) ==> t.calls[e.id] > s.calls[e.id] || t.cancels[e.id] > s.cancels[e.id])
  }

  ghost predicate AllServed(s: Snap, t: Snap) {
    forall k | 1 <= k <= |s.bhs| :: Served(Last(s.bhs, k), s, t)
  }

  /** The end of a walk. */
  lemma AllServedOver(s: Snap, t: Snap)
    requires Ok(s) && Later(s.(walkingBh := s.walkingBh + 1), t) && AllServed(s.(walkingBh := s.walkingBh + 1), t)
    ensures Later(s, t.(walkingBh := s.walkingBh)) && AllServed(s, t.(walkingBh := s.walkingBh))
  {
    BhWalkOver(s, t);
    var s1, t1 := s.(walkingBh := s.walkingBh + 1), t.(walkingBh := s.walkingBh);
    forall k | 1 <= k <= |s.bhs| ensures Served(Last(s.bhs, k), s, t1) {
      assert Served(Last(s1.bhs, k), s1, t);
    }
  }

  lemma AllServedLater(s: Snap, t: Snap, u: Snap)
    requires Later(s, t) && AllServed(s, t) && Later(t, u)
    ensures Later(s, u) && AllServed(s, u)
  {
    LaterTrans(s, t, u);
    forall k | 1 <= k <= |s.bhs| ensures Served(Last(s.bhs, k), s, u) {
      ServedLater(Last(s.bhs, k), s, t, u);
    }
  }

  lemma ServedLater(e: Bh, s: Snap, t: Snap, u: Snap)
    requires Served(e, s, t) && Later(t, u)
    ensures Served(e, s, u)
  {}

  /** A callback is counted. */
  ghost function Called(s: Snap, id: nat): Snap
    requires id < |s.calls|
  {
    s.(calls := s.calls[id := s.calls[id] + 1])
  }

  // ---------------------------------------------------------------- progress

  /** A callback that a poll itself starts, not one deeper down, and whether it counts as progress. */
  datatype Hit = Hit(id: nat, counts: bool)

  function HitsOf(hits: seq<Hit>, id: nat): nat {
    if hits == [] then 0 else Bit(hits[0].id == id) + HitsOf(hits[1..], id)
  }

  predicate Counts(hits: seq<Hit>) {
    exists i :: 0 <= i < |hits| && hits[i].counts
  }

  lemma {:induction false} HitsAppend(a: seq<Hit>, b: seq<Hit>, id: nat)
    ensures HitsOf(a + b, id) == HitsOf(a, id) + HitsOf(b, id)
  {
    if a == [] {
      assert a + b == b;
    } else {
      HitsAppend(a[1..], b, id);
      assert (a + b)[1..] == a[1..] + b;
    }
  }

  lemma CountsAppend(a: seq<Hit>, b: seq<Hit>)
    ensures Counts(a + b) <==> Counts(a) || Counts(b)
  {
    if i :| 0 <= i < |a| && a[i].counts {
      assert (a + b)[i].counts;
    }
    if i :| 0 <= i < |b| && b[i].counts {
      assert (a + b)[|a| + i].counts;
    }
  }

  /** The hits are among the calls counted. */
  ghost predicate Made(s: Snap, t: Snap, hits: seq<Hit>) {
    && |s.calls| <= |t.calls|
    && forall id {:trigger HitsOf(hits, id)} | 0 <= id < |s.calls| :: s.calls[id] + HitsOf(hits, id) <= t.calls[id]
  }

  /** A cancellation, or a call other than the hits. */
  ghost predicate Elsewhere(id: nat, s: Snap, t: Snap, hits: seq<Hit>) {
    && id < |s.calls| <= |t.calls| && id < |s.cancels| <= |t.cancels|
    && (t.cancels[id] > s.cancels[id] || t.calls[id] > s.calls[id] + HitsOf(hits, id))
  }

  /** A bottom half that was due and not idle makes for progress, unless it was cancelled or called deeper
      down. */
  ghost predicate Prompt(e: Bh, s: Snap, t: Snap, hits: seq<Hit>) {
    Due(e) && !e.idle ==> Counts(hits) || Elsewhere(e.id, s, t, hits)
  }

  ghost predicate AllPrompt(s: Snap, t: Snap, hits: seq<Hit>) {
    forall k | 1 <= k <= |s.bhs| :: Prompt(Last(s.bhs, k), s, t, hits)
  }

  /** Two bottom halves are due; the one that the walk comes to first is idle. */
  const TWO_DUE: Snap :=
    Snap([Bh(1, true, true, false), Bh(0, true, false, false)], [], 1, 0, 2, [0, 0], [1, 1], [0, 0], {})

  lemma TwoDue()
    ensures Ok(TWO_DUE) && Last(TWO_DUE.bhs, 2) == Bh(1, true, true, false)
    ensures Due(Last(TWO_DUE.bhs, 1)) && !Last(TWO_DUE.bhs, 1).idle
  {
    assert Last(TWO_DUE.bhs, 1) == Bh(0, true, false, false);
    assert BhsOk(TWO_DUE) && HandlersOk(TWO_DUE);
  }

  lemma IdleCalled() returns (s: Snap)
    ensures BhsOk(TWO_DUE) && s == Change(TWO_DUE, 2, Bh(1, false, false, false), 1, 1, 0) && Later(TWO_DUE, s)
  {
    TwoDue();
    s := Change(TWO_DUE, 2, Bh(1, false, false, false), 1, 1, 0);
    ChangeLater(TWO_DUE, 2, Bh(1, false, false, false), 1, 1, 0);
  }

  /** A due bottom half that is not idle need not make for progress: the idle one is called and cancels it. */
  lemma IdleCancels() returns (s: Snap, t: Snap)
    ensures BhsOk(TWO_DUE) && s == Change(TWO_DUE, 2, Bh(1, false, false, false), 1, 1, 0)
    ensures BhsOk(s) && t == Change(s, 1, Bh(0, false, false, false), 0, 1, 1) && Later(TWO_DUE, t)
    ensures Made(TWO_DUE, t, [Hit(1, false)]) && !Counts([Hit(1, false)])
    ensures Due(Last(TWO_DUE.bhs, 1)) && !Last(TWO_DUE.bhs, 1).idle && Elsewhere(0, TWO_DUE, t, [Hit(1, false)])
  {
    TwoDue();
    s := IdleCalled();
    t := Change(s, 1, Bh(0, false, false, false), 0, 1, 1);
    ChangeLater(s, 1, Bh(0, false, false, false), 0, 1, 1);
    LaterTrans(TWO_DUE, s, t);
    OneMade(TWO_DUE, s, t, 1, false);
  }

  /** A handler that was ready makes for progress, other than that of the notifier, unless it was changed,
      deleted, or called deeper down. */
  ghost predicate Answered(h: Handler, s: Snap, t: Snap, hits: seq<Hit>, notifier: int) {
    Ready(h) && h.fd != notifier ==> Counts(hits) || Elsewhere(h.id, s, t, hits) || h.id in t.dead
  }

  ghost predicate AllAnswered(s: Snap, t: Snap, hits: seq<Hit>, notifier: int) {
    forall k | 1 <= k <= |s.handlers| :: Answered(Last(s.handlers, k), s, t, hits, notifier)
  }

  lemma MadeTrans(s: Snap, t: Snap, u: Snap, a: seq<Hit>, b: seq<Hit>)
    requires Made(s, t, a) && Made(t, u, b)
    ensures Made(s, u, a + b)
  {
    forall id | 0 <= id < |s.calls| ensures s.calls[id] + HitsOf(a + b, id) <= u.calls[id] {
      HitsAppend(a, b, id);
    }
  }

  lemma MadeNone(s: Snap, t: Snap)
    requires CountsGrow(s, t)
    ensures Made(s, t, [])
  {}

  lemma ElsewhereLater(id: nat, s: Snap, t: Snap, u: Snap, a: seq<Hit>, b: seq<Hit>)
    requires Elsewhere(id, s, t, a) && Made(t, u, b) && CountsGrow(t, u)
    ensures Elsewhere(id, s, u, a + b)
  {
    HitsAppend(a, b, id);
    assert HitsOf(b, id) >= 0;
  }

  lemma PromptLater(s: Snap, t: Snap, u: Snap, a: seq<Hit>, b: seq<Hit>)
    requires AllPrompt(s, t, a) && Made(t, u, b) && CountsGrow(t, u)
    ensures AllPrompt(s, u, a + b)
  {
    CountsAppend(a, b);
    forall k | 1 <= k <= |s.bhs| ensures Prompt(Last(s.bhs, k), s, u, a + b) {
      assert Prompt(Last(s.bhs, k), s, t, a);
      if Elsewhere(Last(s.bhs, k).id, s, t, a) {
        ElsewhereLater(Last(s.bhs, k).id, s, t, u, a, b);
      }
    }
  }

  lemma AnsweredLater(s: Snap, t: Snap, u: Snap, a: seq<Hit>, b: seq<Hit>, notifier: int)
    requires AllAnswered(s, t, a, notifier) && Made(t, u, b) && CountsGrow(t, u)
    ensures AllAnswered(s, u, a + b, notifier)
  {
    CountsAppend(a, b);
    forall k | 1 <= k <= |s.handlers| ensures Answered(Last(s.handlers, k), s, u, a + b, notifier) {
      assert Answered(Last(s.handlers, k), s, t, a, notifier);
      if Elsewhere(Last(s.handlers, k).id, s, t, a) {
        ElsewhereLater(Last(s.handlers, k).id, s, t, u, a, b);
      }
    }
  }

  /** The hits are none of the handlers. */
  ghost predicate Spares(s: Snap, hits: seq<Hit>) {
    forall k | 1 <= k <= |s.handlers| :: HitsOf(hits, Last(s.handlers, k).id) == 0
  }

  /** What is ready before the bottom halves run is ready after them, or has been dealt with. */
  lemma AnsweredFrom(s: Snap, t: Snap, u: Snap, a: seq<Hit>, b: seq<Hit>, notifier: int)
    requires Later(s, t) && Spares(s, a) && AllAnswered(t, u, b, notifier) && Made(t, u, b) && CountsGrow(t, u)
    ensures AllAnswered(s, u, a + b, notifier)
  {
    CountsAppend(a, b);
    forall k | 1 <= k <= |s.handlers| ensures Answered(Last(s.handlers, k), s, u, a + b, notifier) {
      AnsweredOne(s, t, u, a, b, notifier, k);
    }
  }

  lemma AnsweredOne(s: Snap, t: Snap, u: Snap, a: seq<Hit>, b: seq<Hit>, notifier: int, k: nat)
    requires Later(s, t) && Spares(s, a) && AllAnswered(t, u, b, notifier) && Made(t, u, b) && CountsGrow(t, u)
    requires 1 <= k <= |s.handlers| && (Counts(b) ==> Counts(a + b))
    ensures Answered(Last(s.handlers, k), s, u, a + b, notifier)
  {
    var h := Last(s.handlers, k);
    HitsAppend(a, b, h.id);
    assert HandlerStays(h, s, t) && HitsOf(a, h.id) == 0 && HitsOf(b, h.id) >= 0;
    if h.id !in t.dead {
      var j :| 1 <= j <= |t.handlers| && Heard(h, Last(t.handlers, j), s, t);
      assert Answered(Last(t.handlers, j), t, u, b, notifier);
    }
  }

  /** The hits of a poll say what it made of what was due and ready. */
  ghost predicate Tallied(s: Snap, t: Snap, hits: seq<Hit>, notifier: int) {
    Made(s, t, hits) && AllPrompt(s, t, hits) && AllAnswered(s, t, hits, notifier)
  }

  /** All hits belong to the handler, and if it was ready one of them counts, other than for the notifier. */
  ghost predicate HitsAt(h: Handler, hits: seq<Hit>, notifier: int) {
    (forall i | 0 <= i < |hits| :: hits[i].id == h.id) && (Ready(h) && h.fd != notifier ==> Counts(hits))
  }

  lemma {:induction false} HitsNot(hits: seq<Hit>, id: nat)
    requires forall i | 0 <= i < |hits| :: hits[i].id != id
    ensures HitsOf(hits, id) == 0
  {
    if hits != [] {
      HitsNot(hits[1..], id);
    }
  }

  /** A walk of the handlers has come to the place `left`. */
  ghost predicate Dispatched(s: Snap, t: Snap, left: nat, hits: seq<Hit>, notifier: int) {
    && left <= |s.handlers| && Made(s, t, hits)
    && (forall k | left < k <= |s.handlers| :: Answered(Last(s.handlers, k), s, t, hits, notifier))
    && (forall k | 1 <= k <= left :: HitsOf(hits, Last(s.handlers, k).id) == 0)
  }

  lemma DispatchedHits(s: Snap, mid: Snap, t: Snap, left: nat, hits: seq<Hit>, more: seq<Hit>, notifier: int)
    requires Later(s, mid) && Later(mid, t) && 1 <= left <= |s.handlers| && left <= |mid.handlers|
    requires HeardBelow(s, mid, left + 1) && Dispatched(s, mid, left, hits, notifier) && Made(mid, t, more)
    requires HitsAt(Last(mid.handlers, left), more, notifier)
    ensures Dispatched(s, t, left - 1, hits + more, notifier)
  {
    var h := Last(s.handlers, left);
    assert Heard(h, Last(mid.handlers, left), s, mid);
    MadeTrans(s, mid, t, hits, more);
    CountsAppend(hits, more);
    forall k | 1 <= k < left ensures HitsOf(hits + more, Last(s.handlers, k).id) == 0 {
      HitsAppend(hits, more, Last(s.handlers, k).id);
      assert Last(s.handlers, k).id != Last(s.handlers, left).id;
      HitsNot(more, Last(s.handlers, k).id);
    }
    forall k | left < k <= |s.handlers| ensures Answered(Last(s.handlers, k), s, t, hits + more, notifier) {
      assert Answered(Last(s.handlers, k), s, mid, hits, notifier);
      if Elsewhere(Last(s.handlers, k).id, s, mid, hits) {
        ElsewhereLater(Last(s.handlers, k).id, s, mid, t, hits, more);
      }
    }
    if Counted(h.id, s, mid) {
      assert Elsewhere(h.id, s, mid, hits);
      ElsewhereLater(h.id, s, mid, t, hits, more);
    }
  }

  /** What happened in a poll: the callbacks of bottom halves, those of handlers that were ready, whether
      timers ran; what the descriptors said, if they were asked; and the same again for that. */
  datatype Tally = Tally(bottom: seq<Hit>, io: seq<Hit>, timers: bool, poll: Option<Inquiry>)

  datatype Inquiry = Inquiry(before: Snap, after: Snap, fds: seq<int>, revents: seq<Events>, io: seq<Hit>, timers: bool)

  function AllHits(tally: Tally): seq<Hit> {
    tally.bottom + tally.io + if tally.poll.Some? then tally.poll.value.io else []
  }

  predicate Early(tally: Tally) {
    Counts(tally.bottom) || Counts(tally.io) || tally.timers
  }

  predicate Late(p: Inquiry) {
    Counts(p.io) || p.timers
  }

  /** Every handler that waits for something was asked about, was told the answer if there was one, and was
      called or changed if it was ready then. */
  ghost predicate Polled(p: Inquiry, t: Snap, notifier: int) {
    && (forall k | 1 <= k <= |p.before.handlers| :: Registered(Last(p.before.handlers, k), p.fds))
    && p.after == p.before.(handlers := p.after.handlers)
    && (if |p.revents| == |p.fds| then Told(p.before.handlers, p.after.handlers, p.fds, p.revents)
        else p.after == p.before)
    && AllHeard(p.after, t) && AllAnswered(p.after, t, p.io, notifier)
  }

  /** There is progress exactly if a bottom half that was not idle, a handler other than the notifier's, or
      a timer was called; and the descriptors are asked exactly if there was none before, or if the caller
      wants to block and no such bottom half was called. */
  ghost predicate Outcome(blocking: bool, progress: bool, tally: Tally, t: Snap, notifier: int) {
    && (tally.poll.None? <==> Early(tally) && !(blocking && !Counts(tally.bottom)))
    && (tally.poll.Some? ==> Polled(tally.poll.value, t, notifier))
    && (progress <==> Early(tally) || (tally.poll.Some? && Late(tally.poll.value)))
  }

  // ---------------------------------------------------------------- the context

  class AioContext {
    /** The descriptor through which the loop is woken; its handler is not progress. */
    const notifier: int
    var bhs: seq<Bh>
    var handlers: seq<Handler>
    var walkingBh: nat
    var walkingHandlers: nat
    var nextId: nat
    ghost var calls: seq<nat>
    ghost var schedules: seq<nat>
    ghost var cancels: seq<nat>
    ghost var dead: set<nat>

    ghost function State(): Snap
      reads this
    {
      Snap(bhs, handlers, walkingBh, walkingHandlers, nextId, calls, schedules, cancels, dead)
    }

    constructor (notifier: int)
      ensures Ok(State()) && bhs == [] && handlers == [] && walkingBh == walkingHandlers == 0
    {
      this.notifier := notifier;
      bhs, handlers, walkingBh, walkingHandlers, nextId := [], [], 0, 0, 0;
      calls, schedules, cancels, dead := [], [], [], {};
    }

    /** aio_bh_new */
    method BhNew() returns (id: nat)
      requires Ok(State())
      modifies this
      ensures Later(old(State()), State())
      ensures bhs == [Bh(id, false, false, false)] + old(bhs) && id == old(nextId)
    {
      NewBhLater(State());
      id := nextId;
      bhs := [Bh(id, false, false, false)] + bhs;
      nextId := nextId + 1;
      calls, schedules, cancels := calls + [0], schedules + [0], cancels + [0];
    }

    /** Where a bottom half is, counted from the end. */
    method FindBh(id: nat) returns (k: nat)
      ensures k <= |bhs| && (k > 0 ==> Last(bhs, k).id == id)
      ensures k == 0 ==> forall j | 1 <= j <= |bhs| :: Last(bhs, j).id != id
    {
      k := |bhs|;
      while k > 0 && bhs[|bhs| - k].id != id
        invariant k <= |bhs| && forall j | k < j <= |bhs| :: Last(bhs, j).id != id
      {
        k := k - 1;
      }
    }

    /** qemu_bh_schedule and qemu_bh_schedule_idle */
    method BhSchedule(k: nat, idle: bool)
      requires Ok(State()) && 1 <= k <= |bhs|
      modifies this
      ensures Later(old(State()), State())
      ensures var e := old(Last(bhs, k));
        bhs == if e.scheduled then old(bhs) else Put(old(bhs), k, e.(scheduled := true, idle := idle))
      ensures handlers == old(handlers) && nextId == old(nextId)
    {
      var e := bhs[|bhs| - k];
      assert e == Last(bhs, k);
      if e.scheduled {
        LaterSame(State());
        return;
      }
      var f := e.(scheduled := true, idle := idle);
      ChangeLater(State(), k, f, calls[e.id], schedules[e.id] + 1, cancels[e.id]);
      bhs := bhs[|bhs| - k := f];
      schedules := schedules[e.id := schedules[e.id] + 1];
      assert State() == Change(old(State()), k, f, old(calls)[e.id], old(schedules)[e.id] + 1, old(cancels)[e.id]);
    }

    /** qemu_bh_cancel, and qemu_bh_delete: the bottom half will not be called for this. */
    method BhCancel(k: nat, delete: bool)
      requires Ok(State()) && 1 <= k <= |bhs|
      modifies this
      ensures Later(old(State()), State())
      ensures var e := old(Last(bhs, k));
        bhs == Put(old(bhs), k, e.(scheduled := false, deleted := e.deleted || delete))
      ensures handlers == old(handlers) && nextId == old(nextId)
    {
      var e := bhs[|bhs| - k];
      assert e == Last(bhs, k);
      var f := e.(scheduled := false, deleted := e.deleted || delete);
      ChangeLater(State(), k, f, calls[e.id], schedules[e.id], cancels[e.id] + 1);
      bhs := bhs[|bhs| - k := f];
      cancels := cancels[e.id := cancels[e.id] + 1];
      dead := if f.deleted then dead + {e.id} else dead;
      assert State() == Change(old(State()), k, f, old(calls)[e.id], old(schedules)[e.id], old(cancels)[e.id] + 1);
    }

    /** The deleted bottom halves are unlinked and freed. */
    method Sweep()
      requires Ok(State()) && walkingBh == 0
      modifies this
      ensures Later(old(State()), State())
      ensures forall k | 1 <= k <= |bhs| :: !Last(bhs, k).deleted
      ensures calls == old(calls) && cancels == old(cancels)
    {
      SweepLater(State());
      var kept, i := [], 0;
      while i < |bhs|
        invariant 0 <= i <= |bhs| && kept == Live(bhs, i)
      {
        if !bhs[i].deleted {
          kept := kept + [bhs[i]];
        }
        i := i + 1;
      }
      bhs := kept;
    }

    /** find_aio_handler */
    method FindHandler(fd: int) returns (k: nat)
      ensures k <= |handlers| && (k > 0 ==> Last(handlers, k).fd == fd && !Last(handlers, k).deleted)
      ensures k == 0 ==> forall j | 1 <= j <= |handlers| && Last(handlers, j).fd == fd :: Last(handlers, j).deleted
    {
      k := |handlers|;
      while k > 0 && !(handlers[|handlers| - k].fd == fd && !handlers[|handlers| - k].deleted)
        invariant k <= |handlers|
        invariant forall j | k < j <= |handlers| && Last(handlers, j).fd == fd :: Last(handlers, j).deleted
      {
        k := k - 1;
      }
    }

    /** The handler at a place is replaced; `more` tells that this cancels what it waited for. */
    method SetNode(k: nat, h: Handler, ghost more: nat)
      requires Ok(State()) && 1 <= k <= |handlers| && h.id == Last(handlers, k).id && h.fd == Last(handlers, k).fd
      requires Last(handlers, k).deleted ==> h.deleted
      requires Quiet(Last(handlers, k)) ==> Quiet(h)
      requires Ready(Last(handlers, k)) ==> Ready(h) || more > 0
      modifies `handlers, `dead, `cancels
      ensures Later(old(State()), State()) && handlers == Put(old(handlers), k, h)
    {
      HandlerLater(State(), k, h, calls[h.id], cancels[h.id] + more);
      assert calls[h.id := calls[h.id]] == calls;
      handlers := Put(handlers, k, h);
      dead := if h.deleted then dead + {h.id} else dead;
      cancels := cancels[h.id := cancels[h.id] + more];
      assert State() == Changed(old(State()), k, h, old(calls)[h.id], old(cancels)[h.id] + more);
    }

    /** QLIST_REMOVE and g_free */
    method RemoveNode(k: nat)
      requires Ok(State()) && 1 <= k <= |handlers| && walkingHandlers == 0
      modifies `handlers, `dead
      ensures Later(old(State()), State()) && handlers == Without(old(handlers), k)
    {
      RemoveHandlerLater(State(), k);
      dead := dead + {Last(handlers, k).id};
      handlers := handlers[..|handlers| - k] + handlers[|handlers| - k + 1..];
    }

    /** A new handler at the head of the list. */
    method AddHandler(h: Handler)
      requires Ok(State()) && h.id == nextId && !h.deleted && Quiet(h)
      requires forall j | 1 <= j <= |handlers| && Last(handlers, j).fd == h.fd :: Last(handlers, j).deleted
      modifies this
      ensures Later(old(State()), State()) && handlers == [h] + old(handlers) && bhs == old(bhs)
    {
      NewHandlerLater(State(), h);
      handlers := [h] + handlers;
      nextId := nextId + 1;
      calls, schedules, cancels := calls + [0], schedules + [0], cancels + [0];
    }

    /** aio_set_fd_handler: afterwards the descriptor has the handler asked for, or none that is
        live, and all others are as they were. */
    method SetFdHandler(fd: int, read: bool, write: bool)
      requires Ok(State())
      modifies this
      ensures Later(old(State()), State())
      ensures forall h: Handler | h.fd != fd :: h in handlers <==> h in old(handlers)
      ensures !read && !write ==> forall h | h in handlers && h.fd == fd :: h.deleted
      ensures read || write ==>
        exists h :: h in handlers && h.fd == fd && !h.deleted && h.read == read && h.write == write
          && forall g | g in old(handlers) && g.fd == fd && !g.deleted :: h.id == g.id && h.revents == g.revents
      ensures bhs == old(bhs)
    {
      var k := FindHandler(fd);
      if !read && !write {
        if k == 0 {
          LaterSame(State());
          LastMembers(handlers);
        } else {
          RemoveHandler(k);
        }
      } else if k == 0 {
        LastMembers(handlers);
        AddHandler(Handler(nextId, fd, read, write, false, NO_EVENTS, None));
        assert handlers[0] in handlers;
      } else {
        var h := handlers[|handlers| - k].(read := read, write := write, index := None);
        LastMembers(handlers);
        OnlyLive(State(), k);
        PutMembers(handlers, k, h);
        SetNode(k, h, 1);
      }
    }

    /** A live handler is deleted: marked if a walk is under way, otherwise unlinked and freed. */
    method RemoveHandler(k: nat)
      requires Ok(State()) && 1 <= k <= |handlers| && !Last(handlers, k).deleted
      modifies `handlers, `dead, `cancels
      ensures Later(old(State()), State())
      ensures forall h: Handler | h.fd != old(Last(handlers, k)).fd :: h in handlers <==> h in old(handlers)
      ensures forall h | h in handlers && h.fd == old(Last(handlers, k)).fd :: h.deleted
    {
      OnlyLive(State(), k);
      if walkingHandlers > 0 {
        var h := handlers[|handlers| - k].(deleted := true, revents := NO_EVENTS);
        PutMembers(handlers, k, h);
        SetNode(k, h, 1);
      } else {
        WithoutMembers(handlers, k);
        RemoveNode(k);
      }
    }

    // -------------------------------------------------------------- callbacks

    /** A callback does any finite list of operations; it may poll again, up to some depth. */
    method RunOps(depth: nat)
      requires Ok(State())
      modifies this
      ensures Later(old(State()), State())
      decreases depth, 2
    {
      var ops: seq<Op> := *;
      LaterSame(State());
      for i := 0 to |ops|
        invariant Later(old(State()), State())
      {
        ghost var before := State();
        Perform(ops[i], depth);
        LaterTrans(old(State()), before, State());
      }
    }

    /** The callback of the bottom half or handler `id`. */
    method Call(id: nat, depth: nat)
      requires id < |calls| && Ok(Called(State(), id))
      modifies this
      ensures Later(old(Called(State(), id)), State())
      decreases depth, 3
    {
      ghost var s := Called(State(), id);
      calls := calls[id := calls[id] + 1];
      assert State() == s;
      RunOps(depth);
    }

    method Perform(op: Op, depth: nat)
      requires Ok(State())
      modifies this
      ensures Later(old(State()), State())
      decreases depth, 1
    {
      LaterSame(State());
      match op {
        case NewBh =>
          var _ := BhNew();
        case Schedule(id) =>
          var k := FindBh(id);
          if k > 0 { BhSchedule(k, false); }
        case ScheduleIdle(id) =>
          var k := FindBh(id);
          if k > 0 { BhSchedule(k, true); }
        case Cancel(id) =>
          var k := FindBh(id);
          if k > 0 { BhCancel(k, false); }
        case Delete(id) =>
          var k := FindBh(id);
          if k > 0 { BhCancel(k, true); }
        case SetHandler(fd, read, write) =>
          SetFdHandler(fd, read, write);
        case Poll(blocking) =>
          if depth > 0 {
            var progress;
            ghost var tally;
            progress, tally := AioPoll(blocking, depth - 1);
          }
      }
    }

    // -------------------------------------------------------------- bottom halves

    /** One step of the walk: the bottom half k places from the end is called if it is due. */
    method BhStep(k: nat, depth: nat) returns (progress: bool, ghost hits: seq<Hit>)
      requires Ok(State()) && 1 <= k <= |bhs| && walkingBh > 0
      modifies this
      ensures Later(old(State()), State()) && Served(old(Last(bhs, k)), old(State()), State())
      ensures progress <==> old(Due(Last(bhs, k)) && !Last(bhs, k).idle)
      ensures var e := old(Last(bhs, k)); hits == if Due(e) then [Hit(e.id, !e.idle)] else []
      ensures (progress <==> Counts(hits)) && Made(old(State()), State(), hits)
      decreases depth, 4
    {
      var e := bhs[|bhs| - k];
      assert e == Last(bhs, k);
      assert [Hit(e.id, !e.idle)][0] == Hit(e.id, !e.idle);
      progress, hits := false, [];
      LaterSame(State());
      MadeNone(State(), State());
      if !e.deleted && e.scheduled {
        progress, hits := !e.idle, [Hit(e.id, !e.idle)];
        ghost var s := State();
        var f := e.(scheduled := false, idle := false);
        ChangeLater(s, k, f, calls[e.id] + 1, schedules[e.id], cancels[e.id]);
        bhs := bhs[|bhs| - k := f];
        ghost var t := Called(State(), e.id);
        assert t == Change(s, k, f, s.calls[e.id] + 1, s.schedules[e.id], s.cancels[e.id]);
        Call(e.id, depth);
        LaterTrans(s, t, State());
        OneMade(s, t, State(), e.id, !e.idle);
      }
    }

    /** The walk itself. */
    method BhWalk(depth: nat) returns (progress: bool, ghost hits: seq<Hit>)
      requires Ok(State()) && walkingBh > 0
      modifies this
      ensures Later(old(State()), State())
      ensures AllServed(old(State()), State())
      ensures (progress <==> Counts(hits)) && Made(old(State()), State(), hits)
      ensures AllPrompt(old(State()), State(), hits) && Spares(old(State()), hits)
      decreases depth, 5
    {
      LaterSame(State());
      MadeNone(State(), State());
      progress, hits := false, [];
      var left: nat := |bhs|;
      while left > 0
        invariant left <= |old(bhs)| && Later(old(State()), State())
        invariant forall k | left < k <= |old(bhs)| :: Served(Last(old(bhs), k), old(State()), State())
        invariant (progress <==> Counts(hits)) && Walked(old(State()), State(), left, hits)
      {
        ghost var mid, were := State(), hits;
        var p;
        ghost var more;
        p, more := BhStep(left, depth);
        progress, hits := progress || p, hits + more;
        CountsAppend(were, more);
        WalkedOne(old(State()), mid, State(), left);
        WalkedHits(old(State()), mid, State(), left, were, more);
        left := left - 1;
      }
    }

    /** aio_bh_poll: every bottom half that was due is called, here or deeper down, unless it is
        cancelled first; and the outermost poll leaves no deleted one behind. */
    method BhPoll(depth: nat) returns (progress: bool, ghost hits: seq<Hit>)
      requires Ok(State())
      modifies this
      ensures Later(old(State()), State())
      ensures AllServed(old(State()), State())
      ensures (progress <==> Counts(hits)) && Made(old(State()), State(), hits)
      ensures AllPrompt(old(State()), State(), hits) && Spares(old(State()), hits)
      ensures walkingBh == 0 ==> forall k | 1 <= k <= |bhs| :: !Last(bhs, k).deleted
      decreases depth, 6
    {
      ghost var s := State();
      walkingBh := walkingBh + 1;
      ghost var s1 := State();
      progress, hits := BhWalk(depth);
      ghost var t := State();
      AllServedOver(s, t);
      walkingBh := walkingBh - 1;
      assert State() == t.(walkingBh := s.walkingBh);
      AlikeHits(s1, s, t, State(), hits);
      if walkingBh == 0 {
        ghost var u := State();
        Sweep();
        AllServedLater(s, u, State());
        AlikeHits(s, s, u, State(), hits);
      }
    }

    // -------------------------------------------------------------- handlers

    /** The report of a handler is taken. */
    method TakeReport(k: nat) returns (h: Handler, r: Events, called: bool)
      requires Ok(State()) && 1 <= k <= |handlers|
      modifies `handlers
      ensures h == old(Last(handlers, k)) && r == And(h.revents, Wanted(h)) && called == Ready(h)
      ensures handlers == Put(old(handlers), k, h.(revents := NO_EVENTS)) && h.id < |calls|
      ensures Later(old(State()), if called then Called(State(), h.id) else State())
    {
      h := handlers[|handlers| - k];
      assert h == Last(handlers, k);
      r := And(h.revents, Wanted(h));
      called := !h.deleted && ((Readable(r) && h.read) || (Writable(r) && h.write));
      var quiet := h.(revents := NO_EVENTS);
      HandlerLater(State(), k, quiet, calls[h.id] + Bit(called), cancels[h.id]);
      handlers := handlers[|handlers| - k := quiet];
      ghost var t := Changed(old(State()), k, quiet, old(calls)[h.id] + Bit(called), old(cancels)[h.id]);
      assert t == if called then Called(State(), h.id) else State();
    }

    /** The report of a handler is taken, and its first callback runs if it waits for that. */
    method Deliver(k: nat, depth: nat) returns (r: Events, read: bool, write: bool, ghost hits: seq<Hit>)
      requires Ok(State()) && 1 <= k <= |handlers| && walkingHandlers > 0
      modifies this
      ensures Later(old(State()), State()) && k <= |handlers| && Quiet(Last(handlers, k))
      ensures old(Ready(Last(handlers, k))) <==> read || write
      ensures read || write ==> Counted(old(Last(handlers, k)).id, old(State()), State())
      ensures var h := old(Last(handlers, k));
        hits == if read || write then [Hit(h.id, h.fd != notifier || !read)] else []
      ensures Made(old(State()), State(), hits)
      decreases depth, 5
    {
      var h, called;
      h, r, called := TakeReport(k);
      read, write := !h.deleted && Readable(r) && h.read, !h.deleted && Writable(r) && h.write;
      hits := [];
      MadeNone(State(), State());
      if called {
        ghost var t := Called(State(), h.id);
        Call(h.id, depth);
        CalledOver(old(State()), t, State(), k, h.id, h.fd != notifier || !read);
        hits := [Hit(h.id, h.fd != notifier || !read)];
      }
    }

    /** What was reported of a handler is taken and its callbacks run. */
    method TakeEvents(k: nat, depth: nat) returns (progress: bool, ghost hits: seq<Hit>)
      requires Ok(State()) && 1 <= k <= |handlers| && walkingHandlers > 0
      modifies this
      ensures Later(old(State()), State()) && k <= |handlers| && Quiet(Last(handlers, k))
      ensures old(Ready(Last(handlers, k))) ==> Counted(old(Last(handlers, k)).id, old(State()), State())
      ensures (progress <==> Counts(hits)) && Made(old(State()), State(), hits)
      ensures HitsAt(old(Last(handlers, k)), hits, notifier)
      decreases depth, 6
    {
      var fd := handlers[|handlers| - k].fd;
      ghost var h, s := Last(handlers, k), State();
      var r, read, write;
      r, read, write, hits := Deliver(k, depth);
      progress := if read then fd != notifier else write;
      assert hits != [] ==> hits[0].counts == progress;
      if read {
        ghost var t, more;
        t := State();
        var p;
        p, more := CallWrite(k, r, depth, s, h.id);
        CountsAppend(hits, more);
        MadeTrans(s, t, State(), hits, more);
        progress, hits := progress || p, hits + more;
      }
    }

    /** After the read callback the handler is looked at again: it may be gone or have changed. */
    method CallWrite(k: nat, r: Events, depth: nat, ghost s: Snap, ghost id: nat)
      returns (progress: bool, ghost hits: seq<Hit>)
      requires Later(s, State()) && 1 <= k <= |handlers| && walkingHandlers > 0 && Quiet(Last(handlers, k))
      requires Last(handlers, k).id == id
      modifies this
      ensures Later(s, State()) && Later(old(State()), State()) && k <= |handlers| && Quiet(Last(handlers, k))
      ensures (hits == if progress then [Hit(id, true)] else []) && Made(old(State()), State(), hits)
      ensures progress <==> Counts(hits)
      decreases depth, 4
    {
      ghost var t := State();
      LaterSame(t);
      var h := handlers[|handlers| - k];
      assert h == Last(handlers, k);
      progress, hits := !h.deleted && Writable(r) && h.write, [];
      MadeNone(t, t);
      if progress {
        HandlerLater(t, k, h, calls[h.id] + 1, cancels[h.id]);
        assert Put(handlers, k, h) == handlers;
        ghost var u := Called(State(), h.id);
        assert u == Changed(t, k, h, t.calls[h.id] + 1, t.cancels[h.id]);
        Call(h.id, depth);
        CalledOver(t, u, State(), k, id, true);
        LaterTrans(s, t, State());
        hits := [Hit(id, true)];
        assert hits[0].counts;
      }
    }

    /** One step of aio_dispatch.  The handler cannot go away before the step is over, and goes
        away then if it was deleted and no other walk is under way. */
    method DispatchNode(k: nat, depth: nat) returns (progress: bool, ghost hits: seq<Hit>)
      requires Ok(State()) && 1 <= k <= |handlers| && QuietFrom(handlers, k + 1)
      modifies this
      ensures Later(old(State()), State())
      ensures old(Ready(Last(handlers, k))) ==> Counted(old(Last(handlers, k)).id, old(State()), State())
      ensures QuietFrom(handlers, k) && HeardBelow(old(State()), State(), k)
      ensures (progress <==> Counts(hits)) && Made(old(State()), State(), hits)
      ensures HitsAt(old(Last(handlers, k)), hits, notifier)
      decreases depth, 8
    {
      ghost var s := State();
      progress, hits := WalkNode(k, depth);
      Reap(k, s);
    }

    /** Its callbacks, with a walk under way. */
    method WalkNode(k: nat, depth: nat) returns (progress: bool, ghost hits: seq<Hit>)
      requires Ok(State()) && 1 <= k <= |handlers| && QuietFrom(handlers, k + 1)
      modifies this
      ensures Later(old(State()), State()) && k <= |handlers|
      ensures old(Ready(Last(handlers, k))) ==> Counted(old(Last(handlers, k)).id, old(State()), State())
      ensures QuietFrom(handlers, k) && HeardBelow(old(State()), State(), k)
      ensures (progress <==> Counts(hits)) && Made(old(State()), State(), hits)
      ensures HitsAt(old(Last(handlers, k)), hits, notifier)
      decreases depth, 7
    {
      ghost var s := State();
      walkingHandlers := walkingHandlers + 1;
      progress, hits := TakeEvents(k, depth);
      ghost var t := State();
      NodeOver(s, t, k);
      walkingHandlers := walkingHandlers - 1;
      assert State() == t.(walkingHandlers := s.walkingHandlers);
    }

    /** A handler that was deleted goes away if no walk is under way. */
    method Reap(k: nat, ghost s: Snap)
      requires Later(s, State()) && 1 <= k <= |handlers| && k <= |s.handlers|
      requires QuietFrom(handlers, k) && HeardBelow(s, State(), k)
      modifies `handlers, `dead
      ensures Later(s, State()) && QuietFrom(handlers, k) && HeardBelow(s, State(), k)
    {
      if walkingHandlers == 0 && handlers[|handlers| - k].deleted {
        ghost var u := State();
        RemoveNode(k);
        LaterTrans(s, u, State());
        RemovedQuiet(s, u, State(), k);
      }
    }

    /** aio_dispatch: everything reported is delivered, then the timers run. */
    method Dispatch(depth: nat) returns (progress: bool, ghost hits: seq<Hit>, ghost timers: bool)
      requires Ok(State())
      modifies this
      ensures Later(old(State()), State()) && AllQuiet(State())
      ensures AllHeard(old(State()), State())
      ensures (progress <==> Counts(hits) || timers) && Made(old(State()), State(), hits)
      ensures AllAnswered(old(State()), State(), hits, notifier)
      decreases depth, 10
    {
      progress, hits := DispatchAll(depth);
      ghost var mid := State();
      var ran := RunTimers(depth);
      progress, timers := progress || ran, ran;
      AllHeardLater(old(State()), mid, State());
      MadeNone(mid, State());
      MadeTrans(old(State()), mid, State(), hits, []);
      AnsweredLater(old(State()), mid, State(), hits, [], notifier);
      assert hits + [] == hits;
    }

    /** timerlistgroup_run_timers: none is due, or the callbacks of those that are run. */
    method RunTimers(depth: nat) returns (ran: bool)
      requires Ok(State())
      modifies this
      ensures Later(old(State()), State()) && (!ran ==> State() == old(State()))
      decreases depth, 3
    {
      LaterSame(State());
      ran := *;
      if ran {
        RunOps(depth);
      }
    }

    method DispatchAll(depth: nat) returns (progress: bool, ghost hits: seq<Hit>)
      requires Ok(State())
      modifies this
      ensures Later(old(State()), State()) && AllQuiet(State())
      ensures AllHeard(old(State()), State())
      ensures (progress <==> Counts(hits)) && Made(old(State()), State(), hits)
      ensures AllAnswered(old(State()), State(), hits, notifier)
      decreases depth, 9
    {
      LaterSame(State());
      MadeNone(State(), State());
      progress, hits := false, [];
      var left: nat := |handlers|;
      while left > 0
        invariant left <= |old(handlers)| && left <= |handlers| && Later(old(State()), State())
        invariant QuietFrom(handlers, left + 1) && CountedFrom(old(State()), State(), left + 1)
        invariant HeardBelow(old(State()), State(), left + 1)
        invariant (progress <==> Counts(hits)) && Dispatched(old(State()), State(), left, hits, notifier)
      {
        ghost var mid, were := State(), hits;
        var p;
        ghost var more;
        p, more := DispatchNode(left, depth);
        DispatchedOne(old(State()), mid, State(), left);
        DispatchedHits(old(State()), mid, State(), left, were, more, notifier);
        CountsAppend(were, more);
        progress, hits := progress || p, hits + more;
        left := left - 1;
      }
    }

    /** The live handlers register with the poll; each remembers where. */
    method FillPollfds() returns (fds: seq<int>)
      requires Ok(State())
      modifies `handlers, `dead, `cancels
      ensures Later(old(State()), State()) && |handlers| == old(|handlers|)
      ensures forall k | 1 <= k <= |handlers| :: Registered(Last(handlers, k), fds)
    {
      LaterSame(State());
      fds := [];
      var k: nat := |handlers|;
      while k > 0
        invariant k <= |handlers| == old(|handlers|) && Later(old(State()), State())
        invariant forall j | k < j <= |handlers| :: Registered(Last(handlers, j), fds)
      {
        ghost var mid, were := State(), fds;
        fds := Register(k, fds);
        FilledOne(old(State()), mid, State(), k, were, fds);
        k := k - 1;
      }
    }

    method Register(k: nat, fds: seq<int>) returns (more: seq<int>)
      requires Ok(State()) && 1 <= k <= |handlers|
      modifies `handlers, `dead, `cancels
      ensures Later(old(State()), State()) && |handlers| == old(|handlers|) && fds <= more
      ensures Registered(Last(handlers, k), more)
      ensures forall j | k < j <= |handlers| :: Last(handlers, j) == Last(old(handlers), j)
    {
      var h := handlers[|handlers| - k];
      assert h == Last(handlers, k);
      if !h.deleted && Wanted(h) != NO_EVENTS {
        SetNode(k, h.(index := Some(|fds|)), 0);
        more := fds + [h.fd];
      } else {
        SetNode(k, h.(index := None), 0);
        more := fds;
      }
    }

    /** What the poll found goes to the handlers that registered. */
    method CopyBack(fds: seq<int>, revents: seq<Events>)
      requires Ok(State()) && |revents| == |fds|
      requires forall k | 1 <= k <= |handlers| :: Registered(Last(handlers, k), fds)
      modifies `handlers
      ensures Told(old(handlers), handlers, fds, revents)
    {
      var k: nat := |handlers|;
      while k > 0
        invariant k <= |handlers| == old(|handlers|)
        invariant forall j | 1 <= j <= k :: Last(handlers, j) == Last(old(handlers), j)
        invariant forall j | k < j <= |handlers| :: ToldOne(Last(old(handlers), j), Last(handlers, j), fds, revents)
      {
        ghost var was := handlers;
        var h := handlers[|handlers| - k];
        assert h == Last(handlers, k) && h == Last(old(handlers), k);
        if h.index.Some? {
          handlers := Put(handlers, k, h.(revents := revents[h.index.value]));
        }
        assert forall j | k < j <= |handlers| :: Last(handlers, j) == Last(was, j);
        k := k - 1;
      }
    }

    /** aio_poll */
    method AioPoll(blocking: bool, depth: nat) returns (progress: bool, ghost tally: Tally)
      requires Ok(State())
      modifies this
      ensures Later(old(State()), State()) && AllQuiet(State())
      ensures AllServed(old(State()), State()) && AllHeardOrGone(old(State()), State())
      ensures Made(old(State()), State(), AllHits(tally)) && AllPrompt(old(State()), State(), AllHits(tally))
      ensures AllAnswered(old(State()), State(), AllHits(tally), notifier)
      ensures Outcome(blocking, progress, tally, State(), notifier)
      decreases depth, 13
    {
      var wait;
      progress, wait, tally := PollReady(blocking, depth);
      if progress && !wait {
        assert AllHits(tally) == tally.bottom + tally.io;
        return;
      }
      ghost var s := State();
      var p;
      ghost var poll;
      p, poll := PollOnce(depth);
      progress := progress || p;
      PolledTally(old(State()), s, State(), tally, poll, notifier);
      tally := tally.(poll := Some(poll));
    }

    /** The bottom halves and what is reported already. */
    method PollReady(blocking: bool, depth: nat) returns (progress: bool, wait: bool, ghost tally: Tally)
      requires Ok(State())
      modifies this
      ensures Later(old(State()), State()) && AllQuiet(State()) && tally.poll.None?
      ensures AllServed(old(State()), State()) && AllHeardOrGone(old(State()), State())
      ensures Tallied(old(State()), State(), tally.bottom + tally.io, notifier)
      ensures (progress <==> Early(tally)) && (wait <==> blocking && !Counts(tally.bottom))
      decreases depth, 12
    {
      ghost var bottom, io, timers;
      progress, bottom := BhPoll(depth);
      wait := blocking && !progress;
      ghost var s := State();
      var p;
      p, io, timers := Dispatch(depth);
      progress, tally := progress || p, Tally(bottom, io, timers, None);
      AllServedLater(old(State()), s, State());
      HeardOrGone(old(State()), s, State());
      MadeTrans(old(State()), s, State(), bottom, io);
      PromptLater(old(State()), s, State(), bottom, io);
      AnsweredFrom(old(State()), s, State(), bottom, io, notifier);
    }

    /** The descriptors are polled and what was found is dispatched.  Nothing is overwritten, since
        everything reported before has been delivered. */
    method PollOnce(depth: nat) returns (progress: bool, ghost poll: Inquiry)
      requires Ok(State()) && AllQuiet(State())
      modifies this
      ensures Later(old(State()), State()) && AllQuiet(State())
      ensures Polled(poll, State(), notifier) && Made(old(State()), State(), poll.io)
      ensures progress <==> Late(poll)
      decreases depth, 11
    {
      var fds := FillPollfds();
      ghost var s := State();
      var revents: seq<Events> := *;
      if |revents| == |fds| {
        CopyBack(fds, revents);
        ToldOk(s, State(), fds, revents);
      }
      ghost var t, io, timers;
      t := State();
      progress, io, timers := Dispatch(depth);
      poll := Inquiry(s, t, fds, revents, io, timers);
      PolledLater(s, t, State());
      LaterTrans(old(State()), s, State());
      MadeNone(old(State()), s);
      MadeTrans(old(State()), s, State(), [], io);
      assert [] + io == io;
    }
  }

  /** A handler with an index has its descriptor there; only live handlers that wait for something have one. */
  predicate Registered(h: Handler, fds: seq<int>) {
    match h.index
    case Some(i) => i < |fds| && fds[i] == h.fd && !h.deleted
    case None => h.deleted || Wanted(h) == NO_EVENTS
  }

  lemma RegisteredMore(was: seq<Handler>, now: seq<Handler>, k: nat, fds: seq<int>, fds': seq<int>)
    requires 1 <= k <= |was| == |now| && fds <= fds' && forall j | k < j <= |was| :: Last(now, j) == Last(was, j)
    requires forall j | k < j <= |was| :: Registered(Last(was, j), fds)
    ensures forall j | k < j <= |now| :: Registered(Last(now, j), fds')
  {
    forall j | k < j <= |now| ensures Registered(Last(now, j), fds') {
      assert Registered(Last(was, j), fds);
    }
  }

  lemma FilledOne(s: Snap, mid: Snap, t: Snap, k: nat, fds: seq<int>, fds': seq<int>)
    requires Later(s, mid) && Later(mid, t) && fds <= fds'
    requires 1 <= k <= |mid.handlers| == |t.handlers|
    requires forall j | k < j <= |t.handlers| :: Last(t.handlers, j) == Last(mid.handlers, j)
    requires forall j | k < j <= |mid.handlers| :: Registered(Last(mid.handlers, j), fds)
    ensures Later(s, t)
    ensures forall j | k < j <= |t.handlers| :: Registered(Last(t.handlers, j), fds')
  {
    LaterTrans(s, mid, t);
    RegisteredMore(mid.handlers, t.handlers, k, fds, fds');
  }

  /** A registered handler has been told what was found of its own descriptor; nothing else changed. */
  predicate ToldOne(h: Handler, g: Handler, fds: seq<int>, revents: seq<Events>) {
    if h.index.Some? then
      h.index.value < |fds| == |revents| && fds[h.index.value] == h.fd && g == h.(revents := revents[h.index.value])
    else g == h
  }

  ghost predicate Told(was: seq<Handler>, now: seq<Handler>, fds: seq<int>, revents: seq<Events>) {
    |now| == |was| && forall k | 1 <= k <= |was| :: ToldOne(Last(was, k), Last(now, k), fds, revents)
  }

  lemma ToldOk(s: Snap, t: Snap, fds: seq<int>, revents: seq<Events>)
    requires Ok(s) && Told(s.handlers, t.handlers, fds, revents) && t == s.(handlers := t.handlers)
    ensures Ok(t) && Renewed(s, t)
  {
    forall k | 1 <= k <= |s.handlers|
      ensures Last(t.handlers, k).id == Last(s.handlers, k).id && Last(t.handlers, k).fd == Last(s.handlers, k).fd
           && Last(t.handlers, k).deleted == Last(s.handlers, k).deleted
    {
      assert ToldOne(Last(s.handlers, k), Last(t.handlers, k), fds, revents);
    }
    assert BhsOk(t) && HandlersOk(t);
  }

  /** Only what is reported of the handlers has changed. */
  ghost predicate Renewed(s: Snap, t: Snap) {
    && t == s.(handlers := t.handlers) && |t.handlers| == |s.handlers|
    && forall k | 1 <= k <= |s.handlers| ::
         Last(t.handlers, k).id == Last(s.handlers, k).id && Last(t.handlers, k).fd == Last(s.handlers, k).fd
  }

  /** From a state in which nothing was reported, through a poll, to one in which everything is
      delivered. */
  lemma PolledLater(s: Snap, t: Snap, u: Snap)
    requires Ok(s) && AllQuiet(s) && (t == s || Renewed(s, t)) && Later(t, u) && AllQuiet(u)
    ensures Later(s, u)
  {
    forall k | 1 <= k <= |s.bhs| ensures BhStays(Last(s.bhs, k), s, u) {
      assert BhStays(Last(t.bhs, k), t, u);
      if Last(s.bhs, k).id !in u.dead {
        var j :| 1 <= j <= |u.bhs| && NotMissed(Last(t.bhs, k), Last(u.bhs, j), t, u);
        assert NotMissed(Last(s.bhs, k), Last(u.bhs, j), s, u);
      }
    }
    forall k | 1 <= k <= |s.handlers| ensures HandlerStays(Last(s.handlers, k), s, u) {
      assert HandlerStays(Last(t.handlers, k), t, u);
      if Last(s.handlers, k).id !in u.dead {
        var j :| 1 <= j <= |u.handlers| && Heard(Last(t.handlers, k), Last(u.handlers, j), t, u);
        assert Heard(Last(s.handlers, k), Last(u.handlers, j), s, u);
      }
    }
    if s.walkingBh > 0 {
      forall k | 1 <= k <= |s.bhs| ensures NotMissed(Last(s.bhs, k), Last(u.bhs, k), s, u) {
        assert NotMissed(Last(t.bhs, k), Last(u.bhs, k), t, u);
      }
    }
    if s.walkingHandlers > 0 {
      forall k | 1 <= k <= |s.handlers| ensures Heard(Last(s.handlers, k), Last(u.handlers, k), s, u) {
        assert Heard(Last(t.handlers, k), Last(u.handlers, k), t, u);
      }
    }
  }

  lemma LastMembers(s: seq<Handler>)
    ensures forall h | h in s :: exists k :: 1 <= k <= |s| && Last(s, k) == h
  {
    forall h | h in s ensures exists k :: 1 <= k <= |s| && Last(s, k) == h {
      var i :| 0 <= i < |s| && s[i] == h;
      assert Last(s, |s| - i) == h;
    }
  }

  lemma PutMembers(s: seq<Handler>, k: nat, h: Handler)
    requires 1 <= k <= |s| && h.fd == Last(s, k).fd
    ensures h in Put(s, k, h)
    ensures forall g: Handler | g.fd != h.fd :: g in Put(s, k, h) <==> g in s
    ensures (forall j | 1 <= j <= |s| && j != k && Last(s, j).fd == h.fd :: Last(s, j).deleted) ==>
      forall g | g in Put(s, k, h) && g.fd == h.fd :: g == h || g.deleted
  {
    var t := Put(s, k, h);
    LastMembers(s);
    LastMembers(t);
    assert t[|s| - k] == h;
    forall g: Handler | g.fd != h.fd && g in s ensures g in t {
      var j :| 1 <= j <= |s| && Last(s, j) == g;
      assert t[|s| - j] == g;
    }
    forall g: Handler | g.fd != h.fd && g in t ensures g in s {
      var j :| 1 <= j <= |t| && Last(t, j) == g;
      assert s[|s| - j] == g;
    }
  }

  lemma WithoutMembers(s: seq<Handler>, k: nat)
    requires 1 <= k <= |s|
    ensures forall g: Handler | g.fd != Last(s, k).fd :: g in Without(s, k) <==> g in s
    ensures (forall j | 1 <= j <= |s| && j != k && Last(s, j).fd == Last(s, k).fd :: Last(s, j).deleted) ==>
      forall g | g in Without(s, k) && g.fd == Last(s, k).fd :: g.deleted
  {
    LastMembers(s);
    LastMembers(Without(s, k));
    forall j | 1 <= j < |s| ensures Last(Without(s, k), j) == Last(s, if j < k then j else j + 1) {
      LastWithout(s, k, j);
    }
  }

  /** The other handlers of a live handler's descriptor are deleted. */
  lemma OnlyLive(s: Snap, k: nat)
    requires HandlersOk(s) && 1 <= k <= |s.handlers| && !Last(s.handlers, k).deleted
    ensures forall j | 1 <= j <= |s.handlers| && j != k && Last(s.handlers, j).fd == Last(s.handlers, k).fd ::
              Last(s.handlers, j).deleted
  {
    forall j | 1 <= j <= |s.handlers| && j != k && Last(s.handlers, j).fd == Last(s.handlers, k).fd
      ensures Last(s.handlers, j).deleted
    {
      if j < k {
        assert Last(s.handlers, j).id != Last(s.handlers, k).id;
      } else {
        assert Last(s.handlers, k).id != Last(s.handlers, j).id;
      }
    }
  }

  /** Every handler that was ready has been called or changed. */
  ghost predicate AllHeard(s: Snap, t: Snap) {
    forall k | 1 <= k <= |s.handlers| && Ready(Last(s.handlers, k)) :: Counted(Last(s.handlers, k).id, s, t)
  }

  /** Every handler that was ready has been called, changed or deleted. */
  ghost predicate AllHeardOrGone(s: Snap, t: Snap) {
    forall k | 1 <= k <= |s.handlers| && Ready(Last(s.handlers, k)) ::
      Counted(Last(s.handlers, k).id, s, t) || Last(s.handlers, k).id in t.dead
  }

  lemma HeardOrGone(s: Snap, t: Snap, u: Snap)
    requires Later(s, t) && Later(t, u) && AllHeard(t, u)
    ensures AllHeardOrGone(s, u)
  {
    forall k | 1 <= k <= |s.handlers| && Ready(Last(s.handlers, k))
      ensures Counted(Last(s.handlers, k).id, s, u) || Last(s.handlers, k).id in u.dead
    {
      assert HandlerStays(Last(s.handlers, k), s, t);
      if Last(s.handlers, k).id !in t.dead {
        var j :| 1 <= j <= |t.handlers| && Heard(Last(s.handlers, k), Last(t.handlers, j), s, t);
        assert Ready(Last(t.handlers, j)) ==> Counted(Last(t.handlers, j).id, t, u);
      }
    }
  }

  /** A poll of the descriptors comes on top. */
  lemma PolledTally(s: Snap, t: Snap, u: Snap, tally: Tally, poll: Inquiry, notifier: int)
    requires Later(s, t) && Later(t, u) && AllServed(s, t) && AllHeardOrGone(s, t) && Made(t, u, poll.io)
    requires Tallied(s, t, tally.bottom + tally.io, notifier)
    ensures Later(s, u) && AllServed(s, u) && AllHeardOrGone(s, u)
    ensures Tallied(s, u, tally.bottom + tally.io + poll.io, notifier)
  {
    AllServedLater(s, t, u);
    MadeTrans(s, t, u, tally.bottom + tally.io, poll.io);
    PromptLater(s, t, u, tally.bottom + tally.io, poll.io);
    AnsweredLater(s, t, u, tally.bottom + tally.io, poll.io, notifier);
  }

  lemma AllHeardLater(s: Snap, t: Snap, u: Snap)
    requires Later(s, t) && AllHeard(s, t) && Later(t, u)
    ensures Later(s, u) && AllHeard(s, u)
  {
    LaterTrans(s, t, u);
  }

  lemma StillQuiet(s: Snap, t: Snap, k: nat)
    requires s.walkingHandlers > 0 && Later(s, t) && 1 <= k <= |s.handlers| && QuietFrom(s.handlers, k + 1)
    requires |s.handlers| <= |t.handlers| && Quiet(Last(t.handlers, k))
    ensures QuietFrom(t.handlers, k)
  {
    forall j | k < j <= |t.handlers| ensures Quiet(Last(t.handlers, j)) {
      assert j <= |s.handlers| ==> Heard(Last(s.handlers, j), Last(t.handlers, j), s, t);
    }
  }

  /** After the callback of a handler. */
  lemma CalledOver(s: Snap, t: Snap, u: Snap, k: nat, id: nat, counts: bool)
    requires Later(s, t) && Later(t, u) && s.walkingHandlers > 0 && 1 <= k <= |s.handlers|
    requires k <= |t.handlers| && Quiet(Last(t.handlers, k))
    requires id < |s.calls| == |t.calls| && t.calls[id] > s.calls[id]
    ensures Later(s, u) && k <= |u.handlers| && Quiet(Last(u.handlers, k)) && Counted(id, s, u)
    ensures Made(s, u, [Hit(id, counts)])
  {
    LaterTrans(s, t, u);
    OneMade(s, t, u, id, counts);
    assert Heard(Last(t.handlers, k), Last(u.handlers, k), t, u);
  }

  /** The end of one step of the walk of the handlers. */
  lemma NodeOver(s: Snap, t: Snap, k: nat)
    requires Ok(s) && Later(s.(walkingHandlers := s.walkingHandlers + 1), t) && 1 <= k <= |s.handlers|
    requires QuietFrom(s.handlers, k + 1) && |s.handlers| <= |t.handlers| && Quiet(Last(t.handlers, k))
    ensures Later(s, t.(walkingHandlers := s.walkingHandlers))
    ensures QuietFrom(t.handlers, k) && HeardBelow(s, t.(walkingHandlers := s.walkingHandlers), k)
  {
    var s1 := s.(walkingHandlers := s.walkingHandlers + 1);
    HandlerWalkOver(s, t);
    StillQuiet(s1, t, k);
    var t1 := t.(walkingHandlers := s.walkingHandlers);
    forall j | 1 <= j < k ensures Heard(Last(s.handlers, j), Last(t1.handlers, j), s, t1) {
      assert Heard(Last(s1.handlers, j), Last(t.handlers, j), s1, t);
    }
  }

  lemma RemovedQuiet(s: Snap, t: Snap, u: Snap, k: nat)
    requires 1 <= k <= |t.handlers| && k <= |s.handlers|
    requires u.handlers == Without(t.handlers, k) && u.calls == t.calls && u.cancels == t.cancels
    requires QuietFrom(t.handlers, k) && HeardBelow(s, t, k)
    ensures QuietFrom(u.handlers, k) && HeardBelow(s, u, k)
  {
    forall j | 1 <= j <= |u.handlers| ensures Last(u.handlers, j) == Last(t.handlers, if j < k then j else j + 1) {
      LastWithout(t.handlers, k, j);
    }
    forall j | 1 <= j < k ensures Heard(Last(s.handlers, j), Last(u.handlers, j), s, u) {
      assert Heard(Last(s.handlers, j), Last(t.handlers, j), s, t);
    }
  }

  /** The walk of the handlers has done one more. */
  lemma DispatchedOne(s: Snap, mid: Snap, t: Snap, left: nat)
    requires Later(s, mid) && Later(mid, t) && 1 <= left <= |s.handlers| && left <= |mid.handlers|
    requires CountedFrom(s, mid, left + 1) && HeardBelow(s, mid, left + 1) && HeardBelow(mid, t, left)
    requires Ready(Last(mid.handlers, left)) ==> Counted(Last(mid.handlers, left).id, mid, t)
    ensures Later(s, t) && CountedFrom(s, t, left) && HeardBelow(s, t, left)
  {
    LaterTrans(s, mid, t);
    assert Heard(Last(s.handlers, left), Last(mid.handlers, left), s, mid);
    forall j | 1 <= j < left ensures Heard(Last(s.handlers, j), Last(t.handlers, j), s, t) {
      assert Heard(Last(s.handlers, j), Last(mid.handlers, j), s, mid)
          && Heard(Last(mid.handlers, j), Last(t.handlers, j), mid, t);
    }
  }

  lemma OneMade(s: Snap, t: Snap, u: Snap, id: nat, counts: bool)
    requires id < |s.calls| == |t.calls| && t.calls[id] > s.calls[id] && CountsGrow(s, t) && CountsGrow(t, u)
    ensures Made(s, u, [Hit(id, counts)])
  {
    forall x | 0 <= x < |s.calls| ensures s.calls[x] + HitsOf([Hit(id, counts)], x) <= u.calls[x] {
      assert HitsOf([Hit(id, counts)], x) == Bit(x == id);
    }
  }

  /** Hits depend on the counts and the first state's lists only. */
  lemma AlikeHits(s: Snap, s': Snap, t: Snap, t': Snap, hits: seq<Hit>)
    requires Alike(s, s') && t'.calls == t.calls && t'.cancels == t.cancels
    ensures Made(s, t, hits) ==> Made(s', t', hits)
    ensures AllPrompt(s, t, hits) ==> AllPrompt(s', t', hits)
    ensures Spares(s, hits) ==> Spares(s', hits)
  {
    if AllPrompt(s, t, hits) {
      forall k | 1 <= k <= |s'.bhs| ensures Prompt(Last(s'.bhs, k), s', t', hits) {
        assert Prompt(Last(s.bhs, k), s, t, hits);
      }
    }
    if Spares(s, hits) {
      forall k | 1 <= k <= |s'.handlers| ensures HitsOf(hits, Last(s'.handlers, k).id) == 0 {
        assert HitsOf(hits, Last(s.handlers, k).id) == 0;
      }
    }
  }

  /** A walk of the bottom halves has come to the place `left`. */
  ghost predicate Walked(s: Snap, t: Snap, left: nat, hits: seq<Hit>) {
    && left <= |s.bhs| && Made(s, t, hits) && Spares(s, hits)
    && (forall k | left < k <= |s.bhs| :: Prompt(Last(s.bhs, k), s, t, hits))
    && (forall k | 1 <= k <= left :: HitsOf(hits, Last(s.bhs, k).id) == 0)
  }

  lemma WalkedHits(s: Snap, mid: Snap, t: Snap, left: nat, hits: seq<Hit>, more: seq<Hit>)
    requires s.walkingBh > 0 && Later(s, mid) && Later(mid, t) && 1 <= left <= |s.bhs| <= |mid.bhs|
    requires Walked(s, mid, left, hits) && Made(mid, t, more)
    requires var e := Last(mid.bhs, left); more == if Due(e) then [Hit(e.id, !e.idle)] else []
    ensures Walked(s, t, left - 1, hits + more)
  {
    var e := Last(s.bhs, left);
    assert NotMissed(e, Last(mid.bhs, left), s, mid);
    MadeTrans(s, mid, t, hits, more);
    CountsAppend(hits, more);
    forall id ensures HitsOf(more, id) == Bit(more != [] && id == e.id) {
      if more != [] {
        assert more[1..] == [];
      }
    }
    forall k | 1 <= k <= |s.handlers| ensures HitsOf(hits + more, Last(s.handlers, k).id) == 0 {
      HitsAppend(hits, more, Last(s.handlers, k).id);
      assert Last(s.bhs, left).id != Last(s.handlers, k).id;
    }
    forall k | 1 <= k < left ensures HitsOf(hits + more, Last(s.bhs, k).id) == 0 {
      HitsAppend(hits, more, Last(s.bhs, k).id);
      assert Last(s.bhs, k).id != Last(s.bhs, left).id;
    }
    forall k | left < k <= |s.bhs| ensures Prompt(Last(s.bhs, k), s, t, hits + more) {
      assert Prompt(Last(s.bhs, k), s, mid, hits);
      if Elsewhere(Last(s.bhs, k).id, s, mid, hits) {
        ElsewhereLater(Last(s.bhs, k).id, s, mid, t, hits, more);
      }
    }
    PromptNow(s, mid, t, left, hits, more);
  }

  lemma PromptNow(s: Snap, mid: Snap, t: Snap, left: nat, hits: seq<Hit>, more: seq<Hit>)
    requires s.walkingBh > 0 && Later(s, mid) && Later(mid, t) && 1 <= left <= |s.bhs| <= |mid.bhs|
    requires HitsOf(hits, Last(s.bhs, left).id) == 0 && Made(mid, t, more)
    requires var e := Last(mid.bhs, left); more == if Due(e) then [Hit(e.id, !e.idle)] else []
    ensures Prompt(Last(s.bhs, left), s, t, hits + more)
  {
    var e := Last(s.bhs, left);
    assert NotMissed(e, Last(mid.bhs, left), s, mid);
    if Due(e) && !e.idle {
      if Counted(e.id, s, mid) {
        assert Elsewhere(e.id, s, mid, hits);
        ElsewhereLater(e.id, s, mid, t, hits, more);
      } else {
        assert (hits + more)[|hits|].counts;
      }
    }
  }

  /** The walk of the bottom halves has done one more. */
  lemma WalkedOne(s: Snap, mid: Snap, t: Snap, left: nat)
    requires s.walkingBh > 0 && Later(s, mid) && Later(mid, t) && 1 <= left <= |s.bhs|
    requires forall k | left < k <= |s.bhs| :: Served(Last(s.bhs, k), s, mid)
    requires |s.bhs| <= |mid.bhs| && Served(Last(mid.bhs, left), mid, t)
    ensures Later(s, t)
    ensures forall k | left - 1 < k <= |s.bhs| :: Served(Last(s.bhs, k), s, t)
  {
    LaterTrans(s, mid, t);
    forall k | left < k <= |s.bhs| ensures Served(Last(s.bhs, k), s, t) {
      ServedLater(Last(s.bhs, k), s, mid, t);
    }
    assert NotMissed(Last(s.bhs, left), Last(mid.bhs, left), s, mid);
  }
}
