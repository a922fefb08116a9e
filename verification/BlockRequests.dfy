/**
 The block layer's tracked requests (block.c): byte-granular writes are padded to
 the device alignment with a read-modify-write cycle, and overlapping requests are
 kept apart only by the tracked-request list, the widened overlap windows and the
 `waiting_for` rule.

 The protocol is a step machine.  A step is what one coroutine does between two
 points where it can yield; the driver is an atomic byte store that reads as zero
 past its end.
 */
module BlockRequests {
  import opened Common

  // ---------------------------------------------------------------- the disk

  function ByteAt(disk: seq<Byte>, i: nat): Byte {
    if i < |disk| then disk[i] else 0 as Byte
  }

  function Load(disk: seq<Byte>, offset: nat, n: nat): seq<Byte> {
    seq(n, i requires 0 <= i < n => ByteAt(disk, offset + i))
  }

  function Store(disk: seq<Byte>, offset: nat, p: seq<Byte>): seq<Byte> {
    seq(Max(|disk|, offset + |p|),
        i requires 0 <= i < Max(|disk|, offset + |p|) =>
          if offset <= i < offset + |p| then p[i - offset] else ByteAt(disk, i))
  }

  /** Two disks that no read can tell apart. */
  ghost predicate Same(d: seq<Byte>, e: seq<Byte>) {
    forall i: nat :: ByteAt(d, i) == ByteAt(e, i)
  }

  lemma StoreAt(disk: seq<Byte>, offset: nat, p: seq<Byte>, i: nat)
    ensures ByteAt(Store(disk, offset, p), i)
         == if offset <= i < offset + |p| then p[i - offset] else ByteAt(disk, i)
  {}

  lemma LoadAt(disk: seq<Byte>, offset: nat, n: nat, k: nat)
    requires k < n
    ensures |Load(disk, offset, n)| == n && Load(disk, offset, n)[k] == ByteAt(disk, offset + k)
  {}

  // ---------------------------------------------------------------- requests

  /** Where a coroutine stands: suspended in its first wait, about to read the head
      block, about to read the tail block, about to do the aligned transfer, or
      about to leave the tracked list. */
  datatype Phase = Blocked | Head | Tail | Access | Done

  /** BdrvTrackedRequest together with the coroutine's locals.  `woken` tells that the
      request it waits for has ended and restarted its wait queue. */
  datatype Request = Request(
    id: nat, isWrite: bool, offset: nat, bytes: nat, data: seq<Byte>,
    serialising: bool, ovOffset: nat, ovBytes: nat,
    waitingFor: Option<nat>, woken: bool, phase: Phase,
    headBuf: seq<Byte>, tailBuf: seq<Byte>)
  {
    function End(): nat { offset + bytes }
    function OvEnd(): nat { ovOffset + ovBytes }
    predicate Active() { !phase.Blocked? }
  }

  datatype State = State(
    align: nat, cluster: nat, disk: seq<Byte>, reqs: seq<Request>, inFlight: nat)

  /** tracked_request_begin: the window is the request itself. */
  function NewRequest(id: nat, isWrite: bool, offset: nat, bytes: nat, data: seq<Byte>): Request {
    Request(id, isWrite, offset, bytes, data, false, offset, bytes, None, false, Blocked, [], [])
  }

  /** mark_request_serialising */
  function Mark(r: Request, align: nat): Request
    requires align > 0
  {
    var lo := AlignDown(r.offset, align);
    var len := RoundUp(r.End(), align) - lo;
    r.(serialising := true,
       ovOffset := Min(r.ovOffset, lo),
       ovBytes := Max(r.ovBytes, len))
  }

  /** tracked_request_overlaps */
  predicate Overlaps(q: Request, offset: nat, bytes: nat) {
    !(offset >= q.ovOffset + q.ovBytes) && !(q.ovOffset >= offset + bytes)
  }

  /** The pair of requests for which the scan in wait_serialising_requests stops. */
  predicate Conflict(self: Request, q: Request) {
    && q.id != self.id
    && (q.serialising || self.serialising)
    && Overlaps(q, self.ovOffset, self.ovBytes)
  }

  /** The first request of the list that `self` has to wait for. */
  function FirstBlocker(reqs: seq<Request>, self: Request): Option<nat> {
    if reqs == [] then None
    else if Conflict(self, reqs[0]) && reqs[0].waitingFor.None? then Some(reqs[0].id)
    else FirstBlocker(reqs[1..], self)
  }

  predicate NeedsHead(r: Request, align: nat) requires align > 0 {
    r.isWrite && r.offset % align != 0
  }

  predicate NeedsTail(r: Request, align: nat) requires align > 0 {
    r.isWrite && r.End() % align != 0
  }

  function FirstPhase(r: Request, align: nat): Phase requires align > 0 {
    if NeedsHead(r, align) then Head else if NeedsTail(r, align) then Tail else Access
  }

  function PadStart(r: Request, align: nat): nat requires align > 0 { AlignDown(r.offset, align) }

  function PadEnd(r: Request, align: nat): nat requires align > 0 { RoundUp(r.End(), align) }

  /** local_qiov: the bytes handed to the driver, spliced from the two buffers. */
  function Payload(r: Request, align: nat): seq<Byte>
    requires align > 0
    requires NeedsHead(r, align) ==> |r.headBuf| == align
    requires NeedsTail(r, align) ==> |r.tailBuf| == align
  {
    (if NeedsHead(r, align) then r.headBuf[..r.offset % align] else [])
    + r.data
    + (if NeedsTail(r, align) then r.tailBuf[r.End() % align..] else [])
  }

  // ---------------------------------------------------------------- steps

  datatype Step =
    | BeginWrite(id: nat, offset: nat, data: seq<Byte>)
    | BeginRead(id: nat, offset: nat, bytes: nat, copyOnRead: bool)
    | Resume(i: nat)
    | ReadHead(i: nat, ok: bool)
    | ReadTail(i: nat, ok: bool)
    | Transfer(i: nat, ok: bool)
    | Finish(i: nat)

  predicate Enabled(s: State, step: Step) {
    match step
    case BeginWrite(id, _, _) => forall q <- s.reqs :: q.id != id
    case BeginRead(id, _, _, _) => forall q <- s.reqs :: q.id != id
    case Resume(i) => i < |s.reqs| && s.reqs[i].phase.Blocked? && s.reqs[i].woken
    case ReadHead(i, _) => i < |s.reqs| && s.reqs[i].phase.Head?
    case ReadTail(i, _) => i < |s.reqs| && s.reqs[i].phase.Tail?
    case Transfer(i, _) => i < |s.reqs| && s.reqs[i].phase.Access?
    case Finish(i) => i < |s.reqs| && s.reqs[i].phase.Done?
  }

  /** The scan: go on, or queue up behind the first blocker. */
  function Wait(reqs: seq<Request>, self: Request, align: nat): Request
    requires align > 0
  {
    match FirstBlocker(reqs, self)
    case None => self.(waitingFor := None, woken := false, phase := FirstPhase(self, align))
    case Some(q) => self.(waitingFor := Some(q), woken := false, phase := Blocked)
  }

  /** Align a read by padding it, then begin; a copy-on-read request is serialising
      over whole clusters. */
  function ReadRequest(s: State, id: nat, offset: nat, bytes: nat, copyOnRead: bool): Request
    requires s.align > 0 && s.cluster > 0
  {
    var lo := AlignDown(offset, s.align);
    var r := NewRequest(id, false, lo, RoundUp(offset + bytes, s.align) - lo, []);
    if copyOnRead then Mark(r, s.cluster) else r
  }

  function WriteRequest(s: State, id: nat, offset: nat, data: seq<Byte>): Request
    requires s.align > 0
  {
    var r := NewRequest(id, true, offset, |data|, data);
    if NeedsHead(r, s.align) || NeedsTail(r, s.align) then Mark(r, s.align) else r
  }

  function Admit(s: State, r: Request): State
    requires s.align > 0
  {
    s.(reqs := [Wait([r] + s.reqs, r, s.align)] + s.reqs,
       inFlight := s.inFlight + if r.serialising then 1 else 0)
  }

  function Wake(reqs: seq<Request>, id: nat): (res: seq<Request>)
    ensures |res| == |reqs|
    ensures forall j | 0 <= j < |reqs| ::
              res[j] == if reqs[j].waitingFor == Some(id) then reqs[j].(woken := true) else reqs[j]
  {
    seq(|reqs|, j requires 0 <= j < |reqs| =>
      if reqs[j].waitingFor == Some(id) then reqs[j].(woken := true) else reqs[j])
  }

  function Without(reqs: seq<Request>, i: nat): seq<Request>
    requires i < |reqs|
  {
    reqs[..i] + reqs[i + 1..]
  }

  ghost predicate BuffersReady(s: State, r: Request)
    requires s.align > 0
  {
    && (NeedsHead(r, s.align) ==> |r.headBuf| == s.align)
    && (NeedsTail(r, s.align) ==> |r.tailBuf| == s.align)
  }

  ghost function Apply(s: State, step: Step): State
    requires s.align > 0 && s.cluster > 0
    requires Enabled(s, step)
    requires step.Transfer? ==> BuffersReady(s, s.reqs[step.i])
    requires step.Finish? && s.reqs[step.i].serialising ==> s.inFlight > 0
  {
    match step
    case BeginWrite(id, offset, data) => Admit(s, WriteRequest(s, id, offset, data))
    case BeginRead(id, offset, bytes, cor) => Admit(s, ReadRequest(s, id, offset, bytes, cor))
    case Resume(i) => s.(reqs := s.reqs[i := Wait(s.reqs, s.reqs[i], s.align)])
    case ReadHead(i, ok) =>
      var r := s.reqs[i];
      s.(reqs := s.reqs[i :=
        if !ok then r.(phase := Done)
        else r.(headBuf := Load(s.disk, PadStart(r, s.align), s.align),
                phase := if NeedsTail(r, s.align) then Tail else Access)])
    case ReadTail(i, ok) =>
      var r := s.reqs[i];
      s.(reqs := s.reqs[i :=
        if !ok then r.(phase := Done)
        else r.(tailBuf := Load(s.disk, AlignDown(r.End(), s.align), s.align), phase := Access)])
    case Transfer(i, ok) =>
      var r := s.reqs[i];
      s.(reqs := s.reqs[i := r.(phase := Done)],
         disk := if r.isWrite && ok then Store(s.disk, PadStart(r, s.align), Payload(r, s.align))
                 else s.disk)
    case Finish(i) =>
      var r := s.reqs[i];
      s.(reqs := Wake(Without(s.reqs, i), r.id),
         inFlight := s.inFlight - if r.serialising then 1 else 0)
  }

  // ---------------------------------------------------------------- invariant

  function Serialising(reqs: seq<Request>): nat {
    if reqs == [] then 0
    else (if reqs[0].serialising then 1 else 0) + Serialising(reqs[1..])
  }

  /** The window covers what the request touches, and padding needs serialisation. */
  ghost predicate Window(r: Request, align: nat)
    requires align > 0
  {
    && r.ovOffset <= PadStart(r, align)
    && PadEnd(r, align) <= r.OvEnd()
    && (NeedsHead(r, align) || NeedsTail(r, align) ==> r.serialising)
    && (r.isWrite ==> |r.data| == r.bytes)
  }

  /** What has been read of the padding still is what the disk holds. */
  ghost predicate Fresh(align: nat, disk: seq<Byte>, r: Request)
    requires align > 0
  {
    && (r.phase.Head? ==> NeedsHead(r, align))
    && (r.phase.Tail? ==> NeedsTail(r, align))
    && ((r.phase.Tail? || r.phase.Access?) && NeedsHead(r, align) ==>
          r.headBuf == Load(disk, PadStart(r, align), align))
    && (r.phase.Access? && NeedsTail(r, align) ==>
          r.tailBuf == Load(disk, AlignDown(r.End(), align), align))
  }

  ghost predicate Sound(align: nat, disk: seq<Byte>, reqs: seq<Request>)
    requires align > 0
  {
    forall i | 0 <= i < |reqs| :: Window(reqs[i], align) && Fresh(align, disk, reqs[i])
  }

  ghost predicate Distinct(reqs: seq<Request>) {
    forall i, j | 0 <= i < j < |reqs| :: reqs[i].id != reqs[j].id
  }

  /** No two requests past their first wait overlap if one of them is serialising. */
  ghost predicate Exclusive(reqs: seq<Request>) {
    forall i, j | 0 <= i < |reqs| && 0 <= j < |reqs| && reqs[i].Active() && reqs[j].Active() ::
      !Conflict(reqs[i], reqs[j])
  }

  /** Waiting chains have length one: who is waited for is not itself waiting. */
  ghost predicate HasActive(reqs: seq<Request>, id: nat) {
    exists j :: 0 <= j < |reqs| && reqs[j].id == id && reqs[j].Active()
  }

  ghost predicate Chains(reqs: seq<Request>) {
    forall i | 0 <= i < |reqs| ::
      && (reqs[i].waitingFor.Some? <==> reqs[i].phase.Blocked?)
      && (reqs[i].phase.Blocked? && !reqs[i].woken ==> HasActive(reqs, reqs[i].waitingFor.value))
  }

  ghost predicate Inv(s: State) {
    && s.align > 0 && s.cluster > 0
    && Distinct(s.reqs)
    && s.inFlight == Serialising(s.reqs)
    && Exclusive(s.reqs)
    && Chains(s.reqs)
    && Sound(s.align, s.disk, s.reqs)
  }

  /** Ranges that are not empty overlap exactly if they share a byte. */
  lemma OverlapsMeans(q: Request, offset: nat, bytes: nat)
    requires q.ovBytes > 0 && bytes > 0
    ensures Overlaps(q, offset, bytes) <==>
      exists x: nat :: InRange(x, q.ovOffset, q.ovBytes) && InRange(x, offset, bytes)
  {
    if Overlaps(q, offset, bytes) {
      var x := Max(q.ovOffset, offset);
      assert InRange(x, q.ovOffset, q.ovBytes) && InRange(x, offset, bytes);
    }
  }

  predicate InRange(x: nat, offset: nat, bytes: nat) {
    offset <= x < offset + bytes
  }

  // ---------------------------------------------------------------- the scan

  lemma {:induction false} BlockerNone(reqs: seq<Request>, self: Request)
    ensures FirstBlocker(reqs, self).None? <==>
            forall i | 0 <= i < |reqs| :: Conflict(self, reqs[i]) ==> reqs[i].waitingFor.Some?
  {
    if reqs != [] {
      BlockerNone(reqs[1..], self);
      assert forall i | 0 <= i < |reqs[1..]| :: reqs[1..][i] == reqs[i + 1];
      assert forall i | 0 < i < |reqs| :: reqs[i] == reqs[1..][i - 1];
    }
  }

  lemma {:induction false} BlockerSome(reqs: seq<Request>, self: Request)
    ensures FirstBlocker(reqs, self).Some? ==>
            exists i :: 0 <= i < |reqs| && reqs[i].id == FirstBlocker(reqs, self).value
                     && Conflict(self, reqs[i]) && reqs[i].waitingFor.None?
  {
    if reqs != [] && !(Conflict(self, reqs[0]) && reqs[0].waitingFor.None?) {
      BlockerSome(reqs[1..], self);
      if FirstBlocker(reqs[1..], self).Some? {
        var i :| 0 <= i < |reqs[1..]| && reqs[1..][i].id == FirstBlocker(reqs, self).value
              && Conflict(self, reqs[1..][i]) && reqs[1..][i].waitingFor.None?;
        assert reqs[i + 1] == reqs[1..][i];
      }
    }
  }

  /** A request past its first wait is never stopped again: the assertions at the
      second and later calls of wait_serialising_requests hold. */
  lemma NoSecondWait(s: State, i: nat)
    requires Inv(s) && i < |s.reqs| && s.reqs[i].Active()
    ensures FirstBlocker(s.reqs, s.reqs[i]) == None
  {
    BlockerNone(s.reqs, s.reqs[i]);
  }

  /** When no tracked request is serialising a full scan finds nobody to wait for. */
  lemma {:induction false} EarlyExit(reqs: seq<Request>, self: Request)
    requires Serialising(reqs) == 0 && !self.serialising
    ensures FirstBlocker(reqs, self) == None
  {
    if reqs != [] {
      EarlyExit(reqs[1..], self);
    }
  }

  lemma {:induction false} SerialisingSplit(a: seq<Request>, b: seq<Request>)
    ensures Serialising(a + b) == Serialising(a) + Serialising(b)
  {
    if a == [] {
      assert a + b == b;
    } else {
      SerialisingSplit(a[1..], b);
      assert (a + b)[1..] == a[1..] + b;
    }
  }

  lemma {:induction false} SerialisingAt(reqs: seq<Request>, i: nat)
    requires i < |reqs|
    ensures Serialising(reqs) == Serialising(Without(reqs, i)) + if reqs[i].serialising then 1 else 0
  {
    if i == 0 {
      assert Without(reqs, 0) == reqs[1..];
    } else {
      SerialisingAt(reqs[1..], i - 1);
      WithoutStep(reqs, i);
    }
  }

  lemma WithoutStep(reqs: seq<Request>, i: nat)
    requires 0 < i < |reqs|
    ensures Without(reqs, i) != [] && Without(reqs, i)[0] == reqs[0]
    ensures Without(reqs, i)[1..] == Without(reqs[1..], i - 1)
  {}

  lemma SerialisingUpdate(reqs: seq<Request>, i: nat, r: Request)
    requires i < |reqs| && r.serialising == reqs[i].serialising
    ensures Serialising(reqs[i := r]) == Serialising(reqs)
  {
    SerialisingAt(reqs, i);
    SerialisingAt(reqs[i := r], i);
    assert Without(reqs[i := r], i) == Without(reqs, i);
  }

  lemma {:induction false} SerialisingWake(reqs: seq<Request>, id: nat)
    ensures Serialising(Wake(reqs, id)) == Serialising(reqs)
  {
    if reqs != [] {
      SerialisingWake(reqs[1..], id);
      assert Wake(reqs, id)[1..] == Wake(reqs[1..], id);
    }
  }

  // ---------------------------------------------------------------- padding arithmetic

  lemma AlignMono(x: nat, y: nat, a: nat)
    requires a > 0 && x <= y
    ensures AlignDown(x, a) <= AlignDown(y, a)
  {
    DivMod(x, a);
    DivMod(y, a);
    MulGe(x / a - y / a, a);
    assert (x / a - y / a) * a == (x / a) * a - (y / a) * a;
  }

  /** The head block and the tail block lie inside the padded range. */
  lemma PadBlocks(r: Request, align: nat)
    requires align > 0
    ensures PadStart(r, align) <= AlignDown(r.End(), align)
    ensures r.End() % align != 0 ==> AlignDown(r.End(), align) + align == PadEnd(r, align)
    ensures r.offset % align != 0 ==> PadStart(r, align) + align <= PadEnd(r, align)
  {
    AlignMono(r.offset, r.End(), align);
    if r.offset % align != 0 && r.End() % align == 0 {
      assert AlignDown(r.End(), align) == r.End();
      NextMultiple(PadStart(r, align), r.End(), align);
    }
  }

  lemma NextMultiple(x: nat, y: nat, a: nat)
    requires a > 0 && x % a == 0 && y % a == 0 && x < y
    ensures x + a <= y
  {
    DivMod(x, a);
    DivMod(y, a);
    assert (y / a - x / a) * a == y - x;
    MulGe(y / a - x / a, a);
    MulGe(x / a - y / a, a);
    assert (x / a - y / a) * a == x - y;
  }

  lemma PayloadLength(r: Request, align: nat)
    requires align > 0 && Window(r, align) && r.isWrite
    requires NeedsHead(r, align) ==> |r.headBuf| == align
    requires NeedsTail(r, align) ==> |r.tailBuf| == align
    ensures |Payload(r, align)| == PadEnd(r, align) - PadStart(r, align)
  {}

  /** Splicing the caller's bytes between what the disk holds anyway. */
  lemma SplicedAt(align: nat, disk: seq<Byte>, r: Request, x: nat)
    requires align > 0 && Window(r, align) && Fresh(align, disk, r) && r.phase.Access? && r.isWrite
    ensures ByteAt(Store(disk, PadStart(r, align), Payload(r, align)), x) ==
            if r.offset <= x < r.End() then r.data[x - r.offset] else ByteAt(disk, x)
  {
    PayloadLength(r, align);
    StoreAt(disk, PadStart(r, align), Payload(r, align), x);
    var i := x - PadStart(r, align);
    if 0 <= i < |Payload(r, align)| {
      if x < r.offset {
        assert Payload(r, align)[i] == r.headBuf[i];
      } else if x < r.End() {
        assert Payload(r, align)[i] == r.data[x - r.offset];
      } else {
        assert Payload(r, align)[i] == r.tailBuf[x - AlignDown(r.End(), align)];
      }
    }
  }

  /** The driver write of a padded request puts exactly the caller's bytes on the
      disk: the padding written back is what the disk holds anyway. */
  lemma WriteExact(s: State, i: nat, x: nat)
    requires Inv(s) && i < |s.reqs| && s.reqs[i].phase.Access? && s.reqs[i].isWrite
    ensures BuffersReady(s, s.reqs[i])
    ensures ByteAt(Apply(s, Transfer(i, true)).disk, x) ==
            var r := s.reqs[i];
            if r.offset <= x < r.End() then r.data[x - r.offset] else ByteAt(s.disk, x)
  {
    var r := s.reqs[i];
    assert Fresh(s.align, s.disk, r) && Window(r, s.align);
    SplicedAt(s.align, s.disk, r, x);
  }

  // ---------------------------------------------------------------- every step keeps the invariant

  ghost predicate Ready(s: State, step: Step) {
    && s.align > 0 && s.cluster > 0
    && Enabled(s, step)
    && (step.Transfer? ==> BuffersReady(s, s.reqs[step.i]))
    && (step.Finish? && s.reqs[step.i].serialising ==> s.inFlight > 0)
  }

  lemma EnabledIsReady(s: State, step: Step)
    requires Inv(s) && Enabled(s, step)
    ensures Ready(s, step)
  {
    if step.Transfer? {
      assert Fresh(s.align, s.disk, s.reqs[step.i]);
    } else if step.Finish? {
      SerialisingAt(s.reqs, step.i);
    }
  }

  lemma MarkWindow(r: Request, a: nat, align: nat)
    requires a > 0 && align > 0 && r.ovOffset == r.offset && r.ovBytes == r.bytes
    requires a == align || (r.offset % align == 0 && r.End() % align == 0)
    requires r.isWrite ==> |r.data| == r.bytes
    ensures Window(Mark(r, a), align)
  {}

  /** What the scan promises: the request either waits for an active request it
      conflicts with, or conflicts with no active request. */
  lemma WaitOutcome(reqs: seq<Request>, self: Request, align: nat)
    requires align > 0 && Chains(reqs)
    ensures var w := Wait(reqs, self, align);
      && w == self.(waitingFor := w.waitingFor, woken := false, phase := w.phase)
      && (w.phase.Blocked? <==> w.waitingFor.Some?)
      && (w.phase.Blocked? ==> exists k :: 0 <= k < |reqs| && reqs[k].id == w.waitingFor.value
                                        && Conflict(self, reqs[k]) && reqs[k].Active())
      && (w.Active() ==> forall k | 0 <= k < |reqs| && reqs[k].Active() :: !Conflict(self, reqs[k]))
  {
    BlockerNone(reqs, self);
    BlockerSome(reqs, self);
  }

  predicate SameWindow(a: Request, b: Request) {
    a.id == b.id && a.serialising == b.serialising && a.ovOffset == b.ovOffset && a.ovBytes == b.ovBytes
  }

  lemma ConflictSymmetric(a: Request, b: Request, a': Request)
    requires SameWindow(a, a')
    ensures Conflict(a, b) == Conflict(b, a) == Conflict(a', b) == Conflict(b, a')
  {}

  lemma WaitSound(align: nat, disk: seq<Byte>, reqs: seq<Request>, self: Request)
    requires align > 0 && Window(self, align)
    ensures var w := Wait(reqs, self, align); Window(w, align) && Fresh(align, disk, w)
  {}

  lemma WokenSound(align: nat, disk: seq<Byte>, r: Request)
    requires align > 0 && Window(r, align) && Fresh(align, disk, r)
    ensures Window(r.(woken := true), align) && Fresh(align, disk, r.(woken := true))
  {}

  /** Admitting a request at the head of the list. */
  lemma PushExclusive(reqs: seq<Request>, r: Request, w: Request)
    requires Exclusive(reqs)
    requires SameWindow(r, w)
    requires w.Active() ==> forall k | 0 <= k < |reqs| && reqs[k].Active() :: !Conflict(r, reqs[k])
    ensures Exclusive([w] + reqs)
  {
    var t := [w] + reqs;
    forall i, j | 0 <= i < |t| && 0 <= j < |t| && t[i].Active() && t[j].Active()
      ensures !Conflict(t[i], t[j])
    {
      if i == 0 && j > 0 { ConflictSymmetric(r, reqs[j - 1], w); }
      if j == 0 && i > 0 { ConflictSymmetric(r, reqs[i - 1], w); }
    }
  }

  lemma PushChains(reqs: seq<Request>, w: Request)
    requires Chains(reqs)
    requires w.phase.Blocked? <==> w.waitingFor.Some?
    requires w.phase.Blocked? && !w.woken ==> HasActive(reqs, w.waitingFor.value)
    ensures Chains([w] + reqs)
  {
    var t := [w] + reqs;
    forall j | 0 <= j < |t|
      ensures t[j].phase.Blocked? && !t[j].woken ==> HasActive(t, t[j].waitingFor.value)
    {
      if t[j].phase.Blocked? && !t[j].woken {
        var id := t[j].waitingFor.value;
        assert HasActive(reqs, id) by { if j > 0 { assert t[j] == reqs[j - 1]; } }
        var k :| 0 <= k < |reqs| && reqs[k].id == id && reqs[k].Active();
        assert t[k + 1] == reqs[k];
      }
    }
  }

  lemma AdmitInv(s: State, r: Request)
    requires Inv(s) && Window(r, s.align) && r.phase.Blocked? && r.waitingFor == None
    requires forall q <- s.reqs :: q.id != r.id
    ensures Inv(Admit(s, r))
  {
    SkipSelf(r, s.reqs);
    WaitOutcome(s.reqs, r, s.align);
    var w := Wait(s.reqs, r, s.align);
    var t := Admit(s, r);
    assert t.reqs == [w] + s.reqs;
    SerialisingSplit([w], s.reqs);
    PushExclusive(s.reqs, r, w);
    PushChains(s.reqs, w);
    WaitSound(s.align, s.disk, s.reqs, r);
    PushSound(s.align, s.disk, s.reqs, w);
    PushDistinct(s.reqs, w);
  }

  lemma PushSound(align: nat, disk: seq<Byte>, reqs: seq<Request>, w: Request)
    requires align > 0 && Sound(align, disk, reqs) && Window(w, align) && Fresh(align, disk, w)
    ensures Sound(align, disk, [w] + reqs)
  {}

  lemma PushDistinct(reqs: seq<Request>, w: Request)
    requires Distinct(reqs) && forall q <- reqs :: q.id != w.id
    ensures Distinct([w] + reqs)
  {}

  /** A request does not conflict with itself, so its own list entry is skipped. */
  lemma SkipSelf(r: Request, reqs: seq<Request>)
    ensures FirstBlocker([r] + reqs, r) == FirstBlocker(reqs, r)
  {
    assert ([r] + reqs)[1..] == reqs;
  }

  lemma BeginInv(s: State, step: Step)
    requires Inv(s) && Enabled(s, step) && (step.BeginWrite? || step.BeginRead?)
    ensures Inv(Apply(s, step))
  {
    match step
    case BeginWrite(id, offset, data) =>
      WriteWindow(s, id, offset, data);
      AdmitInv(s, WriteRequest(s, id, offset, data));
    case BeginRead(id, offset, bytes, cor) =>
      ReadWindow(s, id, offset, bytes, cor);
      AdmitInv(s, ReadRequest(s, id, offset, bytes, cor));
  }

  lemma WriteWindow(s: State, id: nat, offset: nat, data: seq<Byte>)
    requires s.align > 0
    ensures var r := WriteRequest(s, id, offset, data);
      Window(r, s.align) && r.id == id && r.phase.Blocked? && r.waitingFor == None
  {
    MarkWindow(NewRequest(id, true, offset, |data|, data), s.align, s.align);
  }

  lemma ReadWindow(s: State, id: nat, offset: nat, bytes: nat, cor: bool)
    requires s.align > 0 && s.cluster > 0
    ensures var r := ReadRequest(s, id, offset, bytes, cor);
      Window(r, s.align) && r.id == id && r.phase.Blocked? && r.waitingFor == None
  {
    var lo := AlignDown(offset, s.align);
    MarkWindow(NewRequest(id, false, lo, RoundUp(offset + bytes, s.align) - lo, []), s.cluster, s.align);
  }

  /** What is tracked is what the caller asked for; a write that needs padding is serialising. */
  lemma BeganWrite(s: State, id: nat, offset: nat, data: seq<Byte>)
    requires Inv(s) && Enabled(s, BeginWrite(id, offset, data))
    ensures var t := Apply(s, BeginWrite(id, offset, data));
      && |t.reqs| == |s.reqs| + 1 && t.reqs[1..] == s.reqs
      && t.reqs[0].id == id && t.reqs[0].isWrite && t.reqs[0].offset == offset && t.reqs[0].data == data
      && (t.reqs[0].serialising <==> offset % s.align != 0 || (offset + |data|) % s.align != 0)
      && (if t.reqs[0].serialising then Windowed(t.reqs[0], s.align)
          else t.reqs[0].ovOffset == offset && t.reqs[0].ovBytes == |data|)
  {}

  /** The window is the smallest aligned range around the request. */
  ghost predicate Windowed(r: Request, a: nat)
    requires a > 0
  {
    r.ovOffset == AlignDown(r.offset, a) && r.OvEnd() == RoundUp(r.End(), a)
  }

  /** A read is tracked as the aligned range around it; with copy-on-read it is serialising over whole
      clusters. */
  lemma BeganRead(s: State, id: nat, offset: nat, bytes: nat, cor: bool)
    requires Inv(s) && Enabled(s, BeginRead(id, offset, bytes, cor))
    ensures var t := Apply(s, BeginRead(id, offset, bytes, cor));
      && |t.reqs| == |s.reqs| + 1 && t.reqs[1..] == s.reqs
      && t.reqs[0].id == id && !t.reqs[0].isWrite && ReadCovers(t.reqs[0], s.align, s.cluster, offset, bytes, cor)
  {}

  ghost predicate ReadCovers(r: Request, align: nat, cluster: nat, offset: nat, bytes: nat, cor: bool)
    requires align > 0 && cluster > 0
  {
    && r.offset <= offset < r.offset + align && r.offset % align == 0
    && offset + bytes <= r.End() < offset + bytes + align && r.End() % align == 0
    && (r.serialising <==> cor)
    && (if cor then Windowed(r, cluster) else r.ovOffset == r.offset && r.ovBytes == r.bytes)
  }

  lemma UpdateExclusive(reqs: seq<Request>, i: nat, w: Request)
    requires Exclusive(reqs) && i < |reqs|
    requires SameWindow(reqs[i], w)
    requires w.Active() ==> forall k | 0 <= k < |reqs| && reqs[k].Active() :: !Conflict(reqs[i], reqs[k])
    ensures Exclusive(reqs[i := w])
  {
    var t := reqs[i := w];
    forall a, b | 0 <= a < |t| && 0 <= b < |t| && t[a].Active() && t[b].Active()
      ensures !Conflict(t[a], t[b])
    {
      if a == i && b != i { ConflictSymmetric(reqs[i], reqs[b], w); }
      if b == i && a != i { ConflictSymmetric(reqs[i], reqs[a], w); }
    }
  }

  lemma UpdateChains(reqs: seq<Request>, i: nat, w: Request)
    requires Chains(reqs) && i < |reqs| && w.id == reqs[i].id
    requires reqs[i].Active() ==> w.Active()
    requires w.phase.Blocked? <==> w.waitingFor.Some?
    requires w.phase.Blocked? && !w.woken ==> HasActive(reqs, w.waitingFor.value)
    ensures Chains(reqs[i := w])
  {
    var t := reqs[i := w];
    forall j | 0 <= j < |t|
      ensures t[j].phase.Blocked? && !t[j].woken ==> HasActive(t, t[j].waitingFor.value)
    {
      if t[j].phase.Blocked? && !t[j].woken {
        var id := t[j].waitingFor.value;
        assert HasActive(reqs, id);
        var k :| 0 <= k < |reqs| && reqs[k].id == id && reqs[k].Active();
        assert t[k].Active() && t[k].id == id;
      }
    }
  }

  lemma ResumeInv(s: State, i: nat)
    requires Inv(s) && Enabled(s, Resume(i))
    ensures Inv(Apply(s, Resume(i)))
  {
    var w := Wait(s.reqs, s.reqs[i], s.align);
    WaitOutcome(s.reqs, s.reqs[i], s.align);
    SerialisingUpdate(s.reqs, i, w);
    UpdateExclusive(s.reqs, i, w);
    UpdateChains(s.reqs, i, w);
    WaitSound(s.align, s.disk, s.reqs, s.reqs[i]);
  }

  /** A step that only moves an active request on, keeping its window. */
  lemma AdvanceInv(s: State, i: nat, r: Request)
    requires Inv(s) && i < |s.reqs| && s.reqs[i].Active() && r.Active()
    requires r == s.reqs[i].(phase := r.phase, headBuf := r.headBuf, tailBuf := r.tailBuf)
    requires Fresh(s.align, s.disk, r)
    ensures Inv(s.(reqs := s.reqs[i := r]))
  {
    SerialisingUpdate(s.reqs, i, r);
    UpdateChains(s.reqs, i, r);
    UpdateExclusive(s.reqs, i, r);
    assert Window(r, s.align) by { assert Window(s.reqs[i], s.align); }
  }

  /** A write by request i leaves alone every block another request has read for padding. */
  lemma PaddingUntouched(s: State, i: nat, j: nat)
    requires Inv(s) && i < |s.reqs| && j < |s.reqs| && i != j
    requires s.reqs[i].phase.Access? && s.reqs[i].isWrite && s.reqs[j].Active()
    ensures BuffersReady(s, s.reqs[i])
    ensures Fresh(s.align, Apply(s, Transfer(i, true)).disk, s.reqs[j])
  {
    var r, q := s.reqs[i], s.reqs[j];
    assert Fresh(s.align, s.disk, r) && Fresh(s.align, s.disk, q) && Window(r, s.align) && Window(q, s.align);
    var d := Apply(s, Transfer(i, true)).disk;
    PayloadLength(r, s.align);
    PadBlocks(q, s.align);
    assert !Conflict(q, r) && q.id != r.id;
    forall x: nat | q.serialising && q.ovOffset <= x < q.OvEnd() ensures ByteAt(d, x) == ByteAt(s.disk, x) {
      StoreAt(s.disk, PadStart(r, s.align), Payload(r, s.align), x);
    }
    if NeedsHead(q, s.align) {
      assert Load(d, PadStart(q, s.align), s.align) == Load(s.disk, PadStart(q, s.align), s.align);
    }
    if NeedsTail(q, s.align) {
      assert Load(d, AlignDown(q.End(), s.align), s.align) == Load(s.disk, AlignDown(q.End(), s.align), s.align);
    }
  }

  lemma TransferInv(s: State, i: nat, ok: bool)
    requires Inv(s) && Enabled(s, Transfer(i, ok))
    ensures BuffersReady(s, s.reqs[i]) && Inv(Apply(s, Transfer(i, ok)))
  {
    EnabledIsReady(s, Transfer(i, ok));
    var r := s.reqs[i].(phase := Done);
    AdvanceInv(s, i, r);
    var t := Apply(s, Transfer(i, ok));
    if r.isWrite && ok {
      forall j | 0 <= j < |t.reqs| ensures Fresh(t.align, t.disk, t.reqs[j]) {
        if j != i && s.reqs[j].Active() {
          PaddingUntouched(s, i, j);
        }
      }
    }
  }

  lemma FinishChains(reqs: seq<Request>, i: nat)
    requires Chains(reqs) && i < |reqs|
    ensures Chains(Wake(Without(reqs, i), reqs[i].id))
  {
    var rest := Without(reqs, i);
    var t := Wake(rest, reqs[i].id);
    assert forall j | 0 <= j < |rest| :: rest[j] == reqs[if j < i then j else j + 1];
    forall j | 0 <= j < |t|
      ensures t[j].phase.Blocked? && !t[j].woken ==> HasActive(t, t[j].waitingFor.value)
    {
      if t[j].phase.Blocked? && !t[j].woken {
        var id := rest[j].waitingFor.value;
        assert HasActive(reqs, id);
        var k :| 0 <= k < |reqs| && reqs[k].id == id && reqs[k].Active();
        assert t[if k < i then k else k - 1].id == id;
      }
    }
  }

  lemma FinishExclusive(reqs: seq<Request>, i: nat)
    requires Exclusive(reqs) && i < |reqs|
    ensures Exclusive(Wake(Without(reqs, i), reqs[i].id))
  {
    var rest := Without(reqs, i);
    var t := Wake(rest, reqs[i].id);
    assert forall j | 0 <= j < |rest| :: rest[j] == reqs[if j < i then j else j + 1];
    forall a, b | 0 <= a < |t| && 0 <= b < |t| && t[a].Active() && t[b].Active()
      ensures !Conflict(t[a], t[b])
    {
      assert !Conflict(rest[a], rest[b]);
    }
  }

  lemma FinishSound(align: nat, disk: seq<Byte>, reqs: seq<Request>, i: nat)
    requires align > 0 && Sound(align, disk, reqs) && Distinct(reqs) && i < |reqs|
    ensures Sound(align, disk, Wake(Without(reqs, i), reqs[i].id))
    ensures Distinct(Wake(Without(reqs, i), reqs[i].id))
  {
    var rest := Without(reqs, i);
    assert forall j | 0 <= j < |rest| :: rest[j] == reqs[if j < i then j else j + 1];
    forall j | 0 <= j < |rest|
      ensures Window(Wake(rest, reqs[i].id)[j], align) && Fresh(align, disk, Wake(rest, reqs[i].id)[j])
    {
      assert Window(rest[j], align) && Fresh(align, disk, rest[j]);
      WokenSound(align, disk, rest[j]);
    }
  }

  lemma FinishInv(s: State, i: nat)
    requires Inv(s) && Enabled(s, Finish(i))
    ensures Ready(s, Finish(i)) && Inv(Apply(s, Finish(i)))
  {
    EnabledIsReady(s, Finish(i));
    var rest := Without(s.reqs, i);
    SerialisingAt(s.reqs, i);
    SerialisingWake(rest, s.reqs[i].id);
    FinishChains(s.reqs, i);
    FinishExclusive(s.reqs, i);
    FinishSound(s.align, s.disk, s.reqs, i);
  }

  /** Every step of every interleaving keeps the invariant. */
  lemma StepInv(s: State, step: Step)
    requires Inv(s) && Enabled(s, step)
    ensures Ready(s, step) && Inv(Apply(s, step))
  {
    EnabledIsReady(s, step);
    match step
    case BeginWrite(_, _, _) => BeginInv(s, step);
    case BeginRead(_, _, _, _) => BeginInv(s, step);
    case Resume(i) => ResumeInv(s, i);
    case ReadHead(i, ok) =>
      assert Fresh(s.align, s.disk, s.reqs[i]);
      AdvanceInv(s, i, Apply(s, step).reqs[i]);
    case ReadTail(i, ok) =>
      assert Fresh(s.align, s.disk, s.reqs[i]);
      AdvanceInv(s, i, Apply(s, step).reqs[i]);
    case Transfer(i, ok) => TransferInv(s, i, ok);
    case Finish(i) => FinishInv(s, i);
  }

  // ---------------------------------------------------------------- whole runs

  ghost predicate Run(s: State, steps: seq<Step>, t: State)
    decreases |steps|
  {
    if steps == [] then s == t
    else Ready(s, steps[0]) && Run(Apply(s, steps[0]), steps[1..], t)
  }

  datatype Effect = Effect(offset: nat, data: seq<Byte>)

  /** The successful driver writes of a run, in the order they happen, each with
      the bytes its caller asked for. */
  ghost function Effects(s: State, steps: seq<Step>, t: State): seq<Effect>
    requires Run(s, steps, t)
    decreases |steps|
  {
    if steps == [] then []
    else
      var rest := Effects(Apply(s, steps[0]), steps[1..], t);
      match steps[0]
      case Transfer(i, ok) =>
        if ok && s.reqs[i].isWrite then [Effect(s.reqs[i].offset, s.reqs[i].data)] + rest else rest
      case _ => rest
  }

  /** Atomic byte-granular writes applied one after the other. */
  function Sequential(disk: seq<Byte>, es: seq<Effect>): seq<Byte>
    decreases |es|
  {
    if es == [] then disk else Sequential(Store(disk, es[0].offset, es[0].data), es[1..])
  }

  lemma {:induction false} SequentialSame(d: seq<Byte>, e: seq<Byte>, es: seq<Effect>)
    requires Same(d, e)
    ensures Same(Sequential(d, es), Sequential(e, es))
    decreases |es|
  {
    if es != [] {
      var x, y := Store(d, es[0].offset, es[0].data), Store(e, es[0].offset, es[0].data);
      forall i: nat ensures ByteAt(x, i) == ByteAt(y, i) {
        StoreAt(d, es[0].offset, es[0].data, i);
        StoreAt(e, es[0].offset, es[0].data, i);
      }
      SequentialSame(x, y, es[1..]);
    }
  }

  lemma TransferIsStore(s: State, step: Step)
    requires Inv(s) && Enabled(s, step) && step.Transfer? && step.ok && s.reqs[step.i].isWrite
    ensures Ready(s, step)
    ensures Same(Apply(s, step).disk, Store(s.disk, s.reqs[step.i].offset, s.reqs[step.i].data))
  {
    EnabledIsReady(s, step);
    var r := s.reqs[step.i];
    assert |r.data| == r.bytes by { assert Window(r, s.align); }
    forall x: nat ensures ByteAt(Apply(s, step).disk, x) == ByteAt(Store(s.disk, r.offset, r.data), x) {
      WriteExact(s, step.i, x);
      StoreAt(s.disk, r.offset, r.data, x);
    }
  }

  /** The writes of a run in the order of their successful transfers, each as the step that began it asked
      for it: `asked` holds, by id, what the steps before asked for. */
  ghost function Issued(s: State, steps: seq<Step>, t: State, asked: map<nat, Effect>): seq<Effect>
    requires Run(s, steps, t)
    decreases |steps|
  {
    if steps == [] then []
    else
      var rest := Issued(Apply(s, steps[0]), steps[1..], t, Asked(asked, steps[0]));
      match steps[0]
      case Transfer(i, ok) => if ok && s.reqs[i].id in asked then [asked[s.reqs[i].id]] + rest else rest
      case _ => rest
  }

  function Asked(asked: map<nat, Effect>, step: Step): map<nat, Effect> {
    match step
    case BeginWrite(id, offset, data) => asked[id := Effect(offset, data)]
    case BeginRead(id, _, _, _) => asked - {id}
    case _ => asked
  }

  /** Every request is tracked as it was asked for. */
  ghost predicate Knows(reqs: seq<Request>, asked: map<nat, Effect>) {
    forall i | 0 <= i < |reqs| ::
      if reqs[i].isWrite then reqs[i].id in asked && asked[reqs[i].id] == Effect(reqs[i].offset, reqs[i].data)
      else reqs[i].id !in asked
  }

  lemma KnowsStep(s: State, step: Step, asked: map<nat, Effect>)
    requires Ready(s, step) && Knows(s.reqs, asked)
    ensures Knows(Apply(s, step).reqs, Asked(asked, step))
  {
    var t := Apply(s, step);
    if IsBegin(step) {
      KnowsNew(s.reqs, t.reqs[0], asked, Asked(asked, step));
    } else if step.Finish? {
      KnowsWake(s.reqs, step.i, asked);
    }
  }

  lemma KnowsNew(reqs: seq<Request>, r: Request, asked: map<nat, Effect>, asked': map<nat, Effect>)
    requires Knows(reqs, asked) && Knows([r], asked') && forall q <- reqs :: q.id != r.id
    requires asked' - {r.id} == asked - {r.id}
    ensures Knows([r] + reqs, asked')
  {
    forall i | 0 <= i < |reqs| ensures reqs[i].id in asked <==> reqs[i].id in asked' {
      assert reqs[i].id in asked - {r.id} <==> reqs[i].id in asked' - {r.id};
    }
    forall i | 0 <= i < |reqs| && reqs[i].id in asked ensures asked[reqs[i].id] == asked'[reqs[i].id] {
      assert (asked - {r.id})[reqs[i].id] == (asked' - {r.id})[reqs[i].id];
    }
    assert [r][0] == r;
  }

  lemma KnowsWake(reqs: seq<Request>, i: nat, asked: map<nat, Effect>)
    requires i < |reqs| && Knows(reqs, asked)
    ensures Knows(Wake(Without(reqs, i), reqs[i].id), asked)
  {
    forall j | 0 <= j < |Without(reqs, i)|
      ensures Without(reqs, i)[j] == reqs[if j < i then j else j + 1]
    {}
  }

  lemma {:induction false} IssuedIsEffects(s: State, steps: seq<Step>, t: State, asked: map<nat, Effect>)
    requires Run(s, steps, t) && Knows(s.reqs, asked)
    ensures Issued(s, steps, t, asked) == Effects(s, steps, t)
    decreases |steps|
  {
    if steps != [] {
      KnowsStep(s, steps[0], asked);
      IssuedIsEffects(Apply(s, steps[0]), steps[1..], t, Asked(asked, steps[0]));
    }
  }

  /** No interleaving loses an update: after any run the disk reads as if the writes that the callers
      asked for had been done one after the other, in the order of their transfers, each touching its
      own bytes only. */
  lemma NoLostUpdate(s: State, steps: seq<Step>, t: State, asked: map<nat, Effect>)
    requires Inv(s) && Run(s, steps, t) && Knows(s.reqs, asked)
    ensures Inv(t)
    ensures Same(t.disk, Sequential(s.disk, Issued(s, steps, t, asked)))
  {
    TransfersInOrder(s, steps, t);
    IssuedIsEffects(s, steps, t, asked);
  }

  /** A read sees exactly the writes whose transfers came before its own. */
  lemma ReadSees(s: State, steps: seq<Step>, t: State, asked: map<nat, Effect>, i: nat, x: nat)
    requires Inv(s) && Run(s, steps, t) && Knows(s.reqs, asked)
    requires i < |t.reqs| && !t.reqs[i].isWrite && t.reqs[i].offset <= x < t.reqs[i].End()
    ensures var r := t.reqs[i];
      && |Load(t.disk, r.offset, r.bytes)| == r.bytes
      && Load(t.disk, r.offset, r.bytes)[x - r.offset] == ByteAt(Sequential(s.disk, Issued(s, steps, t, asked)), x)
  {
    LoadAt(t.disk, t.reqs[i].offset, t.reqs[i].bytes, x - t.reqs[i].offset);
    assert ByteAt(t.disk, x) == ByteAt(Sequential(s.disk, Issued(s, steps, t, asked)), x) by {
      NoLostUpdate(s, steps, t, asked);
    }
  }

  lemma {:induction false} TransfersInOrder(s: State, steps: seq<Step>, t: State)
    requires Inv(s) && Run(s, steps, t)
    ensures Inv(t)
    ensures Same(t.disk, Sequential(s.disk, Effects(s, steps, t)))
    decreases |steps|
  {
    if steps != [] {
      var step := steps[0];
      var u := Apply(s, step);
      StepInv(s, step);
      TransfersInOrder(u, steps[1..], t);
      var rest := Effects(u, steps[1..], t);
      if step.Transfer? && step.ok && s.reqs[step.i].isWrite {
        var r := s.reqs[step.i];
        TransferIsStore(s, step);
        SequentialSame(u.disk, Store(s.disk, r.offset, r.data), rest);
        assert ([Effect(r.offset, r.data)] + rest)[1..] == rest;
      } else {
        assert u.disk == s.disk;
      }
    }
  }

  /** A write that is tracked after a run was tracked before or begun by a step of the run. */
  lemma {:induction false} TrackedWasBegun(s: State, steps: seq<Step>, t: State, j: nat)
    requires Run(s, steps, t) && j < |t.reqs| && t.reqs[j].isWrite
    ensures WasTracked(s.reqs, t.reqs[j]) || BeginWrite(t.reqs[j].id, t.reqs[j].offset, t.reqs[j].data) in steps
    decreases |steps|
  {
    if steps == [] {
      assert SameWrite(s.reqs[j], t.reqs[j]);
    } else {
      var u := Apply(s, steps[0]);
      TrackedWasBegun(u, steps[1..], t, j);
      if WasTracked(u.reqs, t.reqs[j]) {
        StepTracks(s, steps[0], t.reqs[j]);
      }
    }
  }

  predicate SameWrite(q: Request, r: Request) {
    q.isWrite == r.isWrite && q.id == r.id && q.offset == r.offset && q.data == r.data
  }

  ghost predicate WasTracked(reqs: seq<Request>, r: Request) {
    exists i :: 0 <= i < |reqs| && SameWrite(reqs[i], r)
  }

  lemma MidTracks(s: State, step: Step, i: nat)
    requires Ready(s, step) && !IsBegin(step) && !step.Finish? && i < |Apply(s, step).reqs|
    ensures |Apply(s, step).reqs| == |s.reqs| && SameWrite(s.reqs[i], Apply(s, step).reqs[i])
  {}

  lemma FinishTracks(s: State, step: Step, i: nat)
    requires Ready(s, step) && step.Finish? && i < |Apply(s, step).reqs|
    ensures var j := if i < step.i then i else i + 1;
      j < |s.reqs| && SameWrite(s.reqs[j], Apply(s, step).reqs[i])
  {}

  lemma BeginTracks(s: State, step: Step, i: nat)
    requires Ready(s, step) && IsBegin(step) && i < |Apply(s, step).reqs|
    ensures var r := Apply(s, step).reqs[i];
      if i > 0 then i <= |s.reqs| && r == s.reqs[i - 1]
      else r.isWrite ==> step == BeginWrite(r.id, r.offset, r.data)
  {}

  lemma StepTracks(s: State, step: Step, r: Request)
    requires Ready(s, step) && r.isWrite && WasTracked(Apply(s, step).reqs, r)
    ensures WasTracked(s.reqs, r) || step == BeginWrite(r.id, r.offset, r.data)
  {
    var i :| 0 <= i < |Apply(s, step).reqs| && SameWrite(Apply(s, step).reqs[i], r);
    if IsBegin(step) {
      BeginTracks(s, step, i);
      if i > 0 {
        assert SameWrite(s.reqs[i - 1], r);
      }
    } else if step.Finish? {
      FinishTracks(s, step, i);
      assert SameWrite(s.reqs[if i < step.i then i else i + 1], r);
    } else {
      MidTracks(s, step, i);
      assert SameWrite(s.reqs[i], r);
    }
  }

  // ---------------------------------------------------------------- every write once

  /** Whether a request still has to do the write e. */
  function Due(r: Request, e: Effect): nat {
    Bit(r.isWrite && !r.phase.Done? && e == Effect(r.offset, r.data))
  }

  function AllDue(reqs: seq<Request>, e: Effect): nat {
    if reqs == [] then 0 else Due(reqs[0], e) + AllDue(reqs[1..], e)
  }

  /** How often the steps ask for the write e. */
  function Begun(steps: seq<Step>, e: Effect): nat {
    if steps == [] then 0 else Begins(steps[0], e) + Begun(steps[1..], e)
  }

  function Begins(step: Step, e: Effect): nat {
    Bit(step.BeginWrite? && e == Effect(step.offset, step.data))
  }

  function Times(es: seq<Effect>, e: Effect): nat {
    if es == [] then 0 else Bit(es[0] == e) + Times(es[1..], e)
  }

  /** The step ends the part of a request that can still write, with success or an error. */
  predicate Ends(step: Step) {
    step.Transfer? || Fails(step)
  }

  predicate Fails(step: Step) {
    (step.ReadHead? || step.ReadTail? || step.Transfer?) && !step.ok
  }

  /** How often a step of the run reports an error to the write e. */
  ghost function Failed(s: State, steps: seq<Step>, t: State, e: Effect): nat
    requires Run(s, steps, t)
    decreases |steps|
  {
    if steps == [] then 0
    else
      var now := if Fails(steps[0]) then Due(s.reqs[steps[0].i], e) else 0;
      now + Failed(Apply(s, steps[0]), steps[1..], t, e)
  }

  lemma {:induction false} DueAt(reqs: seq<Request>, i: nat, e: Effect)
    requires i < |reqs|
    ensures AllDue(reqs, e) == AllDue(Without(reqs, i), e) + Due(reqs[i], e)
  {
    if i == 0 {
      assert Without(reqs, 0) == reqs[1..];
    } else {
      DueAt(reqs[1..], i - 1, e);
      WithoutStep(reqs, i);
    }
  }

  lemma DueUpdate(reqs: seq<Request>, i: nat, r: Request, e: Effect)
    requires i < |reqs|
    ensures AllDue(reqs[i := r], e) + Due(reqs[i], e) == AllDue(reqs, e) + Due(r, e)
  {
    DueAt(reqs, i, e);
    DueAt(reqs[i := r], i, e);
    assert Without(reqs[i := r], i) == Without(reqs, i);
  }

  lemma {:induction false} DueWake(reqs: seq<Request>, id: nat, e: Effect)
    ensures AllDue(Wake(reqs, id), e) == AllDue(reqs, e)
  {
    if reqs != [] {
      DueWake(reqs[1..], id, e);
      assert Wake(reqs, id)[1..] == Wake(reqs[1..], id);
    }
  }

  /** A step that begins or ends a request. */
  lemma EdgeDue(s: State, step: Step, e: Effect)
    requires Ready(s, step) && (IsBegin(step) || step.Finish?)
    ensures AllDue(s.reqs, e) + Begins(step, e) == AllDue(Apply(s, step).reqs, e)
  {
    if step.Finish? {
      DueAt(s.reqs, step.i, e);
      DueWake(Without(s.reqs, step.i), s.reqs[step.i].id, e);
    } else {
      assert Apply(s, step).reqs[1..] == s.reqs;
    }
  }

  /** Any other step. */
  lemma MidDue(s: State, step: Step, e: Effect)
    requires Ready(s, step) && !IsBegin(step) && !step.Finish?
    ensures AllDue(s.reqs, e)
         == AllDue(Apply(s, step).reqs, e) + if Ends(step) then Due(s.reqs[step.i], e) else 0
  {
    DueUpdate(s.reqs, step.i, Apply(s, step).reqs[step.i], e);
  }

  /** Over every run each write that is begun is done exactly once, fails, or is still due. */
  lemma {:induction false} EveryWriteOnce(s: State, steps: seq<Step>, t: State, e: Effect)
    requires Run(s, steps, t)
    ensures AllDue(s.reqs, e) + Begun(steps, e)
         == Times(Effects(s, steps, t), e) + Failed(s, steps, t, e) + AllDue(t.reqs, e)
    decreases |steps|
  {
    if steps != [] {
      var step := steps[0];
      EveryWriteOnce(Apply(s, step), steps[1..], t, e);
      if IsBegin(step) || step.Finish? {
        EdgeDue(s, step, e);
      } else {
        MidDue(s, step, e);
        EffectCounted(s, steps, t, e);
      }
    }
  }

  lemma EffectCounted(s: State, steps: seq<Step>, t: State, e: Effect)
    requires steps != [] && Run(s, steps, t)
    ensures Times(Effects(s, steps, t), e) == Times(Effects(Apply(s, steps[0]), steps[1..], t), e)
      + if steps[0].Transfer? && steps[0].ok then Due(s.reqs[steps[0].i], e) else 0
  {
    var rest := Effects(Apply(s, steps[0]), steps[1..], t);
    if steps[0].Transfer? {
      var r := s.reqs[steps[0].i];
      assert ([Effect(r.offset, r.data)] + rest)[1..] == rest;
    }
  }

  /** From an idle device to an idle device without errors, each write asked for is done as often as it
      was asked for. */
  lemma AllWritesDone(s: State, steps: seq<Step>, t: State, e: Effect)
    requires Run(s, steps, t) && s.reqs == [] && t.reqs == []
    requires forall k | 0 <= k < |steps| :: !Fails(steps[k])
    ensures Times(Issued(s, steps, t, map[]), e) == Begun(steps, e)
  {
    EveryWriteOnce(s, steps, t, e);
    NoneFailed(s, steps, t, e);
    IssuedIsEffects(s, steps, t, map[]);
  }

  lemma {:induction false} NoneFailed(s: State, steps: seq<Step>, t: State, e: Effect)
    requires Run(s, steps, t)
    requires forall k | 0 <= k < |steps| :: !Fails(steps[k])
    ensures Failed(s, steps, t, e) == 0
    decreases |steps|
  {
    if steps != [] {
      NoneFailed(Apply(s, steps[0]), steps[1..], t, e);
    }
  }

  lemma EmptyDeviceInv(align: nat, cluster: nat, disk: seq<Byte>)
    requires align > 0 && cluster > 0
    ensures Inv(State(align, cluster, disk, [], 0))
  {}

  // ---------------------------------------------------------------- no deadlock

  predicate IsBegin(step: Step) { step.BeginWrite? || step.BeginRead? }

  /** While requests are tracked some coroutine can go on. */
  lemma NoDeadlock(s: State) returns (step: Step)
    requires Inv(s) && s.reqs != []
    ensures Enabled(s, step) && !IsBegin(step)
  {
    var i: nat := 0;
    if s.reqs[0].phase.Blocked? && !s.reqs[0].woken {
      var j :| 0 <= j < |s.reqs| && s.reqs[j].id == s.reqs[0].waitingFor.value && s.reqs[j].Active();
      i := j;
    }
    match s.reqs[i].phase
    case Blocked => step := Resume(i);
    case Head => step := ReadHead(i, true);
    case Tail => step := ReadTail(i, true);
    case Access => step := Transfer(i, true);
    case Done => step := Finish(i);
  }

  function Rank(p: Phase): nat {
    match p case Blocked => 5 case Head => 4 case Tail => 3 case Access => 2 case Done => 1
  }

  function Weight(r: Request, n: nat): nat {
    n * Rank(r.phase) + if r.phase.Blocked? && r.woken then 1 else 0
  }

  function Work(reqs: seq<Request>, n: nat): nat {
    if reqs == [] then 0 else Weight(reqs[0], n) + Work(reqs[1..], n)
  }

  lemma {:induction false} WorkAt(reqs: seq<Request>, i: nat, n: nat)
    requires i < |reqs|
    ensures Work(reqs, n) == Work(Without(reqs, i), n) + Weight(reqs[i], n)
  {
    if i == 0 {
      assert Without(reqs, 0) == reqs[1..];
    } else {
      WorkAt(reqs[1..], i - 1, n);
      WithoutStep(reqs, i);
    }
  }

  lemma WorkUpdate(reqs: seq<Request>, i: nat, r: Request, n: nat)
    requires i < |reqs| && Weight(r, n) < Weight(reqs[i], n)
    ensures Work(reqs[i := r], n) < Work(reqs, n)
  {
    WorkAt(reqs, i, n);
    WorkAt(reqs[i := r], i, n);
    assert Without(reqs[i := r], i) == Without(reqs, i);
  }

  lemma {:induction false} WorkWake(reqs: seq<Request>, id: nat, n: nat)
    ensures Work(Wake(reqs, id), n) <= Work(reqs, n) + |reqs|
  {
    if reqs != [] {
      WorkWake(reqs[1..], id, n);
      assert Wake(reqs, id)[1..] == Wake(reqs[1..], id);
    }
  }

  lemma FinishDecreasesWork(reqs: seq<Request>, i: nat, n: nat)
    requires i < |reqs| <= n && reqs[i].phase.Done?
    ensures Work(Wake(Without(reqs, i), reqs[i].id), n) < Work(reqs, n)
  {
    WorkAt(reqs, i, n);
    WorkWake(Without(reqs, i), reqs[i].id, n);
  }

  lemma LowerWeight(r: Request, r': Request, n: nat)
    requires n > 0 && Rank(r'.phase) < Rank(r.phase)
    ensures Weight(r', n) <= Weight(r, n) && (!r'.phase.Blocked? ==> Weight(r', n) < Weight(r, n))
  {
    assert n * Rank(r.phase) == n * Rank(r'.phase) + n * (Rank(r.phase) - Rank(r'.phase));
    MulGe(Rank(r.phase) - Rank(r'.phase), n);
  }

  /** Every step that admits no new request leaves less work. */
  lemma StepDecreasesWork(s: State, step: Step, n: nat)
    requires Inv(s) && Enabled(s, step) && !IsBegin(step) && |s.reqs| <= n
    ensures Ready(s, step)
    ensures |Apply(s, step).reqs| <= n && Work(Apply(s, step).reqs, n) < Work(s.reqs, n)
  {
    EnabledIsReady(s, step);
    if step.Finish? {
      FinishDecreasesWork(s.reqs, step.i, n);
    } else {
      var r, r' := s.reqs[step.i], Apply(s, step).reqs[step.i];
      if r'.phase != r.phase {
        LowerWeight(r, r', n);
      }
      WorkUpdate(s.reqs, step.i, r', n);
    }
  }

  /** Once no new request comes in, every run is finite and ends, when nothing more
      can run, with all requests complete. */
  lemma {:induction false} AllRequestsComplete(s: State, steps: seq<Step>, t: State, n: nat)
    requires Inv(s) && Run(s, steps, t) && |s.reqs| <= n
    requires forall st <- steps :: !IsBegin(st)
    ensures Inv(t) && |steps| + Work(t.reqs, n) <= Work(s.reqs, n)
    ensures (forall st: Step :: Enabled(t, st) ==> IsBegin(st)) ==> t.reqs == []
    decreases |steps|
  {
    if steps == [] {
      if t.reqs != [] {
        var st := NoDeadlock(t);
      }
    } else {
      StepInv(s, steps[0]);
      StepDecreasesWork(s, steps[0], n);
      AllRequestsComplete(Apply(s, steps[0]), steps[1..], t, n);
    }
  }
}
