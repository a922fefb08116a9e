/**
 The request path of block.c in its own imperative form: one object whose disk,
 tracked-request list and in-flight counter are updated in place.  Each method is
 what one coroutine does between two yields, and is proved to be the corresponding
 step of the protocol in `BlockRequests`.
 */
module BlockLayer {
  import opened Common
  import opened BlockRequests

  class BlockDevice {
    const align: nat
    const cluster: nat
    var disk: seq<Byte>
    var tracked: seq<Request>
    var serialisingInFlight: nat

    ghost function Abs(): State
      reads this
    {
      State(align, cluster, disk, tracked, serialisingInFlight)
    }

    ghost predicate Valid()
      reads this
    {
      Inv(Abs())
    }

    constructor (align: nat, cluster: nat, disk: seq<Byte>)
      requires align > 0 && cluster > 0
      ensures Valid() && Abs() == State(align, cluster, disk, [], 0)
    {
      this.align, this.cluster, this.disk := align, cluster, disk;
      tracked, serialisingInFlight := [], 0;
      new;
      EmptyDeviceInv(align, cluster, disk);
    }

    /** One pass of wait_serialising_requests over the list, with its early exit. */
    method WaitScan(self: Request) returns (blocker: Option<nat>)
      requires serialisingInFlight == Serialising(tracked)
      requires self.serialising ==> serialisingInFlight > 0
      ensures blocker == FirstBlocker(tracked, self)
    {
      if serialisingInFlight == 0 {
        EarlyExit(tracked, self);
        return None;
      }
      var k := 0;
      while k < |tracked|
        invariant 0 <= k <= |tracked|
        invariant FirstBlocker(tracked, self) == FirstBlocker(tracked[k..], self)
      {
        var req := tracked[k];
        assert tracked[k..][0] == req && tracked[k..][1..] == tracked[k + 1..];
        if req.id == self.id || (!req.serialising && !self.serialising) {
          k := k + 1;
          continue;
        }
        if Overlaps(req, self.ovOffset, self.ovBytes) {
          if req.waitingFor.None? {
            return Some(req.id);
          }
        }
        k := k + 1;
      }
      blocker := None;
    }

    /** Every later call of wait_serialising_requests: nobody is found. */
    method WaitAgain(i: nat)
      requires Valid() && i < |tracked| && tracked[i].Active()
    {
      NoSecondWait(Abs(), i);
      SerialisingAt(tracked, i);
      var blocker := WaitScan(tracked[i]);
      assert blocker.None?;
    }

    /** tracked_request_begin, mark_request_serialising with alignment `unit` if asked
        for, and the first wait: no yield in between. */
    method Enlist(req: Request, serialise: bool, unit: nat)
      requires align > 0 && unit > 0
      requires serialisingInFlight == Serialising(tracked) && !req.serialising
      modifies this`tracked, this`serialisingInFlight
      ensures Abs() == Admit(old(Abs()), if serialise then Mark(req, unit) else req)
    {
      var self := req;
      tracked := [self] + tracked;
      if serialise {
        self := Mark(req, unit);
        serialisingInFlight := serialisingInFlight + 1;
        tracked := [self] + tracked[1..];
      }
      SerialisingSplit([self], old(tracked));
      var blocker := WaitScan(self);
      if blocker.Some? {
        self := self.(waitingFor := blocker, woken := false, phase := Blocked);
      } else {
        self := self.(waitingFor := None, woken := false, phase := FirstPhase(self, align));
      }
      tracked := [self] + tracked[1..];
    }

    method BeginWrite(id: nat, offset: nat, data: seq<Byte>)
      requires Valid() && Enabled(Abs(), Step.BeginWrite(id, offset, data))
      modifies this
      ensures Abs() == Apply(old(Abs()), Step.BeginWrite(id, offset, data))
      ensures Valid() && |tracked| == |old(tracked)| + 1 && tracked[1..] == old(tracked)
      ensures tracked[0].id == id && tracked[0].isWrite && tracked[0].offset == offset && tracked[0].data == data
      ensures tracked[0].serialising <==> offset % align != 0 || (offset + |data|) % align != 0
    {
      BeganWrite(Abs(), id, offset, data);
      BeginInv(Abs(), Step.BeginWrite(id, offset, data));
      StartWrite(id, offset, data);
    }

    method StartWrite(id: nat, offset: nat, data: seq<Byte>)
      requires align > 0 && cluster > 0 && serialisingInFlight == Serialising(tracked)
      requires Enabled(Abs(), Step.BeginWrite(id, offset, data))
      modifies this`tracked, this`serialisingInFlight
      ensures Abs() == Apply(old(Abs()), Step.BeginWrite(id, offset, data))
    {
      var req := NewRequest(id, true, offset, |data|, data);
      Enlist(req, offset % align != 0 || (offset + |data|) % align != 0, align);
    }

    /** Align a read by widening it at both ends. */
    method PadRead(offset: nat, bytes: nat) returns (off: nat, n: nat)
      requires align > 0
      ensures off == AlignDown(offset, align) && off + n == RoundUp(offset + bytes, align)
    {
      off, n := offset, bytes;
      if off % align != 0 {
        n := n + off % align;
        off := AlignDown(off, align);
      }
      if (off + n) % align != 0 {
        RoundUpFrom(off, n, align);
        n := RoundUp(n, align);
      }
    }

    /** A read is padded first and then tracked; only copy-on-read serialises it. */
    method BeginRead(id: nat, offset: nat, bytes: nat, copyOnRead: bool)
      requires Valid() && Enabled(Abs(), Step.BeginRead(id, offset, bytes, copyOnRead))
      modifies this
      ensures Abs() == Apply(old(Abs()), Step.BeginRead(id, offset, bytes, copyOnRead))
      ensures Valid() && |tracked| == |old(tracked)| + 1 && tracked[1..] == old(tracked)
      ensures tracked[0].id == id && !tracked[0].isWrite
      ensures ReadCovers(tracked[0], align, cluster, offset, bytes, copyOnRead)
    {
      BeganRead(Abs(), id, offset, bytes, copyOnRead);
      BeginInv(Abs(), Step.BeginRead(id, offset, bytes, copyOnRead));
      StartRead(id, offset, bytes, copyOnRead);
    }

    method StartRead(id: nat, offset: nat, bytes: nat, copyOnRead: bool)
      requires align > 0 && cluster > 0 && serialisingInFlight == Serialising(tracked)
      requires Enabled(Abs(), Step.BeginRead(id, offset, bytes, copyOnRead))
      modifies this`tracked, this`serialisingInFlight
      ensures Abs() == Apply(old(Abs()), Step.BeginRead(id, offset, bytes, copyOnRead))
    {
      var off, n := PadRead(offset, bytes);
      Enlist(NewRequest(id, false, off, n, []), copyOnRead, cluster);
    }

    /** The restarted coroutine clears waiting_for and scans again. */
    method Resume(i: nat)
      requires Valid() && Enabled(Abs(), Step.Resume(i))
      modifies this`tracked
      ensures Abs() == Apply(old(Abs()), Step.Resume(i))
      ensures Valid()
    {
      ResumeInv(Abs(), i);
      SerialisingAt(tracked, i);
      var blocker := WaitScan(tracked[i]);
      if blocker.Some? {
        tracked := tracked[i := tracked[i].(waitingFor := blocker, woken := false, phase := Blocked)];
      } else {
        tracked := tracked[i := tracked[i].(waitingFor := None, woken := false,
                                            phase := FirstPhase(tracked[i], align))];
      }
    }

    /** The head read; the wait inside bdrv_aligned_preadv finds nobody. */
    method ReadHead(i: nat, ok: bool)
      requires Valid() && Enabled(Abs(), Step.ReadHead(i, ok))
      modifies this`tracked
      ensures Abs() == Apply(old(Abs()), Step.ReadHead(i, ok))
      ensures Valid()
    {
      StepInv(Abs(), Step.ReadHead(i, ok));
      WaitAgain(i);
      var req := tracked[i];
      if ok {
        var head := Load(disk, req.offset - req.offset % align, align);
        req := req.(headBuf := head, phase := if req.End() % align != 0 then Tail else Access);
      } else {
        req := req.(phase := Done);
      }
      NeedsFromPhase(Abs(), i);
      tracked := tracked[i := req];
    }

    /** The tail read; neither wait before it suspends the coroutine. */
    method ReadTail(i: nat, ok: bool)
      requires Valid() && Enabled(Abs(), Step.ReadTail(i, ok))
      modifies this`tracked
      ensures Abs() == Apply(old(Abs()), Step.ReadTail(i, ok))
      ensures Valid()
    {
      StepInv(Abs(), Step.ReadTail(i, ok));
      WaitAgain(i);
      var req := tracked[i];
      if ok {
        var tail := Load(disk, AlignDown(req.End(), align), align);
        req := req.(tailBuf := tail, phase := Access);
      } else {
        req := req.(phase := Done);
      }
      tracked := tracked[i := req];
    }

    /** The aligned transfer.  A successful write changes the caller's bytes to the
        caller's data and nothing else, whatever the other requests do; a successful read
        gives the bytes of its aligned range. */
    method Transfer(i: nat, ok: bool) returns (read: seq<Byte>)
      requires Valid() && Enabled(Abs(), Step.Transfer(i, ok))
      modifies this`tracked, this`disk
      ensures BuffersReady(old(Abs()), old(Abs()).reqs[i])
      ensures Abs() == Apply(old(Abs()), Step.Transfer(i, ok))
      ensures Valid()
      ensures forall x: nat :: ByteAt(disk, x) ==
                var r := old(tracked)[i];
                if ok && r.isWrite && r.offset <= x < r.End() then r.data[x - r.offset]
                else ByteAt(old(disk), x)
      ensures var r := old(tracked)[i];
        read == if ok && !r.isWrite then Load(old(disk), r.offset, r.bytes) else []
    {
      read := [];
      ghost var s := Abs();
      StepInv(s, Step.Transfer(i, ok));
      WaitAgain(i);
      var req := tracked[i];
      assert Window(req, align);
      if ok && req.isWrite {
        forall x: nat { WriteExact(s, i, x); }
        var offset, qiov := Splice(req);
        disk := Store(disk, offset, qiov);
      } else if ok {
        read := Load(disk, req.offset, req.bytes);
      }
      tracked := tracked[i := req.(phase := Done)];
    }

    /** Building local_qiov around the caller's data. */
    method Splice(req: Request) returns (offset: nat, qiov: seq<Byte>)
      requires align > 0 && req.isWrite
      requires NeedsHead(req, align) ==> |req.headBuf| == align
      requires NeedsTail(req, align) ==> |req.tailBuf| == align
      ensures offset == PadStart(req, align) && qiov == Payload(req, align)
    {
      offset, qiov := req.offset, req.data;
      if req.offset % align != 0 {
        qiov := req.headBuf[..req.offset % align] + qiov;
        offset := AlignDown(req.offset, align);
      }
      if req.End() % align != 0 {
        qiov := qiov + req.tailBuf[req.End() % align..];
      }
    }

    /** tracked_request_end: leave the list and restart everybody queued behind. */
    method Finish(i: nat)
      requires Valid() && Enabled(Abs(), Step.Finish(i))
      modifies this`tracked, this`serialisingInFlight
      ensures Ready(old(Abs()), Step.Finish(i))
      ensures Abs() == Apply(old(Abs()), Step.Finish(i))
      ensures Valid()
    {
      StepInv(Abs(), Step.Finish(i));
      var req := tracked[i];
      if req.serialising {
        serialisingInFlight := serialisingInFlight - 1;
      }
      tracked := tracked[..i] + tracked[i + 1..];
      RestartAll(req.id);
    }

    /** qemu_co_queue_restart_all on the wait queue of request `id`. */
    method RestartAll(id: nat)
      modifies this`tracked
      ensures tracked == Wake(old(tracked), id)
    {
      var k := 0;
      while k < |tracked|
        invariant 0 <= k <= |tracked| == |old(tracked)|
        invariant forall j | 0 <= j < k :: tracked[j] == Wake(old(tracked), id)[j]
        invariant forall j | k <= j < |tracked| :: tracked[j] == old(tracked)[j]
      {
        if tracked[k].waitingFor == Some(id) {
          tracked := tracked[k := tracked[k].(woken := true)];
        }
        k := k + 1;
      }
    }
  }

  lemma RoundUpFrom(base: nat, n: nat, a: nat)
    requires a > 0 && base % a == 0
    ensures RoundUp(base + n, a) == base + RoundUp(n, a)
  {
    DivMod(base, a);
    DivMod(n, a);
    DivUnique(base + n, a, base / a + n / a, n % a);
  }

  lemma NeedsFromPhase(s: State, i: nat)
    requires Inv(s) && i < |s.reqs| && s.reqs[i].phase.Head?
    ensures NeedsHead(s.reqs[i], s.align)
  {
    assert Fresh(s.align, s.disk, s.reqs[i]);
  }
}
