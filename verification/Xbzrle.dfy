/**
 The delta codec of live migration (xbzrle.c, with the 14-bit numbers of
 util/cutils.c): runs of unchanged bytes, given by length, alternate with runs of
 changed bytes, given by length and contents.
 */
module Xbzrle {
  import opened Common
  import opened Bytes
  import opened Words

  // ---------------------------------------------------------------- small numbers

  /** uleb128_encode_small */
  function Uleb(n: nat): (r: seq<Byte>)
    requires n <= 0x3fff
    ensures 1 <= |r| <= 2
  {
    if n < 0x80 then [n as Byte] else [(n % 0x80 + 0x80) as Byte, (n / 0x80) as Byte]
  }

  datatype Number = BadNumber | Number(value: nat, length: nat)

  /** uleb128_decode_small at position i */
  function UnUleb(s: seq<Byte>, i: nat): (r: Number)
    requires i + 2 <= |s|
    ensures r.Number? ==> 1 <= r.length <= 2 && r.value <= 0x3fff
  {
    var b := s[i] as nat;
    if b < 0x80 then Number(b, 1)
    else if s[i + 1] as nat >= 0x80 then BadNumber
    else Number(b - 0x80 + s[i + 1] as nat * 0x80, 2)
  }

  lemma UlebRoundTrip(s: seq<Byte>, i: nat, n: nat)
    requires n <= 0x3fff && i + 2 <= |s| && At(s, i, Uleb(n))
    ensures UnUleb(s, i) == Number(n, |Uleb(n)|)
  {
    assert s[i + 0] == Uleb(n)[0] && (n >= 0x80 ==> s[i + 1] == Uleb(n)[1]);
  }

  // ---------------------------------------------------------------- runs

  /** Length of the longest run from i on which the buffers agree. */
  function EqualRun(o: seq<Byte>, n: seq<Byte>, i: nat): (r: nat)
    requires |o| == |n| && i <= |o|
    ensures i + r <= |o|
    ensures i + r < |o| ==> o[i + r] != n[i + r]
    ensures r > 0 ==> o[i + r - 1] == n[i + r - 1]
    decreases |o| - i
  {
    if i == |o| || o[i] != n[i] then 0 else 1 + EqualRun(o, n, i + 1)
  }

  /** Length of the longest run from i on which every byte differs. */
  function ChangedRun(o: seq<Byte>, n: seq<Byte>, i: nat): (r: nat)
    requires |o| == |n| && i <= |o|
    ensures i + r <= |o|
    ensures i + r < |o| ==> o[i + r] == n[i + r]
    ensures i < |o| && o[i] != n[i] ==> r > 0
    ensures r > 0 ==> o[i + r - 1] != n[i + r - 1]
    decreases |o| - i
  {
    if i == |o| || o[i] == n[i] then 0 else 1 + ChangedRun(o, n, i + 1)
  }

  /** `zeros` unchanged bytes followed by the changed bytes `data`, and so on. */
  datatype Runs = End | Run(zeros: nat, data: seq<Byte>, rest: Runs)

  /** The maximal runs that lead from one buffer to the other, from position i on;
      a last unchanged run is left out. */
  function Diff(o: seq<Byte>, n: seq<Byte>, i: nat): Runs
    requires |o| == |n| && i <= |o|
    decreases |o| - i
  {
    var j := i + EqualRun(o, n, i);
    if j == |o| then End
    else
      var e := j + ChangedRun(o, n, j);
      Run(j - i, Part(n, j, e), Diff(o, n, e))
  }

  /** Every run has bytes, the lengths fit the small numbers, and only the first run of
      all may start with changed bytes. */
  ghost predicate Proper(runs: Runs) {
    runs.Run? ==>
      && runs.zeros <= 0x3fff && 0 < |runs.data| <= 0x3fff
      && (runs.rest.Run? ==> runs.rest.zeros > 0)
      && Proper(runs.rest)
  }

  lemma {:induction false} DiffProper(o: seq<Byte>, n: seq<Byte>, i: nat)
    requires |o| == |n| <= 0x3fff && i <= |o|
    ensures Proper(Diff(o, n, i))
    decreases |o| - i
  {
    var j := i + EqualRun(o, n, i);
    if j < |o| {
      DiffProper(o, n, j + ChangedRun(o, n, j));
    }
  }

  lemma {:induction false} Agree(o: seq<Byte>, n: seq<Byte>, i: nat)
    requires |o| == |n| && i <= |o|
    ensures forall k | i <= k < i + EqualRun(o, n, i) :: o[k] == n[k]
    decreases |o| - i
  {
    if i < |o| && o[i] == n[i] { Agree(o, n, i + 1); }
  }

  // ---------------------------------------------------------------- splicing

  function Splice(buf: seq<Byte>, at: nat, data: seq<Byte>): (r: seq<Byte>)
    requires at + |data| <= |buf|
    ensures |r| == |buf|
  {
    seq(|buf|, k requires 0 <= k < |buf| => if at <= k < at + |data| then data[k - at] else buf[k])
  }

  /** The buffer changed up to position i. */
  function Mixed(o: seq<Byte>, n: seq<Byte>, i: nat): (r: seq<Byte>)
    requires |o| == |n| && i <= |o|
    ensures |r| == |o|
  {
    seq(|o|, k requires 0 <= k < |o| => if k < i then n[k] else o[k])
  }

  lemma SpliceStep(o: seq<Byte>, n: seq<Byte>, i: nat, j: nat, e: nat)
    requires |o| == |n| && i <= |o| && j == i + EqualRun(o, n, i) && j <= e <= |o|
    ensures Splice(Mixed(o, n, i), j, Part(n, j, e)) == Mixed(o, n, e)
  {
    Agree(o, n, i);
  }

  lemma NothingLeft(o: seq<Byte>, n: seq<Byte>, i: nat)
    requires |o| == |n| && i <= |o| && Diff(o, n, i).End?
    ensures Mixed(o, n, i) == n
  {
    Agree(o, n, i);
  }

  lemma DiffHead(o: seq<Byte>, n: seq<Byte>, i: nat) returns (e: nat)
    requires |o| == |n| && i <= |o| && Diff(o, n, i).Run?
    ensures var runs := Diff(o, n, i);
      && i < e == i + runs.zeros + |runs.data| <= |o| && runs.rest == Diff(o, n, e)
      && Splice(Mixed(o, n, i), i + runs.zeros, runs.data) == Mixed(o, n, e)
      && (e < |o| ==> o[e] == n[e]) && (i < |o| && o[i] == n[i] ==> runs.zeros > 0)
  {
    var j := i + EqualRun(o, n, i);
    e := j + ChangedRun(o, n, j);
    SpliceStep(o, n, i, j, e);
  }

  // ---------------------------------------------------------------- encoding

  function RunBytes(zeros: nat, data: seq<Byte>): (r: seq<Byte>)
    requires zeros <= 0x3fff && |data| <= 0x3fff
    ensures |r| == |Uleb(zeros)| + |Uleb(|data|)| + |data|
  {
    Uleb(zeros) + Uleb(|data|) + data
  }

  /** The output for a list of runs behind d bytes already written, at most `cap` in
      all; None is the overflow.  `tail` tells that unchanged bytes follow, for which
      the source checks the room once more. */
  function Pack(runs: Runs, tail: bool, d: nat, cap: nat): (r: Option<seq<Byte>>)
    requires Proper(runs)
    decreases runs
  {
    match runs
    case End => if tail && d + 2 > cap then None else Some([])
    case Run(zeros, data, rest) =>
      var bytes := RunBytes(zeros, data);
      if d + 2 > cap || d + |Uleb(zeros)| + 2 > cap || d + |bytes| > cap then None
      else
        match Pack(rest, tail, d + |bytes|, cap)
        case None => None
        case Some(more) => Some(bytes + more)
  }

  /** Whether the buffers agree on their last byte. */
  predicate Tail(o: seq<Byte>, n: seq<Byte>)
    requires |o| == |n|
  {
    |o| > 0 && o[|o| - 1] == n[|o| - 1]
  }

  /** xbzrle_encode_buffer: the encoding, empty if nothing changed, or the overflow. */
  function Encode(o: seq<Byte>, n: seq<Byte>, cap: nat): Option<seq<Byte>>
    requires |o| == |n| <= 0x3fff
  {
    DiffProper(o, n, 0);
    Pack(Diff(o, n, 0), Tail(o, n), 0, cap)
  }

  lemma {:induction false} PackBound(runs: Runs, tail: bool, d: nat, cap: nat)
    requires Proper(runs) && Pack(runs, tail, d, cap).Some?
    ensures runs.Run? ==> 0 < |Pack(runs, tail, d, cap).value| && d + |Pack(runs, tail, d, cap).value| <= cap
    ensures runs.End? ==> Pack(runs, tail, d, cap).value == []
    decreases runs
  {
    if runs.Run? {
      PackBound(runs.rest, tail, d + |RunBytes(runs.zeros, runs.data)|, cap);
    }
  }

  /** The bytes it takes to write a list of runs. */
  function Length(runs: Runs): nat
    requires Proper(runs)
  {
    match runs
    case End => 0
    case Run(zeros, data, rest) => |RunBytes(zeros, data)| + Length(rest)
  }

  lemma {:induction false} PackExactly(runs: Runs, tail: bool, d: nat, cap: nat)
    requires Proper(runs) && d <= cap
    ensures Pack(runs, tail, d, cap).None? <==> d + Length(runs) + 2 * Bit(tail) > cap
    ensures Pack(runs, tail, d, cap).Some? ==> |Pack(runs, tail, d, cap).value| == Length(runs)
    decreases runs
  {
    if runs.Run? && d + |RunBytes(runs.zeros, runs.data)| <= cap {
      PackExactly(runs.rest, tail, d + |RunBytes(runs.zeros, runs.data)|, cap);
    }
  }

  /** There is an overflow exactly if the runs do not fit, with two bytes more if the buffers end alike. */
  lemma OverflowExactly(o: seq<Byte>, n: seq<Byte>, cap: nat)
    requires |o| == |n| <= 0x3fff && Proper(Diff(o, n, 0))
    ensures Encode(o, n, cap).None? <==> Length(Diff(o, n, 0)) + 2 * Bit(Tail(o, n)) > cap
    ensures Encode(o, n, cap).Some? ==> |Encode(o, n, cap).value| == Length(Diff(o, n, 0))
  {
    PackExactly(Diff(o, n, 0), Tail(o, n), 0, cap);
  }

  /** An encoding is empty exactly when nothing changed, and never exceeds its room. */
  lemma EmptyIffUnchanged(o: seq<Byte>, n: seq<Byte>, cap: nat)
    requires |o| == |n| <= 0x3fff && Encode(o, n, cap).Some?
    ensures Encode(o, n, cap) == Some([]) <==> o == n
    ensures |Encode(o, n, cap).value| <= cap
  {
    DiffProper(o, n, 0);
    PackBound(Diff(o, n, 0), Tail(o, n), 0, cap);
    if Diff(o, n, 0).End? {
      NothingLeft(o, n, 0);
      assert Mixed(o, n, 0) == o;
    }
  }

  // ---------------------------------------------------------------- decoding

  datatype Progress = Stuck | Progress(i: nat, buf: seq<Byte>, d: nat)

  /** One round of xbzrle_decode_buffer: an unchanged run and a changed run. */
  function DecodeRun(src: seq<Byte>, i: nat, buf: seq<Byte>, d: nat): (r: Progress)
    requires i <= |src| && d <= |buf|
    ensures r.Progress? ==> i < r.i <= |src| && r.d <= |r.buf| == |buf|
  {
    if |src| - i < 2 then Stuck
    else
      var z := UnUleb(src, i);
      if z.BadNumber? || (i > 0 && z.value == 0) || d + z.value > |buf| then Stuck
      else
        var i1, d1 := i + z.length, d + z.value;
        if i1 + 2 > |src| then Stuck
        else
          var nz := UnUleb(src, i1);
          if nz.BadNumber? || nz.value == 0 then Stuck
          else
            var i2 := i1 + nz.length;
            if d1 + nz.value > |buf| || i2 + nz.value > |src| then Stuck
            else Progress(i2 + nz.value, Splice(buf, d1, Part(src, i2, i2 + nz.value)), d1 + nz.value)
  }

  /** xbzrle_decode_buffer from source position i and buffer position d on. */
  function DecodeFrom(src: seq<Byte>, i: nat, buf: seq<Byte>, d: nat): (r: Option<seq<Byte>>)
    requires i <= |src| && d <= |buf|
    ensures r.Some? ==> |r.value| == |buf|
    decreases |src| - i
  {
    if i == |src| then Some(buf)
    else
      match DecodeRun(src, i, buf, d)
      case Stuck => None
      case Progress(i', buf', d') => DecodeFrom(src, i', buf', d')
  }

  function Decode(o: seq<Byte>, src: seq<Byte>): (r: Option<seq<Byte>>)
    ensures r.Some? ==> |r.value| == |o|
  {
    DecodeFrom(src, 0, o, 0)
  }

  /** The two numbers and the data of a run are found where they were written. */
  lemma RunBytesAt(s: seq<Byte>, at: nat, zeros: nat, data: seq<Byte>)
    requires zeros <= 0x3fff && 0 < |data| <= 0x3fff && At(s, at, RunBytes(zeros, data))
    ensures UnUleb(s, at) == Number(zeros, |Uleb(zeros)|)
    ensures UnUleb(s, at + |Uleb(zeros)|) == Number(|data|, |Uleb(|data|)|)
    ensures Part(s, at + |Uleb(zeros)| + |Uleb(|data|)|, at + |RunBytes(zeros, data)|) == data
  {
    var a, b := Uleb(zeros), Uleb(|data|);
    AtSplit(s, at, a + b, data);
    AtSplit(s, at, a, b);
    UlebRoundTrip(s, at, zeros);
    UlebRoundTrip(s, at + |a|, |data|);
  }

  /** One run is parsed as it was written. */
  lemma RunRoundTrip(src: seq<Byte>, at: nat, zeros: nat, data: seq<Byte>, buf: seq<Byte>, d: nat)
    requires zeros <= 0x3fff && 0 < |data| <= 0x3fff && (at > 0 ==> zeros > 0) && At(src, at, RunBytes(zeros, data))
    requires d + zeros + |data| <= |buf|
    ensures DecodeRun(src, at, buf, d)
         == Progress(at + |RunBytes(zeros, data)|, Splice(buf, d + zeros, data), d + zeros + |data|)
  {
    RunBytesAt(src, at, zeros, data);
  }

  lemma DecodeStep(src: seq<Byte>, i: nat, buf: seq<Byte>, d: nat, p: Progress)
    requires i < |src| && d <= |buf| && DecodeRun(src, i, buf, d) == p && p.Progress?
    ensures DecodeFrom(src, i, buf, d) == DecodeFrom(src, p.i, p.buf, p.d)
  {}

  lemma DecodeOne(src: seq<Byte>, at: nat, zeros: nat, data: seq<Byte>, buf: seq<Byte>, d: nat,
                  len: nat, buf': seq<Byte>, e: nat)
    requires zeros <= 0x3fff && 0 < |data| <= 0x3fff && (at > 0 ==> zeros > 0) && At(src, at, RunBytes(zeros, data))
    requires e == d + zeros + |data| <= |buf| && buf' == Splice(buf, d + zeros, data)
    requires len == |RunBytes(zeros, data)|
    ensures DecodeFrom(src, at, buf, d) == DecodeFrom(src, at + len, buf', e)
  {
    RunRoundTrip(src, at, zeros, data, buf, d);
    DecodeStep(src, at, buf, d, Progress(at + len, buf', e));
  }

  /** The whole of src from `at` on is the packed list. */
  ghost predicate Packed(runs: Runs, tail: bool, d: nat, cap: nat, src: seq<Byte>, at: nat)
    requires Proper(runs)
  {
    var p := Pack(runs, tail, d, cap);
    p.Some? && At(src, at, p.value) && at + |p.value| == |src|
  }

  lemma PackedRest(runs: Runs, tail: bool, d: nat, cap: nat, src: seq<Byte>, at: nat)
    requires Proper(runs) && runs.Run? && Packed(runs, tail, d, cap, src, at)
    ensures var bytes := RunBytes(runs.zeros, runs.data);
      At(src, at, bytes) && Packed(runs.rest, tail, d + |bytes|, cap, src, at + |bytes|)
  {
    var bytes := RunBytes(runs.zeros, runs.data);
    AtSplit(src, at, bytes, Pack(runs.rest, tail, d + |bytes|, cap).value);
  }

  /** Decoding the first of the packed runs leaves the others. */
  lemma DecodeHead(runs: Runs, tail: bool, d: nat, cap: nat, src: seq<Byte>, at: nat, len: nat,
                   buf: seq<Byte>, buf': seq<Byte>, i: nat, e: nat)
    requires Proper(runs) && runs.Run? && Packed(runs, tail, d, cap, src, at) && (at > 0 ==> runs.zeros > 0)
    requires e == i + runs.zeros + |runs.data| <= |buf| && buf' == Splice(buf, i + runs.zeros, runs.data)
    requires len == |RunBytes(runs.zeros, runs.data)|
    ensures Packed(runs.rest, tail, d + len, cap, src, at + len)
    ensures DecodeFrom(src, at, buf, i) == DecodeFrom(src, at + len, buf', e)
  {
    PackedRest(runs, tail, d, cap, src, at);
    DecodeOne(src, at, runs.zeros, runs.data, buf, i, len, buf', e);
  }

  /** The runs of the difference from position i on are packed in src from `at` on. */
  ghost predicate Pending(o: seq<Byte>, n: seq<Byte>, i: nat, d: nat, cap: nat, src: seq<Byte>, at: nat) {
    && |o| == |n| && i <= |o| && Proper(Diff(o, n, i))
    && (at > 0 && i < |o| ==> o[i] == n[i])
    && Packed(Diff(o, n, i), Tail(o, n), d, cap, src, at)
  }

  lemma PendingStep(o: seq<Byte>, n: seq<Byte>, i: nat, d: nat, cap: nat, src: seq<Byte>, at: nat)
    returns (e: nat, len: nat)
    requires Pending(o, n, i, d, cap, src, at) && Diff(o, n, i).Run?
    ensures i < e && Pending(o, n, e, d + len, cap, src, at + len)
    ensures DecodeFrom(src, at, Mixed(o, n, i), i) == DecodeFrom(src, at + len, Mixed(o, n, e), e)
  {
    var runs := Diff(o, n, i);
    e := DiffHead(o, n, i);
    len := |RunBytes(runs.zeros, runs.data)|;
    DecodeHead(runs, Tail(o, n), d, cap, src, at, len, Mixed(o, n, i), Mixed(o, n, e), i, e);
  }

  /** Decoding the runs from position i on turns the buffer changed so far into the new one. */
  lemma {:induction false} DiffRoundTrip(o: seq<Byte>, n: seq<Byte>, i: nat, d: nat, cap: nat, src: seq<Byte>, at: nat)
    requires Pending(o, n, i, d, cap, src, at)
    ensures DecodeFrom(src, at, Mixed(o, n, i), i) == Some(n)
    decreases |o| - i
  {
    if Diff(o, n, i).End? {
      NothingLeft(o, n, i);
    } else {
      var e, len := PendingStep(o, n, i, d, cap, src, at);
      DiffRoundTrip(o, n, e, d + len, cap, src, at + len);
    }
  }

  /** Decoding against the old contents gives back what was encoded. */
  lemma RoundTrip(o: seq<Byte>, n: seq<Byte>, cap: nat)
    requires |o| == |n| <= 0x3fff && Encode(o, n, cap).Some?
    ensures Decode(o, Encode(o, n, cap).value) == Some(n)
  {
    DiffProper(o, n, 0);
    assert Mixed(o, n, 0) == o;
    DiffRoundTrip(o, n, 0, 0, cap, Encode(o, n, cap).value, 0);
  }

  // ---------------------------------------------------------------- the loops of the source

  lemma {:induction false} EqualRunAt(o: seq<Byte>, n: seq<Byte>, i: nat, j: nat)
    requires |o| == |n| && i <= j <= |o|
    requires forall k | i <= k < j :: o[k] == n[k]
    ensures EqualRun(o, n, i) == j - i + EqualRun(o, n, j)
    decreases j - i
  {
    if i < j { EqualRunAt(o, n, i + 1, j); }
  }

  lemma {:induction false} ChangedRunAt(o: seq<Byte>, n: seq<Byte>, i: nat, j: nat)
    requires |o| == |n| && i <= j <= |o|
    requires forall k | i <= k < j :: o[k] != n[k]
    ensures ChangedRun(o, n, i) == j - i + ChangedRun(o, n, j)
    decreases j - i
  {
    if i < j { ChangedRunAt(o, n, i + 1, j); }
  }

  /** Two words are equal. */
  method SameWord(o: seq<Byte>, n: seq<Byte>, i: nat) returns (same: bool)
    requires |o| == |n| && i + WORD <= |o|
    ensures same <==> forall k | i <= k < i + WORD :: o[k] == n[k]
  {
    var ow, nw := Loaded(o), Loaded(n);
    same := Word(ow, i) == Word(nw, i);
    WordsEqual(o, n, ow, nw, i, same);
  }

  /** The bit expression on the difference of two words. */
  method WordEnds(o: seq<Byte>, n: seq<Byte>, i: nat) returns (found: bool)
    requires |o| == |n| && i + WORD <= |o|
    ensures found <==> Agrees(o, n, i)
  {
    var ow, nw := Loaded(o), Loaded(n);
    found := EndsHere(Word(ow, i) ^ Word(nw, i));
    WordsAgree(o, n, ow, nw, i, found);
  }

  /** The zero-run part of the encoder: bytes up to a word boundary, then words, then
      bytes again. */
  method SkipEqual(o: seq<Byte>, n: seq<Byte>, start: nat) returns (i: nat)
    requires |o| == |n| && start <= |o|
    ensures i == start + EqualRun(o, n, start)
  {
    i := start;
    var res := (|o| - i) % WORD;
    while res > 0 && o[i] == n[i]
      invariant start <= i && 0 <= res && i + res <= |o| && (|o| - i - res) % WORD == 0
      invariant forall k | start <= k < i :: o[k] == n[k]
    {
      i := i + 1;
      res := res - 1;
    }
    if res == 0 {
      var same := true;
      while i < |o| && same
        invariant start <= i <= |o| && (|o| - i) % WORD == 0
        invariant forall k | start <= k < i :: o[k] == n[k]
        decreases |o| - i, same
      {
        same := SameWord(o, n, i);
        if same {
          i := i + WORD;
        }
      }
      while i < |o| && o[i] == n[i]
        invariant start <= i <= |o|
        invariant forall k | start <= k < i :: o[k] == n[k]
      {
        i := i + 1;
      }
    }
    EqualRunAt(o, n, start, i);
  }

  /** The nonzero-run part. */
  method SkipChanged(o: seq<Byte>, n: seq<Byte>, start: nat) returns (i: nat)
    requires |o| == |n| && start <= |o|
    ensures i == start + ChangedRun(o, n, start)
  {
    i := start;
    var res := (|o| - i) % WORD;
    while res > 0 && o[i] != n[i]
      invariant start <= i && 0 <= res && i + res <= |o| && (|o| - i - res) % WORD == 0
      invariant forall k | start <= k < i :: o[k] != n[k]
    {
      i := i + 1;
      res := res - 1;
    }
    if res == 0 {
      while i < |o|
        invariant start <= i <= |o| && (|o| - i) % WORD == 0
        invariant forall k | start <= k < i :: o[k] != n[k]
      {
        var found := WordEnds(o, n, i);
        if found {
          ghost var w := i;
          while o[i] != n[i]
            invariant w <= i < w + WORD <= |o|
            invariant forall k | start <= k < i :: o[k] != n[k]
            invariant exists k :: i <= k < w + WORD && o[k] == n[k]
            decreases w + WORD - i
          {
            i := i + 1;
          }
          break;
        } else {
          i := i + WORD;
        }
      }
    }
    ChangedRunAt(o, n, start, i);
  }

  /** The bytes already in the output, followed by an encoding if there is one. */
  function After(dst: seq<Byte>, r: Option<seq<Byte>>): Option<seq<Byte>> {
    match r case None => None case Some(rest) => Some(dst + rest)
  }

  lemma Assoc(a: seq<Byte>, b: seq<Byte>, c: seq<Byte>)
    ensures a + (b + c) == a + b + c
  {}

  lemma AppendRun(dst: seq<Byte>, zeros: nat, data: seq<Byte>)
    requires zeros <= 0x3fff && |data| <= 0x3fff
    ensures dst + Uleb(zeros) + Uleb(|data|) + data == dst + RunBytes(zeros, data)
  {
    Assoc(dst, Uleb(zeros), Uleb(|data|));
    Assoc(dst, Uleb(zeros) + Uleb(|data|), data);
  }

  lemma PackOne(runs: Runs, tail: bool, cap: nat, dst: seq<Byte>)
    requires runs.Run? && Proper(runs)
    requires |dst| + 2 <= cap && |dst| + |Uleb(runs.zeros)| + 2 <= cap
    requires |dst| + |RunBytes(runs.zeros, runs.data)| <= cap
    ensures var dst' := dst + RunBytes(runs.zeros, runs.data);
      After(dst, Pack(runs, tail, |dst|, cap)) == After(dst', Pack(runs.rest, tail, |dst'|, cap))
  {
    var bytes := RunBytes(runs.zeros, runs.data);
    var r := Pack(runs.rest, tail, |dst| + |bytes|, cap);
    assert |dst + bytes| == |dst| + |bytes|;
    if r.Some? {
      Assoc(dst, bytes, r.value);
    }
  }

  lemma DiffUnfold(o: seq<Byte>, n: seq<Byte>, i: nat, j: nat, e: nat)
    requires |o| == |n| && i <= |o| && j == i + EqualRun(o, n, i) && j < |o| && e == j + ChangedRun(o, n, j)
    ensures Diff(o, n, i) == Run(j - i, Part(n, j, e), Diff(o, n, e))
  {}

  lemma EncodeOne(runs: Runs, tail: bool, cap: nat, dst: seq<Byte>, dst': seq<Byte>)
    requires runs.Run? && Proper(runs)
    requires dst' == dst + Uleb(runs.zeros) + Uleb(|runs.data|) + runs.data
    requires |dst| + 2 <= cap && |dst| + |Uleb(runs.zeros)| + 2 <= cap && |dst'| <= cap
    ensures After(dst, Pack(runs, tail, |dst|, cap)) == After(dst', Pack(runs.rest, tail, |dst'|, cap))
  {
    AppendRun(dst, runs.zeros, runs.data);
    PackOne(runs, tail, cap, dst);
  }

  lemma NoRoom(o: seq<Byte>, n: seq<Byte>, i: nat, d: nat, cap: nat)
    requires |o| == |n| <= 0x3fff && i < |o| && Proper(Diff(o, n, i))
    requires d + 2 > cap
    ensures Pack(Diff(o, n, i), Tail(o, n), d, cap).None?
  {}

  lemma NoRoomForRun(o: seq<Byte>, n: seq<Byte>, i: nat, j: nat, e: nat, d: nat, cap: nat)
    requires |o| == |n| <= 0x3fff && i <= |o| && j == i + EqualRun(o, n, i) && j < |o| && e == j + ChangedRun(o, n, j)
    requires Proper(Diff(o, n, i))
    requires d + |Uleb(j - i)| + 2 > cap || d + |Uleb(j - i)| + |Uleb(e - j)| + (e - j) > cap
    ensures Pack(Diff(o, n, i), Tail(o, n), d, cap).None?
  {
    DiffUnfold(o, n, i, j, e);
  }

  datatype Encoded = Overflow | Unchanged | More(dst: seq<Byte>, i: nat)

  /** One round of xbzrle_encode_buffer: an unchanged run and a changed run. */
  method EncodeNext(o: seq<Byte>, n: seq<Byte>, i: nat, dst: seq<Byte>, cap: nat, ghost tail: bool) returns (r: Encoded)
    requires |o| == |n| <= 0x3fff && i < |o| && Proper(Diff(o, n, i)) && tail == Tail(o, n)
    ensures r.Overflow? ==> Pack(Diff(o, n, i), tail, |dst|, cap).None?
    ensures r.Unchanged? ==> Pack(Diff(o, n, i), tail, |dst|, cap) == Some([])
    ensures r.More? ==>
      && i < r.i <= |o| && (r.i == |o| ==> !tail) && Proper(Diff(o, n, r.i))
      && After(dst, Pack(Diff(o, n, i), tail, |dst|, cap)) == After(r.dst, Pack(Diff(o, n, r.i), tail, |r.dst|, cap))
  {
    var j := SkipEqual(o, n, i);
    if |dst| + 2 > cap {
      NoRoom(o, n, i, |dst|, cap);
      return Overflow;
    }
    if j == |o| {
      return Unchanged;
    }
    var d1 := dst + Uleb(j - i);
    if |d1| + 2 > cap {
      NoRoomForRun(o, n, i, j, j + ChangedRun(o, n, j), |dst|, cap);
      return Overflow;
    }
    var e := SkipChanged(o, n, j);
    var d2 := d1 + Uleb(e - j);
    if |d2| + (e - j) > cap {
      NoRoomForRun(o, n, i, j, e, |dst|, cap);
      return Overflow;
    }
    DiffUnfold(o, n, i, j, e);
    EncodeOne(Diff(o, n, i), tail, cap, dst, d2 + Part(n, j, e));
    r := More(d2 + Part(n, j, e), e);
  }

  /** xbzrle_encode_buffer */
  method EncodeBuffer(o: seq<Byte>, n: seq<Byte>, cap: nat) returns (r: Option<seq<Byte>>)
    requires |o| == |n| <= 0x3fff
    ensures r == Encode(o, n, cap)
  {
    var dst, i := [], 0;
    DiffProper(o, n, 0);
    ghost var tail := Tail(o, n);
    assert forall more: seq<Byte> :: dst + more == more;
    while i < |o|
      invariant 0 <= i <= |o| && Proper(Diff(o, n, i))
      invariant Encode(o, n, cap) == After(dst, Pack(Diff(o, n, i), tail, |dst|, cap))
      invariant i == |o| ==> !tail
      decreases |o| - i
    {
      var next := EncodeNext(o, n, i, dst, cap, tail);
      match next
      case Overflow => return None;
      case Unchanged =>
        assert dst + [] == dst;
        return Some(dst);
      case More(dst', i') => dst, i := dst', i';
    }
    assert dst + [] == dst;
    r := Some(dst);
  }

  /** xbzrle_decode_buffer: the page is changed in place, one pair of runs at a time. */
  method DecodeBuffer(src: seq<Byte>, page: seq<Byte>) returns (r: Option<seq<Byte>>)
    ensures r == Decode(page, src)
  {
    var i, d, buf := 0, 0, page;
    while i < |src|
      invariant 0 <= i <= |src| && 0 <= d <= |buf| == |page|
      invariant Decode(page, src) == DecodeFrom(src, i, buf, d)
    {
      var step := DecodeNext(src, i, buf, d);
      if step.Stuck? {
        return None;
      }
      i, buf, d := step.i, step.buf, step.d;
    }
    r := Some(buf);
  }

  method DecodeNext(src: seq<Byte>, i0: nat, buf: seq<Byte>, d0: nat) returns (r: Progress)
    requires i0 < |src| && d0 <= |buf|
    ensures r == DecodeRun(src, i0, buf, d0)
  {
    var i, d := i0, d0;
    if |src| - i < 2 {
      return Stuck;
    }
    var z := UnUleb(src, i);
    if z.BadNumber? || (i > 0 && z.value == 0) {
      return Stuck;
    }
    i, d := i + z.length, d + z.value;
    if d > |buf| {
      return Stuck;
    }
    if |src| - i < 2 {
      return Stuck;
    }
    var nz := UnUleb(src, i);
    if nz.BadNumber? || nz.value == 0 {
      return Stuck;
    }
    i := i + nz.length;
    if d + nz.value > |buf| || i + nz.value > |src| {
      return Stuck;
    }
    r := Progress(i + nz.value, Splice(buf, d, Part(src, i, i + nz.value)), d + nz.value);
  }
}
