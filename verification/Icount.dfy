/**
 Instruction counting (cpus.c 135-148, 304-307, 1247-1282; cpu-exec.c 93-112, 652-678;
 include/exec/gen-icount.h 12-51): a budget of instructions is dealt out in portions of at most
 16 bits, and the virtual clock follows the instructions executed.
 */
module Icount {
  import opened Common

  const MAX_DECR: nat := 0xffff
  const CF_COUNT_MASK: nat := 0x7fff
  const INT32_MAX: int := 0x7fff_ffff

  /** The deadline in force: none, or one too far away, is the farthest. */
  function Deadline(d: int): (r: nat)
    ensures r <= INT32_MAX
  {
    if d < 0 || d > INT32_MAX then INT32_MAX else d
  }

  /** qemu_icount_round */
  function Round(count: nat, shift: nat): nat {
    (count + Pow2(shift) - 1) / Pow2(shift)
  }

  /** Rounding up loses nothing and adds less than one instruction. */
  lemma RoundBounds(count: nat, shift: nat)
    ensures count <= Round(count, shift) * Pow2(shift) < count + Pow2(shift)
  {
    DivMod(count + Pow2(shift) - 1, Pow2(shift));
  }

  /** Executing no more than the budget advances the clock by less than the deadline and one
      instruction. */
  lemma ClockAdvance(before: int, n: nat, deadline: nat, shift: nat)
    requires n <= Round(deadline, shift)
    ensures before * Pow2(shift) <= (before + n) * Pow2(shift) < before * Pow2(shift) + deadline + Pow2(shift)
    ensures (before + n) * Pow2(shift) == before * Pow2(shift) + n * Pow2(shift)
  {
    RoundBounds(deadline, shift);
    Products(before, n, Round(deadline, shift), Pow2(shift));
  }

  lemma Products(before: int, n: nat, count: nat, p: nat)
    requires n <= count
    ensures (before + n) * p == before * p + n * p && 0 <= n * p <= count * p
  {
    assert count * p == n * p + (count - n) * p;
  }

  /** What happens to the running CPU. */
  datatype Event = Block(insns: nat) | Interrupt | Leave

  /** The instructions of the blocks from i on that come before an interrupt or the end. */
  function Insns(events: seq<Event>, i: nat): nat
    requires i <= |events|
    decreases |events| - i
  {
    if i == |events| || !events[i].Block? then 0 else events[i].insns + Insns(events, i + 1)
  }

  class Cpu {
    var icount: int
    var bias: int
    const shift: nat
    /** icount_decr: the portion in hand, and whether an interrupt has made it negative. */
    var low: nat
    var interrupted: bool
    /** icount_extra: the rest of the budget. */
    var extra: nat
    ghost var executed: nat

    ghost predicate Valid()
      reads this
    {
      low <= MAX_DECR
    }

    /** The instructions executed since the counter started. */
    ghost function Time(): int
      reads this
    {
      icount - (low + extra)
    }

    /** cpu_get_icount_locked */
    function Clock(): int
      reads this
    {
      bias + (icount - (low + extra)) * Pow2(shift)
    }

    /** What the clock shows once so many instructions were executed. */
    lemma ClockAt(t: int)
      requires Time() == t
      ensures Clock() == bias + t * Pow2(shift)
    {}

    constructor (shift: nat)
      ensures Valid() && Time() == 0 && executed == 0 && this.shift == shift && Clock() == 0
    {
      this.shift, icount, bias, low, interrupted, extra, executed := shift, 0, 0, 0, false, 0, 0;
    }

    /** The code at the start of a translated block: the block runs only if the portion suffices. */
    method EnterBlock(insns: nat) returns (ran: bool)
      requires Valid()
      modifies `low, `executed
      ensures Valid() && ran == (!interrupted && insns <= old(low))
      ensures Time() == old(Time()) + (executed - old(executed)) && low + extra <= old(low + extra)
      ensures ran ==> executed == old(executed) + insns && low == old(low) - insns
      ensures !ran ==> low == old(low) && executed == old(executed)
    {
      ran := !interrupted && insns <= low;
      if ran {
        low := low - insns;
        executed := executed + insns;
      }
    }

    /** The portion is used up: refill it from the rest, or run what is left of it and stop. */
    method Expired(insns: nat) returns (leave: bool)
      requires Valid() && insns <= CF_COUNT_MASK && (interrupted || low < insns)
      modifies `low, `extra, `executed
      ensures Valid() && Time() == old(Time()) + (executed - old(executed)) && executed >= old(executed)
      ensures low + extra + (executed - old(executed)) == old(low + extra)
      ensures leave <==> interrupted || old(extra) == 0
      ensures !leave ==> executed == old(executed) && (extra > 0 ==> low == MAX_DECR)
      ensures leave && !interrupted ==> low == 0 && extra == 0
      ensures interrupted ==> low == old(low) && extra == old(extra) && executed == old(executed)
    {
      leave := interrupted || extra == 0;
      if !leave {
        extra := extra + low;
        low := if extra > MAX_DECR then MAX_DECR else extra;
        extra := extra - low;
      } else if !interrupted && low > 0 {
        NoCache(low);
      }
    }

    /** cpu_exec_nocache: so many instructions of the block that was too long; the clamp never
        takes effect. */
    method NoCache(maxCycles: nat)
      requires Valid() && !interrupted && maxCycles == low <= CF_COUNT_MASK
      modifies `low, `executed
      ensures Valid() && low == 0 && executed == old(executed) + maxCycles
    {
      var cycles := if maxCycles > CF_COUNT_MASK then CF_COUNT_MASK else maxCycles;
      var ran := EnterBlock(cycles);
    }

    /** The execution loop, for whatever blocks and interrupts come. */
    method Exec(events: seq<Event>)
      requires Valid() && forall i | 0 <= i < |events| && events[i].Block? :: 0 < events[i].insns <= CF_COUNT_MASK
      modifies `low, `extra, `executed, `interrupted
      ensures Valid() && Time() == old(Time()) + (executed - old(executed)) && executed >= old(executed)
      ensures low + extra + (executed - old(executed)) == old(low + extra)
      ensures executed - old(executed) == if old(interrupted) then 0 else Min(old(low + extra), Insns(events, 0))
    {
      var i, leave := 0, false;
      while i < |events| && !leave
        invariant 0 <= i <= |events| && Valid() && executed >= old(executed)
        invariant Time() == old(Time()) + (executed - old(executed))
        invariant low + extra + (executed - old(executed)) == old(low + extra)
        invariant old(interrupted) ==> interrupted && executed == old(executed)
        invariant !old(interrupted) && (leave || interrupted) ==>
          executed - old(executed) == Min(old(low + extra), Insns(events, 0))
        invariant !old(interrupted) && !leave && !interrupted ==>
          executed - old(executed) + Insns(events, i) == Insns(events, 0)
        decreases |events| - i, !leave, extra
      {
        match events[i] {
          case Leave => leave := true;
          case Interrupt => interrupted, i := true, i + 1;
          case Block(insns) =>
            var ran := EnterBlock(insns);
            if ran {
              i := i + 1;
            } else {
              leave := Expired(insns);
            }
        }
      }
    }

    /** The budget up to the deadline is dealt out. */
    method Deal(deadline: int)
      requires Valid()
      modifies `icount, `low, `extra
      ensures Valid() && Time() == old(Time()) && low + extra == Round(Deadline(deadline), shift)
      ensures low == Min(low + extra, MAX_DECR)
      ensures 0 <= deadline <= INT32_MAX ==> deadline <= (low + extra) * Pow2(shift) < deadline + Pow2(shift)
      ensures deadline < 0 || deadline > INT32_MAX ==>
        INT32_MAX <= (low + extra) * Pow2(shift) < INT32_MAX + Pow2(shift)
    {
      RoundBounds(Deadline(deadline), shift);
      icount := icount - (low + extra);
      low, extra := 0, 0;
      var count := Round(Deadline(deadline), shift);
      icount := icount + count;
      var decr := if count > MAX_DECR then MAX_DECR else count;
      low, extra := decr, count - decr;
    }

    /** What was not used is taken back. */
    method FoldBack()
      modifies `icount, `low, `extra, `interrupted
      ensures Valid() && low == 0 && extra == 0 && !interrupted && Time() == icount == old(Time())
    {
      icount := icount - (low + extra);
      low, interrupted, extra := 0, false, 0;
    }

    /** tcg_cpu_exec: every instruction is accounted for, and the virtual clock does not run past the
        deadline by a whole instruction. */
    method TcgCpuExec(deadline: int, events: seq<Event>)
      requires Valid() && forall i | 0 <= i < |events| && events[i].Block? :: 0 < events[i].insns <= CF_COUNT_MASK
      modifies `icount, `low, `extra, `executed, `interrupted
      ensures Valid() && low == 0 && extra == 0 && !interrupted
      ensures Time() == icount == old(Time()) + (executed - old(executed)) && executed >= old(executed)
      ensures old(Clock()) <= Clock() == old(Clock()) + (executed - old(executed)) * Pow2(shift)
      ensures 0 <= deadline <= INT32_MAX ==> Clock() < old(Clock()) + deadline + Pow2(shift)
      ensures deadline < 0 || deadline > INT32_MAX ==> Clock() < old(Clock()) + INT32_MAX + Pow2(shift)
      ensures old(interrupted) ==> executed == old(executed)
      ensures !old(interrupted) && 0 <= deadline <= INT32_MAX ==>
        executed - old(executed) == Min(Round(deadline, shift), Insns(events, 0))
      ensures !old(interrupted) && (deadline < 0 || deadline > INT32_MAX) ==>
        executed - old(executed) == Min(Round(INT32_MAX, shift), Insns(events, 0))
    {
      ghost var t, n := Time(), 0;
      ClockAt(t);
      Deal(deadline);
      Exec(events);
      FoldBack();
      n := executed - old(executed);
      ClockAt(t + n);
      ClockAdvance(t, n, Deadline(deadline), shift);
    }
  }
}
