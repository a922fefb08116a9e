/**
 Interrupt routes (kvm-all.c 937-1231): a bitmap of the interrupt lines in use, the routing table
 that is handed to the kernel, and a hash table of the message routes that were made on the fly.
 */
module KvmRoutes {
  import opened Common

  const TWO32: nat := 0x1_0000_0000

  const HASH_SIZE: nat := 256

  datatype Msg = Msg(address: nat, data: nat)

  datatype Entry = Irqchip(gsi: nat, chip: nat, pin: nat) | Msi(gsi: nat, lo: nat, hi: nat, data: nat)

  /** The route of a message through a line. */
  function Route(gsi: nat, m: Msg): Entry {
    Msi(gsi, m.address % TWO32, m.address / TWO32, m.data)
  }

  predicate Carries(e: Entry, m: Msg) {
    e.Msi? && e.lo == m.address % TWO32 && e.hi == m.address / TWO32 && e.data == m.data
  }

  predicate SameMsg(e: Entry, f: Entry) {
    e.Msi? && f.Msi? && e.lo == f.lo && e.hi == f.hi && e.data == f.data
  }

  /** The entry holds the message: the low 32 bits of the address, the high ones, and the data. */
  lemma RouteMeans(e: Entry, g: nat, m: Msg)
    ensures e == Route(g, m) <==>
      e.Msi? && e.gsi == g && e.lo < TWO32 && e.lo + TWO32 * e.hi == m.address && e.data == m.data
    ensures Carries(e, m) <==> e.Msi? && e.lo < TWO32 && e.lo + TWO32 * e.hi == m.address && e.data == m.data
  {
    if e.Msi? && e.lo < TWO32 && e.lo + TWO32 * e.hi == m.address {
      DivUnique(m.address, TWO32, e.hi, e.lo);
    }
  }

  /** The two halves of the address name the message. */
  lemma CarriesOne(e: Entry, m: Msg, n: Msg)
    requires Carries(e, m)
    ensures Carries(e, n) <==> m == n
  {
    assert m.address == TWO32 * (m.address / TWO32) + m.address % TWO32;
    assert n.address == TWO32 * (n.address / TWO32) + n.address % TWO32;
  }

  // ---------------------------------------------------------------- releasing a line

  /** The loop of kvm_irqchip_release_virq: the last entry takes the place of one that goes, and is
      not looked at again. */
  function ReleaseFrom(s: seq<Entry>, v: nat, i: nat): seq<Entry>
    requires i <= |s|
    decreases |s| - i
  {
    if i == |s| then s
    else if s[i].gsi != v then ReleaseFrom(s, v, i + 1)
    else if i == |s| - 1 then s[..i]
    else ReleaseFrom(s[i := s[|s| - 1]][..|s| - 1], v, i + 1)
  }

  function Matches(s: seq<Entry>, v: nat, lo: nat, hi: nat): nat
    requires lo <= hi <= |s|
  {
    if lo == hi then 0 else Matches(s, v, lo, hi - 1) + if s[hi - 1].gsi == v then 1 else 0
  }

  /** The entries behind the last one of the line. */
  function Trailing(s: seq<Entry>, v: nat, lo: nat, hi: nat): nat
    requires lo <= hi <= |s|
  {
    if lo == hi || s[hi - 1].gsi == v then 0 else 1 + Trailing(s, v, lo, hi - 1)
  }

  /** No entry of the line comes before position i. */
  ghost predicate Without(s: seq<Entry>, v: nat, i: nat) {
    forall k | 0 <= k < |s| && k < i :: s[k].gsi != v
  }

  lemma {:induction false} CountFront(s: seq<Entry>, v: nat, lo: nat, hi: nat)
    requires lo < hi <= |s|
    ensures Matches(s, v, lo, hi) == Matches(s, v, lo + 1, hi) + if s[lo].gsi == v then 1 else 0
    ensures Matches(s, v, lo + 1, hi) > 0 ==> Trailing(s, v, lo, hi) == Trailing(s, v, lo + 1, hi)
    decreases hi
  {
    if lo + 1 < hi {
      CountFront(s, v, lo, hi - 1);
    }
  }

  lemma {:induction false} CountSame(s: seq<Entry>, t: seq<Entry>, v: nat, lo: nat, hi: nat)
    requires lo <= hi <= |s| && hi <= |t| && forall k | lo <= k < hi :: s[k] == t[k]
    ensures Matches(s, v, lo, hi) == Matches(t, v, lo, hi) && Trailing(s, v, lo, hi) == Trailing(t, v, lo, hi)
    decreases hi
  {
    if lo < hi {
      CountSame(s, t, v, lo, hi - 1);
    }
  }

  /** What is left behind stays. */
  lemma {:induction false} ReleaseKeeps(s: seq<Entry>, v: nat, i: nat, k: nat)
    requires k < i <= |s|
    ensures k < |ReleaseFrom(s, v, i)| && ReleaseFrom(s, v, i)[k] == s[k]
    decreases |s| - i
  {
    if i < |s| {
      if s[i].gsi != v {
        ReleaseKeeps(s, v, i + 1, k);
      } else if i < |s| - 1 {
        ReleaseKeeps(s[i := s[|s| - 1]][..|s| - 1], v, i + 1, k);
      }
    }
  }

  /** The line is free of entries afterwards exactly if at least as many entries stand behind its last
      one as it has others. */
  lemma {:induction false} ReleaseClears(s: seq<Entry>, v: nat, i: nat)
    requires i <= |s| && Without(s, v, i)
    ensures var r := ReleaseFrom(s, v, i);
      Without(r, v, |r|) <==> Matches(s, v, i, |s|) <= Trailing(s, v, i, |s|) + 1
    decreases |s| - i
  {
    var n := |s|;
    if i < n {
      CountFront(s, v, i, n);
      if s[i].gsi != v {
        ReleaseClears(s, v, i + 1);
      } else if i < n - 1 {
        var t := s[i := s[n - 1]][..n - 1];
        if s[n - 1].gsi == v {
          ReleaseKeeps(t, v, i + 1, i);
        } else {
          ReleaseClears(t, v, i + 1);
          CountSame(s, t, v, i + 1, n - 1);
          CountFront(s, v, i, n - 1);
        }
      }
    }
  }

  /** Entries of other lines are neither lost nor doubled, in any case. */
  lemma {:induction false} ReleaseConserves(s: seq<Entry>, v: nat, i: nat, e: Entry)
    requires i <= |s| && e.gsi != v
    ensures multiset(ReleaseFrom(s, v, i))[e] == multiset(s)[e]
    decreases |s| - i
  {
    if i < |s| {
      if s[i].gsi != v {
        ReleaseConserves(s, v, i + 1, e);
      } else {
        DropMatching(s, v, i, e);
        if i < |s| - 1 {
          ReleaseConserves(s[i := s[|s| - 1]][..|s| - 1], v, i + 1, e);
        }
      }
    }
  }

  lemma LastOff(s: seq<Entry>)
    requires |s| > 0
    ensures multiset(s) == multiset(s[..|s| - 1]) + multiset{s[|s| - 1]}
  {
    assert s == s[..|s| - 1] + [s[|s| - 1]];
  }

  lemma DropMatching(s: seq<Entry>, v: nat, i: nat, e: Entry)
    requires i < |s| && s[i].gsi == v && e.gsi != v
    ensures multiset(s[i := s[|s| - 1]][..|s| - 1])[e] == multiset(s)[e]
    ensures i == |s| - 1 ==> multiset(s[..i])[e] == multiset(s)[e]
  {
    var t := s[i := s[|s| - 1]];
    LastOff(s);
    LastOff(t);
    assert t[|s| - 1] == s[|s| - 1];
    assert multiset(t) == multiset(s) - multiset{s[i]} + multiset{s[|s| - 1]};
  }

  // ---------------------------------------------------------------- what always holds

  ghost predicate HasGsi(s: seq<Entry>, g: nat) {
    exists e :: e in s && e.gsi == g
  }

  /** A line is marked exactly if it is routed, or if there is no such line. */
  ghost predicate BitsOk(used: seq<bool>, count: nat, s: seq<Entry>) {
    && |used| == RoundUp(count, 32) && (forall e <- s :: e.gsi < count)
    && forall g | 0 <= g < |used| :: used[g] <==> g >= count || HasGsi(s, g)
  }

  /** The line of a message has no other route. */
  ghost predicate Alone(s: seq<Entry>) {
    forall e <- s | e.Msi? :: multiset(s)[e] == 1 && forall f <- s | f.gsi == e.gsi :: f == e
  }

  /** Every route made on the fly is in the routing table, in the bucket of its message, and no message
      has two of them. */
  ghost predicate HashOk(hash: seq<seq<Entry>>, s: seq<Entry>) {
    && |hash| == HASH_SIZE
    && (forall h, i | 0 <= h < HASH_SIZE && 0 <= i < |hash[h]| ::
          hash[h][i] in s && hash[h][i].Msi? && hash[h][i].data % HASH_SIZE == h)
    && forall h, i, j | 0 <= h < HASH_SIZE && 0 <= i < j < |hash[h]| :: !SameMsg(hash[h][i], hash[h][j])
  }

  /** The kernel routes the line of a message to that message and to nothing else. */
  ghost predicate KernelOk(kernel: seq<Entry>, s: seq<Entry>) {
    forall e <- s | e.Msi? :: e in kernel && forall f <- kernel | f.gsi == e.gsi :: f == e
  }

  /** The route was made on the fly. */
  ghost predicate Dynamic(hash: seq<seq<Entry>>, e: Entry) {
    exists h, i :: 0 <= h < |hash| && 0 <= i < |hash[h]| && hash[h][i] == e
  }

  /** A line that a caller holds: it routes at most one message, and not one made on the fly. */
  ghost predicate Held(hash: seq<seq<Entry>>, s: seq<Entry>, v: nat) {
    forall e <- s | e.gsi == v :: e.Msi? && !Dynamic(hash, e)
  }

  /** The line cannot be had: it is routed, and not just on the fly. */
  ghost predicate Taken(hash: seq<seq<Entry>>, s: seq<Entry>, direct: bool, g: nat) {
    exists e :: e in s && e.gsi == g && (direct || !Dynamic(hash, e))
  }

  /** Raising the line sends this message and nothing else. */
  ghost predicate Delivers(kernel: seq<Entry>, g: nat, m: Msg) {
    Route(g, m) in kernel && forall f <- kernel | f.gsi == g :: f == Route(g, m)
  }

  /** What the kernel has for the line. */
  lemma DeliversMeans(kernel: seq<Entry>, g: nat, m: Msg, f: Entry)
    requires Delivers(kernel, g, m) && f in kernel && f.gsi == g
    ensures f.Msi? && f.lo < TWO32 && f.lo + TWO32 * f.hi == m.address && f.data == m.data
  {
    RouteMeans(f, g, m);
  }

  /** The routes that callers hold are the same. */
  ghost predicate SameHeld(hash: seq<seq<Entry>>, s: seq<Entry>, hash': seq<seq<Entry>>, s': seq<Entry>) {
    forall e :: e in s' && !Dynamic(hash', e) <==> e in s && !Dynamic(hash, e)
  }

  // ---------------------------------------------------------------- entries come and go

  lemma ReleasedMembers(s: seq<Entry>, v: nat, e: Entry)
    requires e.gsi != v
    ensures e in ReleaseFrom(s, v, 0) <==> e in s
  {
    ReleaseConserves(s, v, 0, e);
    assert e in s <==> multiset(s)[e] > 0;
    assert e in ReleaseFrom(s, v, 0) <==> multiset(ReleaseFrom(s, v, 0))[e] > 0;
  }

  /** Bitmap and routing table agree after a release exactly if the table lost every entry of the line. */
  lemma BitsReleased(used: seq<bool>, count: nat, s: seq<Entry>, v: nat)
    requires BitsOk(used, count, s) && v < count
    ensures BitsOk(used[v := false], count, ReleaseFrom(s, v, 0)) <==>
      Matches(s, v, 0, |s|) <= Trailing(s, v, 0, |s|) + 1
  {
    var r := ReleaseFrom(s, v, 0);
    ReleaseClears(s, v, 0);
    forall e: Entry | e.gsi != v ensures e in r <==> e in s {
      ReleasedMembers(s, v, e);
    }
    assert Without(r, v, |r|) <==> !HasGsi(r, v);
    forall g | 0 <= g < |used| && g != v ensures HasGsi(r, g) <==> HasGsi(s, g) {
      if HasGsi(r, g) {
        var e :| e in r && e.gsi == g;
        assert e in s;
      }
      if HasGsi(s, g) {
        var e :| e in s && e.gsi == g;
        assert e in r;
      }
    }
  }

  lemma {:induction false} MatchesCopies(s: seq<Entry>, v: nat, e: Entry, n: nat)
    requires n <= |s| && e.gsi == v && forall f <- s | f.gsi == v :: f == e
    ensures Matches(s, v, 0, n) == multiset(s[..n])[e]
  {
    if n > 0 {
      MatchesCopies(s, v, e, n - 1);
      LastOff(s[..n]);
      assert s[..n][..n - 1] == s[..n - 1];
    }
  }

  lemma {:induction false} NoMatches(s: seq<Entry>, v: nat, n: nat)
    requires n <= |s| && !HasGsi(s, v)
    ensures Matches(s, v, 0, n) == 0
  {
    if n > 0 {
      NoMatches(s, v, n - 1);
      assert s[n - 1] in s;
    }
  }

  /** The line of a message loses its only route. */
  lemma MessageReleased(used: seq<bool>, count: nat, s: seq<Entry>, v: nat)
    requires BitsOk(used, count, s) && Alone(s) && v < count && forall e <- s | e.gsi == v :: e.Msi?
    ensures var r := ReleaseFrom(s, v, 0);
      && BitsOk(used[v := false], count, r) && Alone(r)
      && forall e :: e in r <==> e in s && e.gsi != v
  {
    var r := ReleaseFrom(s, v, 0);
    if HasGsi(s, v) {
      var e :| e in s && e.gsi == v;
      MatchesCopies(s, v, e, |s|);
      assert s[..|s|] == s;
    } else {
      NoMatches(s, v, |s|);
    }
    BitsReleased(used, count, s, v);
    assert !HasGsi(r, v);
    forall e ensures e in r <==> e in s && e.gsi != v {
      if e.gsi != v {
        ReleasedMembers(s, v, e);
      }
    }
    forall e <- r | e.Msi? ensures multiset(r)[e] == 1 {
      ReleaseConserves(s, v, 0, e);
    }
  }

  /** Where bitmap and table part: of two routes of a line, the second takes the place of the first and
      stays, while the line is marked free. */
  lemma TwoRoutes(used: seq<bool>, count: nat, a: Entry, b: Entry)
    requires a.gsi == b.gsi < count && BitsOk(used, count, [a, b])
    ensures b in ReleaseFrom([a, b], a.gsi, 0)
    ensures !BitsOk(used[a.gsi := false], count, ReleaseFrom([a, b], a.gsi, 0))
  {
    assert [a, b][0 := b][..1] == [b];
    assert ReleaseFrom([b], a.gsi, 1) == [b];
    assert HasGsi([b], a.gsi);
  }

  lemma Added(used: seq<bool>, count: nat, s: seq<Entry>, e: Entry)
    requires BitsOk(used, count, s) && Alone(s) && e.gsi < count
    requires e.Msi? ==> !HasGsi(s, e.gsi)
    requires forall f <- s | f.gsi == e.gsi :: f.Irqchip?
    ensures BitsOk(used[e.gsi := true], count, s + [e]) && Alone(s + [e])
  {
    var t := s + [e];
    forall g | 0 <= g < |used| ensures HasGsi(t, g) <==> HasGsi(s, g) || g == e.gsi {
      if HasGsi(s, g) {
        var f :| f in s && f.gsi == g;
        assert f in t;
      }
      if g == e.gsi {
        assert e in t;
      }
    }
    assert multiset(t) == multiset(s) + multiset{e};
    assert e in s ==> HasGsi(s, e.gsi);
  }

  lemma Replaced(used: seq<bool>, count: nat, s: seq<Entry>, n: nat, e: Entry)
    requires BitsOk(used, count, s) && Alone(s) && n < |s| && s[n].Msi? && e.Msi? && e.gsi == s[n].gsi
    ensures BitsOk(used, count, s[n := e]) && Alone(s[n := e])
    ensures forall f :: f in s[n := e] <==> f == e || (f in s && f != s[n])
  {
    var t := s[n := e];
    assert multiset(t) == multiset(s) - multiset{s[n]} + multiset{e};
    assert s[n] in s && multiset(s)[s[n]] == 1;
    assert e in s ==> e == s[n];
    assert forall f :: f in t <==> f in multiset(t);
    assert forall f :: f in s <==> f in multiset(s);
    assert t[n] == e;
    forall g | 0 <= g < |used| ensures HasGsi(t, g) <==> HasGsi(s, g) {
      if HasGsi(s, g) {
        var f :| f in s && f.gsi == g;
        assert f in t || e in t;
      }
    }
  }

  // ---------------------------------------------------------------- the routing state

  datatype Sent = Direct | Line(gsi: nat) | NoSpace

  class Routing {
    const gsiCount: nat
    const directMsi: bool

    var used: seq<bool>
    var routes: seq<Entry>
    var room: nat
    var hash: seq<seq<Entry>>
    /** The routing table that the kernel was given last. */
    var kernel: seq<Entry>

    ghost predicate Valid()
      reads this
    {
      && BitsOk(used, gsiCount, routes) && Alone(routes) && HashOk(hash, routes) && KernelOk(kernel, routes)
      && |routes| <= room
    }

    /** kvm_init_irq_routing: the bits beyond the last line count as used. */
    constructor (gsiCount: nat, directMsi: bool)
      ensures Valid() && routes == [] && forall e :: !Dynamic(hash, e)
      ensures this.gsiCount == gsiCount && this.directMsi == directMsi
    {
      this.gsiCount, this.directMsi := gsiCount, directMsi;
      used := seq(RoundUp(gsiCount, 32), _ => false);
      routes, room, kernel := [], 0, [];
      hash := seq(HASH_SIZE, _ => []);
      new;
      var i := gsiCount;
      while i < RoundUp(gsiCount, 32)
        invariant gsiCount <= i <= |used| == RoundUp(gsiCount, 32)
        invariant forall g | 0 <= g < |used| :: used[g] <==> gsiCount <= g < i
        invariant routes == [] && kernel == [] && hash == seq(HASH_SIZE, _ => [])
      {
        used := used[i := true];
        i := i + 1;
      }
    }

    /** kvm_add_routing_entry */
    method AddEntry(e: Entry)
      requires |routes| <= room && e.gsi < |used|
      modifies `routes, `used, `room
      ensures routes == old(routes) + [e] && used == old(used)[e.gsi := true] && |routes| <= room
    {
      if |routes| == room {
        room := Max(room * 2, 64);
      }
      routes := routes + [e];
      used := used[e.gsi := true];
    }

    /** kvm_irqchip_add_irq_route.  The invariant holds on exactly if the line carries no message. */
    method AddIrqRoute(irq: nat, chip: nat, pin: nat)
      requires Valid() && irq < gsiCount && pin < gsiCount
      modifies `routes, `used, `room
      ensures routes == old(routes) + [Irqchip(irq, chip, pin)] && used == old(used)[irq := true]
      ensures Valid() <==> forall e <- old(routes) | e.gsi == irq :: e.Irqchip?
    {
      var e := Irqchip(irq, chip, pin);
      AddEntry(e);
      if forall f <- old(routes) | f.gsi == irq :: f.Irqchip? {
        Added(old(used), gsiCount, old(routes), e);
      } else {
        ghost var f :| f in old(routes) && f.gsi == irq && f.Msi?;
        assert f in routes && e in routes;
      }
    }

    /** kvm_irqchip_release_virq.  The line of a message is released cleanly; of any other line exactly
        under the condition stated. */
    method ReleaseVirq(v: nat)
      requires v < |used|
      modifies `routes, `used
      ensures routes == ReleaseFrom(old(routes), v, 0) && used == old(used)[v := false] && |routes| <= |old(routes)|
      ensures old(BitsOk(used, gsiCount, routes)) && v < gsiCount ==>
        (BitsOk(used, gsiCount, routes) <==>
           old(Matches(routes, v, 0, |routes|) <= Trailing(routes, v, 0, |routes|) + 1))
      ensures old(Valid()) && v < gsiCount && Held(hash, old(routes), v) ==>
        Valid() && forall e :: e in routes <==> e in old(routes) && e.gsi != v
    {
      var i := 0;
      while i < |routes|
        invariant 0 <= i && |routes| <= |old(routes)| && used == old(used)
        invariant i <= |routes| ==> ReleaseFrom(routes, v, i) == ReleaseFrom(old(routes), v, 0)
        invariant i > |routes| ==> routes == ReleaseFrom(old(routes), v, 0)
        decreases |routes| - i
      {
        if routes[i].gsi == v {
          assert i == |routes| - 1 ==> routes[i := routes[i]][..i] == routes[..i];
          routes := routes[i := routes[|routes| - 1]][..|routes| - 1];
        }
        i := i + 1;
      }
      used := used[v := false];
      if old(BitsOk(used, gsiCount, routes)) && v < gsiCount {
        BitsReleased(old(used), gsiCount, old(routes), v);
        if old(Valid()) && Held(hash, old(routes), v) {
          MessageReleased(old(used), gsiCount, old(routes), v);
        }
      }
    }

    /** One route made on the fly goes. */
    method FlushHead(h: nat)
      requires Valid() && h < HASH_SIZE && hash[h] != []
      modifies `routes, `used, `hash
      ensures Valid() && hash == old(hash)[h := old(hash)[h][1..]]
      ensures forall e :: e in routes <==> e in old(routes) && e != old(hash)[h][0]
      ensures forall e :: Dynamic(hash, e) <==> Dynamic(old(hash), e) && e != old(hash)[h][0]
    {
      var head := hash[h][0];
      assert head in routes;
      MessageReleased(used, gsiCount, routes, head.gsi);
      ReleaseVirq(head.gsi);
      hash := hash[h := hash[h][1..]];
      HeadGone(old(hash), hash, old(routes), h);
    }

    /** kvm_flush_dynamic_msi_routes: exactly the routes made on the fly go. */
    method Flush()
      requires Valid()
      modifies `routes, `used, `hash
      ensures Valid() && forall e :: !Dynamic(hash, e)
      ensures forall e :: e in routes <==> e in old(routes) && !Dynamic(old(hash), e)
    {
      var h := 0;
      while h < HASH_SIZE
        invariant 0 <= h <= HASH_SIZE && Valid() && forall k | 0 <= k < h :: hash[k] == []
        invariant forall e :: e in routes <==> e in old(routes) && (Dynamic(old(hash), e) ==> Dynamic(hash, e))
        invariant forall e :: Dynamic(hash, e) ==> Dynamic(old(hash), e)
      {
        while hash[h] != []
          invariant Valid() && forall k | 0 <= k < h :: hash[k] == []
          invariant forall e :: e in routes <==> e in old(routes) && (Dynamic(old(hash), e) ==> Dynamic(hash, e))
          invariant forall e :: Dynamic(hash, e) ==> Dynamic(old(hash), e)
          decreases |hash[h]|
        {
          FlushHead(h);
        }
        h := h + 1;
      }
    }

    /** ffs of the complement of a word: the first line of the word that is not used, or 32. */
    method FirstZero(word: nat) returns (bit: nat)
      requires 32 * (word + 1) <= |used|
      ensures bit <= 32 && (bit < 32 ==> !used[32 * word + bit])
      ensures forall k | 32 * word <= k < 32 * word + bit :: used[k]
    {
      bit := 0;
      while bit < 32 && used[32 * word + bit]
        invariant bit <= 32 && forall k | 32 * word <= k < 32 * word + bit :: used[k]
      {
        bit := bit + 1;
      }
    }

    /** The lowest unused line. */
    method FirstFree() returns (r: Option<nat>)
      requires |used| == RoundUp(gsiCount, 32)
      ensures r.Some? ==> r.value < |used| && !used[r.value] && forall g | 0 <= g < r.value :: used[g]
      ensures r.None? ==> forall g | 0 <= g < |used| :: used[g]
    {
      var i := 0;
      while i < |used| / 32
        invariant 32 * i <= |used| && forall g | 0 <= g < 32 * i :: used[g]
      {
        var bit := FirstZero(i);
        if bit < 32 {
          return Some(bit + i * 32);
        }
        i := i + 1;
      }
      r := None;
    }

    /** kvm_irqchip_get_virq: the lowest free line.  Routes made on the fly give way if there is no other
        line, and there is no line exactly if all are taken for good. */
    method GetVirq() returns (r: Option<nat>)
      requires Valid()
      modifies `routes, `used, `hash
      ensures Valid() && SameHeld(old(hash), old(routes), hash, routes)
      ensures r.Some? ==> r.value < gsiCount && !HasGsi(routes, r.value)
      ensures r.Some? ==> forall g | 0 <= g < r.value :: HasGsi(routes, g)
      ensures r.None? <==> forall g | 0 <= g < gsiCount :: Taken(old(hash), old(routes), directMsi, g)
      ensures (exists g :: 0 <= g < gsiCount && !HasGsi(old(routes), g)) ==> routes == old(routes) && hash == old(hash)
      ensures directMsi ==> hash == old(hash)
      ensures forall e | Dynamic(hash, e) :: Dynamic(old(hash), e)
    {
      r := FirstFree();
      if r.None? && !directMsi {
        Flush();
        r := FirstFree();
      }
      forall g | 0 <= g < gsiCount
        ensures Taken(old(hash), old(routes), directMsi, g) ==> HasGsi(routes, g)
        ensures r.None? && HasGsi(routes, g) ==> Taken(old(hash), old(routes), directMsi, g)
      {
        if Taken(old(hash), old(routes), directMsi, g) {
          var e :| e in old(routes) && e.gsi == g && (directMsi || !Dynamic(old(hash), e));
          assert e in routes;
        }
        if r.None? && HasGsi(routes, g) {
          var e :| e in routes && e.gsi == g;
          assert e in old(routes) && (directMsi || !Dynamic(old(hash), e));
        }
      }
    }

    /** kvm_lookup_msi_route: only the bucket of the message is searched, and that is enough. */
    method LookupRoute(m: Msg) returns (r: Option<Entry>)
      requires HashOk(hash, routes)
      ensures r.Some? ==> Dynamic(hash, r.value) && r.value == Route(r.value.gsi, m)
      ensures r.None? ==> forall e | Dynamic(hash, e) :: !Carries(e, m)
    {
      var bucket := hash[m.data % HASH_SIZE];
      var i := 0;
      while i < |bucket|
        invariant 0 <= i <= |bucket| && forall j | 0 <= j < i :: !Carries(bucket[j], m)
      {
        if Carries(bucket[i], m) {
          return Some(bucket[i]);
        }
        i := i + 1;
      }
      r := None;
    }

    /** A free line is routed to the message, and the kernel is told. */
    method RouteLine(g: nat, m: Msg)
      requires Valid() && g < gsiCount && !HasGsi(routes, g)
      modifies `routes, `used, `room, `kernel
      ensures Valid() && routes == old(routes) + [Route(g, m)] && Delivers(kernel, g, m)
    {
      Added(used, gsiCount, routes, Route(g, m));
      AddEntry(Route(g, m));
      assert Route(g, m) in routes;
      kernel := routes;
    }

    /** kvm_irqchip_send_msi: the line that is raised sends exactly the message, through a route made
        now if there is none.  Routes that callers hold are not touched. */
    method SendMsi(m: Msg) returns (r: Sent)
      requires Valid()
      modifies `routes, `used, `room, `hash, `kernel
      ensures Valid() && SameHeld(old(hash), old(routes), hash, routes) && (r.Direct? <==> directMsi)
      ensures r.Line? ==> Delivers(kernel, r.gsi, m) && Route(r.gsi, m) in routes && Dynamic(hash, Route(r.gsi, m))
      ensures r.NoSpace? ==> forall g | 0 <= g < gsiCount :: Taken(old(hash), old(routes), false, g)
      ensures forall e | Dynamic(old(hash), e) && Carries(e, m) && !directMsi ::
                r == Line(e.gsi) && routes == old(routes)
    {
      if directMsi {
        return Direct;
      }
      var route := LookupRoute(m);
      if route.Some? {
        assert route.value in routes;
        OnlyRoute(hash, routes, m);
        return Line(route.value.gsi);
      }
      var virq := GetVirq();
      if virq.None? {
        return NoSpace;
      }
      ghost var hash1, routes1 := hash, routes;
      RouteLine(virq.value, m);
      hash := hash[m.data % HASH_SIZE := hash[m.data % HASH_SIZE] + [Route(virq.value, m)]];
      Inserted(hash1, hash, routes1, routes, Route(virq.value, m), m);
      r := Line(virq.value);
    }

    /** kvm_irqchip_add_msi_route: the caller gets a line of its own for the message. */
    method AddMsiRoute(m: Msg, enabled: bool) returns (r: Option<nat>)
      requires Valid()
      modifies `routes, `used, `room, `hash, `kernel
      ensures Valid() && (!enabled ==> r.None? && routes == old(routes) && hash == old(hash))
      ensures enabled ==> (r.None? <==> forall g | 0 <= g < gsiCount :: Taken(old(hash), old(routes), directMsi, g))
      ensures r.None? ==> SameHeld(old(hash), old(routes), hash, routes)
      ensures r.Some? ==> Delivers(kernel, r.value, m) && Held(hash, routes, r.value)
      ensures r.Some? ==> forall e ::
        e in routes && !Dynamic(hash, e) <==> (e in old(routes) && !Dynamic(old(hash), e)) || e == Route(r.value, m)
    {
      if !enabled {
        return None;
      }
      r := GetVirq();
      if r.Some? {
        assert Route(r.value, m) in routes ==> HasGsi(routes, r.value);
        RouteLine(r.value, m);
      }
    }

    /** kvm_irqchip_update_msi_route: the first route of the line is overwritten, whatever it is, and the
        kernel is told unless nothing changes.  A line that a caller holds then delivers the new message. */
    method UpdateMsiRoute(v: nat, m: Msg) returns (ok: bool)
      requires Valid()
      modifies `routes, `kernel
      ensures ok <==> HasGsi(old(routes), v)
      ensures routes == if ok then old(routes)[First(old(routes), v) := Route(v, m)] else old(routes)
      ensures kernel == if routes == old(routes) then old(kernel) else routes
      ensures Held(hash, old(routes), v) ==> Valid() && (ok ==> Delivers(kernel, v, m))
      ensures Held(hash, old(routes), v) ==>
        forall e :: e in routes <==> (e in old(routes) && e.gsi != v) || (ok && e == Route(v, m))
    {
      var n := 0;
      while n < |routes| && routes[n].gsi != v
        invariant 0 <= n <= |routes| && forall k | 0 <= k < n :: routes[k].gsi != v
      {
        n := n + 1;
      }
      if n == |routes| {
        return false;
      }
      FirstIs(routes, v, n);
      assert routes[n] in routes;
      if routes[n] != Route(v, m) {
        if Held(hash, routes, v) {
          Replaced(used, gsiCount, routes, n, Route(v, m));
          assert forall e | Dynamic(hash, e) :: e != routes[n];
        }
        routes := routes[n := Route(v, m)];
        kernel := routes;
        assert routes[n] != old(routes)[n];
      }
      ok := true;
    }
  }

  /** The position of the first route of a line. */
  ghost function First(s: seq<Entry>, v: nat): (r: nat)
    requires HasGsi(s, v)
    ensures r < |s| && s[r].gsi == v && forall k | 0 <= k < r :: s[k].gsi != v
  {
    if s[0].gsi == v then 0 else 1 + First(s[1..], v)
  }

  lemma FirstIs(s: seq<Entry>, v: nat, n: nat)
    requires n < |s| && s[n].gsi == v && forall k | 0 <= k < n :: s[k].gsi != v
    ensures HasGsi(s, v) && First(s, v) == n
  {
    assert s[n] in s;
  }

  /** A message has at most one route made on the fly. */
  lemma OnlyRoute(hash: seq<seq<Entry>>, s: seq<Entry>, m: Msg)
    requires HashOk(hash, s)
    ensures forall e, f | Dynamic(hash, e) && Dynamic(hash, f) && Carries(e, m) && Carries(f, m) :: e == f
  {
    forall e, f | Dynamic(hash, e) && Dynamic(hash, f) && Carries(e, m) && Carries(f, m) ensures e == f {
      var h, i :| 0 <= h < |hash| && 0 <= i < |hash[h]| && hash[h][i] == e;
      var k, j :| 0 <= k < |hash| && 0 <= j < |hash[k]| && hash[k][j] == f;
      assert SameMsg(hash[h][i], hash[k][j]) && h == k;
    }
  }

  /** A new route joins its bucket. */
  lemma Inserted(hash: seq<seq<Entry>>, hash': seq<seq<Entry>>, s: seq<Entry>, s': seq<Entry>, e: Entry, m: Msg)
    requires HashOk(hash, s) && s' == s + [e] && Carries(e, m)
    requires forall f | Dynamic(hash, f) :: !Carries(f, m)
    requires hash' == hash[m.data % HASH_SIZE := hash[m.data % HASH_SIZE] + [e]]
    ensures HashOk(hash', s') && forall f :: Dynamic(hash', f) <==> Dynamic(hash, f) || f == e
  {
    var b := m.data % HASH_SIZE;
    forall i | 0 <= i < |hash[b]| ensures !SameMsg(hash[b][i], e) {
      assert Dynamic(hash, hash[b][i]);
    }
    forall f ensures Dynamic(hash', f) <==> Dynamic(hash, f) || f == e {
      assert hash'[b][|hash[b]|] == e;
      if Dynamic(hash, f) {
        var h, i :| 0 <= h < |hash| && 0 <= i < |hash[h]| && hash[h][i] == f;
        assert hash'[h][i] == f;
      }
      if Dynamic(hash', f) && f != e {
        var h, i :| 0 <= h < |hash'| && 0 <= i < |hash'[h]| && hash'[h][i] == f;
        assert hash[h][i] == f;
      }
    }
  }

  lemma HeadGone(hash: seq<seq<Entry>>, hash': seq<seq<Entry>>, s: seq<Entry>, h: nat)
    requires HashOk(hash, s) && h < HASH_SIZE && hash[h] != [] && hash' == hash[h := hash[h][1..]]
    ensures forall e :: Dynamic(hash', e) <==> Dynamic(hash, e) && e != hash[h][0]
  {
    forall e ensures Dynamic(hash', e) <==> Dynamic(hash, e) && e != hash[h][0] {
      if Dynamic(hash', e) {
        var k, i :| 0 <= k < |hash'| && 0 <= i < |hash'[k]| && hash'[k][i] == e;
        assert hash[k][if k == h then i + 1 else i] == e;
      }
      if Dynamic(hash, e) && e != hash[h][0] {
        var k, i :| 0 <= k < |hash| && 0 <= i < |hash[k]| && hash[k][i] == e;
        assert hash'[k][if k == h then i - 1 else i] == e;
      }
    }
  }
}
