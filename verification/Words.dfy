/**
 Machine words made of bytes (xbzrle.c 56-61, 93-107): two words are compared as a whole, and an
 expression on their difference tells whether they agree in some byte.
 */
module Words {
  import opened Common

  const WORD: nat := 8

  const MASK: bv64 := 0x0101010101010101

  // ---------------------------------------------------------------- a byte as bits

  /** The byte as a machine register holds it. */
  function Bits(b: nat): bv8 {
    if b == 0 then 0 else Bits(b - 1) + 1
  }

  /** The number that eight bits stand for. */
  function Value(x: bv8): nat {
    (if x & 1 != 0 then 1 else 0) + (if x & 2 != 0 then 2 else 0)
    + (if x & 4 != 0 then 4 else 0) + (if x & 8 != 0 then 8 else 0)
    + (if x & 16 != 0 then 16 else 0) + (if x & 32 != 0 then 32 else 0)
    + (if x & 64 != 0 then 64 else 0) + (if x & 128 != 0 then 128 else 0)
  }

  lemma ValueNext(x: bv8)
    requires x != 0xff
    ensures Value(x + 1) == Value(x) + 1
  {}

  lemma {:induction false} BitsValue(b: nat)
    requires b < 256
    ensures Value(Bits(b)) == b
  {
    if b > 0 {
      BitsValue(b - 1);
      ValueNext(Bits(b - 1));
    }
  }

  lemma BitsTell(a: nat, b: nat)
    requires a < 256 && b < 256
    ensures Bits(a) == Bits(b) <==> a == b
  {
    BitsValue(a);
    BitsValue(b);
  }

  // ---------------------------------------------------------------- a word of eight bytes

  function Pack(b0: bv8, b1: bv8, b2: bv8, b3: bv8, b4: bv8, b5: bv8, b6: bv8, b7: bv8): bv64 {
    (b0 as bv64) | ((b1 as bv64) << 8) | ((b2 as bv64) << 16) | ((b3 as bv64) << 24)
    | ((b4 as bv64) << 32) | ((b5 as bv64) << 40) | ((b6 as bv64) << 48) | ((b7 as bv64) << 56)
  }

  lemma PackXor(b0: bv8, b1: bv8, b2: bv8, b3: bv8, b4: bv8, b5: bv8, b6: bv8, b7: bv8,
                c0: bv8, c1: bv8, c2: bv8, c3: bv8, c4: bv8, c5: bv8, c6: bv8, c7: bv8)
    ensures Pack(b0, b1, b2, b3, b4, b5, b6, b7) ^ Pack(c0, c1, c2, c3, c4, c5, c6, c7)
         == Pack(b0 ^ c0, b1 ^ c1, b2 ^ c2, b3 ^ c3, b4 ^ c4, b5 ^ c5, b6 ^ c6, b7 ^ c7)
  {}

  /** The expression of the source on the difference of two words. */
  predicate EndsHere(xor: bv64) {
    (xor - MASK) & !xor & (MASK << 7) != 0
  }

  /** It holds exactly if some byte of the word is zero. */
  lemma ZeroByteTrick(b0: bv8, b1: bv8, b2: bv8, b3: bv8, b4: bv8, b5: bv8, b6: bv8, b7: bv8)
    ensures EndsHere(Pack(b0, b1, b2, b3, b4, b5, b6, b7)) <==>
      b0 == 0 || b1 == 0 || b2 == 0 || b3 == 0 || b4 == 0 || b5 == 0 || b6 == 0 || b7 == 0
  {}

  lemma XorZero(b: bv8, c: bv8)
    ensures b ^ c == 0 <==> b == c
  {}

  /** It finds out whether two words have a byte in common. */
  lemma TrickTells(b0: bv8, b1: bv8, b2: bv8, b3: bv8, b4: bv8, b5: bv8, b6: bv8, b7: bv8,
                   c0: bv8, c1: bv8, c2: bv8, c3: bv8, c4: bv8, c5: bv8, c6: bv8, c7: bv8)
    ensures EndsHere(Pack(b0, b1, b2, b3, b4, b5, b6, b7) ^ Pack(c0, c1, c2, c3, c4, c5, c6, c7)) <==>
      b0 == c0 || b1 == c1 || b2 == c2 || b3 == c3 || b4 == c4 || b5 == c5 || b6 == c6 || b7 == c7
  {
    PackXor(b0, b1, b2, b3, b4, b5, b6, b7, c0, c1, c2, c3, c4, c5, c6, c7);
    ZeroByteTrick(b0 ^ c0, b1 ^ c1, b2 ^ c2, b3 ^ c3, b4 ^ c4, b5 ^ c5, b6 ^ c6, b7 ^ c7);
    XorZero(b0, c0);
    XorZero(b1, c1);
    XorZero(b2, c2);
    XorZero(b3, c3);
    XorZero(b4, c4);
    XorZero(b5, c5);
    XorZero(b6, c6);
    XorZero(b7, c7);
  }

  lemma PackTells(b0: bv8, b1: bv8, b2: bv8, b3: bv8, b4: bv8, b5: bv8, b6: bv8, b7: bv8,
                  c0: bv8, c1: bv8, c2: bv8, c3: bv8, c4: bv8, c5: bv8, c6: bv8, c7: bv8)
    ensures Pack(b0, b1, b2, b3, b4, b5, b6, b7) == Pack(c0, c1, c2, c3, c4, c5, c6, c7) <==>
      b0 == c0 && b1 == c1 && b2 == c2 && b3 == c3 && b4 == c4 && b5 == c5 && b6 == c6 && b7 == c7
  {}

  /** The word that starts at a position. */
  function Word(s: seq<bv8>, i: nat): bv64
    requires i + WORD <= |s|
  {
    Pack(s[i], s[i + 1], s[i + 2], s[i + 3], s[i + 4], s[i + 5], s[i + 6], s[i + 7])
  }

  /** One of the eight bytes is the same. */
  ghost predicate OneSame(o: seq<bv8>, n: seq<bv8>, i: nat)
    requires i + WORD <= |o| && i + WORD <= |n|
  {
    || o[i] == n[i] || o[i + 1] == n[i + 1] || o[i + 2] == n[i + 2] || o[i + 3] == n[i + 3]
    || o[i + 4] == n[i + 4] || o[i + 5] == n[i + 5] || o[i + 6] == n[i + 6] || o[i + 7] == n[i + 7]
  }

  lemma TrickFinds(o: seq<bv8>, n: seq<bv8>, i: nat, found: bool)
    requires i + WORD <= |o| && i + WORD <= |n| && found == EndsHere(Word(o, i) ^ Word(n, i))
    ensures found <==> OneSame(o, n, i)
  {
    TrickTells(o[i], o[i + 1], o[i + 2], o[i + 3], o[i + 4], o[i + 5], o[i + 6], o[i + 7],
               n[i], n[i + 1], n[i + 2], n[i + 3], n[i + 4], n[i + 5], n[i + 6], n[i + 7]);
  }

  lemma WordCompares(o: seq<bv8>, n: seq<bv8>, i: nat)
    requires i + WORD <= |o| && i + WORD <= |n|
    ensures Word(o, i) == Word(n, i) <==> forall k | i <= k < i + WORD :: o[k] == n[k]
  {
    PackTells(o[i], o[i + 1], o[i + 2], o[i + 3], o[i + 4], o[i + 5], o[i + 6], o[i + 7],
              n[i], n[i + 1], n[i + 2], n[i + 3], n[i + 4], n[i + 5], n[i + 6], n[i + 7]);
  }

  // ---------------------------------------------------------------- words of a buffer

  /** A buffer as registers load it. */
  function Loaded(s: seq<Byte>): (r: seq<bv8>)
    ensures |r| == |s| && forall k | 0 <= k < |s| :: r[k] == Bits(s[k] as nat)
  {
    seq(|s|, k requires 0 <= k < |s| => Bits(s[k] as nat))
  }

  lemma LoadedSame(o: seq<Byte>, n: seq<Byte>, k: nat)
    requires k < |o| && k < |n|
    ensures Loaded(o)[k] == Loaded(n)[k] <==> o[k] == n[k]
  {
    BitsTell(o[k] as nat, n[k] as nat);
  }

  /** The two words agree in some byte. */
  ghost predicate Agrees(o: seq<Byte>, n: seq<Byte>, i: nat)
    requires i + WORD <= |o| && i + WORD <= |n|
  {
    exists k :: i <= k < i + WORD && o[k] == n[k]
  }

  /** The source's expression finds out whether the words agree in some byte. */
  lemma WordsAgree(o: seq<Byte>, n: seq<Byte>, ow: seq<bv8>, nw: seq<bv8>, i: nat, found: bool)
    requires i + WORD <= |o| && i + WORD <= |n| && ow == Loaded(o) && nw == Loaded(n)
    requires found == EndsHere(Word(ow, i) ^ Word(nw, i))
    ensures found <==> Agrees(o, n, i)
  {
    SameBytes(o, n, ow, nw, i);
    TrickFinds(ow, nw, i, found);
    OneSameBytes(o, n, ow, nw, i);
  }

  lemma OneSameBytes(o: seq<Byte>, n: seq<Byte>, ow: seq<bv8>, nw: seq<bv8>, i: nat)
    requires i + WORD <= |o| && i + WORD <= |n| && |ow| == |o| && |nw| == |n|
    requires forall k | i <= k < i + WORD :: ow[k] == nw[k] <==> o[k] == n[k]
    ensures OneSame(ow, nw, i) <==> Agrees(o, n, i)
  {}

  lemma SameBytes(o: seq<Byte>, n: seq<Byte>, ow: seq<bv8>, nw: seq<bv8>, i: nat)
    requires i + WORD <= |o| && i + WORD <= |n| && ow == Loaded(o) && nw == Loaded(n)
    ensures forall k | i <= k < i + WORD :: ow[k] == nw[k] <==> o[k] == n[k]
  {
    forall k | i <= k < i + WORD ensures ow[k] == nw[k] <==> o[k] == n[k] {
      LoadedSame(o, n, k);
    }
  }

  /** Words are equal exactly if all their bytes are. */
  lemma WordsEqual(o: seq<Byte>, n: seq<Byte>, ow: seq<bv8>, nw: seq<bv8>, i: nat, same: bool)
    requires i + WORD <= |o| && i + WORD <= |n| && ow == Loaded(o) && nw == Loaded(n)
    requires same == (Word(ow, i) == Word(nw, i))
    ensures same <==> forall k | i <= k < i + WORD :: o[k] == n[k]
  {
    SameBytes(o, n, ow, nw, i);
    WordCompares(ow, nw, i);
  }
}
