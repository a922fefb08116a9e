/**
 Byte strings by position: what stands where, and big-endian numbers
 (include/migration/qemu-file.h, savevm.c).
 */
module Bytes {
  import opened Common

  /** The bytes of s from i up to j. */
  function Part(s: seq<Byte>, i: nat, j: nat): (r: seq<Byte>)
    requires i <= j <= |s|
    ensures |r| == j - i
  {
    seq(j - i, k requires 0 <= k < j - i => s[i + k])
  }

  /** The bytes x stand in s at position i. */
  ghost predicate At(s: seq<Byte>, i: nat, x: seq<Byte>) {
    i + |x| <= |s| && forall k | 0 <= k < |x| :: s[i + k] == x[k]
  }

  lemma AtSplit(s: seq<Byte>, i: nat, x: seq<Byte>, y: seq<Byte>)
    requires At(s, i, x + y)
    ensures At(s, i, x) && At(s, i + |x|, y)
  {
    assert forall k | 0 <= k < |x| :: (x + y)[k] == x[k];
    forall k | 0 <= k < |y| ensures s[i + |x| + k] == y[k] {
      assert (x + y)[|x| + k] == y[k];
    }
  }

  /** A longer string holds whatever a prefix of it holds. */
  lemma AtExtend(s: seq<Byte>, t: seq<Byte>, i: nat, x: seq<Byte>)
    requires At(t, 0, s) && At(s, i, x)
    ensures At(t, i, x)
  {
    forall k | 0 <= k < |x| ensures t[i + k] == x[k] {
      assert t[0 + (i + k)] == s[i + k];
    }
  }

  lemma PartExtend(s: seq<Byte>, t: seq<Byte>, i: nat, j: nat)
    requires At(t, 0, s) && i <= j <= |s|
    ensures Part(t, i, j) == Part(s, i, j)
  {
    forall k | 0 <= k < j - i ensures Part(t, i, j)[k] == Part(s, i, j)[k] {
      assert t[0 + (i + k)] == s[i + k];
    }
  }

  lemma AtPart(s: seq<Byte>, i: nat, x: seq<Byte>)
    requires At(s, i, x)
    ensures Part(s, i, i + |x|) == x
  {}

  lemma AtAppend(s: seq<Byte>, x: seq<Byte>)
    ensures At(s + x, 0, s) && At(s + x, |s|, x)
  {}

  function Pow256(k: nat): (r: nat)
    ensures r >= 1
  {
    if k == 0 then 1 else 256 * Pow256(k - 1)
  }

  /** The k bytes of v, most significant first. */
  function Be(v: nat, k: nat): (r: seq<Byte>)
    ensures |r| == k
    decreases k, v
  {
    if k == 0 then [] else Be(v / 256, k - 1) + [(v % 256) as Byte]
  }

  /** The number in the k bytes from i on. */
  function UnBe(s: seq<Byte>, i: nat, k: nat): nat
    requires i + k <= |s|
    decreases k, i
  {
    if k == 0 then 0 else UnBe(s, i, k - 1) * 256 + s[i + k - 1] as nat
  }

  lemma {:induction false} BeRoundTrip(s: seq<Byte>, i: nat, v: nat, k: nat)
    requires v < Pow256(k) && At(s, i, Be(v, k))
    ensures UnBe(s, i, k) == v
    decreases k
  {
    if k > 0 {
      AtSplit(s, i, Be(v / 256, k - 1), [(v % 256) as Byte]);
      assert s[i + (k - 1) + 0] == [(v % 256) as Byte][0];
      BeRoundTrip(s, i, v / 256, k - 1);
    }
  }

  lemma {:induction false} UnBeExtend(s: seq<Byte>, t: seq<Byte>, i: nat, k: nat)
    requires At(t, 0, s) && i + k <= |s|
    ensures UnBe(t, i, k) == UnBe(s, i, k)
    decreases k
  {
    if k > 0 {
      assert t[0 + (i + k - 1)] == s[i + k - 1];
      UnBeExtend(s, t, i, k - 1);
    }
  }

  /** One byte is its own big-endian number. */
  lemma ByteAt(s: seq<Byte>, i: nat, b: Byte)
    requires At(s, i, [b])
    ensures s[i] == b
  {
    assert s[i + 0] == [b][0];
  }

  lemma Pow256Values()
    ensures Pow256(2) == 0x1_0000 && Pow256(4) == 0x1_0000_0000 && Pow256(8) == 0x1_0000_0000_0000_0000
  {
    assert Pow256(4) == 0x1_0000_0000;
    assert Pow256(6) == 0x1_0000_0000_0000;
  }
}
