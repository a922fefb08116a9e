/** Small value types and arithmetic shared by the models. */
module Common {

  datatype Option<+T> = None | Some(value: T)

  newtype Byte = b: int | 0 <= b < 256

  function Min(a: int, b: int): int { if a < b then a else b }

  function Max(a: int, b: int): int { if a > b then a else b }

  function Bit(x: bool): nat { if x then 1 else 0 }

  function Pow2(k: nat): (r: nat)
    ensures r >= 1
  {
    if k == 0 then 1 else 2 * Pow2(k - 1)
  }

  /** The greatest power of two up to n. */
  function PowFloor(n: nat): (r: nat)
    requires n > 0
    ensures r <= n < 2 * r && IsPow2(r)
  {
    if n == 1 then 1 else 2 * PowFloor(n / 2)
  }

  predicate IsPow2(n: nat) {
    n == 1 || (n > 0 && n % 2 == 0 && IsPow2(n / 2))
  }

  /** `x & ~(a - 1)` for a power of two `a`; defined for every positive `a`. */
  function AlignDown(x: nat, a: nat): (r: nat)
    requires a > 0
    ensures r <= x < r + a && r % a == 0
  {
    DivMod(x, a);
    MulMod(x / a, a);
    x - x % a
  }

  /** ROUND_UP of the source. */
  function RoundUp(x: nat, a: nat): (r: nat)
    requires a > 0
    ensures x <= r < x + a && r % a == 0
  {
    if x % a == 0 then x
    else
      assert (x - x % a + a) % a == 0 by { DivMod(x, a); MulMod(x / a + 1, a); }
      x - x % a + a
  }

  lemma DivMod(x: nat, a: nat)
    requires a > 0
    ensures x == (x / a) * a + x % a && 0 <= x % a < a
  {}

  lemma MulMod(k: nat, a: nat)
    requires a > 0
    ensures (k * a) % a == 0
  {
    DivUnique(k * a, a, k, 0);
  }

  /** Quotient and remainder are determined by the defining equation. */
  lemma DivUnique(x: int, a: nat, q: int, r: int)
    requires a > 0 && x == q * a + r && 0 <= r < a
    ensures x / a == q && x % a == r
  {
    assert (x / a - q) * a == r - x % a;
    MulGe(x / a - q, a);
    MulGe(q - x / a, a);
  }

  lemma MulGe(k: int, a: nat)
    ensures k >= 1 ==> k * a >= a
    ensures k <= -1 ==> k * a + a <= 0
  {
    assert k * a == (k - 1) * a + a;
    assert k * a == (k + 1) * a - a;
  }
}
