/** What several modules share: an option type, the target's 32-bit integers, and facts about division. */
module Arithmetic {

  datatype Option<+T> = None | Some(value: T)

  const TWO31: int := 0x8000_0000
  const TWO32: int := 0x1_0000_0000

  /** An `int` of the target: 32 bits, two's complement. */
  function Int32(x: int): int { (x + TWO31) % TWO32 - TWO31 }

  /** The one number of that range that is congruent to `x`. */
  lemma Int32Is(x: int)
    ensures -TWO31 <= Int32(x) < TWO31 && (x - Int32(x)) % TWO32 == 0
    ensures -TWO31 <= x < TWO31 ==> Int32(x) == x
  {
  }

  function Pow2(n: nat): (r: nat)
    ensures r > 0
  {
    if n == 0 then 1 else 2 * Pow2(n - 1)
  }

  /** Quotient and remainder are the only ones of their kind. */
  lemma DivModUnique(x: int, d: int, q: int, r: int)
    requires 0 <= r < d && x == q * d + r
    ensures x / d == q && x % d == r
  {
    var k := x / d - q;
    assert x == x / d * d + x % d;
    assert k * d == x / d * d - q * d by { Distribute(x / d, q, d); }
    if k >= 1 { AtLeast(k, d); }
    if k <= -1 { AtLeast(-k, d); }
  }

  lemma Distribute(a: int, b: int, d: int)
    ensures (a - b) * d == a * d - b * d
  {
  }

  lemma AtLeast(k: int, d: int)
    requires k >= 1 && d > 0
    ensures k * d >= d
  {
  }
}
