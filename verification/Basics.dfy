/** Types and arithmetic shared by the other modules. */
module Basics {

  type byte = b: int | 0 <= b < 256

  /** The values of a 32-bit unsigned and signed integer. */
  predicate UInt32(x: int) { 0 <= x < 0x1_0000_0000 }
  predicate Int32(x: int) { -0x8000_0000 <= x < 0x8000_0000 }

  datatype Option<+T> = None | Some(value: T)

  lemma MulBound(d: int, k: int)
    requires d > 0
    ensures k >= 1 ==> d * k >= d
    ensures k <= -1 ==> d * k <= -d
  {
  }

  /** Quotient and remainder are what a decomposition says they are. */
  lemma DivMod(x: int, d: int, q: int, r: int)
    requires d > 0 && 0 <= r < d && x == d * q + r
    ensures x / d == q && x % d == r
  {
    var k := q - x / d;
    assert d * k == x % d - r;
    MulBound(d, k);
  }
}
