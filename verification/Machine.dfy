/** Fixed-width integers of the C++ code, written out as subsets of `int`, and an option type. */
module Machine {

  const TWO16: int := 0x1_0000
  const TWO31: int := 0x8000_0000
  const TWO32: int := 0x1_0000_0000
  const TWO64: int := 0x1_0000_0000_0000_0000

  type Byte = x: int | 0 <= x < 0x100
  type U16 = x: int | 0 <= x < 0x1_0000
  type U32 = x: int | 0 <= x < 0x1_0000_0000

  datatype Option<+T> = None | Some(value: T)

  function Min(a: int, b: int): int {
    if a <= b then a else b
  }

  function Max(a: int, b: int): int {
    if a <= b then b else a
  }

  function BoolToNat(b: bool): nat {
    if b then 1 else 0
  }

  /** Unsigned 64-bit subtraction: a negative difference wraps around. */
  function Sub64(a: int, b: int): (r: nat)
    ensures 0 <= a - b < TWO64 ==> r == a - b
    ensures -TWO64 <= a - b < 0 ==> r == a - b + TWO64
    ensures r < TWO64
  {
    (a - b) % TWO64
  }

  function Pow2(n: nat): (p: nat)
    ensures p > 0
  {
    if n == 0 then 1 else 2 * Pow2(n - 1)
  }

  /** Quotient and remainder are unique. */
  lemma DivModUnique(x: nat, d: nat, q: nat, r: nat)
    requires d > 0 && r < d && x == q * d + r
    ensures x / d == q && x % d == r
  {
    var k := x / d;
    assert x == k * d + x % d;
    assert k >= q || (k + 1) * d <= q * d;
    assert k <= q || (q + 1) * d <= k * d;
  }
}
