/** Machine integers and the saturating operations the host code uses on them. */
module Numbers {

  const U64_MAX: nat := 0xFFFF_FFFF_FFFF_FFFF

  /** A second in nanoseconds. */
  const SECOND: nat := 1_000_000_000
  const HALF_SECOND: nat := 500_000_000

  type U64 = n: int | 0 <= n <= 0xFFFF_FFFF_FFFF_FFFF
  type U8 = n: int | 0 <= n <= 255

  datatype Option<+T> = None | Some(value: T)

  function Min(a: int, b: int): int {
    if a <= b then a else b
  }

  function Max(a: int, b: int): int {
    if a >= b then a else b
  }

  function AddU64(a: U64, b: U64): U64 {
    if a + b <= U64_MAX then a + b else U64_MAX
  }

  function SubU64(a: U64, b: U64): U64 {
    if a <= b then 0 else a - b
  }

  function IncrementU8(a: U8): U8 {
    if a < 255 then a + 1 else 255
  }

  /** A number too large for 64 bits becomes the largest one, as in `u64::try_from(..).unwrap_or(MAX)`. */
  function ToU64(n: nat): U64 {
    if n <= U64_MAX then n else U64_MAX
  }

  function MaxOption(a: Option<U64>, b: U64): U64 {
    if a.Some? && a.value >= b then a.value else b
  }

  /** What a rate earns over an interval is what it earns over its two parts. */
  lemma RatesAdd(rate: nat, from: nat, between: nat, to: nat)
    requires from <= between <= to
    ensures rate * (to - from) == rate * (between - from) + rate * (to - between)
  {
  }

  lemma ProductOrder(a: nat, b: nat, factor: nat)
    requires factor > 0
    ensures a < b <==> a * factor < b * factor
  {
    if a < b {
      assert (b - a) * factor > 0;
    } else {
      assert (a - b) * factor >= 0;
    }
  }
}
