/** Fixed-width arithmetic of the contract and the Engine, and a few integer helpers. */
module Machine {
  const U32_MAX: int := 0xFFFF_FFFF
  const U64_MAX: int := 0xFFFF_FFFF_FFFF_FFFF
  const I128_MAX: int := 0x7FFF_FFFF_FFFF_FFFF_FFFF_FFFF_FFFF_FFFF
  const I128_MIN: int := -I128_MAX - 1

  type u8 = x: int | 0 <= x < 256
  type u32 = x: int | 0 <= x <= U32_MAX
  type i128 = x: int | I128_MIN <= x <= I128_MAX

  predicate FitsU32(x: int) { 0 <= x <= U32_MAX }
  predicate FitsU64(x: int) { 0 <= x <= U64_MAX }
  predicate FitsI128(x: int) { I128_MIN <= x <= I128_MAX }

  function WrapU32(x: int): (r: int)
    ensures FitsU32(r)
    ensures FitsU32(x) ==> r == x
  {
    x % (U32_MAX + 1)
  }

  function WrapU64(x: int): (r: int)
    ensures FitsU64(r)
    ensures FitsU64(x) ==> r == x
  {
    x % (U64_MAX + 1)
  }

  function WrapI128(x: int): (r: int)
    ensures FitsI128(r)
    ensures FitsI128(x) ==> r == x
  {
    (x - I128_MIN) % (I128_MAX - I128_MIN + 1) + I128_MIN
  }

  /** `Release` is what the compiled contract does: no overflow-check profile is
      configured, so additions and products wrap. `Exact` is integer arithmetic. */
  datatype Arith = Exact | Release {
    function U32(x: int): int { if Exact? then x else WrapU32(x) }
    function U64(x: int): int { if Exact? then x else WrapU64(x) }
    function I128(x: int): int { if Exact? then x else WrapI128(x) }
  }

  /** Rust's integer division: it truncates toward zero. */
  function TruncDiv(x: int, d: int): int
    requires d > 0
  {
    if x >= 0 then x / d else -((-x) / d)
  }

  function Min(a: int, b: int): int { if a <= b then a else b }

  function Pow(b: nat, n: nat): nat {
    if n == 0 then 1 else b * Pow(b, n - 1)
  }
}
