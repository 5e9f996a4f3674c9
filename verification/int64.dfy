/** Rust's `i64` as a subset of the mathematical integers, with the checked
    arithmetic the counter uses to detect overflow. */
module Int64 {
  import opened Optional

  const MIN: int := -0x8000_0000_0000_0000
  const MAX: int := 0x7FFF_FFFF_FFFF_FFFF

  type I64 = x: int | MIN <= x <= MAX

  /** `i64::checked_add`: None exactly when the sum leaves the i64 range. */
  function CheckedAdd(a: I64, b: I64): (r: Option<I64>)
    ensures r.None? <==> a + b < MIN || a + b > MAX
    ensures r.Some? ==> r.value == a + b
  {
    if MIN <= a + b <= MAX then Some(a + b) else None
  }

  /** `i64::checked_sub`: None exactly when the difference leaves the i64 range. */
  function CheckedSub(a: I64, b: I64): (r: Option<I64>)
    ensures r.None? <==> a - b < MIN || a - b > MAX
    ensures r.Some? ==> r.value == a - b
  {
    if MIN <= a - b <= MAX then Some(a - b) else None
  }

  /** Subtracting what was just added succeeds and gives back the start;
      stepping by one fails only at the ends of the range. */
  lemma CheckedSubUndoesAdd(a: I64, b: I64)
    ensures CheckedAdd(a, b).Some? ==> CheckedSub(CheckedAdd(a, b).value, b) == Some(a)
    ensures CheckedAdd(a, 1).None? <==> a == MAX
    ensures CheckedSub(a, 1).None? <==> a == MIN
  {
  }
}
