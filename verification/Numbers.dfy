/** Arithmetic that several parts of the program share. */
module Numbers {
  function Abs(x: real): real { if x < 0.0 then -x else x }

  /** Conversion of a double to a long: towards zero. */
  function Truncate(x: real): int {
    if x >= 0.0 then x.Floor else -(-x).Floor
  }

  function Least(a: int, b: int): int { if a < b then a else b }

  function Pow2(n: int): (p: nat)
    ensures p > 0
  {
    if n <= 0 then 1 else 2 * Pow2(n - 1)
  }
}
