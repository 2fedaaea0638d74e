/** Real-number helpers matching the Python and numpy operations the backend uses. */
module Arith {

  function Abs(x: real): real {
    if x < 0.0 then -x else x
  }

  function Min(a: real, b: real): real {
    if a <= b then a else b
  }

  function Max(a: real, b: real): real {
    if a >= b then a else b
  }

  function MinInt(a: int, b: int): int {
    if a <= b then a else b
  }

  /** `numpy.clip(x, lo, hi)`, i.e. `minimum(maximum(x, lo), hi)`. */
  function Clip(x: real, lo: real, hi: real): real {
    Min(Max(x, lo), hi)
  }
}
