/** Option and Result, used for the Python code's `None` values and its exceptions. */
module Wrappers {

  datatype Option<+T> = None | Some(value: T) {
    function GetOr(default: T): T {
      match this
      case Some(v) => v
      case None => default
    }
  }

  datatype Result<+T, +E> = Ok(value: T) | Err(error: E)
}

/**
 * Python's numeric conventions that the controllers rely on: a limit that may be
 * `inf` (`np.inf` / `math.inf` used as "no limit"), truthiness of numbers, floor
 * division remainder and `int()` truncation of a float.
 */
module PyNum {

  /** An integer limit or Python's infinity. */
  datatype Bound = Finite(n: int) | Infinite

  /** `b - k`, where `inf - k == inf`. */
  function Minus(b: Bound, k: int): (r: Bound)
    ensures r.Infinite? <==> b.Infinite?
    ensures b.Finite? ==> r.n + k == b.n
  {
    match b
    case Finite(n) => Finite(n - k)
    case Infinite => Infinite
  }

  /** `x <= b` */
  predicate AtMost(x: int, b: Bound) {
    b.Infinite? || x <= b.n
  }

  /** `x < b` */
  predicate Below(x: int, b: Bound) {
    b.Infinite? || x < b.n
  }

  /** `min(x, b)` for an integer `x`: the result is an integer. */
  function MinWith(x: int, b: Bound): (r: int)
    ensures r <= x && AtMost(r, b)
    ensures r == x || (b.Finite? && r == b.n)
  {
    if b.Finite? && b.n < x then b.n else x
  }

  /** Truthiness of a number: `inf` is true, an integer is true when non-zero. */
  predicate Truthy(b: Bound) {
    b.Infinite? || b.n != 0
  }

  /** Python's `a % b`: the remainder takes the sign of the divisor. */
  function PyMod(a: int, b: int): (r: int)
    requires b != 0
    ensures b > 0 ==> 0 <= r < b
    ensures b < 0 ==> b < r <= 0
    ensures r == 0 <==> a % b == 0
  {
    if b > 0 || a % b == 0 then a % b else a % b + b
  }

  /** Python's `int(x)` for a float: truncation toward zero. */
  function Truncate(x: real): (r: int)
    ensures x >= 0.0 ==> r as real <= x < r as real + 1.0
    ensures x < 0.0 ==> r as real - 1.0 < x <= r as real
  {
    if x >= 0.0 then x.Floor else -((-x).Floor)
  }
}
