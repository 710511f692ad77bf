/** Shared vocabulary: a value that may be absent (JavaScript `null`/`undefined`). */
module Base {

  datatype Option<+T> = None | Some(value: T) {
    /** The value, or the given default when absent (JavaScript `x ?? d`). */
    function GetOr(default: T): T {
      match this
      case Some(v) => v
      case None => default
    }
  }

  /** `x || 0` on a nullable count: a missing count reads as 0, a present one as itself. */
  function OrZero(x: Option<nat>): (r: nat)
    ensures x.None? ==> r == 0
    ensures x.Some? ==> r == x.value
  {
    x.GetOr(0)
  }

  function Max(a: int, b: int): (r: int)
    ensures r >= a && r >= b
    ensures r == a || r == b
  {
    if a >= b then a else b
  }

  function Min(a: int, b: int): (r: int)
    ensures r <= a && r <= b
    ensures r == a || r == b
  {
    if a <= b then a else b
  }
}
