/** Small building blocks shared by every module: an optional value standing
    for Python's `None`, Python truthiness of optional strings, Python's
    prefix slicing `s[:n]` (negative `n` counts from the end), and the
    `int(n * 0.9)` style scaling of integers. */
module Prelude {

  /** `None` or a value, as for a Python attribute or dictionary lookup that may miss. */
  datatype Option<+T> = None | Some(value: T) {
    function GetOr(default: T): T {
      match this
      case Some(v) => v
      case None => default
    }
  }

  /** Python truthiness of an optional string: `None` and `""` are false. */
  predicate Truthy(o: Option<string>) {
    o.Some? && o.value != ""
  }

  /** Python `s[:n]` for any integer `n`. */
  function PyPrefix<T>(s: seq<T>, n: int): (r: seq<T>)
    ensures r <= s
    ensures 0 <= n ==> |r| == if n <= |s| then n else |s|
    ensures n < 0 ==> |r| == if -n <= |s| then |s| + n else 0
  {
    if 0 <= n then (if n <= |s| then s[..n] else s)
    else if -n <= |s| then s[..|s| + n] else []
  }

  /** Python `s[n:]` for a non-negative `n`. */
  function PyDrop<T>(s: seq<T>, n: nat): (r: seq<T>)
    ensures s == PyPrefix(s, n) + r
  {
    if n <= |s| then s[n..] else []
  }

  /** Python `int(n * (tenths / 10))` for the two factors the source uses
      (0.9 and 0.6): the product is truncated toward zero. */
  function ScaleTenths(n: int, tenths: nat): (r: int)
    requires tenths <= 10
    ensures 0 <= n ==> 0 <= r <= n && 10 * r <= tenths * n < 10 * r + 10
    ensures n < 0 ==> n <= r <= 0
  {
    if 0 <= n then (tenths * n) / 10 else -((tenths * -n) / 10)
  }
}
