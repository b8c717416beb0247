/** Small vocabulary shared by the models. */
module Common {
  datatype Option<+T> = None | Some(value: T)

  function Min(a: int, b: int): int { if a <= b then a else b }

  function Max(a: int, b: int): int { if a >= b then a else b }

  function MinReal(a: real, b: real): real { if a <= b then a else b }

  function MaxReal(a: real, b: real): real { if a >= b then a else b }

  /** Least integer at or above a real number. */
  function Ceil(x: real): int {
    -(-x).Floor
  }

  /** Least integer at or above `a / b`. */
  function CeilDiv(a: int, b: int): int
    requires b > 0
  {
    (a + b - 1) / b
  }

  /** A finite set that injects into another is no larger. */
  lemma {:induction false} SubsetSize<T>(small: set<T>, large: set<T>)
    requires small <= large
    ensures |small| <= |large|
  {
    if small != {} {
      var x :| x in small;
      SubsetSize(small - {x}, large - {x});
    }
  }

  lemma AtLeastOne(k: int, n: int)
    requires k >= 1 && n > 0
    ensures k * n >= n
  {
    assert (k - 1) * n >= 0;
  }

  /** Division with remainder has one answer. */
  lemma UniqueRemainder(q: int, d: int, p: int, e: int, n: int)
    requires 0 <= d < n && 0 <= e < n && q * n + d == p * n + e
    ensures d == e && q == p
  {
    assert (q - p) * n == e - d && (p - q) * n == d - e;
    if q > p {
      AtLeastOne(q - p, n);
    } else if p > q {
      AtLeastOne(p - q, n);
    }
  }
}
