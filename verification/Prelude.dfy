/** Result types and small lemmas shared by every module. */
module Prelude {

  datatype Option<+T> = None | Some(value: T) {
    function GetOr(default: T): T {
      if None? then default else value
    }
  }

  datatype Result<+T, +E> = Ok(value: T) | Err(error: E)

  function Min(a: int, b: int): (m: int)
    ensures m <= a && m <= b && (m == a || m == b)
  {
    if a <= b then a else b
  }

  function Max(a: int, b: int): (m: int)
    ensures a <= m && b <= m && (m == a || m == b)
  {
    if a <= b then b else a
  }

  /** A prefix followed by one more element is the longer prefix. */
  lemma PrefixExtends<T>(s: seq<T>, k: nat)
    requires k < |s|
    ensures s[..k + 1] == s[..k] + [s[k]]
  {
  }

  lemma MulMonotone(a: int, b: int, p: int)
    requires a <= b && p >= 0
    ensures a * p <= b * p
  {
    assert (b - a) * p >= 0;
    assert b * p == a * p + (b - a) * p;
  }

  /** Euclidean division rounds down for a positive divisor. */
  lemma DivBounds(a: int, n: int)
    requires n > 0
    ensures (a / n) * n <= a < (a / n + 1) * n
  {
    assert a == (a / n) * n + a % n;
    assert (a / n + 1) * n == (a / n) * n + n;
  }

  lemma DivIs(a: int, n: int, q: int)
    requires n > 0 && q * n <= a < (q + 1) * n
    ensures a / n == q
  {
    DivBounds(a, n);
    if a / n < q {
      MulMonotone(a / n + 1, q, n);
    } else if q < a / n {
      MulMonotone(q + 1, a / n, n);
    }
  }

  lemma RestIs(a: int, n: int, q: int, rest: int)
    requires n > 0 && a == q * n + rest && 0 <= rest < n
    ensures a / n == q && a % n == rest
  {
    assert (q + 1) * n == q * n + n;
    DivIs(a, n, q);
    assert a == (a / n) * n + a % n;
  }

  lemma DivMonotone(a: int, b: int, n: int)
    requires a <= b && n > 0
    ensures a / n <= b / n
  {
    DivBounds(a, n);
    DivBounds(b, n);
    if b / n < a / n {
      MulMonotone(b / n + 1, a / n, n);
    }
  }
}
