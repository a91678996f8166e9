/** Go's conversions and divisions, and its duration constants in nanoseconds. */
module GoNumbers {
  const SECOND: int := 1_000_000_000
  const MINUTE: int := 60 * SECOND
  const HOUR: int := 60 * MINUTE

  /** A float64 converted to an integer: towards zero. */
  function Truncate(x: real): int {
    if x >= 0.0 then x.Floor else -((-x).Floor)
  }

  /** `k` is the whole part of `x`. */
  ghost predicate WholePart(x: real, k: int) {
    if x >= 0.0 then 0.0 <= k as real <= x < (k + 1) as real else (k - 1) as real < x <= k as real <= 0.0
  }

  lemma TruncateIsWholePart(x: real, k: int)
    ensures Truncate(x) == k <==> WholePart(x, k)
  {
  }

  /** Integer division: towards zero. */
  function GoDiv(a: int, b: int): int
    requires b > 0
  {
    if a >= 0 then a / b else -((-a) / b)
  }

  lemma GoDivIsWholePart(a: int, b: int, q: int)
    requires b > 0
    ensures GoDiv(a, b) == q <==> if a >= 0 then 0 <= q * b <= a < q * b + b else q * b - b < a <= q * b <= 0
  {
    if a >= 0 {
      QuotientIs(a, b, q);
    } else {
      QuotientIs(-a, b, -q);
    }
  }

  lemma QuotientIs(a: nat, b: int, q: int)
    requires b > 0
    ensures a / b == q <==> 0 <= q * b <= a < q * b + b
  {
    var r := a / b;
    assert r * b <= a < r * b + b;
    if q < r { Multiples(q + 1, r, b); }
    if q > r { Multiples(r + 1, q, b); }
    if q == r { Multiples(0, r, b); }
  }

  lemma Multiples(x: int, y: int, b: int)
    requires x <= y && b >= 0
    ensures x * b <= y * b
  {
  }

  /** time.Duration(float64(d) * factor) */
  function Scale(d: int, factor: real): int {
    Truncate(d as real * factor)
  }

  /** x to the n */
  function Pow(x: real, n: nat): real {
    if n == 0 then 1.0 else x * Pow(x, n - 1)
  }
}
