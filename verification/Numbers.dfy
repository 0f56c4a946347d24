/** The little arithmetic the model needs, and the standard option type. */
module Numbers {

  datatype Option<+T> = None | Some(value: T)

  /** The largest integer a double holds exactly along with all smaller ones. */
  const MAX_SAFE_INTEGER: int := 9_007_199_254_740_991

  function Min(x: real, y: real): real { if x <= y then x else y }

  function Max(x: real, y: real): real { if x >= y then x else y }

  function MaxInt(x: int, y: int): int { if x >= y then x else y }

  /** The least integer that is not below `x`. */
  function Ceil(x: real): (n: int)
    ensures n as real - 1.0 < x <= n as real
  {
    if x.Floor as real == x then x.Floor else x.Floor + 1
  }

  /** The least integer `n` with `x <= n * d`, for a positive `d`. */
  function CeilDiv(x: int, d: int): (n: int)
    requires d > 0
    ensures (n - 1) * d < x <= n * d
  {
    (x + d - 1) / d
  }

  lemma Times(a: int, b: int, d: int)
    requires a <= b && d >= 0
    ensures a * d <= b * d
  {
    assert (b - a) * d >= 0;
  }

  lemma Quotient(e: int, d: int, q: int)
    requires d > 0 && q * d <= e < q * d + d
    ensures e / d == q
  {
    var k := e / d;
    assert e == k * d + e % d;
    if k < q {
      Times(k + 1, q, d);
    } else if q < k {
      Times(q + 1, k, d);
    }
  }

  lemma QuotientShift(e: int, d: int, n: int)
    requires d > 0
    ensures (e - n * d) / d == e / d - n
  {
    var q := e / d - n;
    assert q * d == e / d * d - n * d;
    Quotient(e - n * d, d, q);
  }

  lemma QuotientMonotone(a: int, b: int, d: int)
    requires d > 0 && a <= b
    ensures a / d <= b / d
  {
    var p, q := a / d, b / d;
    assert a == p * d + a % d && b == q * d + b % d;
    if q < p {
      Times(q + 1, p, d);
    }
  }

  lemma Scale(m: int, n: int, x: real)
    requires m <= n && x >= 0.0
    ensures m as real * x <= n as real * x
  {
    assert (n - m) as real * x >= 0.0;
  }

  /** Division by a positive number keeps order. */
  lemma Divide(x: real, y: real, d: real)
    requires d > 0.0
    ensures x / d * d == x
    ensures x < y ==> x / d < y / d
    ensures x <= y ==> x / d <= y / d
  {
  }
}
