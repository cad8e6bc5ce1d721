/** Multiplication, quotients and remainders, one step at a time. */
module Arithmetic {

  lemma Ordered(a: int, x: int, y: int)
    requires 0 < a && x <= y
    ensures a * x <= a * y
  {
  }

  lemma Distribute(a: int, x: int, y: int)
    ensures a * (x + y) == a * x + a * y
  {
  }

  lemma QuotientRemainder(x: int, n: int, q: int, r: int)
    requires 0 < n && x == n * q + r && 0 <= r < n
    ensures x / n == q && x % n == r
  {
    var d := x / n;
    assert x == n * d + x % n;
    if d < q {
      Ordered(n, d + 1, q);
      Distribute(n, d, 1);
    } else if q < d {
      Ordered(n, q + 1, d);
      Distribute(n, q, 1);
    }
  }

  lemma InnerBound(step: int, n: int, r: int, rw: int)
    requires 0 < step && 0 <= r < n && 0 <= rw < step
    ensures 0 <= step * r + rw < step * n
  {
    Ordered(step, r + 1, n);
    Ordered(step, 0, r);
    Distribute(step, r, 1);
  }

  lemma Regroup(step: int, n: int, p: int, s: int, k: int, r: int, rw: int)
    requires p - s == n * k + r
    ensures (step * p + rw) - step * s == (step * n) * k + (step * r + rw)
  {
    assert step * p - step * s == step * (p - s);
    Distribute(step, n * k, r);
    assert step * (n * k) == (step * n) * k;
  }

  lemma Below(step: int, q: int, n: int)
    requires 0 < step && step * q + step <= step * n
    ensures q < n
  {
    if n <= q { Ordered(step, n, q); }
  }

  /** Numbers less than n apart have different remainders. */
  lemma DistinctRemainders(i: int, j: int, n: int)
    requires 0 < n && i < j < i + n
    ensures i % n != j % n
  {
    var q, r := i / n, i % n;
    if r + (j - i) < n {
      QuotientRemainder(j, n, q, r + (j - i));
    } else {
      Distribute(n, q, 1);
      QuotientRemainder(j, n, q + 1, r + (j - i) - n);
    }
  }

  /** A step forward from a remainder is the remainder of the step forward. */
  lemma StepForward(i: int, k: int, n: int)
    requires 0 < n && 0 <= k
    ensures (i % n + k) % n == (i + k) % n
  {
    var q := i / n;
    var c, d := (i % n + k) / n, (i % n + k) % n;
    Distribute(n, q, c);
    QuotientRemainder(i + k, n, q + c, d);
  }
}
