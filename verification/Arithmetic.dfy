/** The small numeric functions several modules use. */
module Arithmetic {

  function Min(a: int, b: int): int { if a < b then a else b }

  function Max(a: int, b: int): int { if a < b then b else a }

  /** A condition, counted. */
  function One(b: bool): nat { if b then 1 else 0 }

  lemma Quotient(a: nat, n: nat, q: int, r: int)
    requires n > 0 && a == q * n + r && 0 <= r < n
    ensures a % n == r
  {
    var d := a / n - q;
    assert a == (a / n) * n + a % n;
    assert d * n == (a / n) * n - q * n == r - a % n;
    assert d > 0 ==> d * n >= n;
    assert d < 0 ==> d * n + n <= 0;
  }

  /** Stepping forward by less than a whole turn. */
  lemma Advance(c: nat, k: nat, n: nat)
    requires n > 0 && k <= n
    ensures (c + k) % n == if c % n + k < n then c % n + k else c % n + k - n
  {
    var q := c / n;
    assert c == q * n + c % n;
    if c % n + k < n {
      Quotient(c + k, n, q, c % n + k);
    } else {
      assert (q + 1) * n == q * n + n;
      Quotient(c + k, n, q + 1, c % n + k - n);
    }
  }

  /** Stepping back by no more than the remainder. */
  lemma StepBack(a: nat, n: nat, k: nat)
    requires n > 0 && k <= a % n && k <= a
    ensures (a - k) % n == a % n - k
  {
    assert a == (a / n) * n + a % n;
    Quotient(a - k, n, a / n, a % n - k);
  }

  lemma SmallRemainder(a: nat, n: nat)
    requires a < n
    ensures a % n == a
  {
    Quotient(a, n, 0, a);
  }
}
