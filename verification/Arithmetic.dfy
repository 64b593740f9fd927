/** Products and quotients of integers, one step at a time. */
module Arithmetic {
  lemma MulMonotone(a: int, b: int, c: nat)
    requires a <= b
    ensures a * c <= b * c && c * a <= c * b
  {
  }

  lemma CancelFactor(c: nat, x: int, y: int)
    requires c * x < c * y
    ensures x < y
  {
    if y <= x {
      MulMonotone(y, x, c);
    }
  }

  lemma Distribute(a: int, b: int, c: int)
    ensures a * (b + c) == a * b + a * c == (b + c) * a
  {
  }

  lemma Reassociate(a: int, b: int, c: int)
    ensures a * (b * c) == (a * b) * c == (b * a) * c
  {
  }

  lemma DivisionBounds(n: nat, d: nat)
    requires d > 0
    ensures d * (n / d) <= n < d * (n / d) + d
  {
    assert n == d * (n / d) + n % d;
  }

  lemma DivisionUnique(n: nat, d: nat, q: nat, r: nat)
    requires r < d && n == d * q + r
    ensures n / d == q && n % d == r
  {
    assert n == d * (n / d) + n % d;
    Distribute(d, n / d, 1);
    Distribute(d, q, 1);
    CancelFactor(d, q, n / d + 1);
    CancelFactor(d, n / d, q + 1);
  }
}
