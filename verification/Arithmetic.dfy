/** Multiplication and division with a variable divisor. */
module Arithmetic {
  lemma Multiply(a: nat, b: nat, c: nat)
    requires a <= b
    ensures a * c <= b * c
  {
  }

  lemma Successor(a: nat, c: nat)
    ensures (a + 1) * c == a * c + c
  {
  }

  lemma Quotient(x: nat, c: nat)
    requires c > 0
    ensures x / c * c <= x < x / c * c + c
    ensures x < c ==> x / c == 0
    ensures c <= x ==> x / c > 0
  {
    assert x == x / c * c + x % c;
    if x / c > 0 { assert x / c * c >= c; }
  }

  lemma QuotientIs(x: nat, c: nat, a: nat)
    requires c > 0 && a * c <= x < a * c + c
    ensures x / c == a
  {
    var q := x / c;
    Quotient(x, c);
    if q < a { Successor(q, c); Multiply(q + 1, a, c); }
    if a < q { Successor(a, c); Multiply(a + 1, q, c); }
  }

  /** Counting on by one, in rows of `n`. */
  lemma NextInRow(k: nat, n: nat)
    requires n > 0
    ensures (k + 1) / n == k / n + if k % n == n - 1 then 1 else 0
    ensures (k + 1) % n == if k % n == n - 1 then 0 else k % n + 1
  {
    var q, r := k / n, k % n;
    assert k == q * n + r;
    Successor(q, n);
    if r == n - 1 {
      DivisionIs(k + 1, n, q + 1, 0);
    } else {
      DivisionIs(k + 1, n, q, r + 1);
    }
  }

  lemma DivisionIs(x: nat, c: nat, a: nat, r: nat)
    requires r < c && x == a * c + r
    ensures x / c == a && x % c == r
  {
    QuotientIs(x, c, a);
    assert x == x / c * c + x % c;
  }
}
