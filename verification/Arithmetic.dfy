// Quotients, remainders and sizes of sets.
module Arithmetic {

  lemma Divide(q: nat, r: nat, m: nat)
    requires r < m
    ensures (q * m + r) / m == q && (q * m + r) % m == r
  {
    var x := q * m + r;
    assert x == x / m * m + x % m;
    var d := x / m - q;
    assert d * m == r - x % m;
  }

  lemma SubsetSize<T>(a: set<T>, b: set<T>)
    requires a <= b
    ensures |a| <= |b|
  {
    assert b == a + (b - a);
  }

  function CeilDiv(a: nat, b: nat): nat
    requires b > 0
  {
    if a % b == 0 then a / b else a / b + 1
  }

  lemma Scale(a: int, b: int, m: nat)
    requires a <= b
    ensures a * m <= b * m
  {
    assert b * m == a * m + (b - a) * m;
  }

  /** CeilDiv(a, b) is the least number of steps of b that reach a. */
  lemma CeilDivIsLeast(a: nat, b: nat, n: nat)
    requires b > 0
    ensures n * b >= a <==> n >= CeilDiv(a, b)
  {
    var q := a / b;
    assert a == q * b + a % b;
    assert (q + 1) * b == q * b + b;
    if n <= q { Scale(n, q, b); }
    if q <= n { Scale(q, n, b); }
    if q + 1 <= n { Scale(q + 1, n, b); }
    if n <= q - 1 {
      Scale(n, q - 1, b);
      assert (q - 1) * b == q * b - b;
    }
  }
}
