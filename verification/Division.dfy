/** Quotient and remainder are determined by how they are put together. */
module Division {
  lemma Larger(n: nat, q: nat, r: nat, k: nat, t: nat)
    requires q > k && t < n
    ensures q * n + r > k * n + t
  {
    var more := q - k - 1;
    assert q * n == (k + 1 + more) * n == k * n + n + more * n;
  }

  lemma QuotientAndRemainder(a: nat, n: nat, q: nat, r: nat)
    requires r < n && a == q * n + r
    ensures a / n == q && a % n == r
  {
    var k, t := a / n, a % n;
    assert a == k * n + t;
    if q > k { Larger(n, q, r, k, t); }
    if k > q { Larger(n, k, t, q, r); }
  }

  lemma Regrouped(q: nat, c: nat, u: nat, b: nat, t: nat)
    ensures (q * c + u) * b + t == q * (b * c) + (u * b + t)
  {
    assert (q * c + u) * b == q * c * b + u * b;
    assert q * c * b == q * (b * c);
  }

  lemma DivideTwice(a: nat, b: nat, c: nat)
    requires b > 0 && c > 0
    ensures b * c > 0 && a / b / c == a / (b * c)
  {
    var q, u, t := a / b / c, a / b % c, a % b;
    Larger(b, c, 0, u, t);
    assert a / b == q * c + u;
    assert a == a / b * b + t;
    Regrouped(q, c, u, b, t);
    QuotientAndRemainder(a, b * c, q, u * b + t);
  }
}
