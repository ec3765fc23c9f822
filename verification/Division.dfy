/** The few facts about truncating division of naturals that the accounting needs. */
module Division {
  lemma {:induction false} MulMonotone(a: nat, b: nat, q: nat)
    requires a <= b
    ensures a * q <= b * q
  {
    assert b * q == a * q + (b - a) * q;
  }

  lemma MulCancel(n: nat, p: nat, q: nat)
    requires n * p < n * q
    ensures p < q
  {
    if q <= p {
      MulMonotone(q, p, n);
    }
  }

  /** n equal shares, rounded down, and the remainder make up the whole. */
  lemma SharesAndRemainder(bytes: nat, n: nat)
    requires 0 < n
    ensures n * (bytes / n) + bytes % n == bytes
    ensures bytes % n < n
  {
  }

  lemma ShareAtMostWhole(bytes: nat, n: nat)
    requires 0 < n
    ensures bytes / n <= bytes
  {
    var q := bytes / n;
    SharesAndRemainder(bytes, n);
    MulMonotone(1, n, q);
  }

  /** More sharers, smaller or equal shares. */
  lemma ShareShrinks(bytes: nat, n: nat, m: nat)
    requires 0 < n <= m
    ensures bytes / m <= bytes / n
  {
    var p, q := bytes / m, bytes / n;
    SharesAndRemainder(bytes, n);
    SharesAndRemainder(bytes, m);
    MulMonotone(n, m, p);
    assert n * p < n * (q + 1);
    MulCancel(n, p, q + 1);
  }
}
