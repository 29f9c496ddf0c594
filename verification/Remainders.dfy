/** Counting round a period. */
module Remainders {

  lemma NextRemainder(k: nat, n: nat)
    requires n > 0
    ensures (k + 1) % n == if k % n + 1 == n then 0 else k % n + 1
  {
    var q, r := k / n, k % n;
    var a, b := (k + 1) / n, (k + 1) % n;
    assert a * n + b == q * n + r + 1;
    if r + 1 == n {
      SameQuotient(a, b, q + 1, 0, n) by { assert (q + 1) * n == q * n + n; }
    } else {
      SameQuotient(a, b, q, r + 1, n);
    }
  }

  lemma {:induction false} SameQuotient(a: nat, b: nat, q: nat, r: nat, n: nat)
    requires b < n && r < n && a * n + b == q * n + r
    ensures a == q && b == r
    decreases a + q
  {
    if a > 0 && q > 0 {
      assert (a - 1) * n == a * n - n && (q - 1) * n == q * n - n;
      SameQuotient(a - 1, b, q - 1, r, n);
    } else if a > 0 {
      AtLeast(a, n);
    } else if q > 0 {
      AtLeast(q, n);
    }
  }

  lemma {:induction false} AtLeast(t: nat, n: nat)
    requires t >= 1
    ensures t * n >= n
  {
    if t > 1 {
      AtLeast(t - 1, n);
      assert t * n == (t - 1) * n + n;
    }
  }

  /** Counting from 0 round the period. */
  function IndexAfter(k: nat, period: nat): nat {
    if k == 0 then 0 else if IndexAfter(k - 1, period) + 1 == period then 0 else IndexAfter(k - 1, period) + 1
  }

  lemma {:induction false} IndexQuotient(k: nat, period: nat) returns (q: nat)
    requires period > 0
    ensures k == q * period + IndexAfter(k, period) && IndexAfter(k, period) < period
  {
    if k == 0 {
      q := 0;
    } else {
      q := IndexQuotient(k - 1, period);
      if IndexAfter(k - 1, period) + 1 == period {
        assert (q + 1) * period == q * period + period;
        q := q + 1;
      }
    }
  }

  lemma IndexIsRemainder(k: nat, period: nat)
    requires period > 0
    ensures IndexAfter(k, period) == k % period
  {
    var q := IndexQuotient(k, period);
    SameQuotient(k / period, k % period, q, IndexAfter(k, period), period);
  }
}
