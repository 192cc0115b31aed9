/** The few nonlinear facts the models need. */
module Arithmetic {
  lemma {:induction false} MulMonotone(a: nat, b: nat, c: nat)
    requires a <= b
    ensures a * c <= b * c
  {
    assert b * c == a * c + (b - a) * c;
  }

  lemma {:induction false} QuotientIsUnique(m: nat, d: nat, q: nat, r: nat)
    requires r < d && m == q * d + r
    ensures m / d == q && m % d == r
  {
    var q' := m / d;
    assert m == q' * d + m % d;
    assert (q' + 1) * d == q' * d + d && (q + 1) * d == q * d + d;
    if q' < q {
      MulMonotone(q' + 1, q, d);
    } else if q < q' {
      MulMonotone(q + 1, q', d);
    }
  }

  lemma {:induction false} QuotientOfSum(m: nat, d: nat)
    requires d > 0
    ensures (m + d) / d == m / d + 1 && (m + d) % d == m % d
  {
    assert m == (m / d) * d + m % d;
    assert (m / d + 1) * d == (m / d) * d + d;
    QuotientIsUnique(m + d, d, m / d + 1, m % d);
  }
}
