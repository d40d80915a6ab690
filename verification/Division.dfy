/** Quotients of products: facts that are stated once because they are not linear. */
module Division {

  lemma Quotient(a: nat, b: nat)
    requires b > 0
    ensures b * (a / b) <= a < b * (a / b) + b
  {
  }

  lemma Multiple(k: nat, b: nat)
    requires b > 0
    ensures (b * k) % b == 0 && (b * k) / b == k
  {
    QuotientIs(b * k, b, k);
  }

  lemma QuotientIs(a: nat, b: nat, q: nat)
    requires b > 0 && b * q <= a < b * q + b
    ensures a / b == q && a % b == a - b * q
  {
    Quotient(a, b);
    if a / b < q {
      ProductMonotone(b, a / b + 1, q);
    } else if q < a / b {
      ProductMonotone(b, q + 1, a / b);
    }
  }

  lemma ProductMonotone(b: nat, i: nat, j: nat)
    requires i <= j
    ensures b * i <= b * j
  {
  }

  /** Whole multiples leave remainders alone and add to quotients. */
  lemma QuotientShifted(m: nat, r: nat, b: nat)
    requires b > 0
    ensures (b * m + r) / b == m + r / b && (b * m + r) % b == r % b
  {
    Quotient(r, b);
    assert b * (m + r / b) == b * m + b * (r / b);
    QuotientIs(b * m + r, b, m + r / b);
  }
}
