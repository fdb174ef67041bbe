/** Quotients and remainders of natural numbers by a variable divisor. */
module Division {

  /** A larger quotient leaves no room for a remainder below m. */
  lemma {:induction false} LargerQuotient(m: nat, q: nat, q': nat)
    requires q < q'
    ensures q * m + m <= q' * m
    decreases q'
  {
    assert q' * m == (q' - 1) * m + m;
    if q < q' - 1 {
      LargerQuotient(m, q, q' - 1);
    }
  }

  lemma SameQuotient(m: nat, q: nat, r: nat, q': nat, r': nat)
    requires r < m && r' < m && q * m + r == q' * m + r'
    ensures q == q' && r == r'
  {
    if q < q' {
      LargerQuotient(m, q, q');
    } else if q' < q {
      LargerQuotient(m, q', q);
    }
  }

  /** Division and remainder are the only quotient and remainder there are. */
  lemma QuotientUnique(a: nat, m: nat, q: nat, r: nat)
    requires a == q * m + r && r < m
    ensures a / m == q && a % m == r
  {
    assert a == (a / m) * m + a % m;
    SameQuotient(m, q, r, a / m, a % m);
  }

  /** Taking off the lowest binary digit. */
  lemma SplitLowBit(a: nat, m: nat)
    requires m > 0
    ensures a % (2 * m) == ((a / 2) % m) * 2 + a % 2
    ensures (a % (2 * m)) / 2 == (a / 2) % m && (a % (2 * m)) % 2 == a % 2
  {
    var q, r := (a / 2) / m, (a / 2) % m;
    assert a / 2 == q * m + r;
    assert a == (q * m + r) * 2 + a % 2 == q * (2 * m) + (r * 2 + a % 2);
    QuotientUnique(a, 2 * m, q, r * 2 + a % 2);
  }
}
