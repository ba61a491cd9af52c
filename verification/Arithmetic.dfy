/** Facts about remainders that the solver does not find alone. */
module Arithmetic {

  lemma QuotientOrder(q: int, r: int, q': int, r': int, m: int)
    requires 0 <= r < m && 0 <= r' && q < q'
    ensures q * m + r < q' * m + r'
  {
    var d := q' - q - 1;
    assert q' * m == q * m + m + d * m;
  }

  lemma QuotientUnique(q: int, r: int, q': int, r': int, m: int)
    requires 0 <= r < m && 0 <= r' < m && q * m + r == q' * m + r'
    ensures q == q' && r == r'
  {
    if q < q' {
      QuotientOrder(q, r, q', r', m);
    } else if q' < q {
      QuotientOrder(q', r', q, r, m);
    }
  }

  lemma RemainderUnique(x: int, q: int, r: int, m: int)
    requires m > 0 && 0 <= r < m && x == q * m + r
    ensures x % m == r && x / m == q
  {
    QuotientUnique(q, r, x / m, x % m, m);
  }

  lemma MultipleVanishes(low: int, k: int, m: int)
    requires m > 0
    ensures (low + k * m) % m == low % m
  {
    assert low + k * m == (low / m + k) * m + low % m;
    RemainderUnique(low + k * m, low / m + k, low % m, m);
  }

  lemma RemainderAdds(a: int, b: int, m: int)
    requires m > 0
    ensures (a % m + b) % m == (a + b) % m
  {
    assert a % m + b + (a / m) * m == a + b;
    MultipleVanishes(a % m + b, a / m, m);
  }
}
