/** Quotient and remainder facts the segment-count lemmas rely on. */
module Arith {

  lemma {:induction false} MulGrows(m: nat, d: nat)
    requires d >= 1
    ensures m * d >= m
    decreases d
  {
    if d > 1 {
      MulGrows(m, d - 1);
      assert m * d == m * (d - 1) + m;
    }
  }

  lemma DivModUnique(n: nat, m: nat, q: nat, r: nat)
    requires 0 < m && r < m && n == m * q + r
    ensures q == n / m && r == n % m
  {
    var q', r' := n / m, n % m;
    assert n == m * q' + r';
    if q < q' {
      MulGrows(m, q' - q);
    } else if q' < q {
      MulGrows(m, q - q');
    }
  }
}
