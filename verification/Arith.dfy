/** The few facts about products and quotients that the layout arithmetic needs. */
module Arith {

  lemma MulLe(a: int, b: int, c: nat)
    requires a <= b
    ensures a * c <= b * c
  {
  }

  lemma MulStep(a: int, c: int)
    ensures (a + 1) * c == a * c + c
  {
  }

  lemma DivMulLe(n: nat, d: nat)
    requires d > 0
    ensures n / d * d <= n < n / d * d + d
  {
  }

  /** `i` is its quotient times `d` plus its remainder, and that decomposition is unique. */
  lemma DivModUnique(q: nat, r: nat, d: nat)
    requires r < d
    ensures (q * d + r) / d == q && (q * d + r) % d == r
  {
    var n := q * d + r;
    DivMulLe(n, d);
    if n / d < q {
      MulLe(n / d + 1, q, d);
      MulStep(n / d, d);
    } else if n / d > q {
      MulLe(q + 1, n / d, d);
      MulStep(q, d);
    }
    assert n == n / d * d + n % d;
  }
}
