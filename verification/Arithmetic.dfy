/** Products and quotients. */
module Arithmetic {

  lemma DivUnique(a: nat, k: nat, q: int, r: nat)
    requires k > 0 && a == q * k + r && r < k
    ensures a / k == q
  {
    var q' := a / k;
    assert a == q' * k + a % k;
    if q' < q {
      Multiples(q', q, k);
    } else if q < q' {
      Multiples(q, q', k);
    }
  }

  lemma MulLe(a: int, b: int, k: nat)
    requires a <= b
    ensures a * k <= b * k
  {
  }

  lemma Multiples(a: int, b: int, k: nat)
    requires a < b
    ensures a * k + k <= b * k
  {
    MulLe(a + 1, b, k);
    assert a * k + k == (a + 1) * k;
  }

  lemma DivMul(a: nat, b: nat)
    requires b > 0
    ensures (a * b) / b == a
  {
    DivUnique(a * b, b, a, 0);
  }
}
