/** Facts about multiplication and division that the solver is slow to find. */
module Arith {

  lemma MulLe(a: int, b: int, c: int)
    requires a <= b && 0 <= c
    ensures a * c <= b * c && c * a <= c * b
  {}

  lemma MulLt(a: int, b: int, c: int)
    requires a < b && 0 < c
    ensures a * c < b * c && c * a < c * b
  {}

  lemma MulAssoc(a: int, b: int, c: int)
    ensures a * b * c == a * (b * c)
  {}

  lemma Distribute(a: int, b: int, c: int)
    ensures a * (b + c) == a * b + a * c
    ensures (b + c) * a == b * a + c * a
  {}

  /** The quotient is the only number that fits. */
  lemma QuotientUnique(a: int, d: int, q: int, r: int)
    requires d > 0 && a == q * d + r && 0 <= r < d
    ensures a / d == q && a % d == r
  {
    var q', r' := a / d, a % d;
    assert a == q' * d + r';
    if q > q' {
      MulLe(q' + 1, q, d);
      Distribute(d, q', 1);
    } else if q < q' {
      MulLe(q + 1, q', d);
      Distribute(d, q, 1);
    }
  }

  function Pow2(n: nat): (p: nat)
    ensures p > 0
  {
    if n == 0 then 1 else 2 * Pow2(n - 1)
  }

  lemma {:induction false} Pow2Add(h: nat, k: nat)
    ensures Pow2(h + k) == Pow2(h) * Pow2(k)
  {
    if k > 0 {
      Pow2Add(h, k - 1);
      assert h + k - 1 == h + (k - 1);
      assert Pow2(h + k) == 2 * Pow2(h + k - 1);
    }
  }
}
