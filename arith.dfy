/** Powers of two, and facts about integer multiplication and division that the solver does
    not find on its own for a divisor that is not a literal. */
module Arithmetic {

  /** A positive multiple of `d` is at least `d`. */
  lemma {:induction false} MulAtLeast(d: int, k: int)
    requires d > 0 && k >= 1
    ensures d * k >= d
    decreases k
  {
    if k > 1 {
      MulAtLeast(d, k - 1);
      assert d * k == d * (k - 1) + d;
    }
  }

  /** Quotient and remainder are unique: `w == d * q + r` with a remainder
      in range fixes both. */
  lemma DivModUnique(w: int, d: int, q: int, r: int)
    requires d > 0 && w == d * q + r && 0 <= r < d
    ensures w / d == q && w % d == r
  {
    var q', r' := w / d, w % d;
    assert d * q' + r' == d * q + r;
    if q > q' {
      assert d * (q - q') == r' - r;
      MulAtLeast(d, q - q');
    } else if q < q' {
      assert d * (q' - q) == r - r';
      MulAtLeast(d, q' - q);
    }
  }

  /** `2^k`, the value of `1 << k`. */
  function Pow2(k: nat): (p: nat)
    ensures p >= 1
  {
    if k == 0 then 1 else 2 * Pow2(k - 1)
  }

  /** Exponents add. */
  lemma {:induction false} Pow2Add(a: nat, b: nat)
    ensures Pow2(a + b) == Pow2(a) * Pow2(b)
  {
    if a > 0 {
      Pow2Add(a - 1, b);
    }
  }
}
