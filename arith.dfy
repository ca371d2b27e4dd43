/**
 * Facts about multiplication, division and remainder with a symbolic
 * divisor, which the solver does not find on its own.
 */
module Arith {
  /** Multiplying by a non-negative factor keeps the order. */
  lemma MulMono(f: nat, a: int, b: int)
    requires a <= b
    ensures f * a <= f * b
  {
    assert f * b - f * a == f * (b - a);
  }

  /** x = q·d + r with 0 <= r < d fixes both x / d and x % d. */
  lemma DivModOf(x: int, d: int, q: int, r: int)
    requires d > 0 && 0 <= r < d && x == q * d + r
    ensures x / d == q && x % d == r
  {
    var q', r' := x / d, x % d;
    assert q' * d + r' == x;
    assert (q' - q) * d == r - r';
    if q' > q {
      MulMono(d, 1, q' - q);
      assert false;
    } else if q' < q {
      MulMono(d, 1, q - q');
      assert false;
    }
  }

  /** `b · d` as `b` repeated additions of `d`, which a loop counting in steps of `d` reaches. */
  function Times(b: nat, d: int): int
  {
    if b == 0 then 0 else Times(b - 1, d) + d
  }

  /** Repeated addition is multiplication. */
  lemma {:induction false} TimesIsProduct(b: nat, d: int)
    ensures Times(b, d) == b * d
  {
    if b > 0 {
      TimesIsProduct(b - 1, d);
      assert (b - 1) * d + d == b * d;
    }
  }
}
