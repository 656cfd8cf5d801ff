/** Products and quotients the solver does not find by itself. */
module Arithmetic {

  lemma MultipleAway(x: int, d: int)
    requires d > 0
    ensures x >= 1 ==> x * d >= d
    ensures x <= -1 ==> x * d <= -d
  {
  }

  lemma QuotientAtLeast(q: int, x: int, d: int)
    requires d > 0 && q * d <= x
    ensures q <= x / d
  {
    var r := x / d;
    assert x == r * d + x % d;
    assert (q - r) * d == q * d - r * d;
    MultipleAway(q - r, d);
  }
}
