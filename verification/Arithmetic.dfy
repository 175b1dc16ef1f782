// Integer facts about products and quotients.
module Arithmetic {
  lemma MulLeq(a: int, b: int, c: int)
    requires a <= b && c >= 0
    ensures a * c <= b * c
  {
  }

  // Division with remainder is unique.
  lemma QuotientIs(n: int, c: int, k: int, r: int)
    requires c >= 1 && n == k * c + r && 0 <= r < c
    ensures n / c == k && n % c == r
  {
    var k', r' := n / c, n % c;
    assert n == k' * c + r';
    if k' > k { MulLeq(k + 1, k', c); }
    if k' < k { MulLeq(k' + 1, k, c); }
  }
}
