/** The few facts about products and quotients the numeric proofs use. */
module Reals {
  lemma ProductNonNegative(a: real, b: real)
    requires a >= 0.0 && b >= 0.0
    ensures a * b >= 0.0
  {
  }

  lemma ProductPositive(a: real, b: real)
    requires b > 0.0
    ensures a * b > 0.0 <==> a > 0.0
  {
    if a <= 0.0 {
      assert a * b <= 0.0;
    }
  }

  /** A quotient compares with a number as the dividend does with the product. */
  lemma QuotientOrder(a: real, b: real, x: real)
    requires b > 0.0
    ensures a / b <= x <==> a <= x * b
    ensures a / b >= x <==> a >= x * b
  {
    var q := a / b;
    assert q * b == a;
    ProductPositive(x - q, b);
    ProductPositive(q - x, b);
    assert (x - q) * b == x * b - a;
    assert (q - x) * b == a - x * b;
  }

  lemma QuotientIs(a: real, b: real, x: real)
    requires b > 0.0 && a == x * b
    ensures a / b == x
  {
    QuotientOrder(a, b, x);
  }

  /** A product kept as a term, for proofs that only rearrange products. */
  function Times(a: real, b: real): real {
    a * b
  }

  lemma TimesAssociates(a: real, b: real, c: real)
    ensures Times(Times(a, b), c) == Times(a, Times(b, c))
    ensures Times(a, b) == Times(b, a) && Times(b, c) == Times(c, b)
  {
  }

  lemma TimesOne(a: real)
    ensures Times(a, 1.0) == a && Times(1.0, a) == a
  {
  }

  lemma TimesWhole(a: int, b: int)
    ensures Times(a as real, b as real) == (a * b) as real
  {
  }

  lemma TimesCancels(a: real, b: real, c: real)
    requires c != 0.0 && Times(a, c) == Times(b, c)
    ensures a == b
  {
    assert (a - b) * c == 0.0;
  }
}
