/** Order facts about products and quotients of reals that the solver needs spelled out. */
module RealOrder {

  lemma ScaleOrder(a: real, b: real, k: real)
    requires a <= b && 0.0 <= k
    ensures a * k <= b * k
  {
    assert 0.0 <= (b - a) * k;
  }

  lemma CancelScale(a: real, b: real, k: real)
    requires 0.0 < k && a * k <= b * k
    ensures a <= b
  {
    assert 0.0 <= (b - a) * k;
  }

  lemma QuotientOrder(a: real, b: real, k: real)
    requires 0.0 < k && a <= b
    ensures a / k <= b / k
  {
    var p, q := a / k, b / k;
    assert p * k == a && q * k == b;
    CancelScale(p, q, k);
  }

  lemma UnitQuotients(k: real)
    requires 0.0 < k
    ensures 0.0 / k == 0.0 && k / k == 1.0
  {
    var zero, one := 0.0 / k, k / k;
    assert zero * k == 0.0 && one * k == k == 1.0 * k;
    CancelScale(zero, 0.0, k);
    CancelScale(0.0, zero, k);
    CancelScale(one, 1.0, k);
    CancelScale(1.0, one, k);
  }

  lemma RatioInUnit(part: real, whole: real)
    requires 0.0 <= part <= whole && 0.0 < whole
    ensures 0.0 <= part / whole <= 1.0
  {
    QuotientOrder(0.0, part, whole);
    QuotientOrder(part, whole, whole);
    UnitQuotients(whole);
  }
}
