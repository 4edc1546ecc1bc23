/** Facts about integer division by a variable. */
module Division {

  lemma QuotientIsUnique(n: int, d: int, q: int, r: int)
    requires d > 0 && n == q * d + r && 0 <= r < d
    ensures n / d == q
  {
    var k := n / d - q;
    assert k * d == r - n % d;
    assert (k > 0 ==> k * d >= d) && (k < 0 ==> k * d <= -d);
  }

  lemma NoExcess(a: int, b: int, d: int, p: int, q: int)
    requires d > 0 && p * d <= a <= b < q * d + d
    ensures p <= q
  {
    assert (p - q) * d == p * d - q * d;
    assert p - q >= 1 ==> (p - q) * d >= d;
  }
}
