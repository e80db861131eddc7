/** Multiples, counted by subtraction, against the remainder the code computes. */
module Multiples {
  predicate Multiple(a: nat, k: nat)
    requires k > 0
  {
    a == 0 || (a >= k && Multiple(a - k, k))
  }

  lemma AtLeastOnce(k: int, d: int)
    requires k > 0
    ensures d >= 1 ==> k * d >= k
    ensures d <= -1 ==> k * d <= -k
  {
  }

  lemma QuotientIsUnique(x: int, k: int, q: int, r: int)
    requires k > 0 && x == k * q + r && 0 <= r < k
    ensures x / k == q && x % k == r
  {
    var q1, r1 := x / k, x % k;
    assert x == k * q1 + r1 && k * (q - q1) == r1 - r;
    AtLeastOnce(k, q - q1);
  }

  lemma {:induction false} MultipleIffNoRemainder(a: nat, k: nat)
    requires k > 0
    ensures Multiple(a, k) <==> a % k == 0
  {
    if a >= k {
      MultipleIffNoRemainder(a - k, k);
      var b := a - k;
      assert b == k * (b / k) + b % k;
      assert a == k * (b / k + 1) + b % k;
      QuotientIsUnique(a, k, b / k + 1, b % k);
    }
  }

  lemma {:induction false} MultiplesApart(a: nat, b: nat, k: nat)
    requires k > 0 && Multiple(a, k) && Multiple(b, k) && a < b
    ensures a + k <= b
  {
    if a > 0 {
      MultiplesApart(a - k, b - k, k);
    }
  }

  lemma RoundedDown(c: nat, k: nat)
    requires k > 0
    ensures c % k <= c && Multiple(c - c % k, k) && c - k < c - c % k <= c
  {
    QuotientIsUnique(c - c % k, k, c / k, 0);
    assert c - c % k == k * (c / k);
    assert c / k >= 0 && k * (c / k) >= 0;
    MultipleIffNoRemainder(c - c % k, k);
  }
}
