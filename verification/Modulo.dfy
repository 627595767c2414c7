/** Remainders for positions that go round in a circle. */
module Modulo {
  lemma MultipleIsLarge(d: int, m: int)
    requires m >= 0
    ensures d >= 1 ==> d * m >= m
    ensures d <= -1 ==> d * m <= -m
  {
    if d >= 1 {
      assert d * m == (d - 1) * m + m;
    } else if d <= -1 {
      assert d * m == (d + 1) * m - m;
    }
  }

  lemma ModOf(q: nat, r: nat, m: nat, n: nat)
    requires r < m && n == q * m + r
    ensures n % m == r
  {
    var d := n / m - q;
    assert n == (n / m) * m + n % m;
    assert d * m == (n / m) * m - q * m;
    MultipleIsLarge(d, m);
  }

  lemma NextInCircle(i: nat, m: nat)
    requires i < m
    ensures (i + 1) % m == if i + 1 == m then 0 else i + 1
  {
    if i + 1 == m {
      ModOf(1, 0, m, i + 1);
    } else {
      ModOf(0, i + 1, m, i + 1);
    }
  }
}
