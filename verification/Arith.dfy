/** Small facts of integer arithmetic. */
module Arith {

  lemma ModShift(b: nat, m: nat, q: int)
    requires b < m
    ensures (b + m * q) % m == b
  {
    var t := b + m * q;
    assert t == m * (t / m) + t % m;
    assert m * (q - t / m) == t % m - b;
    ProductApart(m, q - t / m);
  }

  lemma ProductApart(m: nat, d: int)
    ensures d >= 1 ==> m * d >= m
    ensures d <= -1 ==> m * d <= 0 - m
    ensures d == 0 ==> m * d == 0
  {
    if d >= 1 {
      assert m * d == m * (d - 1) + m;
    } else if d <= -1 {
      assert m * d == m * (d + 1) - m;
      assert m * (-d - 1) >= 0;
      assert m * (d + 1) == -(m * (-d - 1));
    }
  }

  lemma ProductBounds(a: nat, b: nat, c: nat)
    requires b <= c
    ensures 0 <= a * b <= a * c
  {
    assert a * c == a * b + a * (c - b);
    ProductNonNegative(a, c - b);
    ProductNonNegative(a, b);
  }

  lemma {:induction false} ProductNonNegative(a: nat, b: nat)
    ensures a * b >= 0
  {
  }

  lemma DivisionBounds(n: nat, d: nat)
    requires d > 0
    ensures 0 <= (n / d) * d <= n < (n / d) * d + d
  {
    assert n == (n / d) * d + n % d;
    ProductNonNegative(n / d, d);
  }

  lemma ModAdd(n: nat, m: nat, k: int)
    requires m > 0 && n + m * k >= 0
    ensures (n + m * k) % m == n % m
  {
    var q := n / m + k;
    assert n == m * (n / m) + n % m;
    assert m * q == m * (n / m) + m * k;
    ModShift(n % m, m, q);
  }

  lemma QuotientBounds(n: nat, p: nat, a: nat, b: nat)
    requires p >= 1 && a * p <= n < b * p
    ensures a <= n / p < b
  {
    var m := n / p;
    DivisionBounds(n, p);
    assert p * (m - a) == m * p - a * p && p * (m - b) == m * p - b * p;
    ProductApart(p, m - a);
    ProductApart(p, m - b);
  }
}
