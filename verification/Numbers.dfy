/** Python's `max`, `min` and `or` on integers, and facts about `/` and `%`. */
module Numbers {
  function Max(x: int, y: int): int {
    if x < y then y else x
  }

  function Min(x: int, y: int): int {
    if x < y then x else y
  }

  /** `x or y`: 0 counts as missing. */
  function OrElse(x: int, y: int): int {
    if x != 0 then x else y
  }

  lemma QuotientIs(n: int, m: int, q: int, r: int)
    requires m >= 1 && n == q * m + r && 0 <= r < m
    ensures n / m == q && n % m == r
  {
    var d := n / m - q;
    assert d * m == r - n % m;
    if d != 0 {
      MultipleIsLarge(d, m);
      assert false;
    }
  }

  lemma MultipleIsLarge(d: int, m: int)
    requires m >= 1 && d != 0
    ensures d * m >= m || d * m <= -m
  {
    if d >= 1 {
      assert (d - 1) * m >= 0;
    } else {
      assert (-d - 1) * m >= 0;
    }
  }

  lemma Successor(n: nat, m: int)
    requires m >= 1
    ensures (n + 1) % m == if n % m == m - 1 then 0 else n % m + 1
    ensures (n + 1) / m == if n % m == m - 1 then n / m + 1 else n / m
  {
    var q, r := n / m, n % m;
    assert n == q * m + r;
    if r == m - 1 {
      assert n + 1 == (q + 1) * m;
      QuotientIs(n + 1, m, q + 1, 0);
    } else {
      QuotientIs(n + 1, m, q, r + 1);
    }
  }

  lemma QuotientMinus(n: int, m: int)
    requires m >= 1
    ensures n / m == (n - m) / m + 1
  {
    var q := (n - m) / m;
    assert n == (q + 1) * m + (n - m) % m;
    QuotientIs(n, m, q + 1, (n - m) % m);
  }

  lemma OneMore(q: int, x: int)
    ensures (q + 1) * x == q * x + x
  {
  }

  /** Among any m consecutive numbers there is a multiple of m. */
  lemma NextMultiple(i: nat, m: int) returns (j: nat)
    requires m >= 1
    ensures i < j <= i + m && j % m == 0
  {
    j := (i / m + 1) * m;
    assert j == i - i % m + m;
    QuotientIs(j, m, i / m + 1, 0);
  }

  lemma ProductGrows(a: int, b: int, m: nat)
    requires a <= b
    ensures a * m <= b * m
  {
    assert (b - a) * m >= 0;
    assert (b - a) * m == b * m - a * m;
  }
}
