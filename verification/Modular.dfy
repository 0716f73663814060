/** Quotients and remainders of natural numbers. */
module Modular {

  lemma MulBounds(m: nat, d: int)
    ensures d >= 1 ==> m * d >= m
    ensures d <= -1 ==> m * d + m <= 0
  {
    if d >= 1 {
      assert m * (d - 1) >= 0;
    } else if d <= -1 {
      assert m * (-d - 1) >= 0;
    }
  }

  /** Quotient and remainder are the only numbers that fit. */
  lemma DivModUnique(n: nat, q: nat, r: nat, m: nat)
    requires m > 0 && n == m * q + r && r < m
    ensures n / m == q && n % m == r
  {
    var d := n / m - q;
    assert m * d == r - n % m;
    MulBounds(m, d);
  }

  /** Distinct numbers less than m apart have distinct residues. */
  lemma ModDistinct(a: nat, b: nat, m: nat)
    requires 0 < b - a < m
    ensures a % m != b % m
  {
    var q := b / m - a / m;
    assert b - a == m * q + (b % m - a % m);
    MulBounds(m, q);
  }

  lemma ModSuccessor(n: nat, m: nat)
    requires m > 0
    ensures (n % m + 1) % m == (n + 1) % m
  {
    var q, r := n / m, n % m;
    assert n == m * q + r;
    if r + 1 < m {
      DivModUnique(r + 1, 0, r + 1, m);
      DivModUnique(n + 1, q, r + 1, m);
    } else {
      assert n + 1 == m * (q + 1);
      DivModUnique(m, 1, 0, m);
      DivModUnique(n + 1, q + 1, 0, m);
    }
  }

  /** Numbers less than m apart have quotients at most one apart. */
  lemma DivClose(x: nat, y: nat, m: nat)
    requires m > 0 && y <= x < y + m
    ensures y / m <= x / m <= y / m + 1
  {
    var q, r := y / m, y % m;
    assert y == m * q + r;
    if x - y + r < m {
      DivModUnique(x, q, x - y + r, m);
    } else {
      assert x == m * (q + 1) + (x - y + r - m);
      DivModUnique(x, q + 1, x - y + r - m, m);
    }
  }
}
