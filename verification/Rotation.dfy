/** Counting along a cycle of `m` positions: which position a counter points at, and how often. */
module Rotation {

  /** How many of 0 .. n-1 leave remainder `pos` when divided by `m`. */
  function CountBelow(n: nat, m: nat, pos: nat): nat
    requires pos < m
  {
    n / m + if pos < n % m then 1 else 0
  }

  /** How many of start .. start+n-1 leave remainder `pos`. */
  ghost function Visits(start: nat, n: nat, m: nat, pos: nat): nat
    requires pos < m
  {
    if n == 0 then 0 else Visits(start, n - 1, m, pos) + if (start + n - 1) % m == pos then 1 else 0
  }

  lemma Split(x: nat, m: nat, q: nat, r: nat)
    requires m > 0 && x == q * m + r && r < m
    ensures x / m == q && x % m == r
  {
    Unique(x / m, x % m, q, r, m);
  }

  /** A smaller multiple of `m` ends before a larger one starts. */
  lemma Multiples(i: int, j: int, m: int)
    requires m > 0 && i < j
    ensures i * m + m <= j * m
  {
    assert (j - i - 1) * m >= 0;
    assert (j - i - 1) * m == j * m - i * m - m;
  }

  lemma Unique(a: int, b: int, c: int, d: int, m: int)
    requires 0 <= b < m && 0 <= d < m && a * m + b == c * m + d
    ensures a == c && b == d
  {
    if a < c {
      Multiples(a, c, m);
    } else if c < a {
      Multiples(c, a, m);
    }
  }

  /** Quotient and remainder of a sum: with or without a carry. */
  lemma Sum(x: nat, y: nat, m: nat)
    requires m > 0
    ensures x % m + y % m < m ==> (x + y) / m == x / m + y / m && (x + y) % m == x % m + y % m
    ensures x % m + y % m >= m ==> (x + y) / m == x / m + y / m + 1 && (x + y) % m == x % m + y % m - m
  {
    SumOf(x, y, m, x / m, x % m, y / m, y % m);
  }

  lemma SumOf(x: nat, y: nat, m: nat, a: nat, b: nat, q: nat, r: nat)
    requires b < m && r < m && x == a * m + b && y == q * m + r
    ensures b + r < m ==> (x + y) / m == a + q && (x + y) % m == b + r
    ensures b + r >= m ==> (x + y) / m == a + q + 1 && (x + y) % m == b + r - m
  {
    assert (a + q) * m == a * m + q * m;
    assert (a + q + 1) * m == (a + q) * m + m;
    if b + r < m {
      Split(x + y, m, a + q, b + r);
    } else {
      Split(x + y, m, a + q + 1, b + r - m);
    }
  }

  lemma {:induction false} NextCount(n: nat, m: nat, pos: nat)
    requires pos < m
    ensures CountBelow(n + 1, m, pos) == CountBelow(n, m, pos) + if n % m == pos then 1 else 0
  {
    if m == 1 {
    } else {
      Split(1, m, 0, 1);
      Sum(n, 1, m);
    }
  }

  lemma {:induction false} VisitsAreDifference(start: nat, n: nat, m: nat, pos: nat)
    requires pos < m
    ensures Visits(start, n, m, pos) == CountBelow(start + n, m, pos) - CountBelow(start, m, pos)
  {
    if n > 0 {
      VisitsAreDifference(start, n - 1, m, pos);
      NextCount(start + n - 1, m, pos);
    }
  }

  /** From any start, n steps visit each position n / m times, rounded down or up. */
  lemma {:induction false} VisitsAreFair(start: nat, n: nat, m: nat, pos: nat)
    requires pos < m
    ensures Visits(start, n, m, pos) == n / m || (n % m != 0 && Visits(start, n, m, pos) == n / m + 1)
  {
    VisitsAreDifference(start, n, m, pos);
    Sum(start, n, m);
  }
}
