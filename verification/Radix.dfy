/** Mixed-radix positions: i rows of n, j within the row. */
module Radix {
  lemma Mono(a: nat, b: nat, c: nat)
    requires a <= b
    ensures a * c <= b * c
  {
  }

  lemma Distribute(a: int, b: int, c: int)
    ensures (a + b) * c == a * c + b * c
    ensures (a - b) * c == a * c - b * c
  {
  }

  lemma Regroup(a: int, b: int, c: int)
    ensures a * b * c == a * (b * c) == b * (a * c)
  {
  }

  lemma FlatBound(i: nat, m: nat, j: nat, n: nat)
    requires i < m && j < n
    ensures 0 <= i * n + j < m * n
    ensures (i + 1) * n <= m * n
  {
    Mono(i + 1, m, n);
    Distribute(i, 1, n);
  }

  lemma FlatUnique(i: nat, j: nat, i': nat, j': nat, n: nat)
    requires j < n && j' < n
    requires i * n + j == i' * n + j'
    ensures i == i' && j == j'
  {
    if i < i' {
      Mono(i + 1, i', n);
      Distribute(i, 1, n);
    } else if i' < i {
      Mono(i' + 1, i, n);
      Distribute(i', 1, n);
    }
  }

  lemma FlatDivMod(i: nat, j: nat, n: nat)
    requires j < n
    ensures (i * n + j) / n == i && (i * n + j) % n == j
  {
    var x := i * n + j;
    Split(x, n);
    FlatUnique(i, j, x / n, x % n, n);
  }

  lemma Split(x: nat, n: nat)
    requires n > 0
    ensures x == x / n * n + x % n && 0 <= x % n < n && 0 <= x / n
  {
  }

  /** The row of a position below m * n is below m. */
  lemma RowBound(x: nat, m: nat, n: nat)
    requires x < m * n
    ensures n > 0 && x / n < m
  {
    if n > 0 {
      Split(x, n);
      if x / n >= m {
        Mono(m, x / n, n);
      }
    }
  }

  function Div(x: nat, n: nat): (q: nat)
    requires n > 0
    ensures q * n <= x < q * n + n
  {
    Split(x, n);
    x / n
  }

  lemma DivTwice(x: nat, m: nat, n: nat)
    requires m > 0 && n > 0
    ensures n * m > 0 && x / (n * m) == x / m / n
  {
    Split(x, m);
    Split(x / m, n);
    var b, s := x / m / n, x / m % n;
    FlatBound(s, n, x % m, m);
    Distribute(b * n, s, m);
    Regroup(b, n, m);
    FlatDivMod(b, s * m + x % m, n * m);
  }

  lemma SmallMod(x: nat, n: nat)
    requires x < n
    ensures x % n == x
  {
    FlatDivMod(0, x, n);
  }

  lemma NoRest(a: nat, w: nat)
    requires a * w <= 0 && w > 0
    ensures a == 0
  {
    if a > 0 { Mono(1, a, w); }
  }

  lemma AtLeastOne(x: nat, n: nat)
    requires 0 < n <= x
    ensures x / n >= 1
  {
    Split(x, n);
  }

  lemma NonNegative(a: nat, b: nat, c: nat)
    ensures a * b * c >= 0
  {
    Mono(0, a, b);
    Mono(0, a * b, c);
  }

  function Rest(x: nat, n: nat): (r: nat)
    requires n > 0
    ensures r < n
  {
    Split(x, n);
    x % n
  }

  lemma Negative(a: int, b: nat)
    requires a <= 0
    ensures a * b <= 0
  {
  }
}
