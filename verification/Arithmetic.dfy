// Small facts about products and quotients of variables.
module Arithmetic {

  lemma {:induction false} MulMono(n: int, a: int, b: int)
    requires 0 <= n && a <= b
    ensures a * n <= b * n
    decreases b - a
  {
    if a < b {
      MulMono(n, a, b - 1);
      assert b * n == (b - 1) * n + n;
    }
  }

  // Distinct rows of width n do not overlap.
  lemma RowOrder(n: int, a: int, b: int)
    requires 0 <= n && a < b
    ensures a * n + n <= b * n
  {
    MulMono(n, a + 1, b);
    assert (a + 1) * n == a * n + n;
  }

  lemma DivRem(n: int, x: int)
    requires n > 0
    ensures x == (x / n) * n + x % n && 0 <= x % n < n
  {
    assert x == n * (x / n) + x % n;
  }

  lemma DivMod(n: int, j: int, i: int)
    requires 0 <= i < n
    ensures (j * n + i) / n == j && (j * n + i) % n == i
  {
    var x := j * n + i;
    DivRem(n, x);
    UniqueRow(n, x / n, x % n, j, i);
  }

  lemma UniqueRow(n: int, a: int, r: int, b: int, s: int)
    requires 0 <= r < n && 0 <= s < n && a * n + r == b * n + s
    ensures a == b && r == s
  {
    if a < b { RowOrder(n, a, b); }
    if b < a { RowOrder(n, b, a); }
  }

  // A quotient stays below a row count exactly when the number is in those rows.
  lemma QuotientBound(n: int, x: int, rows: int)
    requires n > 0
    ensures x < rows * n <==> x / n < rows
    ensures x >= 0 ==> x / n >= 0
  {
    DivRem(n, x);
    if x / n < rows { RowOrder(n, x / n, rows); } else { MulMono(n, rows, x / n); }
    if x >= 0 && x / n < 0 { RowOrder(n, x / n, 0); }
  }
}
