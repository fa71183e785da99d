/** Integer facts the sampling, rolling and indexing code relies on. */
module Numeric {

  function Max(a: int, b: int): int { if a < b then b else a }

  function Min(a: int, b: int): int { if a < b then a else b }

  /** Python's `int(x)` on a float: truncation toward zero. */
  function TruncateToInt(x: real): (r: int)
    ensures x >= 0.0 ==> r == x.Floor
    ensures x >= 0.0 ==> 0.0 <= x - r as real < 1.0
    ensures x < 0.0 ==> x <= r as real < x + 1.0 && r <= 0
  {
    if x >= 0.0 then x.Floor else -((-x).Floor)
  }

  /** The only multiple of `n` strictly between `-n` and `n` is zero. */
  lemma SmallMultipleIsZero(d: int, n: int)
    requires n > 0 && -n < d * n < n
    ensures d == 0
  {
  }

  /** Euclidean division is unique: a quotient and a remainder in range are the ones
      `/` and `%` give. */
  lemma DivModUnique(k: int, n: int, q: int, o: int)
    requires n > 0 && 0 <= o < n && k == q * n + o
    ensures k / n == q && k % n == o
  {
    var q', o' := k / n, k % n;
    assert (q - q') * n == o' - o;
    SmallMultipleIsZero(q - q', n);
  }

  /** Adding a multiple of the modulus does not change the remainder. */
  lemma ModAddMultiple(y: int, q: int, n: int)
    requires n > 0
    ensures (q * n + y) % n == y % n
  {
    DivModUnique(y, n, y / n, y % n);
    assert q * n + y == (q + y / n) * n + y % n;
    DivModUnique(q * n + y, n, q + y / n, y % n);
  }

  /** Taking the remainder first and subtracting afterwards agrees with subtracting first:
      y is x - a, however it is written. */
  lemma ModSub(x: int, a: int, n: int, y: int)
    requires n > 0 && y == x - a
    ensures (x % n - a) % n == y % n
  {
    assert y == (x / n) * n + (x % n - a);
    ModAddMultiple(x % n - a, x / n, n);
  }

  /** A number is its quotient times the divisor plus its remainder. */
  lemma DivModSplit(x: int, n: int)
    requires n > 0
    ensures x == (x / n) * n + x % n && 0 <= x % n < n
  {
  }

  /** Subtracting a multiple of the modulus from a remainder leaves it in place. */
  lemma SubMultipleMod(k: int, t: int, n: int)
    requires n > 0 && t % n == 0 && 0 <= k < n
    ensures (k - t) % n == k
  {
    var q := t / n;
    DivModSplit(t, n);
    DivModUnique(k - t, n, -q, k);
  }

  /** Offset o of block j lies inside `rows` blocks of `cols` each. */
  lemma BlockBelow(j: int, o: int, rows: int, cols: int)
    requires 0 <= j < rows && 0 <= o < cols
    ensures j * cols + o < rows * cols
  {
    assert (j + 1) * cols <= rows * cols;
  }

  /** A position below `rows * cols` lies in a row below `rows`. */
  lemma DivBelow(k: int, rows: int, cols: int)
    requires cols > 0 && 0 <= k < rows * cols
    ensures 0 <= k / cols < rows
  {
    var q := k / cols;
    assert q * cols <= k;
    assert (q - rows) * cols < 0;
  }
}
