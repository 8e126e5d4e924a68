/** Division with remainder, for the moduli of the hash table and of machine words. */
module Arithmetic {
  lemma MulGrows(m: int, d: int)
    requires m > 0
    ensures d >= 1 ==> m * d >= m
    ensures d <= -1 ==> m * d <= -m
  {}

  /** A remainder is known by its range and its congruence. */
  lemma ModUnique(x: int, m: int, k: int, r: int)
    requires 0 <= r < m && x == m * k + r
    ensures x % m == r && x / m == k
  {
    var q, e := x / m, x % m;
    assert x == m * q + e;
    assert m * (q - k) == r - e;
    MulGrows(m, q - k);
  }
}
