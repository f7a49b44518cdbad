/** Facts about Euclidean remainder. Rust's `rem_euclid` with a positive
    modulus agrees with Dafny's `%` on `int`, whose remainder is never negative. */
module Euclid {

  /** The remainder is determined by any decomposition `x == m * q + r` with `0 <= r < m`. */
  lemma DivModUnique(x: int, q: int, r: int, m: int)
    requires m > 0 && 0 <= r < m && x == m * q + r
    ensures x % m == r
  {
    var q', r' := x / m, x % m;
    assert x == m * q' + r';
    var d := q - q';
    assert m * q - m * q' == m * d;
    assert m * d == r' - r;
    if d >= 1 {
      ProductAtLeast(m, d);
    } else if d <= -1 {
      ProductAtLeast(m, -d);
    }
  }

  /** A positive multiple of `m` is at least `m`. */
  lemma {:induction false} ProductAtLeast(m: int, d: int)
    requires m > 0 && d >= 1
    ensures m * d >= m
    decreases d
  {
    if d > 1 {
      ProductAtLeast(m, d - 1);
      assert m * d == m * (d - 1) + m;
    }
  }

  /** Adding a multiple of the modulus does not change the remainder. */
  lemma ModAddMultiple(x: int, k: int, m: int)
    requires m > 0
    ensures (x + m * k) % m == x % m
  {
    DivModUnique(x + m * k, x / m + k, x % m, m);
  }

  /** Reducing the subtrahend first gives the same remainder. */
  lemma ModSubMod(a: int, b: int, m: int)
    requires m > 0
    ensures (a - b % m) % m == (a - b) % m
  {
    ModAddMultiple(a - b, b / m, m);
  }

  /** Reducing the first summand first gives the same remainder. */
  lemma ModAddMod(a: int, b: int, m: int)
    requires m > 0
    ensures (a % m + b) % m == (a + b) % m
  {
    ModAddMultiple(a % m + b, a / m, m);
  }

  /** Within one modulus of the range `[0, m)`, the remainder is a single correction. */
  lemma ModNear(x: int, m: int)
    requires m > 0 && -m <= x < 2 * m
    ensures x % m == if x < 0 then x + m else if x < m then x else x - m
  {
    if x < 0 {
      DivModUnique(x, -1, x + m, m);
    } else if x < m {
      DivModUnique(x, 0, x, m);
    } else {
      DivModUnique(x, 1, x - m, m);
    }
  }
}
