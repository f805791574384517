/** Facts about Euclidean division that the skip-pointer stride and the block numbering rely on. */
module Arith {

  lemma {:induction false} MulAtLeast(a: int, d: int)
    requires a >= 1 && d > 0
    ensures a * d >= d
  {
    if a > 1 {
      MulAtLeast(a - 1, d);
      assert a * d == (a - 1) * d + d;
    }
  }

  /** Division with remainder has exactly one answer: a quotient/remainder pair that
      reassembles x is the one Dafny's `/` and `%` produce. */
  lemma DivModUnique(x: int, d: int, q: int, r: int)
    requires d > 0 && 0 <= r < d && x == q * d + r
    ensures x / d == q && x % d == r
  {
    var q', r' := x / d, x % d;
    assert x == q' * d + r';
    assert (q - q') * d == r' - r by {
      assert (q - q') * d == q * d - q' * d;
    }
    if q > q' {
      MulAtLeast(q - q', d);
    } else if q < q' {
      MulAtLeast(q' - q, d);
    }
  }

  lemma MultipleMod(j: int, d: int)
    requires d > 0
    ensures (j * d) % d == 0 && (j * d) / d == j
  {
    DivModUnique(j * d, d, j, 0);
  }

  /** One factor fewer: (k - 1) * d leaves out exactly one d. */
  lemma MulPred(k: int, d: int)
    ensures (k - 1) * d == k * d - d
  {
  }
}
