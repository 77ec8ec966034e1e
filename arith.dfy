/** Facts about packed (row-major or column-major) index arithmetic, shared by every layout below. */
module Arith {

  lemma MulMono(a: nat, b: nat, n: nat)
    requires a <= b
    ensures a * n <= b * n
  {
  }

  /** A packed pair of indices stays inside the packed extent. */
  lemma PackedBound(i: nat, j: nat, m: nat, n: nat)
    requires i < m && j < n
    ensures i * n + j < m * n
  {
    MulMono(i + 1, m, n);
  }

  /** Packing a pair of indices with an inner extent `n` loses no information. */
  lemma PackedUnique(i: nat, j: nat, i': nat, j': nat, n: nat)
    requires j < n && j' < n
    requires i * n + j == i' * n + j'
    ensures i == i' && j == j'
  {
    if i < i' {
      MulMono(i + 1, i', n);
    } else if i' < i {
      MulMono(i' + 1, i, n);
    }
  }

  /** Division and remainder by the inner extent undo the packing. */
  lemma PackedDivMod(i: nat, j: nat, n: nat)
    requires j < n
    ensures (i * n + j) / n == i && (i * n + j) % n == j
  {
    var p := i * n + j;
    assert p == (p / n) * n + p % n;
    PackedUnique(p / n, p % n, i, j, n);
  }

  /** Every position below `m * n` unpacks into an in-range pair. */
  lemma Unpack(p: nat, m: nat, n: nat)
    requires p < m * n
    ensures n > 0 && p / n < m && p % n < n && p == (p / n) * n + p % n
  {
    if p / n >= m {
      MulMono(m, p / n, n);
    }
  }
}
