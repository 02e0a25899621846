/** Arithmetic of cutting a length into equal blocks. */
module Blocks {

  lemma {:induction false} Monotone(i: nat, j: nat, q: nat)
    requires i < j
    ensures i * q + q <= j * q
  {
    if i + 1 < j {
      Monotone(i, j - 1, q);
      assert (j - 1) * q + q == j * q;
    } else {
      assert (i + 1) * q == i * q + q;
    }
  }

  lemma {:induction false} Locate(p: nat, q: nat, n: nat) returns (i: nat)
    requires p < n * q
    ensures i < n && i * q <= p < i * q + q
  {
    i := n - 1;
    assert (n - 1) * q + q == n * q;
    if p < (n - 1) * q { i := Locate(p, q, n - 1); }
  }

  lemma Division(n: nat, size: nat)
    requires n > 0
    ensures n * (size / n) + size % n == size && (n - 1) * (size / n) + size / n == n * (size / n)
  {
    assert (n - 1) * (size / n) + size / n == n * (size / n);
  }
}
