/** Facts about unsigned integer multiplication and division that the handle
    and byte-offset arithmetic of the backend relies on. */
module Arith {

  /** Euclidean division is determined by its quotient and remainder. */
  lemma DivModUnique(n: int, d: int, q: int, r: int)
    requires d > 0 && 0 <= r < d && n == q * d + r
    ensures n / d == q && n % d == r
  {
    var q', r' := n / d, n % d;
    assert (q' - q) * d == r - r';
    if q' > q {
      MulAtLeast(q' - q, d);
    } else if q' < q {
      MulAtLeast(q - q', d);
    }
  }

  lemma MulAtLeast(a: int, d: int)
    requires a >= 1 && d > 0
    ensures a * d >= d
  {
  }

  lemma MulMonotone(a: int, b: int, d: int)
    requires 0 <= a <= b && d >= 0
    ensures a * d <= b * d
  {
  }

  lemma DivBelow(n: nat, d: nat, k: nat)
    requires d > 0 && n < k * d
    ensures n / d < k
  {
    if n / d >= k {
      MulMonotone(k, n / d, d);
    }
  }

  /** Multiplication by a positive number is injective. */
  lemma MulCancel(i: int, j: int, d: int)
    requires d > 0 && i * d == j * d
    ensures i == j
  {
    if i < j {
      assert (j - i) * d == j * d - i * d;
      MulAtLeast(j - i, d);
    } else if j < i {
      assert (i - j) * d == i * d - j * d;
      MulAtLeast(i - j, d);
    }
  }
}
