/** Small shared vocabulary: Swift optionals and integer helpers. */
module Common {

  /** A Swift optional value (`T?`). */
  datatype Option<+T> = None | Some(value: T)

  function Min(a: int, b: int): int {
    if a <= b then a else b
  }

  function Max(a: int, b: int): int {
    if a >= b then a else b
  }

  /**
   * `d * n >= n` for a positive factor `d`. A lemma of its own because the
   * solver handles this nonlinear step cheaply only with the product isolated;
   * `ModUnique` needs it to rule out a second quotient.
   */
  lemma MulAtLeast(d: int, n: int)
    requires d >= 1 && n > 0
    ensures d * n >= n
  {
  }

  /** The remainder is determined by any quotient-remainder decomposition. */
  lemma ModUnique(x: int, n: int, q: int, r: int)
    requires n > 0 && 0 <= r < n && x == q * n + r
    ensures x % n == r
  {
    var q', r' := x / n, x % n;
    assert x == q' * n + r';
    if q' > q {
      assert (q' - q) * n == r - r';
      MulAtLeast(q' - q, n);
    } else if q' < q {
      assert (q - q') * n == r' - r;
      MulAtLeast(q - q', n);
    }
  }

  /** Reducing the left operand first does not change a sum taken modulo `n`. */
  lemma ModOfSum(c: nat, k: nat, n: int)
    requires n > 0
    ensures (c % n + k) % n == (c + k) % n
  {
    var m := c % n + k;
    assert c + k == (c / n + m / n) * n + m % n;
    ModUnique(c + k, n, c / n + m / n, m % n);
  }

  /** Adding at most `n` to a reduced value wraps around at most once. */
  lemma ModShift(c: nat, j: nat, n: int)
    requires n > 0 && j <= n
    ensures (c + j) % n == if c % n + j < n then c % n + j else c % n + j - n
  {
    ModOfSum(c, j, n);
    if c % n + j < n {
      ModUnique(c % n + j, n, 0, c % n + j);
    } else {
      ModUnique(c % n + j, n, 1, c % n + j - n);
    }
  }
}
