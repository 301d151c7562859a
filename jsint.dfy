/** JavaScript's integer remainder, which the index arithmetic of the works pages relies on. */
module JsInt {

  /**
   * `a % n` in JavaScript for a positive `n`: the remainder takes the sign of `a` (a
   * negative `a` that `n` divides gives `-0`, read here as 0).
   */
  function JsRem(a: int, n: int): (r: int)
    requires n > 0
    ensures a >= 0 ==> r == a % n && 0 <= r < n
    ensures a < 0 ==> -n < r <= 0
  {
    if a >= 0 then a % n else -((-a) % n)
  }

  /** Below twice the divisor, the remainder subtracts the divisor at most once. */
  lemma SmallRem(a: int, n: int)
    requires 0 <= a < 2 * n
    ensures JsRem(a, n) == if a < n then a else a - n
  {
    if a >= n {
      assert a == 1 * n + (a - n);
    }
  }

  /**
   * `(index + d + len) % len` selects an element of a list of length `len` for any
   * non-negative `index` and any step or offset `d >= -2`; with `len == 1` the value may
   * be `-0`, which still reads element 0.
   */
  lemma {:induction false} WrapInRange(index: int, d: int, len: int)
    requires 0 <= index && -2 <= d && 1 <= len
    ensures 0 <= JsRem(index + d + len, len) < len
  {
    var a := index + d + len;
    if len == 1 {
      assert a % 1 == 0 && (-a) % 1 == 0;
    } else {
      assert a >= 0;
    }
  }
}
