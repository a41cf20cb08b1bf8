/**
 * The two pieces of JavaScript number arithmetic the games rely on, stated
 * over integers. Dafny's `%` is Euclidean (never negative); JavaScript's `%`
 * truncates, so its result takes the sign of the dividend. `Math.floor(a / n)`
 * with a positive divisor is Dafny's `a / n`.
 */
module JsMath {

  /** `Math.abs` on an integer. */
  function Abs(n: int): (r: nat)
    ensures r == n || r == -n
  {
    if n < 0 then -n else n
  }

  /** JavaScript's `a % n` for a positive divisor. */
  function TruncRem(a: int, n: int): (r: int)
    requires n > 0
    ensures a >= 0 ==> 0 <= r < n
    ensures a < 0 ==> -n < r <= 0
    ensures a >= 0 ==> r == a % n
    ensures (a - r) % n == 0
  {
    var m := Abs(a);
    var q := m / n;
    assert m == q * n + m % n;
    if a >= 0 then
      DivModUnique(a - m % n, n, q, 0);
      m % n
    else
      assert a + m % n == (-q) * n;
      DivModUnique(a + m % n, n, -q, 0);
      -(m % n)
  }

  lemma RemBelow(a: int, n: int)
    requires 0 <= a < n
    ensures a % n == a
  {
  }

  lemma RemOnce(a: int, n: int)
    requires 0 < n <= a <= 2 * n
    ensures a % n == if a == 2 * n then 0 else a - n
  {
    if a == 2 * n {
      var q, r := a / n, a % n;
      assert a == q * n + r;
    }
  }

  lemma MulAtLeast(k: int, n: int)
    requires k >= 1 && n > 0
    ensures k * n >= n
  {
  }

  /** `Math.floor(x / n)` for positive `n` has the sign of `x`. */
  lemma DivSign(x: int, n: int)
    requires n > 0
    ensures x >= 0 <==> x / n >= 0
  {
    var q, r := x / n, x % n;
    assert x == q * n + r;
    if q >= 1 {
      MulAtLeast(q, n);
    } else if q <= -1 {
      MulAtLeast(-q, n);
      assert (-q) * n == -(q * n);
    }
  }

  /** Quotient and remainder are determined by `x == q * n + r` with `0 <= r < n`. */
  lemma DivModUnique(x: int, n: int, q: int, r: int)
    requires n > 0 && 0 <= r < n && x == q * n + r
    ensures x / n == q && x % n == r
  {
    var q', r' := x / n, x % n;
    assert x == q' * n + r';
    assert (q - q') * n == r' - r;
    if q > q' {
      MulAtLeast(q - q', n);
    } else if q' > q {
      MulAtLeast(q' - q, n);
    }
  }
}
