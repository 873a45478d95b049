/** Facts about multiplication, division and remainder that the solver does not find alone. */
module Arithmetic {

  lemma {:induction false} MulAtLeast(d: int, p: int)
    requires d >= 1 && p > 0
    ensures d * p >= p
  {
    if d > 1 {
      MulAtLeast(d - 1, p);
      assert d * p == (d - 1) * p + p;
    }
  }

  /** Quotient and remainder are the only ones that add up to `x`. */
  lemma DivModUnique(x: int, p: int, q: int, r: int)
    requires p > 0 && 0 <= r < p && x == q * p + r
    ensures x / p == q && x % p == r
  {
    var d := x / p - q;
    assert d * p == r - x % p by {
      assert d * p == (x / p) * p - q * p;
    }
    if d > 0 {
      MulAtLeast(d, p);
    }
    if d < 0 {
      MulAtLeast(-d, p);
    }
  }

  /** The remainder of a number within one modulus of zero. */
  lemma ModOfSmall(x: int, n: int)
    requires n > 0 && -n <= x < n
    ensures x % n == if x >= 0 then x else x + n
  {
    if x >= 0 {
      DivModUnique(x, n, 0, x);
    } else {
      DivModUnique(x, n, -1, x + n);
    }
  }
}
