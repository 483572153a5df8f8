/** Division facts that the solver does not find by itself. */
module Arith {

  lemma MulAtLeast(k: int, b: int)
    requires k >= 1 && b > 0
    ensures k * b >= b
  {
  }

  lemma MulMonotone(a: int, b: int, c: int)
    requires a <= b && c > 0
    ensures a * c <= b * c
  {
  }

  lemma FactorAbove(k: int, c: int, b: int)
    requires b > 0 && k * b > c * b
    ensures k > c
  {
  }

  /** Quotient and remainder are determined by their defining equation. */
  lemma DivModUnique(a: int, b: int, q: int, r: int)
    requires b > 0 && 0 <= r < b && a == q * b + r
    ensures a / b == q && a % b == r
  {
    var q', r' := a / b, a % b;
    assert a == q' * b + r';
    if q > q' {
      assert (q - q') * b == r' - r;
      MulAtLeast(q - q', b);
      assert false;
    } else if q' > q {
      assert (q' - q) * b == r - r';
      MulAtLeast(q' - q, b);
      assert false;
    }
  }

  lemma ModShift(x: nat, b: nat)
    requires b > 0
    ensures (x + b) % b == x % b
  {
    DivModUnique(x + b, b, x / b + 1, x % b);
  }
}
