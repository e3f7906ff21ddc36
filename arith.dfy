/** Facts about multiplication and division that the solver does not find on its own. */
module Arith {

  lemma MulMono(x: int, y: int, g: int)
    requires 0 <= g
    ensures x <= y ==> x * g <= y * g
  {
    assert y * g - x * g == (y - x) * g;
  }

  /** Division by a positive number is unique: the quotient and remainder are the ones `n` was built from. */
  lemma DivModUnique(n: int, g: int, q: int, r: int)
    requires g > 0 && 0 <= r < g && n == q * g + r
    ensures n / g == q && n % g == r
  {
    var q', r' := n / g, n % g;
    assert n == q' * g + r';
    assert (q - q') * g == r' - r;
    MulMono(q - q', 0, g);
    MulMono(1, q - q', g);
    MulMono(q - q', -1, g);
    MulMono(0, q - q', g);
  }
}
