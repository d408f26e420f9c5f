/** The few facts about products and remainders that the solver does not find by itself. */
module Arith {

  lemma MulMonotone(a: nat, b: nat, x: nat, y: nat)
    requires a <= b && x <= y
    ensures a * x <= b * y
  {
    assert a * x <= a * y;
    assert (b - a) * y >= 0;
  }

  lemma DivModUnique(x: int, q: int, r: int, m: nat)
    requires m >= 1 && x == q * m + r && 0 <= r < m
    ensures x % m == r && x / m == q
  {
    var q', r' := x / m, x % m;
    assert x == q' * m + r';
    assert (q - q') * m == r' - r;
    if q - q' >= 1 {
      MulMonotone(1, q - q', m, m);
    } else if q - q' <= -1 {
      MulMonotone(1, q' - q, m, m);
    }
    assert q == q';
  }

  lemma ModShift(x: int, k: int, m: nat)
    requires m >= 1
    ensures (x + k * m) % m == x % m
  {
    var q, r := x / m, x % m;
    assert x == q * m + r;
    assert x + k * m == (q + k) * m + r;
    DivModUnique(x + k * m, q + k, r, m);
  }
}
