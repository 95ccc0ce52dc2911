/** Facts about quotients and remainders that the solver does not find by itself. */
module Arith {
  lemma MulMono(a: nat, b: nat, c: nat)
    requires a <= b
    ensures a * c <= b * c
  {}

  lemma DivModUnique(a: int, b: int, q: int, r: int)
    requires b > 0 && 0 <= r < b && a == q * b + r
    ensures a / b == q && a % b == r
  {
    var q' := a / b;
    assert a == q' * b + a % b;
    assert (q' - q) * b == r - a % b;
    SmallMultiple(q' - q, b);
  }

  lemma SmallMultiple(d: int, b: int)
    requires b > 0 && -b < d * b < b
    ensures d == 0
  {}

  lemma DivBelow(a: nat, b: nat, q: nat)
    requires b > 0 && a < q * b
    ensures a / b < q
  {}

  lemma SameRemainder(x: nat, y: nat, m: nat)
    requires m > 0 && x <= y && x % m == y % m && y - x < m
    ensures x == y
  {
    assert (y / m - x / m) * m == y - x;
    SmallMultiple(y / m - x / m, m);
  }
}
