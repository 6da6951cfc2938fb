/** Facts about integer quotients that the solver does not find by itself. */
module Quotients {

  /** Consecutive multiples are one divisor apart. */
  lemma MultipleStep(a: nat, b: nat, d: nat)
    ensures a < b ==> a * d + d <= b * d
    ensures a <= b ==> a * d <= b * d
  {
    if a < b {
      var c := b - a - 1;
      assert b * d == a * d + d + c * d;
    }
  }

  lemma DivMonotone(a: nat, b: nat, d: nat)
    requires a <= b && d > 0
    ensures a / d <= b / d
  {
    var p, q := a / d, b / d;
    assert a == p * d + a % d && b == q * d + b % d;
    MultipleStep(q, p, d);
  }

  lemma DivExact(q: nat, d: nat, r: nat, x: nat)
    requires r < d && x == q * d + r
    ensures x / d == q
  {
    var k := x / d;
    assert x == k * d + x % d;
    MultipleStep(q, k, d);
    MultipleStep(k, q, d);
  }
}
