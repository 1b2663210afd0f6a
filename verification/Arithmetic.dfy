/** Division facts that the solver is better told than asked for. */
module Arithmetic {

  function Min(a: nat, b: nat): nat {
    if a <= b then a else b
  }

  lemma DivUnique(a: nat, b: nat, q: nat, r: nat)
    requires b > 0 && a == q * b + r && r < b
    ensures a / b == q && a % b == r
  {
    var k, s := a / b, a % b;
    assert a == k * b + s;
    assert k < q ==> (k + 1) * b <= q * b;
    assert k > q ==> (q + 1) * b <= k * b;
  }

  lemma AddModulus(a: nat, b: nat)
    requires b > 0
    ensures (a + b) % b == a % b
  {
    var q := a / b;
    assert a == q * b + a % b;
    assert a + b == (q + 1) * b + a % b;
    DivUnique(a + b, b, q + 1, a % b);
  }

  lemma MulMonotone(a: nat, x: nat, y: nat)
    requires x <= y
    ensures a * x <= a * y
  {
  }
}
