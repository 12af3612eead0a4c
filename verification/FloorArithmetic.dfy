/** Integer division by a positive divisor is the floor of the quotient; these are the
    facts about it that the billing proofs need. */
module FloorArithmetic {

  lemma DivBounds(a: int, b: int)
    requires b > 0
    ensures (a / b) * b <= a < (a / b) * b + b
    ensures a == (a / b) * b + a % b
  {
  }

  lemma MulMonotone(x: int, y: int, b: int)
    requires x <= y && b >= 0
    ensures x * b <= y * b
  {
  }

  /** Floor division is the adjoint of multiplication. */
  lemma DivLess(a: int, b: int, n: int)
    requires b > 0
    ensures a / b < n <==> a < n * b
  {
    DivBounds(a, b);
    if a / b < n {
      MulMonotone(a / b + 1, n, b);
    } else {
      MulMonotone(n, a / b, b);
    }
  }

  lemma DivUnique(a: int, b: int, q: int)
    requires b > 0
    requires q * b <= a < q * b + b
    ensures a / b == q
  {
    DivLess(a, b, q);
    DivLess(a, b, q + 1);
  }

  lemma DivMonotone(a: int, c: int, b: int)
    requires b > 0 && a <= c
    ensures a / b <= c / b
  {
    DivLess(a, b, c / b + 1);
    DivBounds(c, b);
  }

  /** The floor of an exact real quotient is the integer quotient. */
  lemma FloorOfQuotient(a: int, b: int)
    requires b > 0
    ensures (a as real / b as real).Floor == a / b
  {
    var q, r := a / b, a % b;
    DivBounds(a, b);
    assert a as real == q as real * b as real + r as real;
    assert a as real / b as real == q as real + r as real / b as real;
    assert 0.0 <= r as real / b as real < 1.0;
  }

  function Pow10(d: nat): (p: nat)
    ensures p > 0
  {
    if d == 0 then 1 else 10 * Pow10(d - 1)
  }
}
