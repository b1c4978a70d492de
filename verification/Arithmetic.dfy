/** Products, quotients and remainders of natural numbers. */
module Arithmetic {
  lemma MulMonotone(a: nat, b: nat, c: nat)
    requires b <= c
    ensures a * b <= a * c
  {
    assert a * c == a * b + a * (c - b);
  }

  lemma QuotientBounds(a: nat, b: nat)
    requires b > 0
    ensures a / b * b <= a < (a / b + 1) * b && (a / b + 1) * b == a / b * b + b
  {
  }

  /** The quotient as a number of its own, for proofs that divisions would slow down. */
  lemma Quotient(a: nat, b: nat) returns (q: nat)
    requires b > 0
    ensures q * b <= a < q * b + b
  {
    q := a / b;
  }

  lemma NextMultiple(k: nat, l: nat, b: nat)
    ensures k < l ==> k * b + b <= l * b
  {
    if k < l {
      MulMonotone(b, k + 1, l);
      assert (k + 1) * b == k * b + b;
    }
  }

  /** A number lies between two multiples of another that follow one another in just one way. */
  lemma MultiplesApart(k: nat, l: nat, b: nat, a: nat)
    requires k * b <= a < k * b + b && l * b <= a < l * b + b
    ensures k == l
  {
    NextMultiple(k, l, b);
    NextMultiple(l, k, b);
  }

  lemma QuotientIs(a: nat, b: nat, q: nat)
    requires b > 0 && q * b <= a < q * b + b
    ensures a / b == q && a % b == a - q * b
  {
    Remainder(a, b);
    MultiplesApart(q, a / b, b, a);
  }

  lemma Remainder(a: nat, b: nat)
    requires b > 0
    ensures a == a / b * b + a % b && 0 <= a % b <= a && a % b < b
    ensures a < b ==> a % b == a
  {
    assert a / b * b >= 0;
  }
}
