/** Facts about multiplication and division by a positive number that the
    page and progress arithmetic needs and the solver does not find alone. */
module Arith {

  /** A quotient is at least `q` when the dividend is at least `q` divisors. */
  lemma DivAtLeast(a: nat, d: nat, q: nat)
    requires d > 0 && a >= q * d
    ensures a / d >= q
  {
    var k := a / d;
    assert a == d * k + a % d;
    MulCancel(d, k + 1, q);
  }

  /** Multiplying by the same factor keeps the order. */
  lemma {:induction false} MulMono(d: nat, x: nat, y: nat)
    requires x <= y
    ensures d * x <= d * y
    decreases y - x
  {
    if x < y {
      MulMono(d, x, y - 1);
      assert d * y == d * (y - 1) + d;
    }
  }

  /** A common factor can be cancelled from a strict inequality. */
  lemma MulCancel(d: nat, x: nat, y: nat)
    requires d * x > d * y
    ensures x > y
  {
    if x <= y {
      MulMono(d, x, y);
      assert false;
    }
  }

  /** The quotient of `a` by `d`, by repeated subtraction: the same number
      as `a / d`, without a division by a variable for the solver to reason
      about. */
  function Quotient(a: nat, d: nat): nat
    requires d > 0
    decreases a
  {
    if a < d then 0 else 1 + Quotient(a - d, d)
  }

  /** `Quotient` is integer division. */
  lemma {:induction false} QuotientIsDiv(a: nat, d: nat)
    requires d > 0
    ensures Quotient(a, d) == a / d
    decreases a
  {
    if a >= d {
      QuotientIsDiv(a - d, d);
      var q, r := (a - d) / d, (a - d) % d;
      assert a - d == d * q + r;
      assert d * (q + 1) == d * q + d;
      DivUnique(a, d, q + 1, r);
    }
  }

  /** The quotient and remainder of a division are the only ones. */
  lemma DivUnique(a: nat, d: nat, q: nat, r: nat)
    requires d > 0 && a == d * q + r && r < d
    ensures a / d == q
  {
    var q', r' := a / d, a % d;
    assert a == d * q' + r';
    assert d * (q + 1) == d * q + d;
    assert d * (q' + 1) == d * q' + d;
    MulCancel(d, q + 1, q');
    MulCancel(d, q' + 1, q);
  }

  /** A larger dividend never has a smaller quotient. */
  lemma {:induction false} QuotientMonotone(a: nat, b: nat, d: nat)
    requires d > 0 && a <= b
    ensures Quotient(a, d) <= Quotient(b, d)
    decreases a
  {
    if a >= d {
      QuotientMonotone(a - d, b - d, d);
    }
  }

  /** A dividend of at least `q` divisors has a quotient of at least `q`. */
  lemma {:induction false} QuotientAtLeast(a: nat, d: nat, q: nat)
    requires d > 0 && a >= q * d
    ensures Quotient(a, d) >= q
    decreases q
  {
    if q > 0 {
      assert q * d == (q - 1) * d + d;
      QuotientAtLeast(a - d, d, q - 1);
    }
  }
}
