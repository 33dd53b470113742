/** Facts about multiplication and division that the solver does not find unaided. */
module Arithmetic {

  lemma MulMonotone(x: int, y: int, b: nat)
    requires x <= y
    ensures x * b <= y * b
  {
    var d := y - x;
    assert y * b == x * b + d * b;
  }

  /** Euclidean division is unique: a quotient with a remainder in `[0, d)` is `n / d`. */
  lemma DivisionUnique(n: int, d: nat, q: int, r: int)
    requires d > 0 && n == q * d + r && 0 <= r < d
    ensures n / d == q
  {
    var q', r' := n / d, n % d;
    assert n == q' * d + r';
    if q' < q {
      MulMonotone(q' + 1, q, d);
    } else if q' > q {
      MulMonotone(q + 1, q', d);
    }
  }

  /** Dividing a multiple of `b` by `b` gives the multiplier back. */
  lemma DivisionExact(a: nat, b: nat)
    requires b > 0
    ensures (a * b) / b == a
  {
    DivisionUnique(a * b, b, a, 0);
  }

  /** `n / d` on naturals, by repeated subtraction. */
  function Quotient(n: nat, d: nat): nat
    requires d > 0
    decreases n
  {
    if n < d then 0 else 1 + Quotient(n - d, d)
  }

  /** The quotient by repeated subtraction is the quotient of the division. */
  lemma {:induction false} QuotientIsDivision(n: nat, d: nat)
    requires d > 0
    ensures Quotient(n, d) == n / d
    decreases n
  {
    if n < d {
      DivisionUnique(n, d, 0, n);
    } else {
      QuotientIsDivision(n - d, d);
      var q, r := (n - d) / d, (n - d) % d;
      assert n - d == q * d + r;
      assert n == (q + 1) * d + r;
      DivisionUnique(n, d, q + 1, r);
    }
  }

  /** A multiple of `d` gives its multiplier back. */
  lemma QuotientExact(n: nat, d: nat, q: nat)
    requires d > 0 && n == d * q
    ensures Quotient(n, d) == q
  {
    QuotientIsDivision(n, d);
    DivisionUnique(n, d, q, 0);
  }

  /** `d` times the quotient never exceeds `n`. */
  lemma {:induction false} QuotientBound(n: nat, d: nat)
    requires d > 0
    ensures d * Quotient(n, d) <= n
    decreases n
  {
    if n >= d {
      QuotientBound(n - d, d);
      MulDistributes(d, 1, Quotient(n - d, d));
    }
  }

  lemma DivisionNonNegative(a: nat, b: nat)
    requires b > 0
    ensures a / b >= 0
  {
  }

  lemma MulAssociates(p: int, q: int, x: int)
    ensures (p * q) * x == p * (q * x)
  {
  }

  lemma MulCommutes(p: int, q: int)
    ensures p * q == q * p
  {
  }

  lemma MulDistributes(a: int, b: int, c: int)
    ensures a * (b + c) == a * b + a * c
  {
  }

  /** The two outer factors of a triple product trade places. */
  lemma MulSwap(a: int, b: int, c: int)
    ensures a * (b * c) == b * (a * c)
  {
    MulAssociates(a, b, c);
    MulCommutes(a, b);
    MulAssociates(b, a, c);
  }
}
