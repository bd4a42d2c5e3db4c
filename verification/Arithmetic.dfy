/** Multiplication and division by a variable, in a form that proofs can leave folded. */
module Arithmetic {

  /** Multiplication by repeated addition. */
  function Times(a: nat, b: nat): nat {
    if b == 0 then 0 else a + Times(a, b - 1)
  }

  lemma {:induction false} TimesIsProduct(a: nat, b: nat)
    ensures Times(a, b) == a * b
  {
    if b > 0 {
      TimesIsProduct(a, b - 1);
    }
  }

  /** Division with rest by repeated subtraction. */
  function Quotient(x: nat, n: nat): nat
    requires n > 0
  {
    if x < n then 0 else 1 + Quotient(x - n, n)
  }

  function Rest(x: nat, n: nat): (r: nat)
    requires n > 0
    ensures r < n
  {
    if x < n then x else Rest(x - n, n)
  }

  lemma {:induction false} QuotientAndRest(x: nat, n: nat)
    requires n > 0
    ensures x == n * Quotient(x, n) + Rest(x, n)
  {
    if x >= n {
      QuotientAndRest(x - n, n);
    }
  }

  lemma {:induction false} QuotientOf(q: nat, r: nat, n: nat)
    requires r < n
    ensures Quotient(n * q + r, n) == q && Rest(n * q + r, n) == r
  {
    if q > 0 {
      QuotientOf(q - 1, r, n);
      assert n * q + r - n == n * (q - 1) + r;
    }
  }

  lemma QuotientIsDivision(x: nat, n: nat)
    requires n > 0
    ensures Quotient(x, n) == x / n && Rest(x, n) == x % n
  {
    QuotientAndRest(x, n);
    DivisionUnique(x, n, Quotient(x, n), Rest(x, n));
  }

  lemma DivisionUnique(x: nat, n: nat, q: nat, r: nat)
    requires n > 0 && x == n * q + r && r < n
    ensures q == x / n && r == x % n
  {
    var d: int := q - x / n;
    assert n * d == x % n - r;
    assert d > 0 ==> n * d >= n;
    assert d < 0 ==> n * d + n <= 0;
  }

  lemma TimesGrows(n: nat, a: nat, b: nat)
    requires a <= b
    ensures n * a <= n * b
  {
  }

  lemma {:induction false} QuotientBelow(x: nat, n: nat, q: nat)
    requires n > 0
    ensures Quotient(x, n) < q <==> x < Times(n, q)
  {
    if x >= n && q > 0 {
      QuotientBelow(x - n, n, q - 1);
    }
  }

  lemma {:induction false} RestAt(q: nat, r: nat, n: nat)
    requires r < n
    ensures Quotient(Times(n, q) + r, n) == q && Rest(Times(n, q) + r, n) == r
  {
    if q > 0 {
      RestAt(q - 1, r, n);
    }
  }

  lemma {:induction false} Position(x: nat, n: nat)
    requires n > 0
    ensures x == Times(n, Quotient(x, n)) + Rest(x, n)
  {
    if x >= n {
      Position(x - n, n);
    }
  }

  lemma {:induction false} TimesMonotone(n: nat, a: nat, b: nat)
    requires a <= b
    ensures Times(n, a) <= Times(n, b)
  {
    if a < b {
      TimesMonotone(n, a, b - 1);
    }
  }

  lemma {:induction false} TimesAdds(n: nat, a: nat, b: nat)
    ensures Times(n, a + b) == Times(n, a) + Times(n, b)
  {
    if b > 0 {
      TimesAdds(n, a, b - 1);
    }
  }
}
