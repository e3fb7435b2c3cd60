/** Facts about products and quotients that the other modules share. */
module Arithmetic {

  lemma NextMultiple(n: nat, m: nat)
    ensures (n + 1) * m == n * m + m
  {
  }

  lemma {:induction false} MultipleAtMost(a: nat, b: nat, m: nat)
    requires a < b
    ensures a * m + m <= b * m
    decreases b
  {
    NextMultiple(b - 1, m);
    if a < b - 1 {
      MultipleAtMost(a, b - 1, m);
    }
  }

  lemma SmallDigit(a: nat, b: nat, x: nat, y: nat, m: nat)
    requires x < m && y < m && a * m + x == b * m + y
    ensures a == b && x == y
  {
    if a < b {
      MultipleAtMost(a, b, m);
    } else if b < a {
      MultipleAtMost(b, a, m);
    }
  }

  lemma DivMod(n: nat, m: nat)
    requires m > 0
    ensures n == (n / m) * m + n % m && n % m < m && n / m >= 0
  {
  }

  /** The quotient and the remainder, as functions that a proof can keep closed. */
  function Quotient(n: nat, m: nat): nat
    requires m > 0
  {
    n / m
  }

  function Remainder(n: nat, m: nat): nat
    requires m > 0
  {
    n % m
  }

  lemma Decompose(n: nat, m: nat)
    requires m > 0
    ensures n == Quotient(n, m) * m + Remainder(n, m) && Remainder(n, m) < m
  {
  }

  lemma QuotientIs(n: nat, m: nat, q: nat, r: nat)
    requires n == q * m + r && r < m
    ensures Quotient(n, m) == q && Remainder(n, m) == r
  {
    DivMod(n, m);
    SmallDigit(n / m, q, n % m, r, m);
  }
}
