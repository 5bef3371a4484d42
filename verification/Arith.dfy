/** Products and quotients of naturals. Both are defined by repeated steps, so that proofs about runs of
    trades meet no nonlinear term; the lemmas here connect them to `*` and `/`. */
module Arith {
  function Mul(a: nat, b: nat): nat {
    if a == 0 then 0 else Mul(a - 1, b) + b
  }

  /** Quotient rounded down. */
  function Div(n: nat, d: nat): (q: nat)
    requires d > 0
    ensures Mul(q, d) <= n < Mul(q, d) + d
    decreases n
  {
    if n < d then 0 else Div(n - d, d) + 1
  }

  lemma {:induction false} MulIs(a: nat, b: nat)
    ensures Mul(a, b) == a * b
  {
    if a > 0 {
      MulIs(a - 1, b);
      assert (a - 1) * b + b == a * b;
    }
  }

  lemma MulMono(a: int, b: int, k: nat)
    requires a <= b
    ensures a * k <= b * k
  {
  }

  lemma MulStrict(a: int, b: int, k: nat)
    requires a < b && k > 0
    ensures a * k < b * k
  {
  }

  lemma Commutes(a: int, b: int)
    ensures a * b == b * a
  {
  }

  lemma MulBelow(a: nat, b: nat, m: nat, n: nat)
    requires a < m && b < n
    ensures a * b < m * n
  {
    MulMono(a, m, b);
    MulStrict(b, n, m);
  }

  /** A number fits into the quotient exactly if that many divisors fit into the dividend. */
  lemma DivFits(n: nat, d: nat, k: int)
    requires d > 0
    ensures k * d <= n <==> k <= Div(n, d)
  {
    var q := Div(n, d);
    MulIs(q, d);
    if k <= q {
      MulMono(k, q, d);
    } else {
      MulMono(q + 1, k, d);
      assert (q + 1) * d == q * d + d;
    }
  }

  /** The quotient is the one number that fits. */
  lemma DivIs(n: nat, d: nat, q: int)
    requires d > 0 && q * d <= n < (q + 1) * d
    ensures Div(n, d) == q
  {
    DivFits(n, d, q);
    DivFits(n, d, q + 1);
  }

  /** The quotient of a product, in plain terms. */
  lemma ProductOver(a: nat, b: nat, d: nat)
    requires d > 0
    ensures Div(Mul(a, b), d) * d <= a * b < (Div(Mul(a, b), d) + 1) * d
  {
    MulIs(a, b);
    DivFits(Mul(a, b), d, Div(Mul(a, b), d));
    DivFits(Mul(a, b), d, Div(Mul(a, b), d) + 1);
  }

  lemma DivIsQuotient(n: nat, d: nat)
    requires d > 0
    ensures Div(n, d) == n / d
  {
    DivIs(n, d, n / d);
  }
}
