/** Multiplication facts the solver does not find on its own. Divisors and
    factors are variables here; callers instantiate them. */
module Arith {

  lemma MulMono(a: int, b: int, c: nat)
    requires a <= b
    ensures a * c <= b * c
  {
  }

  lemma MulMonoStrict(a: int, b: int, c: nat)
    requires a < b && c > 0
    ensures a * c < b * c
  {
  }

  /** A positive common factor can be dropped from `<=`. */
  lemma CancelLe(a: int, b: int, c: nat)
    requires c > 0 && a * c <= b * c
    ensures a <= b
  {
    if b < a {
      MulMonoStrict(b, a, c);
    }
  }

  /** A non-negative common factor can be dropped from `<`. */
  lemma CancelLt(a: int, b: int, c: nat)
    requires a * c < b * c
    ensures a < b
  {
    if b <= a {
      MulMono(b, a, c);
    }
  }

  lemma DivMod(n: nat, d: nat)
    requires d > 0
    ensures n / d * d <= n < n / d * d + d
    ensures 0 <= n / d
  {
    assert n == d * (n / d) + n % d;
  }

  lemma FactorGrows(q: nat, d: nat)
    requires d > 0
    ensures q <= q * d
  {
  }

  lemma FloorsOrdered(p: int, m: int, q: int, n: int, d: nat)
    requires m <= n && p * d <= m && n < q * d + d
    ensures p <= q
  {
    if q < p {
      MulMono(q + 1, p, d);
    }
  }

  /** `q` is the floor of `k * d` over `d`. */
  lemma ExactFloor(q: int, k: int, d: nat)
    requires q * d <= k * d < q * d + d
    ensures q == k
  {
    FloorsOrdered(q, k * d, k, k * d, d);
    FloorsOrdered(k, k * d, q, k * d, d);
  }
}
