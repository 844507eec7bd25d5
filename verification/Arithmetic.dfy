/**
 * Products and quotients of two variables. They are defined by recursion, which proofs about page and cluster
 * numbers follow step by step; TimesIsProduct and QuotIsDivision tie them to the built-in operators.
 */
module Arithmetic {

  function Times(n: nat, m: nat): nat {
    if n == 0 then 0 else Times(n - 1, m) + m
  }

  function Quot(i: nat, m: nat): nat
    requires 0 < m
  {
    if i < m then 0 else Quot(i - m, m) + 1
  }

  function Rem(i: nat, m: nat): (r: nat)
    requires 0 < m
    ensures r < m
  {
    if i < m then i else Rem(i - m, m)
  }

  lemma {:induction false} TimesIsProduct(n: nat, m: nat)
    ensures Times(n, m) == n * m
  {
    if n > 0 {
      TimesIsProduct(n - 1, m);
      assert n * m == (n - 1) * m + m;
    }
  }

  lemma {:induction false} QuotRem(i: nat, m: nat)
    requires 0 < m
    ensures i == Times(Quot(i, m), m) + Rem(i, m)
  {
    if i >= m {
      QuotRem(i - m, m);
    }
  }

  lemma {:induction false} QuotUnique(i: nat, m: nat, q: nat, r: nat)
    requires r < m && i == Times(q, m) + r
    ensures Quot(i, m) == q && Rem(i, m) == r
  {
    if q > 0 {
      QuotUnique(i - m, m, q - 1, r);
    }
  }

  lemma QuotIsDivision(i: nat, m: nat)
    requires 0 < m
    ensures Quot(i, m) == i / m && Rem(i, m) == i % m
  {
    var q, r := i / m, i % m;
    TimesIsProduct(q, m);
    assert i == q * m + r;
    QuotUnique(i, m, q, r);
  }

  /** Item `k` of `n` items of length `len` each ends inside the buffer that holds them. */
  lemma {:induction false} ItemFits(k: nat, n: nat, len: nat)
    requires k < n
    ensures Times(k, len) + len <= Times(n, len)
  {
    if k + 1 < n {
      ItemFits(k, n - 1, len);
    }
  }

  lemma ItemLe(a: nat, b: nat, m: nat)
    requires a <= b
    ensures Times(a, m) <= Times(b, m)
  {
    if a < b {
      ItemFits(a, b, m);
    }
  }

  lemma {:induction false} Distribute(a: nat, b: nat, m: nat)
    ensures Times(a + b, m) == Times(a, m) + Times(b, m)
  {
    if b > 0 {
      Distribute(a, b - 1, m);
    }
  }

  lemma {:induction false} QuotGrows(a: nat, b: nat, m: nat)
    requires a <= b && 0 < m
    ensures Quot(a, m) <= Quot(b, m)
  {
    if m <= a {
      QuotGrows(a - m, b - m, m);
    }
  }
}
