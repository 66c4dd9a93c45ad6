/** Small vocabulary shared by every module: an option type and powers of two. */
module Prelude {

  datatype Option<+T> = None | Some(value: T)

  /** `1 << k`. */
  function Pow2(k: nat): (n: nat)
    ensures n >= 1
  {
    if k == 0 then 1 else 2 * Pow2(k - 1)
  }

  /** `n.ilog2()`: the position of the highest set bit. */
  function Ilog2(n: nat): (k: nat)
    requires n > 0
    ensures Pow2(k) <= n < Pow2(k + 1)
  {
    if n == 1 then 0 else 1 + Ilog2(n / 2)
  }

  lemma {:induction false} Pow2Mono(a: nat, b: nat)
    requires a <= b
    ensures Pow2(a) <= Pow2(b)
  {
    if a < b { Pow2Mono(a, b - 1); }
  }

  lemma Pow2Double(k: nat)
    ensures Pow2(k + 1) == Pow2(k) + Pow2(k)
  {
  }

  /** The highest set bit is at least `k` exactly when the number is at least `1 << k`. */
  lemma Ilog2AtLeast(n: nat, k: nat)
    requires n > 0
    ensures Ilog2(n) >= k <==> n >= Pow2(k)
  {
    if Ilog2(n) >= k {
      Pow2Mono(k, Ilog2(n));
    } else {
      Pow2Mono(Ilog2(n) + 1, k);
    }
  }

  lemma Times(a: nat, b: nat, n: nat)
    requires a <= b
    ensures a * n <= b * n
  {
  }

  lemma Distribute(a: nat, b: nat, n: nat)
    ensures (a + b) * n == a * n + b * n
  {
  }

  /** Quotient and remainder are determined by the multiple below. */
  lemma Quotient(n: nat, i: nat, k: nat)
    requires n > 0 && i * n <= k < i * n + n
    ensures k / n == i && k % n == k - i * n
  {
    var q, r := k / n, k % n;
    assert k == q * n + r && 0 <= r < n;
    if q < i { Times(q + 1, i, n); }
    if q > i { Times(i + 1, q, n); }
  }

  lemma SubsetSize<T>(a: set<T>, b: set<T>)
    requires a <= b
    ensures |a| <= |b|
  {
    assert b == a + (b - a);
  }
}
