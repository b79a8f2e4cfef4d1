/** Powers, products and divisibility. */
module Arithmetic {

  function Pow(base: nat, n: nat): nat
  {
    if n == 0 then 1 else base * Pow(base, n - 1)
  }

  function Pow2(n: nat): nat
  {
    if n == 0 then 1 else 2 * Pow2(n - 1)
  }

  lemma {:induction false} PowPositive(base: nat, n: nat)
    requires base > 0
    ensures Pow(base, n) > 0
  {
    if n > 0 {
      PowPositive(base, n - 1);
    }
  }

  lemma Regroup(a: int, b: int, c: int)
    ensures a * (b * c) == (a * b) * c
  {
  }

  lemma {:induction false} PowSum(base: nat, m: nat, n: nat)
    ensures Pow(base, m + n) == Pow(base, m) * Pow(base, n)
  {
    if m > 0 {
      PowSum(base, m - 1, n);
      Regroup(base, Pow(base, m - 1), Pow(base, n));
    }
  }

  lemma ProductOfNats(a: nat, b: nat)
    ensures a * b >= 0
  {
  }

  lemma OneTimeMore(k: nat, d: nat)
    ensures (k + 1) * d == k * d + d
  {
  }

  lemma ProductSign(d: nat, k: int)
    ensures k <= 0 ==> d * k <= 0
    ensures k >= 1 ==> d * k >= d
  {
  }

  lemma Divide(value: nat, base: nat) returns (q: nat, r: nat)
    requires base > 0
    ensures value == q * base + r && r < base
  {
    q, r := value / base, value % base;
  }

  ghost predicate Divides(d: int, n: int)
  {
    exists k: int :: n == d * k
  }
}
