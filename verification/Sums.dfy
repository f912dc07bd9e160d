/** Sums of natural numbers over a sequence, as the counter protocols need them:
    how one entry's change moves the total, and when the total reaches a uniform bound. */
module Sums {

  function Total(xs: seq<nat>): nat {
    if xs == [] then 0 else xs[0] + Total(xs[1..])
  }

  /** The product u * k, kept as repeated addition; nothing for a negative k. */
  function Times(u: nat, k: int): nat { if k <= 0 then 0 else u + Times(u, k - 1) }

  lemma {:induction false} TimesIsProduct(u: nat, k: nat)
    ensures Times(u, k) == u * k
  {
    if k > 0 {
      TimesIsProduct(u, k - 1);
      assert u * k == u + u * (k - 1);
    }
  }

  lemma {:induction false} TimesMonotone(u: nat, j: int, k: int)
    requires j <= k
    ensures Times(u, j) <= Times(u, k)
    decreases k - j
  {
    if j < k { TimesMonotone(u, j + 1, k); }
  }

  lemma {:induction false} TimesSwap(u: nat, k: nat)
    ensures Times(u, k) == Times(k, u)
  {
    TimesIsProduct(u, k);
    TimesIsProduct(k, u);
  }

  lemma {:induction false} TotalUpdate(xs: seq<nat>, i: nat, v: nat)
    requires i < |xs|
    ensures Total(xs[i := v]) == Total(xs) - xs[i] + v
  {
    if i == 0 {
      assert xs[0 := v][1..] == xs[1..];
    } else {
      assert xs[i := v][1..] == xs[1..][i - 1 := v];
      TotalUpdate(xs[1..], i - 1, v);
    }
  }

  lemma {:induction false} TotalAtMost(xs: seq<nat>, k: nat)
    requires forall i :: 0 <= i < |xs| ==> xs[i] <= k
    ensures Total(xs) <= Times(k, |xs|)
    ensures Times(0, |xs|) == 0 && Times(1, |xs|) == |xs|
    ensures Total(xs) == Times(k, |xs|) ==> forall i :: 0 <= i < |xs| ==> xs[i] == k
  {
    if xs != [] {
      TotalAtMost(xs[1..], k);
      assert forall i :: 1 <= i < |xs| ==> xs[i] == xs[1..][i - 1];
    }
  }

  lemma {:induction false} TotalAtLeast(xs: seq<nat>, k: nat)
    requires forall i :: 0 <= i < |xs| ==> xs[i] >= k
    ensures Times(0, |xs|) == 0 && Times(1, |xs|) == |xs|
    ensures Total(xs) >= Times(k, |xs|)
  {
    if xs != [] {
      TotalAtLeast(xs[1..], k);
    }
  }

  /** Some entry is no larger than any other. */
  lemma {:induction false} Least(xs: seq<nat>) returns (m: nat)
    requires xs != []
    ensures m < |xs|
    ensures forall i :: 0 <= i < |xs| ==> xs[m] <= xs[i]
  {
    if |xs| == 1 {
      m := 0;
    } else {
      var t := Least(xs[1..]);
      assert forall i :: 1 <= i < |xs| ==> xs[i] == xs[1..][i - 1];
      m := if xs[0] <= xs[t + 1] then 0 else t + 1;
    }
  }
}
