/**
 * `RequestBudget` (packages/factory/util/budget.ts): a counter that starts at
 * `total`, is lowered by every `consume(n)`, and makes `consume` throw once
 * it has gone below zero.
 */
module Budget {

  class RequestBudget {
    var remaining: int
    const total: int

    constructor (total: int)
      ensures this.total == total && remaining == total
    {
      this.total := total;
      remaining := total;
    }

    /** `consume(n)`; `threw` tells whether it throws the "exceeded" error. */
    method Consume(n: int) returns (threw: bool)
      modifies this
      ensures remaining == old(remaining) - n
      ensures threw <==> remaining < 0
    {
      remaining := remaining - n;
      threw := remaining < 0;
    }
  }

  function Sum(ns: seq<int>): int {
    if ns == [] then 0 else Sum(ns[..|ns| - 1]) + ns[|ns| - 1]
  }

  /** Whether the (i+1)-th of a series of `consume` calls on a budget of `total` throws. */
  predicate ThrowsAt(total: int, ns: seq<int>, i: nat)
    requires i < |ns|
  {
    total - Sum(ns[..i + 1]) < 0
  }

  function Ones(k: nat): (s: seq<int>)
    ensures |s| == k && forall i :: 0 <= i < k ==> s[i] == 1
  {
    seq(k, _ => 1)
  }

  lemma {:induction false} SumOnes(k: nat)
    ensures Sum(Ones(k)) == k
    decreases k
  {
    if k > 0 {
      SumOnes(k - 1);
      assert Ones(k)[..k - 1] == Ones(k - 1);
    }
  }

  /** On a budget of `total >= 0`, exactly the first `total` calls of `consume(1)` succeed. */
  lemma UnitConsumes(total: nat, k: nat, i: nat)
    requires i < k
    ensures ThrowsAt(total, Ones(k), i) <==> i >= total
  {
    SumOnes(i + 1);
    assert Ones(k)[..i + 1] == Ones(i + 1);
  }

  lemma {:induction false} SumMonotone(ns: seq<int>, i: nat, j: nat)
    requires i <= j <= |ns|
    requires forall k :: i <= k < j ==> ns[k] >= 0
    ensures Sum(ns[..j]) >= Sum(ns[..i])
    decreases j - i
  {
    if i < j {
      SumMonotone(ns, i, j - 1);
      assert ns[..j][..j - 1] == ns[..j - 1];
    }
  }

  /** Once a call has thrown, every later call with a non-negative `n` throws as well. */
  lemma ThrowStaysThrown(total: int, ns: seq<int>, i: nat, j: nat)
    requires i < j < |ns|
    requires ThrowsAt(total, ns, i)
    requires forall k :: i < k <= j ==> ns[k] >= 0
    ensures ThrowsAt(total, ns, j)
  {
    SumMonotone(ns, i + 1, j + 1);
  }
}
