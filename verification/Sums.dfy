/** Sums over finite maps from addresses to amounts. */
module Sums {
  type Address = nat

  ghost function Sum(m: map<Address, nat>): nat
    decreases |m|
  {
    if m == map[] then 0 else
      var k :| k in m;
      m[k] + Sum(m - {k})
  }

  /** The sum does not depend on which key is taken first. */
  lemma {:induction false} SumRemove(m: map<Address, nat>, k: Address)
    requires k in m
    ensures Sum(m) == m[k] + Sum(m - {k})
    decreases |m|
  {
    var j :| j in m && Sum(m) == m[j] + Sum(m - {j});
    if j != k {
      SumRemove(m - {j}, k);
      SumRemove(m - {k}, j);
      assert m - {j} - {k} == m - {k} - {j};
    }
  }

  function Amount(m: map<Address, nat>, k: Address): nat {
    if k in m then m[k] else 0
  }

  /** Setting one key changes the sum by the difference there. */
  lemma SumUpdate(m: map<Address, nat>, k: Address, v: nat)
    ensures Sum(m[k := v]) + Amount(m, k) == Sum(m) + v
  {
    SumRemove(m[k := v], k);
    if k in m {
      SumRemove(m, k);
      assert m[k := v] - {k} == m - {k};
    } else {
      assert m[k := v] - {k} == m;
    }
  }

  /** Removing one key takes its amount from the sum. */
  lemma SumErase(m: map<Address, nat>, k: Address)
    ensures Sum(m - {k}) + Amount(m, k) == Sum(m)
  {
    if k in m {
      SumRemove(m, k);
    } else {
      assert m - {k} == m;
    }
  }

  /** No entry is larger than the sum. */
  lemma SumAtLeast(m: map<Address, nat>, k: Address)
    ensures Amount(m, k) <= Sum(m)
  {
    SumErase(m, k);
  }

  lemma SumEmpty()
    ensures Sum(map[]) == 0
  {
  }
}
