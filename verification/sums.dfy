/** Order-independent sums of integer-valued maps over finite key sets. */
module Sums {

  /** A set that is not empty has an element to pick. */
  lemma NonEmpty(keys: set<int>)
    requires keys != {}
    ensures exists k :: k in keys
  {
    if forall k :: k !in keys {
      assert false;
    }
  }

  /** The sum of `m[k]` over the keys `k` in `keys` (keys missing from `m`
      contribute nothing), taken in no particular order. */
  ghost function SumOver(m: map<int, int>, keys: set<int>): int
    decreases |keys|
  {
    if keys == {} then 0
    else
      NonEmpty(keys);
      var k :| k in keys;
      (if k in m then m[k] else 0) + SumOver(m, keys - {k})
  }

  /** Any key may be split off first: the sum does not depend on the order
      the keys are visited in. */
  lemma {:induction false} SumOverRemove(m: map<int, int>, keys: set<int>, k: int)
    requires k in keys
    ensures SumOver(m, keys) == (if k in m then m[k] else 0) + SumOver(m, keys - {k})
    decreases |keys|
  {
    var j :| j in keys && SumOver(m, keys) == (if j in m then m[j] else 0) + SumOver(m, keys - {j});
    if j != k {
      SumOverRemove(m, keys - {j}, k);
      SumOverRemove(m, keys - {k}, j);
      assert keys - {j} - {k} == keys - {k} - {j};
    }
  }

  /** Maps that agree on `keys` have the same sum over them. */
  lemma {:induction false} SumOverFrame(m1: map<int, int>, m2: map<int, int>, keys: set<int>)
    requires forall k :: k in keys ==> (k in m1 <==> k in m2)
    requires forall k :: k in keys && k in m1 ==> m1[k] == m2[k]
    ensures SumOver(m1, keys) == SumOver(m2, keys)
    decreases |keys|
  {
    if keys != {} {
      NonEmpty(keys);
      var k :| k in keys;
      SumOverRemove(m1, keys, k);
      SumOverRemove(m2, keys, k);
      SumOverFrame(m1, m2, keys - {k});
    }
  }

  /** A sum of non-negative entries is non-negative. */
  lemma {:induction false} SumOverNonNegative(m: map<int, int>, keys: set<int>)
    requires forall k :: k in m ==> m[k] >= 0
    ensures SumOver(m, keys) >= 0
    decreases |keys|
  {
    if keys != {} {
      NonEmpty(keys);
      var k :| k in keys;
      SumOverRemove(m, keys, k);
      SumOverNonNegative(m, keys - {k});
    }
  }

  /** Overwriting (or adding) one entry moves the sum over the map's keys by
      the change of that entry. */
  lemma SumOverUpdate(m: map<int, int>, k: int, v: int)
    ensures SumOver(m[k := v], m.Keys + {k})
      == SumOver(m, m.Keys) - (if k in m then m[k] else 0) + v
  {
    var m' := m[k := v];
    var rest := m.Keys - {k};
    assert SumOver(m', m.Keys + {k}) == v + SumOver(m, rest) by {
      SumOverRemove(m', m.Keys + {k}, k);
      assert m.Keys + {k} - {k} == rest;
      SumOverFrame(m', m, rest);
    }
    if k in m {
      SumOverRemove(m, m.Keys, k);
    } else {
      assert m.Keys == rest;
    }
  }

  lemma MulDistributes(a: int, b: int, c: int)
    ensures a * (b + c) == a * b + a * c
  {
  }

  lemma MulNonNegative(a: int, b: int)
    requires a >= 0 && b >= 0
    ensures a * b >= 0
  {
  }
}
