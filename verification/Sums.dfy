/** Sums over finite maps, tallies over a list of keys and sums over a bag: the arithmetic that the
    ledgers of the settlement protocol are stated in. */
module Sums {
  /** A storage map read with a default of zero, the way the contracts read theirs. */
  function Get<K>(m: map<K, nat>, k: K): nat { if k in m then m[k] else 0 }

  // ---------------------------------------------------------------- sums over a map

  ghost function Sum<K>(m: map<K, nat>): nat
    decreases |m|
  {
    if m == map[] then 0 else var k :| k in m; m[k] + Sum(m - {k})
  }

  lemma {:induction false} SumWithout<K>(m: map<K, nat>, k: K)
    ensures Sum(m) == Get(m, k) + Sum(m - {k})
    decreases |m|
  {
    if k !in m {
      assert m - {k} == m;
    } else {
      var p :| p in m && Sum(m) == m[p] + Sum(m - {p});
      if p != k {
        SumWithout(m - {p}, k);
        SumWithout(m - {k}, p);
        assert m - {p} - {k} == m - {k} - {p};
      }
    }
  }

  lemma {:induction false} SumUpdate<K>(m: map<K, nat>, k: K, v: nat)
    ensures Sum(m[k := v]) == Sum(m) - Get(m, k) + v
  {
    SumWithout(m, k);
    SumWithout(m[k := v], k);
    assert m[k := v] - {k} == m - {k};
  }

  lemma SumAtLeast<K>(m: map<K, nat>, k: K)
    ensures Get(m, k) <= Sum(m)
  {
    SumWithout(m, k);
  }

  // ---------------------------------------------------------------- tallies over listed keys

  ghost function Tally<K, V>(m: map<K, V>, keys: seq<K>, weight: V -> nat): nat
    requires forall k <- keys :: k in m
  {
    if keys == [] then 0
    else Tally(m, keys[..|keys| - 1], weight) + weight(m[keys[|keys| - 1]])
  }

  ghost predicate Distinct<K>(keys: seq<K>) {
    forall i, j :: 0 <= i < j < |keys| ==> keys[i] != keys[j]
  }

  lemma {:induction false} TallyUpdate<K, V>(m: map<K, V>, keys: seq<K>, weight: V -> nat, k: K, v: V)
    requires Distinct(keys) && forall q <- keys :: q in m
    ensures k !in keys ==> Tally(m[k := v], keys, weight) == Tally(m, keys, weight)
    ensures k in keys ==> Tally(m[k := v], keys, weight) == Tally(m, keys, weight) - weight(m[k]) + weight(v)
    ensures k in keys ==> weight(m[k]) <= Tally(m, keys, weight)
  {
    if keys != [] {
      var init, last := keys[..|keys| - 1], keys[|keys| - 1];
      assert keys == init + [last];
      TallyUpdate(m, init, weight, k, v);
    }
  }

  lemma TallyAppend<K, V>(m: map<K, V>, keys: seq<K>, weight: V -> nat, k: K, v: V)
    requires Distinct(keys) && k !in keys && forall q <- keys :: q in m
    ensures Tally(m[k := v], keys + [k], weight) == Tally(m, keys, weight) + weight(v)
  {
    assert (keys + [k])[..|keys|] == keys;
    TallyUpdate(m, keys, weight, k, v);
  }

  lemma {:induction false} TallyPositive<K, V>(m: map<K, V>, keys: seq<K>, weight: V -> nat)
    requires forall q <- keys :: q in m
    ensures Tally(m, keys, weight) > 0 <==> exists q <- keys :: weight(m[q]) > 0
  {
    if keys != [] {
      var init, last := keys[..|keys| - 1], keys[|keys| - 1];
      assert keys == init + [last];
      TallyPositive(m, init, weight);
    }
  }

  // ---------------------------------------------------------------- sums over a bag

  ghost function BagSum<T>(bag: multiset<T>, weight: T -> int): int
    decreases |bag|
  {
    if bag == multiset{} then 0 else var x :| x in bag; weight(x) + BagSum(bag - multiset{x}, weight)
  }

  lemma {:induction false} BagSumWithout<T>(bag: multiset<T>, weight: T -> int, x: T)
    requires x in bag
    ensures BagSum(bag, weight) == weight(x) + BagSum(bag - multiset{x}, weight)
    decreases |bag|
  {
    var p :| p in bag && BagSum(bag, weight) == weight(p) + BagSum(bag - multiset{p}, weight);
    if p != x {
      BagSumWithout(bag - multiset{p}, weight, x);
      BagSumWithout(bag - multiset{x}, weight, p);
      assert bag - multiset{p} - multiset{x} == bag - multiset{x} - multiset{p};
    }
  }

  ghost function SeqSum<T>(xs: seq<T>, weight: T -> int): int {
    if xs == [] then 0 else SeqSum(xs[..|xs| - 1], weight) + weight(xs[|xs| - 1])
  }

  lemma {:induction false} BagSumAdd<T>(bag: multiset<T>, xs: seq<T>, weight: T -> int)
    ensures BagSum(bag + multiset(xs), weight) == BagSum(bag, weight) + SeqSum(xs, weight)
  {
    if xs == [] {
      assert bag + multiset(xs) == bag;
    } else {
      var init, last := xs[..|xs| - 1], xs[|xs| - 1];
      assert xs == init + [last];
      BagSumAdd(bag, init, weight);
      BagSumWithout(bag + multiset(xs), weight, last);
      assert bag + multiset(xs) - multiset{last} == bag + multiset(init);
    }
  }

  lemma {:induction false} BagSumNonNegative<T>(bag: multiset<T>, weight: T -> int)
    requires forall x <- bag :: weight(x) >= 0
    ensures BagSum(bag, weight) >= 0
    decreases |bag|
  {
    if bag != multiset{} {
      var x :| x in bag;
      BagSumWithout(bag, weight, x);
      BagSumNonNegative(bag - multiset{x}, weight);
    }
  }
}
