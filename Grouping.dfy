/** Sorted distinct values and grouped sums over keyed values.

    A grouped result is a sequence of (key, sum) pairs, as pandas'
    `groupby(key)[col].sum().reset_index()` produces it: one row per key,
    keys in ascending order. `GroupSum` is a reference definition of that
    computation by sorted insertion; it takes the key order as a parameter. */
module Grouping {
  import opened Orders

  /** The key column of a sequence of (key, value) pairs. */
  function Keys<K>(ps: seq<(K, int)>): (ks: seq<K>)
    ensures |ks| == |ps|
    ensures forall i :: 0 <= i < |ps| ==> ks[i] == ps[i].0
  {
    if ps == [] then [] else [ps[0].0] + Keys(ps[1..])
  }

  /** Sum of the value column. */
  function Total<K>(ps: seq<(K, int)>): int {
    if ps == [] then 0 else ps[0].1 + Total(ps[1..])
  }

  /** Sum of the values whose key is `k`. */
  function SumOf<K(==,!new)>(ps: seq<(K, int)>, k: K): int {
    if ps == [] then 0
    else (if ps[0].0 == k then ps[0].1 else 0) + SumOf(ps[1..], k)
  }

  predicate StrictlySorted<K>(xs: seq<K>, lt: (K, K) -> bool) {
    forall i, j :: 0 <= i < j < |xs| ==> lt(xs[i], xs[j])
  }

  predicate Distinct<K(==,!new)>(xs: seq<K>) {
    forall i, j :: 0 <= i < j < |xs| ==> xs[i] != xs[j]
  }

  /** Inserts `x` into a sorted sequence of distinct values unless it is present. */
  function InsertUnique<K(==,!new)>(xs: seq<K>, x: K, lt: (K, K) -> bool): (r: seq<K>)
    ensures forall y :: y in r <==> y in xs || y == x
  {
    if xs == [] then [x]
    else if xs[0] == x then xs
    else if lt(x, xs[0]) then [x] + xs
    else [xs[0]] + InsertUnique(xs[1..], x, lt)
  }

  /** The distinct values of `xs`, sorted by `lt`
      (`sorted(column.unique())`, `drop_duplicates().sort_values()`). */
  function SortedUnique<K(==,!new)>(xs: seq<K>, lt: (K, K) -> bool): (r: seq<K>)
    ensures forall y :: y in r <==> y in xs
  {
    if xs == [] then [] else InsertUnique(SortedUnique(xs[1..], lt), xs[0], lt)
  }

  lemma {:induction false} InsertUniqueSorted<K(!new)>(xs: seq<K>, x: K, lt: (K, K) -> bool)
    requires StrictTotalOrder(lt) && StrictlySorted(xs, lt)
    ensures StrictlySorted(InsertUnique(xs, x, lt), lt)
  {
    if xs != [] && xs[0] != x && !lt(x, xs[0]) {
      var rest := InsertUnique(xs[1..], x, lt);
      InsertUniqueSorted(xs[1..], x, lt);
      assert lt(xs[0], x);
      forall y | y in rest ensures lt(xs[0], y) {
        if y != x {
          var j :| 0 <= j < |xs[1..]| && xs[1..][j] == y;
          assert xs[j + 1] == y;
        }
      }
      var r := [xs[0]] + rest;
      forall i, j | 0 <= i < j < |r| ensures lt(r[i], r[j]) {
        if i == 0 {
          assert r[j] == rest[j - 1] && rest[j - 1] in rest;
        } else {
          assert r[i] == rest[i - 1] && r[j] == rest[j - 1];
        }
      }
    } else if xs != [] && xs[0] != x {
      var r := [x] + xs;
      forall i, j | 0 <= i < j < |r| ensures lt(r[i], r[j]) {
        if i == 0 && j > 1 {
          assert lt(xs[0], xs[j - 1]);
        }
      }
    }
  }

  lemma {:induction false} SortedUniqueSorted<K(!new)>(xs: seq<K>, lt: (K, K) -> bool)
    requires StrictTotalOrder(lt)
    ensures StrictlySorted(SortedUnique(xs, lt), lt)
  {
    if xs != [] {
      SortedUniqueSorted(xs[1..], lt);
      InsertUniqueSorted(SortedUnique(xs[1..], lt), xs[0], lt);
    }
  }

  /** A strictly sorted sequence has no repeated value. */
  lemma StrictlySortedDistinct<K(!new)>(xs: seq<K>, lt: (K, K) -> bool)
    requires StrictTotalOrder(lt) && StrictlySorted(xs, lt)
    ensures Distinct(xs)
  {
    forall i, j | 0 <= i < j < |xs| ensures xs[i] != xs[j] {
      assert lt(xs[i], xs[j]);
    }
  }

  /** Adds `v` to the group of key `k`, creating the group at its sorted
      place when it is absent. */
  function Insert<K(==,!new)>(gs: seq<(K, int)>, k: K, v: int, lt: (K, K) -> bool): (r: seq<(K, int)>)
    ensures Keys(r) == InsertUnique(Keys(gs), k, lt)
    ensures Total(r) == Total(gs) + v
    ensures forall k' :: SumOf(r, k') == SumOf(gs, k') + (if k' == k then v else 0)
  {
    if gs == [] then [(k, v)]
    else if gs[0].0 == k then
      assert Keys(gs) == [k] + Keys(gs[1..]);
      [(k, gs[0].1 + v)] + gs[1..]
    else if lt(k, gs[0].0) then
      assert ([(k, v)] + gs)[1..] == gs;
      [(k, v)] + gs
    else
      var rest := Insert(gs[1..], k, v, lt);
      assert ([gs[0]] + rest)[1..] == rest;
      [gs[0]] + rest
  }

  /** `groupby(key)[value].sum()` over a sequence of (key, value) pairs whose
      keys are all present: one group per distinct key, value conserved. */
  function GroupSum<K(==,!new)>(ps: seq<(K, int)>, lt: (K, K) -> bool): (r: seq<(K, int)>)
    ensures Keys(r) == SortedUnique(Keys(ps), lt)
    ensures forall k :: SumOf(r, k) == SumOf(ps, k)
    ensures Total(r) == Total(ps)
  {
    if ps == [] then []
    else
      assert Keys(ps) == [ps[0].0] + Keys(ps[1..]);
      Insert(GroupSum(ps[1..], lt), ps[0].0, ps[0].1, lt)
  }

  lemma {:induction false} SumOfAbsent<K(!new)>(ps: seq<(K, int)>, k: K)
    requires k !in Keys(ps)
    ensures SumOf(ps, k) == 0
  {
    if ps != [] {
      assert Keys(ps) == [ps[0].0] + Keys(ps[1..]);
      SumOfAbsent(ps[1..], k);
    }
  }

  /** In a result with distinct keys every row holds the whole sum of its key. */
  lemma {:induction false} DistinctKeysHoldSums<K(!new)>(gs: seq<(K, int)>, i: nat)
    requires Distinct(Keys(gs)) && i < |gs|
    ensures gs[i].1 == SumOf(gs, gs[i].0)
  {
    var ks := Keys(gs);
    assert Keys(gs[1..]) == ks[1..];
    if i == 0 {
      assert gs[0].0 !in ks[1..];
      SumOfAbsent(gs[1..], gs[0].0);
    } else {
      assert ks[0] != ks[i];
      DistinctKeysHoldSums(gs[1..], i - 1);
    }
  }

  /** The grouped result is strictly sorted by key and each row's value is
      the sum of all input values carrying its key. */
  lemma GroupSumSortedAndExact<K(!new)>(ps: seq<(K, int)>, lt: (K, K) -> bool)
    requires StrictTotalOrder(lt)
    ensures StrictlySorted(Keys(GroupSum(ps, lt)), lt)
    ensures forall i :: 0 <= i < |GroupSum(ps, lt)| ==>
              GroupSum(ps, lt)[i].1 == SumOf(ps, GroupSum(ps, lt)[i].0)
  {
    var r := GroupSum(ps, lt);
    SortedUniqueSorted(Keys(ps), lt);
    StrictlySortedDistinct(Keys(r), lt);
    forall i | 0 <= i < |r| ensures r[i].1 == SumOf(ps, r[i].0) {
      DistinctKeysHoldSums(r, i);
    }
  }

  /** The distinct values of `xs` (pandas' `Series.unique()`). */
  function Unique<K(==,!new)>(xs: seq<K>): (r: seq<K>)
    ensures forall y :: y in r <==> y in xs
    ensures Distinct(r)
  {
    if xs == [] then []
    else
      var u := Unique(xs[..|xs| - 1]);
      assert xs == xs[..|xs| - 1] + [xs[|xs| - 1]];
      if xs[|xs| - 1] in u then u else u + [xs[|xs| - 1]]
  }
}
