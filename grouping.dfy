/** Generic relational helpers over sequences of rows: filters, sums, distinct
    group keys and the partition facts that a group-by relies on. */
module Grouping {
  import opened Wrappers

  /** No value occurs twice in `s`. */
  predicate NoDups<T(==)>(s: seq<T>) {
    forall i, j :: 0 <= i < j < |s| ==> s[i] != s[j]
  }

  /** The rows of `xs` that satisfy `p`, in their original order. */
  function Filter<T(==)>(xs: seq<T>, p: T -> bool): (r: seq<T>)
    ensures |r| <= |xs|
    ensures forall x :: x in r ==> x in xs && p(x)
    ensures forall x :: x in xs && p(x) ==> x in r
    ensures forall x | x in xs :: multiset(r)[x] == if p(x) then multiset(xs)[x] else 0
  {
    if xs == [] then []
    else
      assert xs == [xs[0]] + xs[1..];
      (if p(xs[0]) then [xs[0]] else []) + Filter(xs[1..], p)
  }

  /** The rows of `xs` whose key is `k`, in their original order: one group. */
  function Select<T(==), K(==)>(xs: seq<T>, key: T -> K, k: K): (r: seq<T>)
    ensures |r| <= |xs|
    ensures forall x :: x in r ==> x in xs && key(x) == k
    ensures forall x :: x in xs && key(x) == k ==> x in r
  {
    if xs == [] then []
    else (if key(xs[0]) == k then [xs[0]] else []) + Select(xs[1..], key, k)
  }

  /** A group holds each row of its key as many times as `xs` does, and no
      row of another key. */
  lemma {:induction false} SelectCounts<T, K>(xs: seq<T>, key: T -> K, k: K)
    ensures forall x | x in xs ::
              multiset(Select(xs, key, k))[x] == if key(x) == k then multiset(xs)[x] else 0
  {
    if xs != [] {
      SelectCounts(xs[1..], key, k);
      assert xs == [xs[0]] + xs[1..];
    }
  }

  /** Sum of `f` over the rows of `xs` (SQL `sum`, and `count` of an indicator). */
  function Sum<T>(xs: seq<T>, f: T -> int): int {
    if xs == [] then 0 else f(xs[0]) + Sum(xs[1..], f)
  }

  /** The distinct keys of the rows of `xs`, in order of first occurrence. */
  function KeysOf<T(==), K(==)>(xs: seq<T>, key: T -> K): (r: seq<K>)
    ensures NoDups(r)
    ensures forall x :: x in xs ==> key(x) in r
    ensures forall k :: k in r ==> exists x :: x in xs && key(x) == k
  {
    if xs == [] then []
    else
      var init := xs[..|xs| - 1];
      var ks := KeysOf(init, key);
      var last := xs[|xs| - 1];
      assert xs == init + [last];
      assert forall x :: x in init ==> x in xs;
      assert forall x :: x in xs ==> x in init || x == last;
      if key(last) in ks then ks else ks + [key(last)]
  }

  /** The largest value of `f` over `xs`; `None` for no rows (SQL `max`). */
  function MaxOf<T(==)>(xs: seq<T>, f: T -> int): (m: Option<int>)
    ensures m.None? <==> xs == []
    ensures m.Some? ==> (exists x :: x in xs && f(x) == m.value)
    ensures m.Some? ==> forall x :: x in xs ==> f(x) <= m.value
  {
    if xs == [] then None
    else
      var rest := MaxOf(xs[1..], f);
      assert forall x :: x in xs ==> x == xs[0] || x in xs[1..];
      if rest.None? || f(xs[0]) >= rest.value then Some(f(xs[0])) else rest
  }

  /** The smallest value of `f` over `xs`; `None` for no rows (SQL `min`). */
  function MinOf<T(==)>(xs: seq<T>, f: T -> int): (m: Option<int>)
    ensures m.None? <==> xs == []
    ensures m.Some? ==> (exists x :: x in xs && f(x) == m.value)
    ensures m.Some? ==> forall x :: x in xs ==> m.value <= f(x)
  {
    if xs == [] then None
    else
      var rest := MinOf(xs[1..], f);
      assert forall x :: x in xs ==> x == xs[0] || x in xs[1..];
      if rest.None? || f(xs[0]) <= rest.value then Some(f(xs[0])) else rest
  }

  /** The sum, over the groups named by `ks`, of the sum of `f` over each group. */
  function GroupTotal<T(==), K(==)>(ks: seq<K>, xs: seq<T>, key: T -> K, f: T -> int): int {
    if ks == [] then 0 else Sum(Select(xs, key, ks[0]), f) + GroupTotal(ks[1..], xs, key, f)
  }

  /** A sum of values in 0..1 is between 0 and the number of rows. */
  lemma {:induction false} SumOfIndicator<T>(xs: seq<T>, f: T -> int)
    requires forall x :: x in xs ==> 0 <= f(x) <= 1
    ensures 0 <= Sum(xs, f) <= |xs|
  {
    if xs != [] {
      assert forall x :: x in xs[1..] ==> x in xs;
      SumOfIndicator(xs[1..], f);
    }
  }

  /** A sum of ones counts the rows. */
  lemma {:induction false} SumOfOnes<T>(xs: seq<T>, f: T -> int)
    requires forall x :: x in xs ==> f(x) == 1
    ensures Sum(xs, f) == |xs|
  {
    if xs != [] {
      assert forall x :: x in xs[1..] ==> x in xs;
      SumOfOnes(xs[1..], f);
    }
  }

  /** A sum of non-negative values is non-negative. */
  lemma {:induction false} SumNonNegative<T>(xs: seq<T>, f: T -> int)
    requires forall x :: x in xs ==> 0 <= f(x)
    ensures 0 <= Sum(xs, f)
  {
    if xs != [] {
      assert forall x :: x in xs[1..] ==> x in xs;
      SumNonNegative(xs[1..], f);
    }
  }

  /** Removing the first row of `xs` takes `f` of it out of exactly the one
      group its key names, when the keys are distinct. */
  lemma {:induction false} GroupTotalFirstRow<T, K>(ks: seq<K>, xs: seq<T>, key: T -> K, f: T -> int)
    requires NoDups(ks) && xs != []
    ensures GroupTotal(ks, xs, key, f)
         == GroupTotal(ks, xs[1..], key, f) + (if key(xs[0]) in ks then f(xs[0]) else 0)
  {
    if ks != [] {
      var head := if key(xs[0]) == ks[0] then [xs[0]] else [];
      var rest := Select(xs[1..], key, ks[0]);
      assert Select(xs, key, ks[0]) == head + rest;
      if head == [] {
        assert head + rest == rest;
      } else {
        assert (head + rest)[0] == xs[0] && (head + rest)[1..] == rest;
      }
      assert Sum(Select(xs, key, ks[0]), f) == Sum(rest, f) + (if key(xs[0]) == ks[0] then f(xs[0]) else 0);
      assert NoDups(ks[1..]);
      GroupTotalFirstRow(ks[1..], xs, key, f);
      assert key(xs[0]) == ks[0] ==> key(xs[0]) !in ks[1..];
      assert key(xs[0]) in ks <==> key(xs[0]) == ks[0] || key(xs[0]) in ks[1..];
    }
  }

  /** With no rows, every group is empty. */
  lemma {:induction false} GroupTotalNoRows<T, K>(ks: seq<K>, xs: seq<T>, key: T -> K, f: T -> int)
    requires xs == []
    ensures GroupTotal(ks, xs, key, f) == 0
  {
    if ks != [] {
      GroupTotalNoRows(ks[1..], xs, key, f);
    }
  }

  /** Group-by partitions the rows: when the keys `ks` are distinct and cover
      every row's key, the group sums add up to the sum over all rows. */
  lemma {:induction false} GroupTotalPartition<T, K>(ks: seq<K>, xs: seq<T>, key: T -> K, f: T -> int)
    requires NoDups(ks)
    requires forall x :: x in xs ==> key(x) in ks
    ensures GroupTotal(ks, xs, key, f) == Sum(xs, f)
  {
    if xs == [] {
      GroupTotalNoRows(ks, xs, key, f);
    } else {
      assert forall x :: x in xs[1..] ==> x in xs;
      GroupTotalPartition(ks, xs[1..], key, f);
      GroupTotalFirstRow(ks, xs, key, f);
    }
  }

  /** Inserting a row the filter rejects, anywhere, changes nothing. */
  lemma {:induction false} FilterSkipsRejected<T>(xs: seq<T>, y: T, ys: seq<T>, p: T -> bool)
    requires !p(y)
    ensures Filter(xs + [y] + ys, p) == Filter(xs + ys, p)
  {
    if xs == [] {
      assert [] + [y] + ys == [y] + ys;
      assert ([y] + ys)[1..] == ys;
      assert [] + ys == ys;
    } else {
      assert (xs + [y] + ys)[0] == xs[0] && (xs + ys)[0] == xs[0];
      assert (xs + [y] + ys)[1..] == xs[1..] + [y] + ys;
      assert (xs + ys)[1..] == xs[1..] + ys;
      FilterSkipsRejected(xs[1..], y, ys, p);
    }
  }

  /** A sum of a 0/1 indicator of `p` counts the rows that satisfy `p`. */
  lemma {:induction false} SumCountsFilter<T>(xs: seq<T>, f: T -> int, p: T -> bool)
    requires forall x :: x in xs ==> f(x) == (if p(x) then 1 else 0)
    ensures Sum(xs, f) == |Filter(xs, p)|
  {
    if xs != [] {
      assert forall x :: x in xs[1..] ==> x in xs;
      SumCountsFilter(xs[1..], f, p);
    }
  }

  /** A sum of `f`, where `f` is `g` on the rows satisfying `p` and 0 elsewhere,
      is the sum of `g` over the rows that `p` keeps. */
  lemma {:induction false} SumOverFilter<T>(xs: seq<T>, f: T -> int, g: T -> int, p: T -> bool)
    requires forall x :: x in xs ==> f(x) == (if p(x) then g(x) else 0)
    ensures Sum(xs, f) == Sum(Filter(xs, p), g)
  {
    if xs != [] {
      assert forall y :: y in xs[1..] ==> y in xs;
      SumOverFilter(xs[1..], f, g, p);
      var rest := Filter(xs[1..], p);
      assert Sum(xs, f) == f(xs[0]) + Sum(rest, g);
      if p(xs[0]) {
        assert Filter(xs, p) == [xs[0]] + rest;
        SumOfCons(xs[0], rest, g);
        assert f(xs[0]) == g(xs[0]);
      } else {
        assert Filter(xs, p) == [] + rest == rest;
        assert f(xs[0]) == 0;
      }
    } else {
      assert Filter(xs, p) == [];
    }
  }

  /** Sum of a row followed by more rows. */
  lemma SumOfCons<T>(x: T, ys: seq<T>, g: T -> int)
    ensures Sum([x] + ys, g) == g(x) + Sum(ys, g)
  {
    assert ([x] + ys)[1..] == ys;
  }

  /** Two keyings that pick out the same rows of `xs` select the same group. */
  lemma {:induction false} SelectSameRows<T, K, L>(xs: seq<T>, key: T -> K, k: K, key2: T -> L, k2: L)
    requires forall x :: x in xs ==> (key(x) == k <==> key2(x) == k2)
    ensures Select(xs, key, k) == Select(xs, key2, k2)
  {
    if xs != [] {
      assert forall x :: x in xs[1..] ==> x in xs;
      SelectSameRows(xs[1..], key, k, key2, k2);
    }
  }

  /** The sizes of the groups named by `ks`, added up. */
  function GroupSizes<T(==), K(==)>(ks: seq<K>, xs: seq<T>, key: T -> K): int {
    if ks == [] then 0 else |Select(xs, key, ks[0])| + GroupSizes(ks[1..], xs, key)
  }

  /** Group sizes are group totals of a constant one. */
  lemma {:induction false} GroupSizesAsTotal<T, K>(ks: seq<K>, xs: seq<T>, key: T -> K, f: T -> int)
    requires forall x :: f(x) == 1
    ensures GroupSizes(ks, xs, key) == GroupTotal(ks, xs, key, f)
  {
    if ks != [] {
      SumOfOnes(Select(xs, key, ks[0]), f);
      GroupSizesAsTotal(ks[1..], xs, key, f);
    }
  }

  /** Every row lands in exactly one group: with distinct keys covering every
      row, the group sizes add up to the number of rows. */
  lemma GroupSizesPartition<T, K>(ks: seq<K>, xs: seq<T>, key: T -> K)
    requires NoDups(ks)
    requires forall x :: x in xs ==> key(x) in ks
    ensures GroupSizes(ks, xs, key) == |xs|
  {
    var one := (x: T) => 1;
    GroupSizesAsTotal(ks, xs, key, one);
    GroupTotalPartition(ks, xs, key, one);
    SumOfOnes(xs, one);
  }
}
