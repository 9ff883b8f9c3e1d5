/** Sequence operations the client gets from `Array.prototype`: `filter`, counting, first-occurrence
    de-duplication (`[...new Set(xs)]`, `Map` insertion order) and the stable `sort`. */
module Seqs {

  /** `xs.filter(p)`. */
  function Filter<T>(xs: seq<T>, p: T -> bool): (r: seq<T>)
    ensures |r| <= |xs|
    ensures forall i | 0 <= i < |r| :: p(r[i])
    ensures forall i | 0 <= i < |xs| && p(xs[i]) :: xs[i] in r
    ensures multiset(r) <= multiset(xs)
    ensures forall i | 0 <= i < |r| :: r[i] in xs
  {
    if xs == [] then []
    else
      assert xs == [xs[0]] + xs[1..];
      (if p(xs[0]) then [xs[0]] else []) + Filter(xs[1..], p)
  }

  /** Filtering keeps every passing element as often as it occurs and drops the others. */
  lemma {:induction false} FilterCounts<T>(xs: seq<T>, p: T -> bool)
    ensures forall x :: multiset(Filter(xs, p))[x] == if p(x) then multiset(xs)[x] else 0
  {
    if xs != [] {
      FilterCounts(xs[1..], p);
      assert xs == [xs[0]] + xs[1..];
      assert multiset(xs) == multiset([xs[0]]) + multiset(xs[1..]);
      var head := if p(xs[0]) then [xs[0]] else [];
      assert multiset(Filter(xs, p)) == multiset(head) + multiset(Filter(xs[1..], p));
    }
  }

  lemma FilterCons<T>(xs: seq<T>, p: T -> bool)
    requires xs != []
    ensures Filter(xs, p) == (if p(xs[0]) then [xs[0]] else []) + Filter(xs[1..], p)
  {
  }

  lemma {:induction false} FilterAppend<T>(xs: seq<T>, ys: seq<T>, p: T -> bool)
    ensures Filter(xs + ys, p) == Filter(xs, p) + Filter(ys, p)
  {
    if xs == [] {
      assert xs + ys == ys;
    } else {
      assert (xs + ys)[1..] == xs[1..] + ys;
      FilterAppend(xs[1..], ys, p);
    }
  }

  /** Filtering keeps everything exactly when every element passes. */
  lemma {:induction false} FilterAll<T>(xs: seq<T>, p: T -> bool)
    requires forall i | 0 <= i < |xs| :: p(xs[i])
    ensures Filter(xs, p) == xs
  {
    if xs != [] {
      FilterAll(xs[1..], p);
    }
  }

  /** The number of occurrences of `x` in `xs`. */
  function Count<T(==)>(xs: seq<T>, x: T): (n: nat)
    ensures n <= |xs|
    ensures n > 0 <==> x in xs
  {
    if xs == [] then 0 else (if xs[|xs| - 1] == x then 1 else 0) + Count(xs[..|xs| - 1], x)
  }

  ghost predicate NoDuplicates<T>(xs: seq<T>) {
    forall i, j | 0 <= i < j < |xs| :: xs[i] != xs[j]
  }

  lemma NoDuplicatesTail<T>(xs: seq<T>)
    requires xs != [] && NoDuplicates(xs)
    ensures NoDuplicates(xs[1..])
  {
    forall i, j | 0 <= i < j < |xs| - 1
      ensures xs[1..][i] != xs[1..][j]
    {
      assert xs[i + 1] != xs[j + 1];
    }
  }

  lemma NoDuplicatesHead<T>(xs: seq<T>)
    requires xs != [] && NoDuplicates(xs)
    ensures xs[0] !in xs[1..]
  {
  }

  /** `[...new Set(xs)]`: each distinct element once, in order of first occurrence. */
  function Dedupe<T(==)>(xs: seq<T>): (r: seq<T>)
    ensures NoDuplicates(r)
    ensures forall i | 0 <= i < |r| :: r[i] in xs
    ensures forall i | 0 <= i < |xs| :: xs[i] in r
    ensures |r| <= |xs|
  {
    if xs == [] then []
    else
      var rest := Dedupe(xs[..|xs| - 1]);
      var x := xs[|xs| - 1];
      assert forall i | 0 <= i < |xs| - 1 :: xs[i] == xs[..|xs| - 1][i];
      if x in rest then rest else rest + [x]
  }

  lemma DedupeSnoc<T>(xs: seq<T>)
    requires xs != []
    ensures Dedupe(xs) == if xs[|xs| - 1] in Dedupe(xs[..|xs| - 1]) then Dedupe(xs[..|xs| - 1])
      else Dedupe(xs[..|xs| - 1]) + [xs[|xs| - 1]]
  {
  }

  /** The index of the first occurrence of `x`. */
  function FirstIndex<T(==)>(xs: seq<T>, x: T): (i: nat)
    requires x in xs
    ensures i < |xs| && xs[i] == x
    ensures forall j | 0 <= j < i :: xs[j] != x
  {
    if xs[0] == x then 0 else 1 + FirstIndex(xs[1..], x)
  }

  lemma FirstIndexOfPrefix<T>(xs: seq<T>, k: nat, x: T)
    requires k <= |xs| && x in xs[..k]
    ensures FirstIndex(xs, x) == FirstIndex(xs[..k], x)
  {
    var i := FirstIndex(xs[..k], x);
    var j := FirstIndex(xs, x);
    assert xs[..k][j] == x || j >= i;
  }

  /** De-duplication keeps first-occurrence order. */
  lemma DedupeOrder<T>(xs: seq<T>)
    ensures forall i, j | 0 <= i < j < |Dedupe(xs)| ::
      FirstIndex(xs, Dedupe(xs)[i]) < FirstIndex(xs, Dedupe(xs)[j])
  {
    forall i, j | 0 <= i < j < |Dedupe(xs)|
      ensures FirstIndex(xs, Dedupe(xs)[i]) < FirstIndex(xs, Dedupe(xs)[j])
    {
      DedupeOrderPair(xs, i, j);
    }
  }

  lemma {:induction false} DedupeOrderPair<T>(xs: seq<T>, i: nat, j: nat)
    requires i < j < |Dedupe(xs)|
    ensures FirstIndex(xs, Dedupe(xs)[i]) < FirstIndex(xs, Dedupe(xs)[j])
  {
    var init := xs[..|xs| - 1];
    var rest := Dedupe(init);
    DedupeSnoc(xs);
    var d := Dedupe(xs);
    assert d[i] == rest[i] && rest[i] in init;
    FirstIndexOfPrefix(xs, |xs| - 1, rest[i]);
    var fi := FirstIndex(init, rest[i]);
    assert FirstIndex(xs, d[i]) == fi;
    if j < |rest| {
      assert d[j] == rest[j] && rest[j] in init;
      FirstIndexOfPrefix(xs, |xs| - 1, rest[j]);
      DedupeOrderPair(init, i, j);
      assert FirstIndex(xs, d[j]) == FirstIndex(init, rest[j]);
    } else {
      assert d[j] == xs[|xs| - 1];
      FirstIndexOfNew(xs);
      assert FirstIndex(xs, d[j]) == |init| && fi < |init|;
    }
  }

  /** An element that first shows up last has its first index at the end. */
  lemma FirstIndexOfNew<T>(xs: seq<T>)
    requires xs != [] && xs[|xs| - 1] !in xs[..|xs| - 1]
    ensures FirstIndex(xs, xs[|xs| - 1]) == |xs| - 1
  {
  }

  /** Counting over the distinct elements accounts for every element exactly once. */
  function SumCounts<T(==)>(keys: seq<T>, xs: seq<T>): nat {
    if keys == [] then 0 else Count(xs, keys[0]) + SumCounts(keys[1..], xs)
  }

  lemma {:induction false} SumCountsSnoc<T>(keys: seq<T>, xs: seq<T>, x: T)
    requires NoDuplicates(keys)
    ensures SumCounts(keys, xs + [x]) == SumCounts(keys, xs) + (if x in keys then 1 else 0)
  {
    if keys != [] {
      assert (xs + [x])[..|xs + [x]| - 1] == xs;
      SumCountsSnoc(keys[1..], xs, x);
    }
  }

  lemma {:induction false} SumCountsAppendKey<T>(keys: seq<T>, k: T, xs: seq<T>)
    ensures SumCounts(keys + [k], xs) == SumCounts(keys, xs) + Count(xs, k)
  {
    if keys == [] {
      assert ([] + [k])[1..] == [];
    } else {
      assert (keys + [k])[1..] == keys[1..] + [k];
      SumCountsAppendKey(keys[1..], k, xs);
    }
  }

  lemma {:induction false} SumCountsAbsent<T>(keys: seq<T>, xs: seq<T>)
    requires forall i | 0 <= i < |keys| :: keys[i] !in xs
    ensures SumCounts(keys, xs) == 0
  {
    if keys != [] {
      SumCountsAbsent(keys[1..], xs);
    }
  }

  /** The per-key counts over the distinct keys add up to the number of elements. */
  lemma {:induction false} CountsSumToLength<T>(xs: seq<T>)
    ensures SumCounts(Dedupe(xs), xs) == |xs|
  {
    if xs != [] {
      var init := xs[..|xs| - 1];
      var x := xs[|xs| - 1];
      var rest := Dedupe(init);
      assert xs == init + [x];
      CountsSumToLength(init);
      SumCountsSnoc(rest, init, x);
      if x !in rest {
        SumCountsAppendKey(rest, x, xs);
        assert Count(xs, x) == 1 + Count(init, x);
        assert Count(init, x) == 0;
      }
    }
  }

  // ---------------------------------------------------------------- stable sort by a numeric key

  ghost predicate SortedBy<T>(xs: seq<T>, key: T -> int) {
    forall i, j | 0 <= i < j < |xs| :: key(xs[i]) <= key(xs[j])
  }

  /** Puts x before the first element whose key is not below x's key. */
  function Insert<T>(x: T, s: seq<T>, key: T -> int): (r: seq<T>)
    ensures multiset(r) == multiset(s) + multiset{x}
    ensures |r| == |s| + 1
  {
    if s == [] || key(x) <= key(s[0]) then [x] + s
    else
      assert s == [s[0]] + s[1..];
      [s[0]] + Insert(x, s[1..], key)
  }

  lemma {:induction false} InsertSorted<T>(x: T, s: seq<T>, key: T -> int)
    requires SortedBy(s, key)
    ensures SortedBy(Insert(x, s, key), key)
  {
    if s != [] && key(x) > key(s[0]) {
      InsertSorted(x, s[1..], key);
      var tail := Insert(x, s[1..], key);
      forall i | 0 <= i < |tail|
        ensures key(s[0]) <= key(tail[i])
      {
        assert tail[i] in multiset(tail);
        if tail[i] != x {
          assert tail[i] in multiset(s[1..]);
          var j :| 0 <= j < |s[1..]| && s[1..][j] == tail[i];
          assert s[j + 1] == tail[i];
        }
      }
    }
  }

  /** `xs.slice().sort((a, b) => key(a) - key(b))`: ascending by key; the sort is stable. */
  function SortBy<T>(xs: seq<T>, key: T -> int): (r: seq<T>)
    ensures SortedBy(r, key)
    ensures multiset(r) == multiset(xs)
    ensures |r| == |xs|
  {
    if xs == [] then []
    else
      assert xs == [xs[0]] + xs[1..];
      var rest := SortBy(xs[1..], key);
      InsertSorted(xs[0], rest, key);
      Insert(xs[0], rest, key)
  }

  /** The elements whose key is k, in order. */
  function WithKey<T>(xs: seq<T>, key: T -> int, k: int): seq<T> {
    if xs == [] then []
    else (if key(xs[0]) == k then [xs[0]] else []) + WithKey(xs[1..], key, k)
  }

  lemma SortedTail<T>(s: seq<T>, key: T -> int)
    requires s != [] && SortedBy(s, key)
    ensures SortedBy(s[1..], key)
    ensures forall i | 0 <= i < |s[1..]| :: key(s[0]) <= key(s[1..][i])
  {
  }

  lemma {:induction false} InsertStable<T>(x: T, s: seq<T>, key: T -> int, k: int)
    requires SortedBy(s, key)
    ensures WithKey(Insert(x, s, key), key, k) == (if key(x) == k then [x] else []) + WithKey(s, key, k)
    decreases |s|, 1
  {
    if s == [] || key(x) <= key(s[0]) {
      assert ([x] + s)[1..] == s;
    } else {
      SortedTail(s, key);
      assert s == [s[0]] + s[1..];
      InsertStableStep(x, s[0], s[1..], key, k);
    }
  }

  lemma {:induction false} InsertStableStep<T>(x: T, head: T, tail: seq<T>, key: T -> int, k: int)
    requires SortedBy(tail, key) && key(head) < key(x)
    ensures WithKey([head] + Insert(x, tail, key), key, k)
         == (if key(x) == k then [x] else []) + WithKey([head] + tail, key, k)
    decreases |tail| + 1, 0
  {
    var r := Insert(x, tail, key);
    assert ([head] + r)[1..] == r;
    assert ([head] + tail)[1..] == tail;
    InsertStable(x, tail, key, k);
  }

  /** Stability: the elements sharing any one key keep their input order. */
  lemma {:induction false} SortStable<T>(xs: seq<T>, key: T -> int, k: int)
    ensures WithKey(SortBy(xs, key), key, k) == WithKey(xs, key, k)
  {
    if xs != [] {
      SortStable(xs[1..], key, k);
      InsertStable(xs[0], SortBy(xs[1..], key), key, k);
    }
  }

  ghost predicate StrictlyDecreasing(a: seq<int>) {
    forall i, j | 0 <= i < j < |a| :: a[i] > a[j]
  }

  ghost predicate Within(a: seq<int>, b: seq<int>) {
    forall i | 0 <= i < |a| :: a[i] in b
  }

  lemma HeadsAgree(a: seq<int>, b: seq<int>)
    requires a != [] && b != []
    requires StrictlyDecreasing(a) && StrictlyDecreasing(b)
    requires Within(a, b) && Within(b, a)
    ensures a[0] == b[0]
  {
    assert a[0] in b && b[0] in a;
  }

  lemma TailWithin(a: seq<int>, b: seq<int>)
    requires a != [] && b != [] && a[0] == b[0]
    requires StrictlyDecreasing(a) && StrictlyDecreasing(b)
    requires Within(a, b)
    ensures Within(a[1..], b[1..])
  {
    forall i | 0 <= i < |a| - 1
      ensures a[1..][i] in b[1..]
    {
      assert a[i + 1] in b;
      var j :| 0 <= j < |b| && b[j] == a[i + 1];
      assert j != 0;
      assert b[1..][j - 1] == a[i + 1];
    }
  }

  /** Two strictly decreasing sequences with the same elements are the same sequence. */
  lemma {:induction false} StrictlyDecreasingUnique(a: seq<int>, b: seq<int>)
    requires StrictlyDecreasing(a) && StrictlyDecreasing(b)
    requires Within(a, b) && Within(b, a)
    ensures a == b
  {
    if |a| > 0 {
      assert a[0] in b;
    }
    if |b| > 0 {
      assert b[0] in a;
    }
    if a != [] && b != [] {
      HeadsAgree(a, b);
      TailWithin(a, b);
      TailWithin(b, a);
      StrictlyDecreasingUnique(a[1..], b[1..]);
      assert |a| == |b|;
      forall i | 0 <= i < |a|
        ensures a[i] == b[i]
      {
        if i > 0 {
          assert a[i] == a[1..][i - 1] && b[i] == b[1..][i - 1];
        }
      }
    }
  }
}
