/**
 * Filtering and stable sorting of sequences, as `Array.prototype.filter` and
 * `Array.prototype.sort` (stable since ECMAScript 2019) are used by the pages.
 * A comparator is given as a key and a "less than or equal" relation on keys.
 */
module Sorting {

  /** `s.filter(p)`: the elements satisfying `p`, in their original order. */
  function Filter<T>(s: seq<T>, p: T -> bool): (r: seq<T>)
    ensures |r| <= |s|
    ensures forall i :: 0 <= i < |r| ==> p(r[i]) && r[i] in s
    ensures forall x :: x in s && p(x) ==> x in r
  {
    if s == [] then [] else if p(s[0]) then [s[0]] + Filter(s[1..], p) else Filter(s[1..], p)
  }

  /** Filtering by a predicate and by its negation splits the elements without loss or duplication. */
  lemma {:induction false} FilterPartition<T>(s: seq<T>, p: T -> bool, q: T -> bool)
    requires forall x :: q(x) == !p(x)
    ensures multiset(Filter(s, p)) + multiset(Filter(s, q)) == multiset(s)
  {
    if s != [] {
      var x, t := s[0], s[1..];
      FilterPartition(t, p, q);
      assert s == [x] + t;
      assert multiset(s) == multiset{x} + multiset(t);
      if p(x) {
        assert Filter(s, p) == [x] + Filter(t, p) && Filter(s, q) == Filter(t, q);
      } else {
        assert Filter(s, p) == Filter(t, p) && Filter(s, q) == [x] + Filter(t, q);
      }
    }
  }

  lemma {:induction false} FilterAppend<T>(a: seq<T>, b: seq<T>, p: T -> bool)
    ensures Filter(a + b, p) == Filter(a, p) + Filter(b, p)
  {
    if a != [] {
      assert (a + b)[0] == a[0] && (a + b)[1..] == a[1..] + b;
      FilterAppend(a[1..], b, p);
    } else {
      assert a + b == b;
    }
  }

  /**
   * When `p` implies `q`, filtering by `p` keeps a subsequence of what filtering by `q` keeps:
   * it is that list filtered once more, so in particular it is no longer.
   */
  lemma {:induction false} FilterMonotone<T>(s: seq<T>, p: T -> bool, q: T -> bool)
    requires forall x :: p(x) ==> q(x)
    ensures Filter(s, p) == Filter(Filter(s, q), p)
    ensures |Filter(s, p)| <= |Filter(s, q)|
  {
    if s != [] {
      FilterMonotone(s[1..], p, q);
      if q(s[0]) {
        assert ([s[0]] + Filter(s[1..], q))[1..] == Filter(s[1..], q);
      }
    }
  }

  /** `xs.flatMap(f)`: the results of `f` on the elements, concatenated in order. */
  function FlatMap<A, B>(xs: seq<A>, f: A --> seq<B>): seq<B>
    requires forall i :: 0 <= i < |xs| ==> f.requires(xs[i])
  {
    if xs == [] then [] else f(xs[0]) + FlatMap(xs[1..], f)
  }

  lemma {:induction false} FlatMapAppend<A, B>(a: seq<A>, b: seq<A>, f: A --> seq<B>)
    requires forall i :: 0 <= i < |a| ==> f.requires(a[i])
    requires forall i :: 0 <= i < |b| ==> f.requires(b[i])
    ensures forall i :: 0 <= i < |a + b| ==> f.requires((a + b)[i])
    ensures FlatMap(a + b, f) == FlatMap(a, f) + FlatMap(b, f)
  {
    if a == [] {
      assert a + b == b;
    } else {
      assert (a + b)[0] == a[0] && (a + b)[1..] == a[1..] + b;
      FlatMapAppend(a[1..], b, f);
    }
  }

  /** Every element of a flat map is element `j` of the result for some input element `xs[k]`. */
  lemma {:induction false} FlatMapOrigin<A, B>(xs: seq<A>, f: A --> seq<B>, n: nat) returns (k: nat, j: nat)
    requires forall i :: 0 <= i < |xs| ==> f.requires(xs[i])
    requires n < |FlatMap(xs, f)|
    ensures k < |xs| && j < |f(xs[k])| && FlatMap(xs, f)[n] == f(xs[k])[j]
  {
    var head := f(xs[0]);
    var rest := FlatMap(xs[1..], f);
    if n < |head| {
      k, j := 0, n;
    } else {
      assert FlatMap(xs, f)[n] == rest[n - |head|];
      var k', j' := FlatMapOrigin(xs[1..], f, n - |head|);
      k, j := k' + 1, j';
    }
  }

  /** `r` is ordered by `le` on the keys of its elements. */
  ghost predicate SortedBy<T, K>(r: seq<T>, key: T -> K, le: (K, K) -> bool) {
    forall i, j :: 0 <= i < j < |r| ==> le(key(r[i]), key(r[j]))
  }

  ghost predicate Reflexive<K(!new)>(le: (K, K) -> bool) {
    forall a :: le(a, a)
  }

  /** A total preorder: what a consistent sort comparator induces on keys. */
  ghost predicate TotalPreorder<K(!new)>(le: (K, K) -> bool) {
    && (forall a, b :: le(a, b) || le(b, a))
    && (forall a, b, c :: le(a, b) && le(b, c) ==> le(a, c))
  }

  /** The elements of `s` whose key is `k`, in order: what stability must preserve. */
  function WithKey<T, K(==)>(s: seq<T>, key: T -> K, k: K): (r: seq<T>)
    ensures |r| <= |s|
    ensures forall i :: 0 <= i < |r| ==> key(r[i]) == k
  {
    if s == [] then [] else if key(s[0]) == k then [s[0]] + WithKey(s[1..], key, k) else WithKey(s[1..], key, k)
  }

  /** Inserts `x` in front of the first element whose key it does not exceed. */
  function Insert<T, K>(x: T, r: seq<T>, key: T -> K, le: (K, K) -> bool): (o: seq<T>)
    ensures |o| == |r| + 1
    ensures multiset(o) == multiset(r) + multiset{x}
  {
    if r == [] then [x]
    else if le(key(x), key(r[0])) then [x] + r
    else
      assert r == [r[0]] + r[1..];
      [r[0]] + Insert(x, r[1..], key, le)
  }

  /** A stable sort by `le` on keys (insertion sort). */
  function SortBy<T, K>(s: seq<T>, key: T -> K, le: (K, K) -> bool): (o: seq<T>)
    ensures |o| == |s|
    ensures multiset(o) == multiset(s)
  {
    if s == [] then []
    else
      assert s == [s[0]] + s[1..];
      Insert(s[0], SortBy(s[1..], key, le), key, le)
  }

  lemma {:induction false} InsertSorted<T, K(!new)>(x: T, r: seq<T>, key: T -> K, le: (K, K) -> bool)
    requires TotalPreorder(le) && SortedBy(r, key, le)
    ensures SortedBy(Insert(x, r, key, le), key, le)
  {
    if r != [] && !le(key(x), key(r[0])) {
      var t := Insert(x, r[1..], key, le);
      InsertSorted(x, r[1..], key, le);
      assert le(key(r[0]), key(x));
      forall j | 0 <= j < |t|
        ensures le(key(r[0]), key(t[j]))
      {
        assert t[j] in multiset(r[1..]) + multiset{x};
        if t[j] != x {
          assert t[j] in r[1..];
        }
      }
    }
  }

  /** Sorting by a total preorder yields an ordered permutation. */
  lemma {:induction false} SortBySorted<T, K(!new)>(s: seq<T>, key: T -> K, le: (K, K) -> bool)
    requires TotalPreorder(le)
    ensures SortedBy(SortBy(s, key, le), key, le)
  {
    if s != [] {
      SortBySorted(s[1..], key, le);
      InsertSorted(s[0], SortBy(s[1..], key, le), key, le);
    }
  }

  lemma {:induction false} InsertStable<T, K(!new)>(x: T, r: seq<T>, key: T -> K, le: (K, K) -> bool, k: K)
    requires Reflexive(le)
    ensures WithKey(Insert(x, r, key, le), key, k) == WithKey([x] + r, key, k)
  {
    if r != [] && !le(key(x), key(r[0])) {
      assert key(x) != key(r[0]);
      InsertStable(x, r[1..], key, le, k);
      assert ([x] + r)[1..] == r;
      assert ([x] + r[1..])[1..] == r[1..];
    } else if r == [] {
    } else {
      assert ([x] + r)[1..] == r;
    }
  }

  /**
   * Stability: for every key, the elements carrying it appear in the sorted output
   * in the same relative order as in the input.
   */
  lemma {:induction false} SortByStable<T, K(!new)>(s: seq<T>, key: T -> K, le: (K, K) -> bool, k: K)
    requires Reflexive(le)
    ensures WithKey(SortBy(s, key, le), key, k) == WithKey(s, key, k)
  {
    if s != [] {
      SortByStable(s[1..], key, le, k);
      InsertStable(s[0], SortBy(s[1..], key, le), key, le, k);
      assert ([s[0]] + SortBy(s[1..], key, le))[1..] == SortBy(s[1..], key, le);
    }
  }

  /** Whatever every element of `b` satisfies, every element of a permutation of `b` satisfies. */
  lemma {:induction false} PermutationKeeps<T>(a: seq<T>, b: seq<T>, p: T -> bool)
    requires multiset(a) == multiset(b)
    requires forall i :: 0 <= i < |b| ==> p(b[i])
    ensures forall i :: 0 <= i < |a| ==> p(a[i])
  {
    forall i | 0 <= i < |a|
      ensures p(a[i])
    {
      assert a[i] in multiset(b);
    }
  }

  lemma {:induction false} FirstWithKey<T, K>(s: seq<T>, key: T -> K, k: K, i0: nat) returns (i: nat)
    requires i0 < |s| && key(s[i0]) == k
    ensures i <= i0 && key(s[i]) == k && (forall j :: 0 <= j < i ==> key(s[j]) != k)
    ensures WithKey(s, key, k) != [] && WithKey(s, key, k)[0] == s[i]
  {
    if key(s[0]) == k {
      i := 0;
    } else {
      var i' := FirstWithKey(s[1..], key, k, i0 - 1);
      i := i' + 1;
    }
  }

  /**
   * The head of a stable sort by a total preorder: an element `s[i]` whose key is below
   * every key, and the first element of `s` carrying that key.
   */
  lemma {:induction false} SortByHead<T, K(!new)>(s: seq<T>, key: T -> K, le: (K, K) -> bool) returns (i: nat)
    requires s != [] && TotalPreorder(le)
    ensures i < |s| && SortBy(s, key, le)[0] == s[i]
    ensures forall j :: 0 <= j < |s| ==> le(key(s[i]), key(s[j]))
    ensures forall j :: 0 <= j < i ==> key(s[j]) != key(s[i])
  {
    var sorted := SortBy(s, key, le);
    var h := sorted[0];
    assert h in multiset(s);
    var i0 :| 0 <= i0 < |s| && s[i0] == h;
    SortBySorted(s, key, le);
    forall j | 0 <= j < |s|
      ensures le(key(h), key(s[j]))
    {
      assert s[j] in multiset(sorted);
      var t :| 0 <= t < |sorted| && sorted[t] == s[j];
      if t == 0 {
        assert le(key(h), key(h)) || le(key(h), key(h));
      }
    }
    SortByStable(s, key, le, key(h));
    i := FirstWithKey(s, key, key(h), i0);
    assert WithKey(sorted, key, key(h))[0] == h;
  }

  // ---------------------------------------------------------------------------
  // Distinct elements
  // ---------------------------------------------------------------------------

  predicate Distinct<T(==)>(s: seq<T>) {
    forall i, j :: 0 <= i < j < |s| ==> s[i] != s[j]
  }

  lemma {:induction false} DistinctMultiplicity<T>(s: seq<T>, x: T)
    requires Distinct(s)
    ensures multiset(s)[x] <= 1
  {
    if s != [] {
      var n := |s| - 1;
      assert s == s[..n] + [s[n]];
      DistinctMultiplicity(s[..n], x);
      if x == s[n] {
        assert x !in s[..n];
      }
    }
  }

  lemma {:induction false} RepeatMultiplicity<T>(s: seq<T>, i: nat, j: nat)
    requires i < j < |s| && s[i] == s[j]
    ensures multiset(s)[s[i]] >= 2
  {
    assert s == s[..j] + [s[j]] + s[j + 1..];
    assert s[i] in s[..j];
  }

  /** A permutation of a list without repeats has no repeats. */
  lemma {:induction false} PermutationDistinct<T>(a: seq<T>, b: seq<T>)
    requires multiset(a) == multiset(b) && Distinct(b)
    ensures Distinct(a)
  {
    forall i, j | 0 <= i < j < |a|
      ensures a[i] != a[j]
    {
      if a[i] == a[j] {
        RepeatMultiplicity(a, i, j);
        DistinctMultiplicity(b, a[i]);
      }
    }
  }
}
