/**
 * Lookup tables built by walking a list in order and calling `map.set(key, value)`
 * for the entries a guard keeps: a later entry with an equal key replaces the earlier one.
 */
module Keyed {

  /** The table after `map.set(key(x), val(x))` for every kept `x` of `xs`, left to right. */
  function IndexBy<T, K(==), V>(xs: seq<T>, keep: T -> bool, key: T -> K, val: T --> V): (m: map<K, V>)
    requires forall i :: 0 <= i < |xs| && keep(xs[i]) ==> val.requires(xs[i])
    ensures |m| <= |xs|
  {
    if xs == [] then map[]
    else
      var m := IndexBy(xs[..|xs| - 1], keep, key, val);
      var x := xs[|xs| - 1];
      if keep(x) then m[key(x) := val(x)] else m
  }

  /** The table's keys are exactly the keys of the kept entries. */
  lemma {:induction false} IndexByKeys<T, K, V>(xs: seq<T>, keep: T -> bool, key: T -> K, val: T --> V, k: K)
    requires forall i :: 0 <= i < |xs| && keep(xs[i]) ==> val.requires(xs[i])
    ensures k in IndexBy(xs, keep, key, val) <==> exists i :: 0 <= i < |xs| && keep(xs[i]) && key(xs[i]) == k
  {
    if xs != [] {
      var n := |xs| - 1;
      var pre := xs[..n];
      IndexByKeys(pre, keep, key, val, k);
      if exists i :: 0 <= i < |pre| && keep(pre[i]) && key(pre[i]) == k {
        var i :| 0 <= i < |pre| && keep(pre[i]) && key(pre[i]) == k;
        assert xs[i] == pre[i];
      }
      if exists i :: 0 <= i < |xs| && keep(xs[i]) && key(xs[i]) == k {
        var i :| 0 <= i < |xs| && keep(xs[i]) && key(xs[i]) == k;
        if i < n {
          assert pre[i] == xs[i];
        }
      }
    }
  }

  /** Last one wins: a key is bound to the value of the last kept entry carrying it. */
  lemma {:induction false} IndexByLastWins<T, K, V>(xs: seq<T>, keep: T -> bool, key: T -> K, val: T --> V, i: nat)
    requires forall i :: 0 <= i < |xs| && keep(xs[i]) ==> val.requires(xs[i])
    requires i < |xs| && keep(xs[i])
    requires forall j :: i < j < |xs| && keep(xs[j]) ==> key(xs[j]) != key(xs[i])
    ensures key(xs[i]) in IndexBy(xs, keep, key, val)
    ensures IndexBy(xs, keep, key, val)[key(xs[i])] == val(xs[i])
  {
    var n := |xs| - 1;
    if i < n {
      var pre := xs[..n];
      assert pre[i] == xs[i];
      forall j | i < j < |pre| && keep(pre[j])
        ensures key(pre[j]) != key(pre[i])
      {
        assert pre[j] == xs[j];
      }
      IndexByLastWins(pre, keep, key, val, i);
    }
  }

  /** One more `map.set` step: the table of `xs + [x]` is the table of `xs` updated by `x`. */
  lemma {:induction false} IndexBySnoc<T, K, V>(xs: seq<T>, x: T, keep: T -> bool, key: T -> K, val: T --> V)
    requires forall i :: 0 <= i < |xs| && keep(xs[i]) ==> val.requires(xs[i])
    requires keep(x) ==> val.requires(x)
    ensures forall i :: 0 <= i < |xs + [x]| && keep((xs + [x])[i]) ==> val.requires((xs + [x])[i])
    ensures IndexBy(xs + [x], keep, key, val) ==
      if keep(x) then IndexBy(xs, keep, key, val)[key(x) := val(x)] else IndexBy(xs, keep, key, val)
  {
    assert (xs + [x])[..|xs|] == xs;
  }

  // ---------------------------------------------------------------------------
  // De-duplication by key: push an entry unless one with an equal key is present
  // ---------------------------------------------------------------------------

  /** `list.some((item) => key(item) === k)`. */
  predicate HasKey<T, K(==)>(l: seq<T>, key: T -> K, k: K) {
    exists j :: 0 <= j < |l| && key(l[j]) == k
  }

  /** Pushes `x` unless an entry with its key is already present. */
  function Register<T, K(==)>(l: seq<T>, x: T, key: T -> K): (r: seq<T>)
    ensures HasKey(r, key, key(x))
  {
    if HasKey(l, key, key(x)) then l
    else
      assert (l + [x])[|l|] == x;
      l + [x]
  }

  /** The list left by registering the elements of `s` in order into an empty list. */
  function Dedup<T, K(==)>(s: seq<T>, key: T -> K): seq<T> {
    if s == [] then [] else Register(Dedup(s[..|s| - 1], key), s[|s| - 1], key)
  }

  /** The index of the first element of `s` carrying key `k`. */
  function FirstIndex<T, K(==)>(s: seq<T>, key: T -> K, k: K): (i: nat)
    requires HasKey(s, key, k)
    ensures i < |s| && key(s[i]) == k
    ensures forall i' :: 0 <= i' < i ==> key(s[i']) != k
  {
    if key(s[0]) == k then 0
    else
      assert HasKey(s[1..], key, k) by {
        var j :| 0 <= j < |s| && key(s[j]) == k;
        assert s[1..][j - 1] == s[j];
      }
      1 + FirstIndex(s[1..], key, k)
  }

  lemma {:induction false} FirstIndexSnoc<T, K>(s: seq<T>, x: T, key: T -> K, k: K)
    requires HasKey(s, key, k)
    ensures HasKey(s + [x], key, k) && FirstIndex(s + [x], key, k) == FirstIndex(s, key, k)
  {
    var i := FirstIndex(s, key, k);
    assert (s + [x])[i] == s[i];
    forall i' | 0 <= i' < i
      ensures key((s + [x])[i']) != k
    {
      assert (s + [x])[i'] == s[i'];
    }
  }

  lemma {:induction false} HasKeySnoc<T, K>(s: seq<T>, x: T, key: T -> K, k: K)
    ensures HasKey(s + [x], key, k) <==> HasKey(s, key, k) || key(x) == k
  {
    if HasKey(s + [x], key, k) {
      var j :| 0 <= j < |s| + 1 && key((s + [x])[j]) == k;
      if j < |s| {
        assert s[j] == (s + [x])[j];
      }
    }
    if HasKey(s, key, k) {
      var j :| 0 <= j < |s| && key(s[j]) == k;
      assert (s + [x])[j] == s[j];
    }
    assert (s + [x])[|s|] == x;
  }

  /** The de-duplicated list carries exactly the keys of `s`. */
  lemma {:induction false} DedupKeys<T, K>(s: seq<T>, key: T -> K, k: K)
    ensures HasKey(Dedup(s, key), key, k) <==> HasKey(s, key, k)
  {
    if s != [] {
      var n := |s| - 1;
      var p, x := s[..n], s[n];
      assert s == p + [x];
      DedupKeys(p, key, k);
      HasKeySnoc(p, x, key, k);
      var r' := Dedup(p, key);
      if !HasKey(r', key, key(x)) {
        HasKeySnoc(r', x, key, k);
      } else if key(x) == k {
        DedupKeys(p, key, key(x));
      }
    }
  }

  /** No key appears twice in the de-duplicated list. */
  lemma {:induction false} DedupDistinct<T, K>(s: seq<T>, key: T -> K)
    ensures forall j1, j2 :: 0 <= j1 < j2 < |Dedup(s, key)| ==> key(Dedup(s, key)[j1]) != key(Dedup(s, key)[j2])
  {
    if s != [] {
      var n := |s| - 1;
      var p, x := s[..n], s[n];
      var r' := Dedup(p, key);
      DedupDistinct(p, key);
      if !HasKey(r', key, key(x)) {
        var r := r' + [x];
        forall j1, j2 | 0 <= j1 < j2 < |r|
          ensures key(r[j1]) != key(r[j2])
        {
          if j2 == |r'| {
            assert r[j1] == r'[j1];
          } else {
            assert r[j1] == r'[j1] && r[j2] == r'[j2];
          }
        }
      }
    }
  }

  /**
   * Each entry is the first element of `s` carrying its key, and the entries come in the
   * order of those first occurrences.
   */
  lemma {:induction false} DedupFirstOccurrences<T, K>(s: seq<T>, key: T -> K)
    ensures forall j :: 0 <= j < |Dedup(s, key)| ==>
      HasKey(s, key, key(Dedup(s, key)[j])) && Dedup(s, key)[j] == s[FirstIndex(s, key, key(Dedup(s, key)[j]))]
    ensures forall j1, j2 :: 0 <= j1 < j2 < |Dedup(s, key)| ==>
      HasKey(s, key, key(Dedup(s, key)[j1])) && HasKey(s, key, key(Dedup(s, key)[j2])) &&
      FirstIndex(s, key, key(Dedup(s, key)[j1])) < FirstIndex(s, key, key(Dedup(s, key)[j2]))
  {
    if s != [] {
      var n := |s| - 1;
      var p, x := s[..n], s[n];
      assert s == p + [x];
      var r' := Dedup(p, key);
      DedupFirstOccurrences(p, key);
      forall j | 0 <= j < |r'|
        ensures HasKey(p, key, key(r'[j])) && HasKey(s, key, key(r'[j]))
        ensures FirstIndex(s, key, key(r'[j])) == FirstIndex(p, key, key(r'[j]))
        ensures s[FirstIndex(s, key, key(r'[j]))] == r'[j]
      {
        FirstIndexSnoc(p, x, key, key(r'[j]));
        assert s[FirstIndex(p, key, key(r'[j]))] == p[FirstIndex(p, key, key(r'[j]))];
      }
      if !HasKey(r', key, key(x)) {
        var r := r' + [x];
        DedupKeys(p, key, key(x));
        HasKeySnoc(p, x, key, key(x));
        assert FirstIndex(s, key, key(x)) == n by {
          forall i | 0 <= i < n
            ensures key(s[i]) != key(x)
          {
            assert s[i] == p[i];
          }
        }
        forall j | 0 <= j < |r|
          ensures HasKey(s, key, key(r[j])) && r[j] == s[FirstIndex(s, key, key(r[j]))]
        {
          if j < |r'| {
            assert r[j] == r'[j];
          }
        }
        forall j1, j2 | 0 <= j1 < j2 < |r|
          ensures HasKey(s, key, key(r[j1])) && HasKey(s, key, key(r[j2]))
          ensures FirstIndex(s, key, key(r[j1])) < FirstIndex(s, key, key(r[j2]))
        {
          assert r[j1] == r'[j1];
          if j2 < |r'| {
            assert r[j2] == r'[j2];
          }
        }
      }
    }
  }
}
