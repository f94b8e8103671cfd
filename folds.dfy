/**
 * Reference definitions for the keyed folds the dashboard performs over a
 * batch of records: how many records carry a key, what a per-record value
 * sums to over the records of one key, and the keys in the order a
 * JavaScript `Map` would first see them.
 *
 * Every fold here recurses on the LAST element, so that a loop that has
 * consumed `xs[..i]` can be related to the fold of that prefix directly.
 */
module Folds {

  /** No element of `s` occurs twice. */
  predicate Distinct<K(==)>(s: seq<K>) {
    forall i, j :: 0 <= i < j < |s| ==> s[i] != s[j]
  }

  /** No two elements of `s` share a key under `f`. */
  predicate DistinctBy<T, K(==)>(s: seq<T>, f: T -> K) {
    forall i, j :: 0 <= i < j < |s| ==> f(s[i]) != f(s[j])
  }

  /** The keys that occur in `xs`. */
  function KeySet<T, K(==)>(xs: seq<T>, f: T -> K): set<K> {
    set i | 0 <= i < |xs| :: f(xs[i])
  }

  /** Number of elements of `xs` whose key is `k`. */
  function Count<T, K(==)>(xs: seq<T>, f: T -> K, k: K): nat {
    if xs == [] then 0
    else Count(xs[..|xs| - 1], f, k) + (if f(xs[|xs| - 1]) == k then 1 else 0)
  }

  /** Sum of `g` over the elements of `xs` whose key is `k`. */
  function SumWhere<T, K(==)>(xs: seq<T>, f: T -> K, k: K, g: T -> int): int {
    if xs == [] then 0
    else SumWhere(xs[..|xs| - 1], f, k, g) + (if f(xs[|xs| - 1]) == k then g(xs[|xs| - 1]) else 0)
  }

  /** Sum of `g` over all of `s`. */
  function SumBy<T>(s: seq<T>, g: T -> int): int {
    if s == [] then 0 else g(s[0]) + SumBy(s[1..], g)
  }

  /** Appends `k` unless it is already present: a `Map.set` on a new key. */
  function AddNew<K(==)>(ks: seq<K>, k: K): seq<K> {
    if k in ks then ks else ks + [k]
  }

  lemma AddNewFacts<K>(ks: seq<K>, k: K)
    ensures Distinct(ks) ==> Distinct(AddNew(ks, k))
    ensures forall x :: x in AddNew(ks, k) <==> x in ks || x == k
  {
  }

  /** `Array.from(map.values())`: the values of `m` in the insertion order `ks`. */
  function InsertionValues<K, V>(m: map<K, V>, ks: seq<K>): (vs: seq<V>)
    requires forall i :: 0 <= i < |ks| ==> ks[i] in m
    ensures |vs| == |ks|
    ensures forall i :: 0 <= i < |ks| ==> vs[i] == m[ks[i]]
  {
    seq(|ks|, i requires 0 <= i < |ks| => m[ks[i]])
  }

  /** The distinct keys of `xs`, in the order of their first occurrence. */
  function FirstSeen<T, K(==)>(xs: seq<T>, f: T -> K): (ks: seq<K>)
    ensures Distinct(ks)
    ensures forall i :: 0 <= i < |ks| ==> ks[i] in KeySet(xs, f)
    ensures forall i :: 0 <= i < |xs| ==> f(xs[i]) in ks
  {
    if xs == [] then []
    else
      KeySetSnoc(xs, f);
      AddNew(FirstSeen(xs[..|xs| - 1], f), f(xs[|xs| - 1]))
  }

  /** The first element of `xs` whose key is `k`. */
  function FirstWith<T, K(==)>(xs: seq<T>, f: T -> K, k: K): (x: T)
    requires k in KeySet(xs, f)
    ensures f(x) == k
    ensures exists i :: 0 <= i < |xs| && xs[i] == x && forall j :: 0 <= j < i ==> f(xs[j]) != k
  {
    KeySetSnoc(xs, f);
    var init := xs[..|xs| - 1];
    if k in KeySet(init, f) then
      var x := FirstWith(init, f, k);
      assert forall i :: 0 <= i < |init| ==> xs[i] == init[i];
      x
    else
      assert forall j :: 0 <= j < |init| ==> f(xs[j]) != k by {
        forall j | 0 <= j < |init| ensures f(xs[j]) != k {
          assert xs[j] == init[j];
        }
      }
      xs[|xs| - 1]
  }

  /**
   * `FirstSeen` lists the keys in the order of their first occurrence: when
   * key `i` comes before key `j`, some element with key `i` precedes every
   * element with key `j`.
   */
  lemma {:induction false} FirstSeenOrder<T, K>(xs: seq<T>, f: T -> K, i: nat, j: nat)
    requires i < j < |FirstSeen(xs, f)|
    ensures exists a :: 0 <= a < |xs| && f(xs[a]) == FirstSeen(xs, f)[i] &&
                        forall b :: 0 <= b < |xs| && f(xs[b]) == FirstSeen(xs, f)[j] ==> a < b
  {
    var ks := FirstSeen(xs, f);
    var init := xs[..|xs| - 1];
    var ks0 := FirstSeen(init, f);
    assert ks == AddNew(ks0, f(xs[|xs| - 1]));
    assert forall c :: 0 <= c < |init| ==> xs[c] == init[c];
    if j < |ks0| {
      assert ks[i] == ks0[i] && ks[j] == ks0[j];
      FirstSeenOrder(init, f, i, j);
      var a :| 0 <= a < |init| && f(init[a]) == ks0[i] &&
        forall b :: 0 <= b < |init| && f(init[b]) == ks0[j] ==> a < b;
      assert f(xs[a]) == ks[i];
    } else {
      assert ks == ks0 + [f(xs[|xs| - 1])] && j == |ks0|;
      assert ks[i] == ks0[i];
      var a :| 0 <= a < |init| && f(init[a]) == ks0[i];
      assert f(xs[a]) == ks[i];
      assert f(xs[|xs| - 1]) !in ks0;
      assert forall b :: 0 <= b < |xs| && f(xs[b]) == ks[j] ==> a < b;
    }
  }

  lemma KeySetSnoc<T, K>(xs: seq<T>, f: T -> K)
    requires xs != []
    ensures KeySet(xs, f) == KeySet(xs[..|xs| - 1], f) + {f(xs[|xs| - 1])}
  {
    var init := xs[..|xs| - 1];
    forall k | k in KeySet(xs, f) ensures k in KeySet(init, f) + {f(xs[|xs| - 1])} {
      var i :| 0 <= i < |xs| && f(xs[i]) == k;
      if i < |init| { assert init[i] == xs[i]; }
    }
    forall k | k in KeySet(init, f) ensures k in KeySet(xs, f) {
      var i :| 0 <= i < |init| && f(init[i]) == k;
      assert xs[i] == init[i];
    }
  }

  /** A key is counted at least once exactly when it occurs. */
  lemma {:induction false} CountPositive<T, K>(xs: seq<T>, f: T -> K, k: K)
    ensures Count(xs, f, k) > 0 <==> k in KeySet(xs, f)
  {
    if xs != [] {
      KeySetSnoc(xs, f);
      CountPositive(xs[..|xs| - 1], f, k);
    }
  }

  /** A key that does not occur is counted zero times and sums to zero. */
  lemma {:induction false} AbsentKey<T, K>(xs: seq<T>, f: T -> K, k: K, g: T -> int)
    requires forall i :: 0 <= i < |xs| ==> f(xs[i]) != k
    ensures Count(xs, f, k) == 0 && SumWhere(xs, f, k, g) == 0
  {
    if xs != [] {
      var init := xs[..|xs| - 1];
      assert forall i :: 0 <= i < |init| ==> init[i] == xs[i];
      AbsentKey(init, f, k, g);
    }
  }

  /** Sum over the keys `ks` of the number of elements carrying each key. */
  function SumCounts<T, K(==)>(ks: seq<K>, xs: seq<T>, f: T -> K): int {
    if ks == [] then 0 else Count(xs, f, ks[0]) + SumCounts(ks[1..], xs, f)
  }

  lemma {:induction false} SumCountsSnoc<T, K>(ks: seq<K>, xs: seq<T>, f: T -> K)
    requires Distinct(ks) && xs != []
    ensures SumCounts(ks, xs, f)
         == SumCounts(ks, xs[..|xs| - 1], f) + (if f(xs[|xs| - 1]) in ks then 1 else 0)
  {
    if ks != [] {
      assert Distinct(ks[1..]) by {
        forall i, j | 0 <= i < j < |ks[1..]| ensures ks[1..][i] != ks[1..][j] {
          assert ks[1..][i] == ks[i + 1] && ks[1..][j] == ks[j + 1];
        }
      }
      SumCountsSnoc(ks[1..], xs, f);
      assert f(xs[|xs| - 1]) == ks[0] ==> f(xs[|xs| - 1]) !in ks[1..];
      assert f(xs[|xs| - 1]) in ks <==> f(xs[|xs| - 1]) == ks[0] || f(xs[|xs| - 1]) in ks[1..];
    }
  }

  /** Counting over distinct keys that cover every element counts each element once. */
  lemma {:induction false} SumCountsPartition<T, K>(ks: seq<K>, xs: seq<T>, f: T -> K)
    requires Distinct(ks)
    requires forall i :: 0 <= i < |xs| ==> f(xs[i]) in ks
    ensures SumCounts(ks, xs, f) == |xs|
  {
    if xs == [] {
      SumCountsEmpty(ks, f);
    } else {
      var init := xs[..|xs| - 1];
      assert forall i :: 0 <= i < |init| ==> init[i] == xs[i];
      SumCountsPartition(ks, init, f);
      SumCountsSnoc(ks, xs, f);
    }
  }

  lemma {:induction false} SumCountsEmpty<T, K>(ks: seq<K>, f: T -> K)
    ensures SumCounts(ks, [], f) == 0
  {
    if ks != [] { SumCountsEmpty(ks[1..], f); }
  }

  /**
   * A sequence of per-key tallies, one per key of `ks` and in the same order,
   * whose `cnt` field is the number of elements with that key, sums to the
   * number of elements whenever `ks` are distinct and cover every element.
   */
  lemma {:induction false} TalliesSumToLength<T, K, R>(
    rs: seq<R>, cnt: R -> int, ks: seq<K>, xs: seq<T>, f: T -> K)
    requires |rs| == |ks| && Distinct(ks)
    requires forall i :: 0 <= i < |ks| ==> cnt(rs[i]) == Count(xs, f, ks[i])
    requires forall i :: 0 <= i < |xs| ==> f(xs[i]) in ks
    ensures SumBy(rs, cnt) == |xs|
  {
    TalliesSumCounts(rs, cnt, ks, xs, f);
    SumCountsPartition(ks, xs, f);
  }

  lemma {:induction false} TalliesSumCounts<T, K, R>(
    rs: seq<R>, cnt: R -> int, ks: seq<K>, xs: seq<T>, f: T -> K)
    requires |rs| == |ks|
    requires forall i :: 0 <= i < |ks| ==> cnt(rs[i]) == Count(xs, f, ks[i])
    ensures SumBy(rs, cnt) == SumCounts(ks, xs, f)
  {
    if rs != [] {
      assert forall i :: 0 <= i < |ks| - 1 ==> rs[1..][i] == rs[i + 1] && ks[1..][i] == ks[i + 1];
      TalliesSumCounts(rs[1..], cnt, ks[1..], xs, f);
    }
  }

  /** A sequence without repetitions has as many elements as its set. */
  lemma {:induction false} DistinctCardinality<K>(s: seq<K>)
    requires Distinct(s)
    ensures |set k | k in s| == |s|
  {
    if s != [] {
      var init := s[..|s| - 1];
      assert Distinct(init) by {
        forall i, j | 0 <= i < j < |init| ensures init[i] != init[j] {
          assert init[i] == s[i] && init[j] == s[j];
        }
      }
      DistinctCardinality(init);
      assert s == init + [s[|s| - 1]];
      assert s[|s| - 1] !in init;
      assert (set k | k in s) == (set k | k in init) + {s[|s| - 1]};
    }
  }

  /** Two keyings that pick out the same elements count the same number of them. */
  lemma {:induction false} CountSameClass<T, K, L>(xs: seq<T>, f: T -> K, k: K, g: T -> L, l: L)
    requires forall i :: 0 <= i < |xs| ==> (f(xs[i]) == k <==> g(xs[i]) == l)
    ensures Count(xs, f, k) == Count(xs, g, l)
  {
    if xs != [] {
      var init := xs[..|xs| - 1];
      assert forall i :: 0 <= i < |init| ==> init[i] == xs[i];
      CountSameClass(init, f, k, g, l);
    }
  }

  /** A non-empty sequence is its prefix followed by its last element. */
  lemma SplitLast<T>(xs: seq<T>)
    requires xs != []
    ensures xs[..|xs| - 1] + [xs[|xs| - 1]] == xs
  {
  }

  /** Appending a non-empty `ys` is appending its prefix, then its last element. */
  lemma AppendSplitLast<T>(xs: seq<T>, ys: seq<T>)
    requires ys != []
    ensures (xs + ys[..|ys| - 1]) + [ys[|ys| - 1]] == xs + ys
  {
    assert ys == ys[..|ys| - 1] + [ys[|ys| - 1]];
  }

  /** The element `FirstWith` returns is an element of `xs`. */
  lemma FirstWithIn<T, K>(xs: seq<T>, f: T -> K, k: K)
    requires k in KeySet(xs, f)
    ensures FirstWith(xs, f, k) in xs
  {
  }
}
