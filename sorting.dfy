/**
 * The stable sort every ranking in the dashboard relies on.
 *
 * The components sort with `Array.prototype.sort` and a numeric comparator
 * (`(a, b) => key(b) - key(a)`), which since ECMAScript 2019 is required to
 * be stable. `SortDesc` is an insertion sort with that behaviour: largest key
 * first, elements with equal keys in their original order. `TopN` is the
 * `sort(...).slice(0, n)` chain.
 */
module Sorting {
  import opened Folds

  function Min(a: int, b: int): int {
    if a <= b then a else b
  }

  /** `s` is ordered by `key`, largest first. */
  predicate SortedDesc<T>(s: seq<T>, key: T -> int) {
    forall i, j :: 0 <= i < j < |s| ==> key(s[i]) >= key(s[j])
  }

  /** Inserts `x` before the first element whose key is not larger than its own. */
  function Insert<T>(x: T, s: seq<T>, key: T -> int): seq<T> {
    if s == [] || key(x) >= key(s[0]) then [x] + s
    else [s[0]] + Insert(x, s[1..], key)
  }

  /** Stable sort by `key`, largest first. */
  function SortDesc<T>(s: seq<T>, key: T -> int): seq<T> {
    if s == [] then [] else Insert(s[0], SortDesc(s[1..], key), key)
  }

  /** The elements of `s` whose key is `k`, in their order in `s`. */
  function WithKey<T>(s: seq<T>, key: T -> int, k: int): seq<T> {
    if s == [] then []
    else (if key(s[0]) == k then [s[0]] else []) + WithKey(s[1..], key, k)
  }

  /** `s.slice(0, n)`. */
  function Take<T>(s: seq<T>, n: nat): (r: seq<T>)
    ensures |r| == Min(n, |s|)
    ensures r == s[..|r|]
  {
    if |s| <= n then s else s[..n]
  }

  /** `s.sort((a, b) => key(b) - key(a)).slice(0, n)` on a copy of `s`. */
  function TopN<T>(s: seq<T>, key: T -> int, n: nat): seq<T> {
    Take(SortDesc(s, key), n)
  }

  lemma {:induction false} InsertPermutes<T>(x: T, s: seq<T>, key: T -> int)
    ensures multiset(Insert(x, s, key)) == multiset{x} + multiset(s)
    ensures |Insert(x, s, key)| == |s| + 1
  {
    if s != [] && key(x) < key(s[0]) {
      InsertPermutes(x, s[1..], key);
      assert s == [s[0]] + s[1..];
    }
  }

  /** Sorting rearranges its input and neither adds nor drops an element. */
  lemma {:induction false} SortPermutes<T>(s: seq<T>, key: T -> int)
    ensures multiset(SortDesc(s, key)) == multiset(s)
    ensures |SortDesc(s, key)| == |s|
  {
    if s != [] {
      SortPermutes(s[1..], key);
      InsertPermutes(s[0], SortDesc(s[1..], key), key);
      assert s == [s[0]] + s[1..];
    }
  }

  /** Inserting adds `x` and nothing else. */
  lemma InsertMember<T>(x: T, s: seq<T>, key: T -> int, y: T)
    requires y in Insert(x, s, key)
    ensures y == x || y in s
  {
    InsertPermutes(x, s, key);
    assert y in multiset(Insert(x, s, key));
  }

  lemma {:induction false} InsertSorted<T>(x: T, s: seq<T>, key: T -> int)
    requires SortedDesc(s, key)
    ensures SortedDesc(Insert(x, s, key), key)
  {
    if s != [] && key(x) < key(s[0]) {
      var rest := Insert(x, s[1..], key);
      InsertSorted(x, s[1..], key);
      InsertPermutes(x, s[1..], key);
      forall j | 0 <= j < |rest| ensures key(s[0]) >= key(rest[j]) {
        InsertMember(x, s[1..], key, rest[j]);
        if rest[j] != x {
          var m :| 0 <= m < |s[1..]| && s[1..][m] == rest[j];
          assert s[m + 1] == rest[j];
        }
      }
      var r := Insert(x, s, key);
      assert r == [s[0]] + rest;
      forall i, j | 0 <= i < j < |r| ensures key(r[i]) >= key(r[j]) {
        assert r[j] == rest[j - 1];
        if i > 0 { assert r[i] == rest[i - 1]; }
      }
    }
  }

  /** The result of sorting is ordered, largest key first. */
  lemma {:induction false} SortSorts<T>(s: seq<T>, key: T -> int)
    ensures SortedDesc(SortDesc(s, key), key)
  {
    if s != [] {
      SortSorts(s[1..], key);
      InsertSorted(s[0], SortDesc(s[1..], key), key);
    }
  }

  lemma {:induction false} InsertWithKey<T>(x: T, s: seq<T>, key: T -> int, k: int)
    ensures WithKey(Insert(x, s, key), key, k) == (if key(x) == k then [x] else []) + WithKey(s, key, k)
  {
    if s == [] || key(x) >= key(s[0]) {
      assert ([x] + s)[1..] == s;
    } else {
      var rest := Insert(x, s[1..], key);
      assert ([s[0]] + rest)[1..] == rest;
      InsertWithKey(x, s[1..], key, k);
      if key(x) == k {
        assert key(s[0]) != k;
        assert WithKey(s, key, k) == WithKey(s[1..], key, k);
        assert WithKey([s[0]] + rest, key, k) == WithKey(rest, key, k);
      } else {
        assert WithKey(rest, key, k) == WithKey(s[1..], key, k);
      }
    }
  }

  /** Stability: the elements sharing any one key keep their original relative order. */
  lemma {:induction false} SortStable<T>(s: seq<T>, key: T -> int, k: int)
    ensures WithKey(SortDesc(s, key), key, k) == WithKey(s, key, k)
  {
    if s != [] {
      SortStable(s[1..], key, k);
      InsertWithKey(s[0], SortDesc(s[1..], key), key, k);
    }
  }

  lemma {:induction false} WithKeyAppend<T>(a: seq<T>, b: seq<T>, key: T -> int, k: int)
    ensures WithKey(a + b, key, k) == WithKey(a, key, k) + WithKey(b, key, k)
  {
    if a != [] {
      assert (a + b)[1..] == a[1..] + b;
      WithKeyAppend(a[1..], b, key, k);
    } else {
      assert a + b == b;
    }
  }

  lemma WithKeyPrefix<T>(s: seq<T>, n: nat, key: T -> int, k: int)
    requires n <= |s|
    ensures WithKey(s[..n], key, k) <= WithKey(s, key, k)
  {
    assert s == s[..n] + s[n..];
    WithKeyAppend(s[..n], s[n..], key, k);
  }

  /** Sorting an already ordered sequence leaves it as it is. */
  lemma {:induction false} SortedIsFixpoint<T>(s: seq<T>, key: T -> int)
    requires SortedDesc(s, key)
    ensures SortDesc(s, key) == s
  {
    if s != [] {
      assert SortedDesc(s[1..], key) by {
        forall i, j | 0 <= i < j < |s[1..]| ensures key(s[1..][i]) >= key(s[1..][j]) {
          assert s[1..][i] == s[i + 1] && s[1..][j] == s[j + 1];
        }
      }
      SortedIsFixpoint(s[1..], key);
      assert s == [s[0]] + s[1..];
    }
  }

  lemma {:induction false} InsertKeepsSum<T>(x: T, s: seq<T>, key: T -> int, g: T -> int)
    ensures SumBy(Insert(x, s, key), g) == g(x) + SumBy(s, g)
  {
    if s == [] || key(x) >= key(s[0]) {
      assert ([x] + s)[1..] == s;
    } else {
      InsertKeepsSum(x, s[1..], key, g);
      assert ([s[0]] + Insert(x, s[1..], key))[1..] == Insert(x, s[1..], key);
    }
  }

  /** Sorting does not change the sum of any per-element value. */
  lemma {:induction false} SortKeepsSum<T>(s: seq<T>, key: T -> int, g: T -> int)
    ensures SumBy(SortDesc(s, key), g) == SumBy(s, g)
  {
    if s != [] {
      SortKeepsSum(s[1..], key, g);
      InsertKeepsSum(s[0], SortDesc(s[1..], key), key, g);
    }
  }

  lemma {:induction false} InsertKeepsDistinctBy<T, K>(x: T, s: seq<T>, key: T -> int, f: T -> K)
    requires DistinctBy(s, f)
    requires forall i :: 0 <= i < |s| ==> f(s[i]) != f(x)
    ensures DistinctBy(Insert(x, s, key), f)
  {
    if s != [] && key(x) < key(s[0]) {
      var rest := Insert(x, s[1..], key);
      assert DistinctBy(s[1..], f) by {
        forall i, j | 0 <= i < j < |s[1..]| ensures f(s[1..][i]) != f(s[1..][j]) {
          assert s[1..][i] == s[i + 1] && s[1..][j] == s[j + 1];
        }
      }
      InsertKeepsDistinctBy(x, s[1..], key, f);
      InsertPermutes(x, s[1..], key);
      forall j | 0 <= j < |rest| ensures f(s[0]) != f(rest[j]) {
        InsertMember(x, s[1..], key, rest[j]);
        if rest[j] != x {
          var m :| 0 <= m < |s[1..]| && s[1..][m] == rest[j];
          assert s[m + 1] == rest[j];
        }
      }
      var r := Insert(x, s, key);
      assert r == [s[0]] + rest;
      forall i, j | 0 <= i < j < |r| ensures f(r[i]) != f(r[j]) {
        assert r[j] == rest[j - 1];
        if i > 0 { assert r[i] == rest[i - 1]; }
      }
    }
  }

  /** Sorting keeps the keys of a sequence pairwise distinct under any projection. */
  lemma {:induction false} SortKeepsDistinctBy<T, K>(s: seq<T>, key: T -> int, f: T -> K)
    requires DistinctBy(s, f)
    ensures DistinctBy(SortDesc(s, key), f)
  {
    if s != [] {
      assert DistinctBy(s[1..], f) by {
        forall i, j | 0 <= i < j < |s[1..]| ensures f(s[1..][i]) != f(s[1..][j]) {
          assert s[1..][i] == s[i + 1] && s[1..][j] == s[j + 1];
        }
      }
      SortKeepsDistinctBy(s[1..], key, f);
      var sorted := SortDesc(s[1..], key);
      SortPermutes(s[1..], key);
      forall i | 0 <= i < |sorted| ensures f(sorted[i]) != f(s[0]) {
        assert sorted[i] in multiset(s[1..]);
        var m :| 0 <= m < |s[1..]| && s[1..][m] == sorted[i];
        assert s[m + 1] == sorted[i];
      }
      InsertKeepsDistinctBy(s[0], sorted, key, f);
    }
  }

  /**
   * What `TopN` selects: min(n, |s|) elements in order, largest key first,
   * all taken from `s`, none smaller than an element left behind, and ties
   * kept in their original order.
   */
  lemma TopNSelects<T>(s: seq<T>, key: T -> int, n: nat)
    ensures |TopN(s, key, n)| == Min(n, |s|)
    ensures SortedDesc(TopN(s, key, n), key)
    ensures multiset(TopN(s, key, n)) <= multiset(s)
    ensures forall x, y :: x in TopN(s, key, n) && y in multiset(s) - multiset(TopN(s, key, n))
              ==> key(x) >= key(y)
    ensures forall k :: WithKey(TopN(s, key, n), key, k) <= WithKey(s, key, k)
  {
    TopNPrefix(s, key, n);
    TopNNoneLarger(s, key, n);
    forall k ensures WithKey(TopN(s, key, n), key, k) <= WithKey(s, key, k) {
      SortStable(s, key, k);
      WithKeyPrefix(SortDesc(s, key), |TopN(s, key, n)|, key, k);
    }
  }

  /** The top `n` are an ordered prefix of the sorted input, hence a sub-multiset of the input. */
  lemma TopNPrefix<T>(s: seq<T>, key: T -> int, n: nat)
    ensures |TopN(s, key, n)| == Min(n, |s|)
    ensures SortedDesc(TopN(s, key, n), key)
    ensures multiset(TopN(s, key, n)) <= multiset(s)
    ensures multiset(SortDesc(s, key)) == multiset(TopN(s, key, n)) + multiset(SortDesc(s, key)[|TopN(s, key, n)|..])
  {
    var sorted := SortDesc(s, key);
    var top := TopN(s, key, n);
    SortPermutes(s, key);
    SortSorts(s, key);
    assert sorted == top + sorted[|top|..];
  }

  /** Nothing left behind by `TopN` has a larger key than something it keeps. */
  lemma TopNNoneLarger<T>(s: seq<T>, key: T -> int, n: nat)
    ensures forall x, y :: x in TopN(s, key, n) && y in multiset(s) - multiset(TopN(s, key, n))
              ==> key(x) >= key(y)
  {
    var sorted := SortDesc(s, key);
    var top := TopN(s, key, n);
    var rest := sorted[|top|..];
    TopNPrefix(s, key, n);
    SortPermutes(s, key);
    SortSorts(s, key);
    forall x, y | x in top && y in multiset(s) - multiset(top) ensures key(x) >= key(y) {
      assert y in rest;
      var i :| 0 <= i < |top| && top[i] == x;
      var j :| 0 <= j < |rest| && rest[j] == y;
      assert sorted[i] == x && sorted[|top| + j] == y;
    }
  }
}
