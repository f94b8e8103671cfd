/**
 * The activity histogram of the pulse chart: posts grouped into five-minute
 * windows, with a post count and an upvote total per window, listed from the
 * earliest window to the latest.
 */
module ActivityPulse {
  import opened Folds
  import opened Sorting
  import opened Api

  /** Five minutes, in milliseconds. */
  const BucketSize := 5 * 60 * 1000

  /** One window of the histogram. */
  datatype Bucket = Bucket(start: int, count: int, totalUpvotes: int)

  /** The value kept per window while folding. */
  datatype Totals = Totals(count: int, totalUpvotes: int)

  /**
   * `Math.floor(t / bucketSize) * bucketSize`: the start of the window that
   * holds `t`. Dafny's `/` on a positive divisor rounds down, also for
   * timestamps before the epoch.
   */
  function BucketStart(t: int): (start: int)
    ensures start % BucketSize == 0
    ensures start <= t < start + BucketSize
  {
    (t / BucketSize) * BucketSize
  }

  function PostBucket(p: Post): int { BucketStart(p.createdAt) }
  function Upvotes(p: Post): int { p.upvotes }
  function Start(b: Bucket): int { b.start }
  function BucketCount(b: Bucket): int { b.count }

  /** Sort key that puts the earliest window first. */
  function Earliness(b: Bucket): int { -b.start }

  /**
   * Reference definition of the fold: one bucket per window that holds a
   * post, in the order the windows are first seen, with the number of posts
   * in the window and the sum of their upvotes.
   */
  function BucketTally(posts: seq<Post>): seq<Bucket> {
    var starts := FirstSeen(posts, PostBucket);
    seq(|starts|, k requires 0 <= k < |starts| =>
      Bucket(starts[k], Count(posts, PostBucket, starts[k]), SumWhere(posts, PostBucket, starts[k], Upvotes)))
  }

  /** The histogram: the buckets sorted by start, earliest first. */
  function Buckets(posts: seq<Post>): seq<Bucket> {
    SortDesc(BucketTally(posts), Earliness)
  }

  /** The `Map` that the `forEach` of the pulse chart has built after the posts `ps`. */
  ghost function TotalsMap(ps: seq<Post>): map<int, Totals> {
    if ps == [] then map[]
    else
      var m := TotalsMap(ps[..|ps| - 1]);
      var p := ps[|ps| - 1];
      var bucket := BucketStart(p.createdAt);
      var current := if bucket in m then m[bucket] else Totals(0, 0);
      m[bucket := Totals(current.count + 1, current.totalUpvotes + p.upvotes)]
  }

  /** The fold keeps one entry per window seen, counting its posts and summing their upvotes. */
  lemma {:induction false} TotalsMapFacts(ps: seq<Post>)
    ensures forall b :: b in TotalsMap(ps) <==> b in FirstSeen(ps, PostBucket)
    ensures forall b :: b in TotalsMap(ps) ==>
      TotalsMap(ps)[b] == Totals(Count(ps, PostBucket, b), SumWhere(ps, PostBucket, b, Upvotes))
  {
    if ps != [] {
      var init := ps[..|ps| - 1];
      var p := ps[|ps| - 1];
      TotalsMapFacts(init);
      AddNewFacts(FirstSeen(init, PostBucket), PostBucket(p));
      if PostBucket(p) !in TotalsMap(init) {
        AbsentKey(init, PostBucket, PostBucket(p), Upvotes);
      }
    }
  }

  /** `Array.from(buckets.entries()).map(([time, data]) => ({ time, ...data }))`. */
  function BucketsOf(m: map<int, Totals>, starts: seq<int>): (bs: seq<Bucket>)
    requires forall i :: 0 <= i < |starts| ==> starts[i] in m
    ensures |bs| == |starts|
    ensures forall i :: 0 <= i < |starts| ==> bs[i] == Bucket(starts[i], m[starts[i]].count, m[starts[i]].totalUpvotes)
  {
    seq(|starts|, k requires 0 <= k < |starts| => Bucket(starts[k], m[starts[k]].count, m[starts[k]].totalUpvotes))
  }

  /** The buckets listed from the fold are the reference tally. */
  lemma BucketsOfTotalsMap(ps: seq<Post>)
    ensures forall i :: 0 <= i < |FirstSeen(ps, PostBucket)| ==> FirstSeen(ps, PostBucket)[i] in TotalsMap(ps)
    ensures BucketsOf(TotalsMap(ps), FirstSeen(ps, PostBucket)) == BucketTally(ps)
  {
    TotalsMapFacts(ps);
  }

  /** The bucketing of the pulse chart: a `forEach` fold into a `Map`, then an ascending sort. */
  method Bucketize(posts: seq<Post>) returns (buckets: seq<Bucket>)
    ensures buckets == Buckets(posts)
  {
    var totals: map<int, Totals> := map[];
    var starts: seq<int> := [];  // the insertion order of totals
    for i := 0 to |posts|
      invariant totals == TotalsMap(posts[..i])
      invariant starts == FirstSeen(posts[..i], PostBucket)
    {
      var post := posts[i];
      var bucket := (post.createdAt / BucketSize) * BucketSize;
      var current := if bucket in totals then totals[bucket] else Totals(0, 0);
      totals := totals[bucket := Totals(current.count + 1, current.totalUpvotes + post.upvotes)];
      starts := AddNew(starts, bucket);
      assert posts[..i + 1][..i] == posts[..i];
    }
    assert posts[..|posts|] == posts;
    BucketsOfTotalsMap(posts);
    buckets := SortDesc(BucketsOf(totals, starts), Earliness);
  }

  lemma BucketTallyFacts(posts: seq<Post>)
    ensures |BucketTally(posts)| == |FirstSeen(posts, PostBucket)|
    ensures DistinctBy(BucketTally(posts), Start)
    ensures forall i :: 0 <= i < |BucketTally(posts)| ==>
      BucketTally(posts)[i].start == FirstSeen(posts, PostBucket)[i]
  {
  }

  /** The bucket counts add up to the number of posts. */
  lemma BucketsCountEveryPost(posts: seq<Post>)
    ensures SumBy(Buckets(posts), BucketCount) == |posts|
  {
    TalliesSumToLength(BucketTally(posts), BucketCount, FirstSeen(posts, PostBucket), posts, PostBucket);
    SortKeepsSum(BucketTally(posts), Earliness, BucketCount);
  }

  /** The windows are listed in strictly ascending order of start, so none occurs twice. */
  lemma BucketsAscending(posts: seq<Post>)
    ensures forall i, j :: 0 <= i < j < |Buckets(posts)| ==> Buckets(posts)[i].start < Buckets(posts)[j].start
  {
    var tally := BucketTally(posts);
    SortSorts(tally, Earliness);
    BucketTallyFacts(posts);
    SortKeepsDistinctBy(tally, Earliness, Start);
    forall i, j | 0 <= i < j < |Buckets(posts)| ensures Buckets(posts)[i].start < Buckets(posts)[j].start {
      assert Earliness(Buckets(posts)[i]) >= Earliness(Buckets(posts)[j]);
      assert Start(Buckets(posts)[i]) != Start(Buckets(posts)[j]);
    }
  }

  /**
   * Every bucket starts on a multiple of five minutes, is non-empty, and holds
   * the count and the upvote total of exactly the posts whose timestamp falls
   * in its window.
   */
  lemma BucketsTotals(posts: seq<Post>)
    ensures forall b :: b in Buckets(posts) ==>
      && b.start % BucketSize == 0
      && b.count == Count(posts, PostBucket, b.start)
      && b.totalUpvotes == SumWhere(posts, PostBucket, b.start, Upvotes)
      && b.count >= 1
  {
    var tally := BucketTally(posts);
    SortPermutes(tally, Earliness);
    forall b | b in Buckets(posts)
      ensures b.start % BucketSize == 0
      ensures b.count == Count(posts, PostBucket, b.start)
      ensures b.totalUpvotes == SumWhere(posts, PostBucket, b.start, Upvotes)
      ensures b.count >= 1
    {
      assert b in multiset(tally);
      var k :| 0 <= k < |tally| && tally[k] == b;
      CountPositive(posts, PostBucket, b.start);
      var i :| 0 <= i < |posts| && PostBucket(posts[i]) == b.start;
    }
  }

  /** Every post's timestamp lies in the window of some bucket of the histogram. */
  lemma BucketsCoverPosts(posts: seq<Post>)
    ensures forall i :: 0 <= i < |posts| ==>
      exists b :: b in Buckets(posts) && b.start <= posts[i].createdAt < b.start + BucketSize
  {
    var tally := BucketTally(posts);
    var starts := FirstSeen(posts, PostBucket);
    SortPermutes(tally, Earliness);
    forall i | 0 <= i < |posts|
      ensures exists b :: b in Buckets(posts) && b.start <= posts[i].createdAt < b.start + BucketSize
    {
      var k :| 0 <= k < |starts| && starts[k] == PostBucket(posts[i]);
      assert tally[k] in multiset(Buckets(posts));
    }
  }
}
