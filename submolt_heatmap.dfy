/**
 * The community heatmap: the sixty largest communities by subscriber count,
 * and the count that the heat of every tile is scaled against.
 */
module SubmoltHeatmap {
  import opened Folds
  import opened Sorting
  import opened Api

  const HeatmapLimit := 60

  function SubscriberCount(s: Submolt): int { s.subscriberCount }

  /**
   * `[...submolts].sort((a, b) => b.subscriber_count - a.subscriber_count).slice(0, 60)`.
   * The sort runs on a copy; in this model every sequence is a value, so the
   * caller's list is never changed.
   */
  function SortedSubmolts(submolts: seq<Submolt>): (top: seq<Submolt>)
    ensures |top| == Min(HeatmapLimit, |submolts|)
    ensures SortedDesc(top, SubscriberCount)
    ensures multiset(top) <= multiset(submolts)
  {
    TopNSelects(submolts, SubscriberCount, HeatmapLimit);
    TopN(submolts, SubscriberCount, HeatmapLimit)
  }

  /**
   * `sortedSubmolts[0]?.subscriber_count || 1`: the count of the first kept
   * community, unless there is none or that count is 0 (a falsy number),
   * in which case the scale is 1.
   */
  function MaxSubs(top: seq<Submolt>): (m: int)
    ensures m != 0
    ensures top != [] && top[0].subscriberCount != 0 ==> m == top[0].subscriberCount
    ensures top == [] || top[0].subscriberCount == 0 ==> m == 1
  {
    if top != [] && top[0].subscriberCount != 0 then top[0].subscriberCount else 1
  }

  /**
   * The heatmap holds min(60, n) communities, largest first, all taken from
   * the input; none left out has more subscribers than one kept; and
   * communities with equal counts keep their input order.
   */
  lemma SortedSubmoltsSelects(submolts: seq<Submolt>)
    ensures |SortedSubmolts(submolts)| == Min(HeatmapLimit, |submolts|)
    ensures SortedDesc(SortedSubmolts(submolts), SubscriberCount)
    ensures multiset(SortedSubmolts(submolts)) <= multiset(submolts)
    ensures forall x, y :: x in SortedSubmolts(submolts) && y in multiset(submolts) - multiset(SortedSubmolts(submolts))
              ==> x.subscriberCount >= y.subscriberCount
    ensures forall k :: WithKey(SortedSubmolts(submolts), SubscriberCount, k) <= WithKey(submolts, SubscriberCount, k)
  {
    TopNSelects(submolts, SubscriberCount, HeatmapLimit);
    var top := SortedSubmolts(submolts);
    forall x, y | x in top && y in multiset(submolts) - multiset(top)
      ensures x.subscriberCount >= y.subscriberCount
    {
      assert SubscriberCount(x) >= SubscriberCount(y);
    }
  }

  /**
   * When the scale comes from a nonzero count it bounds every tile's count,
   * so no heat ratio exceeds 1 before `Math.min` clamps it; it also bounds
   * every community of the input.
   */
  lemma MaxSubsBoundsCounts(submolts: seq<Submolt>)
    requires SortedSubmolts(submolts) != [] && SortedSubmolts(submolts)[0].subscriberCount != 0
    ensures forall s :: s in SortedSubmolts(submolts) ==> s.subscriberCount <= MaxSubs(SortedSubmolts(submolts))
    ensures forall s :: s in submolts ==> s.subscriberCount <= MaxSubs(SortedSubmolts(submolts))
  {
    var top := SortedSubmolts(submolts);
    SortedSubmoltsSelects(submolts);
    forall s | s in top ensures s.subscriberCount <= top[0].subscriberCount {
      var i :| 0 <= i < |top| && top[i] == s;
      if i > 0 { assert SubscriberCount(top[0]) >= SubscriberCount(top[i]); }
    }
    forall s | s in submolts ensures s.subscriberCount <= top[0].subscriberCount {
      if s !in multiset(submolts) - multiset(top) {
        assert s in multiset(top);
      }
    }
  }
}
