/**
 * Worked examples: a two-post batch run through the leaderboard and the
 * graph, two refreshes of the live feed, and a few rendered timestamps.
 */
module Scenarios {
  import opened Folds
  import opened Sorting
  import opened Api
  import opened NetworkGraph
  import opened LiveFeed

  /** A post by author "X" in community "m". */
  function Example(id: string, up: int, down: int, t: int): Post {
    Post(id, "", None, None, up, down, 0, t, AuthorRef("X", "X"), SubmoltRef("m", "m", "m"))
  }

  /** Two posts by one author: one leaderboard row with two posts and karma (5 - 1) + (2 - 0). */
  lemma LeaderboardExample()
    ensures TopAgents([Example("a", 5, 1, 0), Example("b", 2, 0, 1000)]) == [AgentEntry("X", 2, 6)]
  {
    var ps := [Example("a", 5, 1, 0), Example("b", 2, 0, 1000)];
    assert ps[..1] == [ps[0]];
    assert ps[..1][..0] == [];
    assert FirstSeen(ps, AuthorName) == ["X"];
    assert Count(ps, AuthorName, "X") == 2;
    assert SumWhere(ps, AuthorName, "X", NetScore) == 6;
    var es := AgentEntries(ps);
    assert es == [AgentEntry("X", 2, 6)];
    assert es[1..] == [];
    assert SortDesc(es, Karma) == es;
  }

  /**
   * The same batch as a graph: the agent weighs (5 + 1) + (2 + 1), the
   * community one per post, and the single edge carries both posts.
   */
  lemma GraphExample()
    ensures GraphNodes([Example("a", 5, 1, 0), Example("b", 2, 0, 1000)])
         == [Node("X", "X", AgentNode, 9), Node("m", "m", SubmoltNode, 2)]
    ensures GraphEdges([Example("a", 5, 1, 0), Example("b", 2, 0, 1000)]) == [Edge("X", "m", 2)]
  {
    var ps := [Example("a", 5, 1, 0), Example("b", 2, 0, 1000)];
    assert ps[..1] == [ps[0]];
    assert ps[..1][..0] == [];
    assert NodeOrder(ps[..1]) == ["X", "m"];
    assert NodeOrder(ps) == ["X", "m"];
    assert PostEdgeKey(ps[0]) == "X-m" == PostEdgeKey(ps[1]);
    assert FirstSeen(ps[..1], PostEdgeKey) == ["X-m"];
    assert FirstSeen(ps, PostEdgeKey) == ["X-m"];
    assert FirstLabel(ps, "X") == Label("X", AgentNode);
    assert FirstLabel(ps, "m") == Label("m", SubmoltNode);
    assert SumWhere(ps, AuthorId, "X", UpvotesPlusOne) == 9;
    assert Count(ps, SubmoltId, "X") == 0;
    assert SumWhere(ps, AuthorId, "m", UpvotesPlusOne) == 0;
    assert Count(ps, SubmoltId, "m") == 2;
    assert NodeSize(ps, "X") == 9;
    assert NodeSize(ps, "m") == 2;
    assert Count(ps, PostEdgeKey, "X-m") == 2;
  }

  function WithId(id: string): Post {
    Example(id, 0, 0, 0)
  }

  /** Ids 1, 2, 3 and then 2, 3, 4: the first refresh flags all three, the second only 4. */
  method FeedExample() returns (first: set<string>, second: set<string>)
    ensures first == {"1", "2", "3"}
    ensures second == {"4"}
  {
    var b1 := [WithId("1"), WithId("2"), WithId("3")];
    var b2 := [WithId("2"), WithId("3"), WithId("4")];
    assert BatchIds(b1) == {"1", "2", "3"} by {
      assert PostId(b1[0]) == "1" && PostId(b1[1]) == "2" && PostId(b1[2]) == "3";
    }
    assert BatchIds(b2) == {"2", "3", "4"} by {
      assert PostId(b2[0]) == "2" && PostId(b2[1]) == "3" && PostId(b2[2]) == "4";
    }
    var feed := new Feed();
    feed.OnSuccess(b1);
    first := feed.newPostIds;
    feed.ClearHighlights();
    feed.OnSuccess(b2);
    second := feed.newPostIds;
  }

  /** 90.5 seconds ago, five seconds in the future, and 200000 seconds ago. */
  lemma TimeAgoExamples()
    ensures FormatTimeAgoText(1000000, 1000000 - 90500) == "1m ago"
    ensures FormatTimeAgoText(1000000, 1000000 + 5000) == "-5s ago"
    ensures FormatTimeAgoText(200000000, 0) == "2d ago"
  {
  }
}
