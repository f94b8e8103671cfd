/**
 * What the graph of `buildGraph` and its trim in `Scene` satisfy: node ids
 * are unique and are exactly the ids the posts mention; with disjoint author
 * and community ids, every node has the kind, name and size its first
 * mention and its posts give it; with separable author ids, there is exactly
 * one edge per (author, community) pair, weighted by its number of posts.
 */
module GraphFacts {
  import opened Folds
  import opened Sorting
  import opened Api
  import opened NetworkGraph

  /** The ids of a list of nodes. */
  function Ids(nodes: seq<Node>): set<string> {
    set n | n in nodes :: n.id
  }

  /** `GraphNodes` lists the node ids in creation order. */
  lemma GraphNodeIds(posts: seq<Post>)
    ensures |GraphNodes(posts)| == |NodeOrder(posts)|
    ensures forall k :: 0 <= k < |GraphNodes(posts)| ==> GraphNodes(posts)[k].id == NodeOrder(posts)[k]
  {
  }

  /** Node ids are pairwise distinct, and they are exactly the author and community ids of the posts. */
  lemma NodeIdsUnique(posts: seq<Post>)
    ensures DistinctBy(GraphNodes(posts), NodeId)
    ensures Ids(GraphNodes(posts)) == KeySet(posts, AuthorId) + KeySet(posts, SubmoltId)
  {
    GraphNodeIds(posts);
    NodeOrderDistinct(posts);
    MentionedIdsAreNodes(posts);
    NodeIdsAreMentioned(posts);
  }

  lemma MentionedIdsAreNodes(posts: seq<Post>)
    ensures KeySet(posts, AuthorId) + KeySet(posts, SubmoltId) <= Ids(GraphNodes(posts))
  {
    var nodes := GraphNodes(posts);
    GraphNodeIds(posts);
    NodeOrderCovers(posts);
    forall x | x in KeySet(posts, AuthorId) + KeySet(posts, SubmoltId) ensures x in Ids(nodes) {
      var i :| 0 <= i < |posts| && (AuthorId(posts[i]) == x || SubmoltId(posts[i]) == x);
      var k :| 0 <= k < |NodeOrder(posts)| && NodeOrder(posts)[k] == x;
      assert nodes[k] in nodes;
    }
  }

  lemma NodeIdsAreMentioned(posts: seq<Post>)
    ensures Ids(GraphNodes(posts)) <= KeySet(posts, AuthorId) + KeySet(posts, SubmoltId)
  {
    var nodes := GraphNodes(posts);
    GraphNodeIds(posts);
    NodeOrderMentioned(posts);
    forall x | x in Ids(nodes) ensures x in KeySet(posts, AuthorId) + KeySet(posts, SubmoltId) {
      var n :| n in nodes && n.id == x;
      var k :| 0 <= k < |nodes| && nodes[k] == n;
      assert Mentioned(posts, NodeOrder(posts)[k]);
    }
  }

  /**
   * The label of the node `x` comes from the first post that mentions `x`:
   * the author name if `x` is an author id, otherwise the community display
   * name.
   */
  ghost predicate LabelMeaning(posts: seq<Post>, x: string) {
    && x in NodeOrder(posts)
    && (x in KeySet(posts, AuthorId) ==>
          FirstLabel(posts, x) == Label(FirstWith(posts, AuthorId, x).author.name, AgentNode))
    && (x !in KeySet(posts, AuthorId) ==>
          && x in KeySet(posts, SubmoltId)
          && FirstLabel(posts, x) == Label(FirstWith(posts, SubmoltId, x).submolt.displayName, SubmoltNode))
  }

  lemma DisjointPrefix(ps: seq<Post>, p: Post)
    requires DisjointIds(ps + [p])
    ensures DisjointIds(ps)
  {
    assert forall i :: 0 <= i < |ps| ==> ps[i] == (ps + [p])[i];
  }

  /** With disjoint ids, every node's label has that meaning. */
  lemma {:induction false} FirstLabelMeaning(posts: seq<Post>, x: string)
    requires DisjointIds(posts)
    requires x in NodeOrder(posts)
    ensures LabelMeaning(posts, x)
  {
    var init := posts[..|posts| - 1];
    var p := posts[|posts| - 1];
    SplitLast(posts);
    DisjointPrefix(init, p);
    if x in NodeOrder(init) {
      FirstLabelMeaning(init, x);
    }
    LabelMeaningStep(init, p, x);
  }

  /** One post further, the label keeps its meaning, whether `x` is old or new. */
  lemma LabelMeaningStep(ps: seq<Post>, p: Post, x: string)
    requires DisjointIds(ps + [p])
    requires x in NodeOrder(ps + [p])
    requires x in NodeOrder(ps) ==> LabelMeaning(ps, x)
    ensures LabelMeaning(ps + [p], x)
  {
    if x in NodeOrder(ps) {
      LabelOldMeaning(ps, p, x);
    } else {
      LabelNewMeaning(ps, p, x);
    }
  }

  lemma LabelOldMeaning(ps: seq<Post>, p: Post, x: string)
    requires DisjointIds(ps + [p])
    requires LabelMeaning(ps, x)
    ensures LabelMeaning(ps + [p], x)
  {
    assert (ps + [p])[..|ps|] == ps;
    KeySetSnoc(ps + [p], AuthorId);
    KeySetSnoc(ps + [p], SubmoltId);
    LabelKept(ps, p, x);
    if x !in KeySet(ps, AuthorId) {
      var j :| 0 <= j < |ps| && SubmoltId(ps[j]) == x;
      assert x != p.author.id by {
        assert (ps + [p])[|ps|].author.id != (ps + [p])[j].submolt.id;
      }
    }
  }

  lemma LabelNewMeaning(ps: seq<Post>, p: Post, x: string)
    requires DisjointIds(ps + [p])
    requires x !in NodeOrder(ps) && x in NodeOrder(ps + [p])
    ensures LabelMeaning(ps + [p], x)
  {
    var posts := ps + [p];
    assert posts[..|ps|] == ps && posts[|ps|] == p;
    KeySetSnoc(posts, AuthorId);
    KeySetSnoc(posts, SubmoltId);
    NodeOrderSnoc(ps, p);
    NodeOrderCovers(ps);
    LabelNew(ps, p, x);
    if x == p.author.id {
      assert x !in KeySet(ps, AuthorId);
    } else {
      assert x == p.submolt.id && x !in KeySet(ps, SubmoltId);
      forall i | 0 <= i < |posts| ensures AuthorId(posts[i]) != x {
        assert posts[i].author.id != posts[|ps|].submolt.id;
      }
    }
  }

  /**
   * With disjoint ids, an agent node has the name of the first post by its
   * author and a size equal to the sum of upvotes + 1 over that author's
   * posts; a community node has the display name of its first post and a
   * size equal to its number of posts.
   */
  lemma GraphNodeMeaning(posts: seq<Post>, n: Node)
    requires DisjointIds(posts)
    requires n in GraphNodes(posts)
    ensures n.kind == AgentNode <==> n.id in KeySet(posts, AuthorId)
    ensures n.kind == AgentNode ==>
      && n.name == FirstWith(posts, AuthorId, n.id).author.name
      && n.size == SumWhere(posts, AuthorId, n.id, UpvotesPlusOne)
    ensures n.kind == SubmoltNode ==>
      && n.id in KeySet(posts, SubmoltId)
      && n.name == FirstWith(posts, SubmoltId, n.id).submolt.displayName
      && n.size == Count(posts, SubmoltId, n.id)
  {
    var k :| 0 <= k < |GraphNodes(posts)| && GraphNodes(posts)[k] == n;
    var x := NodeOrder(posts)[k];
    assert n == GraphNode(posts, x);
    FirstLabelMeaning(posts, x);
    if x in KeySet(posts, AuthorId) {
      var i :| 0 <= i < |posts| && AuthorId(posts[i]) == x;
      forall j | 0 <= j < |posts| ensures SubmoltId(posts[j]) != x {
        assert posts[i].author.id != posts[j].submolt.id;
      }
      AbsentKey(posts, SubmoltId, x, UpvotesPlusOne);
    } else {
      forall j | 0 <= j < |posts| ensures AuthorId(posts[j]) != x { }
      AbsentKey(posts, AuthorId, x, UpvotesPlusOne);
    }
  }

  /** A node's label never changes once the node exists, however many posts follow. */
  lemma {:induction false} LabelsFixedAtFirstSight(ps: seq<Post>, qs: seq<Post>, x: string)
    requires x in NodeOrder(ps)
    ensures x in NodeOrder(ps + qs) && FirstLabel(ps + qs, x) == FirstLabel(ps, x)
  {
    if qs == [] {
      assert ps + qs == ps;
    } else {
      var init, q := qs[..|qs| - 1], qs[|qs| - 1];
      var mid := ps + init;
      AppendSplitLast(ps, qs);
      LabelsFixedAtFirstSight(ps, init, x);
      LabelKept(mid, q, x);
    }
  }

  // ---------------------------------------------------------------------
  // Edges

  /**
   * Equal edge keys come from equal (author, community) pairs when the two
   * author ids are separable; without that, "a-b" + "-" + "c" and
   * "a" + "-" + "b-c" collide (see `EdgeKeyCollision`).
   */
  lemma EdgeKeyInjective(a1: string, s1: string, a2: string, s2: string)
    requires SeparableIds(a1, a2)
    requires EdgeKey(a1, s1) == EdgeKey(a2, s2)
    ensures a1 == a2 && s1 == s2
  {
    var e := EdgeKey(a1, s1);
    if |a1| < |a2| {
      assert false;
    } else if |a2| < |a1| {
      assert false;
    }
    assert a1 == e[..|a1|] == a2;
    assert s1 == e[|a1| + 1..] == s2;
  }

  /** Edge keys of different pairs can coincide when an author id contains '-'. */
  lemma EdgeKeyCollision()
    ensures EdgeKey("a-b", "c") == EdgeKey("a", "b-c")
    ensures ("a-b", "c") != ("a", "b-c")
  {
  }

  /** The edge stored under key `keys[k]`: its pair is that of the first post with that key. */
  lemma GraphEdgeAt(posts: seq<Post>, k: int) returns (q: Post)
    requires 0 <= k < |GraphEdges(posts)|
    ensures q in posts
    ensures PostEdgeKey(q) == FirstSeen(posts, PostEdgeKey)[k]
    ensures GraphEdges(posts)[k] == Edge(q.author.id, q.submolt.id, Count(posts, PostEdgeKey, PostEdgeKey(q)))
  {
    var key := FirstSeen(posts, PostEdgeKey)[k];
    q := FirstWith(posts, PostEdgeKey, key);
    FirstWithIn(posts, PostEdgeKey, key);
  }

  /** The edge weights add up to the number of posts. */
  lemma EdgeWeightsSumToPosts(posts: seq<Post>)
    ensures SumBy(GraphEdges(posts), Weight) == |posts|
  {
    var keys := FirstSeen(posts, PostEdgeKey);
    TalliesSumToLength(GraphEdges(posts), Weight, keys, posts, PostEdgeKey);
  }

  /** Every edge runs from the author id of a post to its community id, both of them node ids. */
  lemma EdgeEndpointsAreNodes(posts: seq<Post>)
    ensures forall e :: e in GraphEdges(posts) ==>
      && e.source in KeySet(posts, AuthorId) && e.target in KeySet(posts, SubmoltId)
      && e.source in Ids(GraphNodes(posts)) && e.target in Ids(GraphNodes(posts))
  {
    MentionedIdsAreNodes(posts);
    forall e | e in GraphEdges(posts)
      ensures e.source in KeySet(posts, AuthorId) && e.target in KeySet(posts, SubmoltId)
    {
      var k :| 0 <= k < |GraphEdges(posts)| && GraphEdges(posts)[k] == e;
      var q := GraphEdgeAt(posts, k);
      var i :| 0 <= i < |posts| && posts[i] == q;
      assert AuthorId(posts[i]) == e.source && SubmoltId(posts[i]) == e.target;
    }
  }

  /** No two edges join the same (author, community) pair. */
  lemma EdgesDistinctPairs(posts: seq<Post>)
    ensures DistinctBy(GraphEdges(posts), EdgePair)
  {
    var edges := GraphEdges(posts);
    var keys := FirstSeen(posts, PostEdgeKey);
    forall i, j | 0 <= i < j < |edges| ensures EdgePair(edges[i]) != EdgePair(edges[j]) {
      var qi := GraphEdgeAt(posts, i);
      var qj := GraphEdgeAt(posts, j);
      assert keys[i] != keys[j];
    }
  }

  /**
   * With separable author ids, an edge's weight is the number of posts with
   * exactly its author and community.
   */
  lemma EdgeWeights(posts: seq<Post>)
    requires SeparableAuthorIds(posts)
    ensures forall e :: e in GraphEdges(posts) ==> e.weight == Count(posts, PostPair, EdgePair(e))
  {
    forall e | e in GraphEdges(posts) ensures e.weight == Count(posts, PostPair, EdgePair(e)) {
      var k :| 0 <= k < |GraphEdges(posts)| && GraphEdges(posts)[k] == e;
      var q := GraphEdgeAt(posts, k);
      SameKeySamePair(posts, q);
      CountSameClass(posts, PostEdgeKey, PostEdgeKey(q), PostPair, PostPair(q));
    }
  }

  /** With separable author ids, a post shares its edge key with `q` exactly when it shares its pair. */
  lemma SameKeySamePair(posts: seq<Post>, q: Post)
    requires SeparableAuthorIds(posts)
    requires q in posts
    ensures forall i :: 0 <= i < |posts| ==> (PostEdgeKey(posts[i]) == PostEdgeKey(q) <==> PostPair(posts[i]) == PostPair(q))
  {
    var j :| 0 <= j < |posts| && posts[j] == q;
    forall i | 0 <= i < |posts| && PostEdgeKey(posts[i]) == PostEdgeKey(q) ensures PostPair(posts[i]) == PostPair(q) {
      assert SeparableIds(posts[i].author.id, posts[j].author.id);
      EdgeKeyInjective(posts[i].author.id, posts[i].submolt.id, q.author.id, q.submolt.id);
    }
  }

  /** With separable author ids, every post's (author, community) pair has an edge. */
  lemma EveryPairHasEdge(posts: seq<Post>)
    requires SeparableAuthorIds(posts)
    ensures forall i :: 0 <= i < |posts| ==> exists e :: e in GraphEdges(posts) && EdgePair(e) == PostPair(posts[i])
  {
    var keys := FirstSeen(posts, PostEdgeKey);
    forall i | 0 <= i < |posts| ensures exists e :: e in GraphEdges(posts) && EdgePair(e) == PostPair(posts[i]) {
      var k :| 0 <= k < |keys| && keys[k] == PostEdgeKey(posts[i]);
      var q := GraphEdgeAt(posts, k);
      SameKeySamePair(posts, q);
      assert GraphEdges(posts)[k] in GraphEdges(posts);
    }
  }
}
