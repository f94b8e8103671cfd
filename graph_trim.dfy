/**
 * The trim in `Scene`: keep the fifty largest nodes, largest first, and the
 * edges whose two endpoints are both among them, in their original order.
 */
module GraphTrim {
  import opened Folds
  import opened Sorting
  import opened Api
  import opened NetworkGraph
  import opened GraphFacts

  /** `nodes.sort((a, b) => b.size - a.size).slice(0, 50)`. */
  function TopNodes(nodes: seq<Node>): (top: seq<Node>)
    ensures |top| == Min(TopNodesLimit, |nodes|)
    ensures SortedDesc(top, Size)
    ensures multiset(top) <= multiset(nodes)
  {
    TopNSelects(nodes, Size, TopNodesLimit);
    TopN(nodes, Size, TopNodesLimit)
  }

  /** `edges.filter((e) => ids.has(e.source) && ids.has(e.target))`. */
  function KeepEdges(edges: seq<Edge>, ids: set<string>): (kept: seq<Edge>)
    ensures |kept| <= |edges|
    ensures forall e :: e in kept <==> e in edges && e.source in ids && e.target in ids
  {
    if edges == [] then []
    else
      var rest := KeepEdges(edges[1..], ids);
      assert forall e :: e in edges <==> e == edges[0] || e in edges[1..];
      if edges[0].source in ids && edges[0].target in ids then [edges[0]] + rest else rest
  }

  /** What `Scene` draws: the top nodes and the edges between them. */
  function Trim(nodes: seq<Node>, edges: seq<Edge>): (r: (seq<Node>, seq<Edge>))
    ensures |r.0| == Min(TopNodesLimit, |nodes|)
    ensures SortedDesc(r.0, Size)
    ensures multiset(r.0) <= multiset(nodes)
    ensures |r.1| <= |edges|
    ensures forall e :: e in r.1 <==> e in edges && e.source in Ids(r.0) && e.target in Ids(r.0)
  {
    var top := TopNodes(nodes);
    (top, KeepEdges(edges, Ids(top)))
  }

  /** What `Scene` draws for a batch of posts. */
  function SceneGraph(posts: seq<Post>): (r: (seq<Node>, seq<Edge>))
    ensures |r.0| <= TopNodesLimit
    ensures forall n :: n in r.0 ==> n in GraphNodes(posts)
    ensures forall e :: e in r.1 <==> e in GraphEdges(posts) && e.source in Ids(r.0) && e.target in Ids(r.0)
  {
    var r := Trim(GraphNodes(posts), GraphEdges(posts));
    forall n | n in r.0 ensures n in GraphNodes(posts) {
      assert n in multiset(r.0);
    }
    r
  }

  /**
   * The trim keeps min(50, |nodes|) nodes, largest first, all taken from the
   * input; no dropped node is larger than a kept one, and nodes of equal size
   * keep their original order.
   */
  lemma TrimNodes(nodes: seq<Node>, edges: seq<Edge>)
    ensures |Trim(nodes, edges).0| == Min(TopNodesLimit, |nodes|)
    ensures SortedDesc(Trim(nodes, edges).0, Size)
    ensures multiset(Trim(nodes, edges).0) <= multiset(nodes)
    ensures forall x, y :: x in Trim(nodes, edges).0 && y in multiset(nodes) - multiset(Trim(nodes, edges).0)
              ==> x.size >= y.size
    ensures forall k :: WithKey(Trim(nodes, edges).0, Size, k) <= WithKey(nodes, Size, k)
  {
    var top := TopNodes(nodes);
    assert Trim(nodes, edges).0 == top;
    TopNSelects(nodes, Size, TopNodesLimit);
    forall x, y | x in top && y in multiset(nodes) - multiset(top) ensures x.size >= y.size {
      assert Size(x) >= Size(y);
    }
  }

  /** The kept edges are exactly the edges whose source and target are both kept node ids. */
  lemma TrimEdges(nodes: seq<Node>, edges: seq<Edge>)
    ensures forall e :: e in Trim(nodes, edges).1 <==>
      e in edges && e.source in Ids(Trim(nodes, edges).0) && e.target in Ids(Trim(nodes, edges).0)
  {
  }

  /** Filtering keeps the original order: it distributes over concatenation. */
  lemma {:induction false} KeepEdgesAppend(a: seq<Edge>, b: seq<Edge>, ids: set<string>)
    ensures KeepEdges(a + b, ids) == KeepEdges(a, ids) + KeepEdges(b, ids)
  {
    if a == [] {
      assert a + b == b;
    } else {
      assert (a + b)[0] == a[0] && (a + b)[1..] == a[1..] + b;
      KeepEdgesAppend(a[1..], b, ids);
    }
  }

  /** Filtering a second time with the same ids changes nothing. */
  lemma {:induction false} KeepEdgesIdempotent(edges: seq<Edge>, ids: set<string>)
    ensures KeepEdges(KeepEdges(edges, ids), ids) == KeepEdges(edges, ids)
  {
    if edges != [] {
      KeepEdgesIdempotent(edges[1..], ids);
      var rest := KeepEdges(edges[1..], ids);
      if edges[0].source in ids && edges[0].target in ids {
        assert ([edges[0]] + rest)[0] == edges[0] && ([edges[0]] + rest)[1..] == rest;
      }
    }
  }

  /** Trimming what `Scene` already drew leaves it as it is. */
  lemma TrimIdempotent(nodes: seq<Node>, edges: seq<Edge>)
    ensures Trim(Trim(nodes, edges).0, Trim(nodes, edges).1) == Trim(nodes, edges)
  {
    var (top, kept) := Trim(nodes, edges);
    TopNSelects(nodes, Size, TopNodesLimit);
    SortedIsFixpoint(top, Size);
    assert TopNodes(top) == top;
    KeepEdgesIdempotent(edges, Ids(top));
  }

  /** In the scene of a batch, every drawn edge joins two drawn nodes, and it is an edge of the full graph. */
  lemma SceneEdgesJoinDrawnNodes(posts: seq<Post>)
    ensures forall e :: e in SceneGraph(posts).1 ==>
      && e in GraphEdges(posts)
      && (exists n :: n in SceneGraph(posts).0 && n.id == e.source)
      && (exists n :: n in SceneGraph(posts).0 && n.id == e.target)
  {
    TrimEdges(GraphNodes(posts), GraphEdges(posts));
  }
}
