/**
 * The agent/community interaction graph: `buildGraph` folds a batch of posts
 * into one node per author and per community and one weighted edge per
 * (author, community) edge key; `Scene` then keeps the fifty largest nodes
 * and the edges between them.
 *
 * Authors and communities share one node map keyed by id alone, exactly as
 * the component does; the lemmas that tell agents from communities require
 * the two id spaces are disjoint. Node positions are random and omitted.
 */
module NetworkGraph {
  import opened Folds
  import opened Sorting
  import opened Api

  const TopNodesLimit := 50

  datatype NodeKind = AgentNode | SubmoltNode

  datatype Node = Node(id: string, name: string, kind: NodeKind, size: int)

  datatype Edge = Edge(source: string, target: string, weight: int)

  /** The name and kind a node is created with. */
  datatype Label = Label(name: string, kind: NodeKind)

  /** The edge key `${author.id}-${submolt.id}`. */
  function EdgeKey(authorId: string, submoltId: string): (key: string)
    ensures |key| == |authorId| + 1 + |submoltId|
    ensures key[..|authorId|] == authorId && key[|authorId|] == '-'
    ensures key[|authorId| + 1..] == submoltId
  {
    authorId + "-" + submoltId
  }

  function PostEdgeKey(p: Post): string { EdgeKey(p.author.id, p.submolt.id) }
  function PostPair(p: Post): (string, string) { (p.author.id, p.submolt.id) }
  function AuthorId(p: Post): string { p.author.id }
  function SubmoltId(p: Post): string { p.submolt.id }
  function UpvotesPlusOne(p: Post): int { p.upvotes + 1 }
  function NodeId(n: Node): string { n.id }
  function Size(n: Node): int { n.size }
  function Weight(e: Edge): int { e.weight }
  function EdgePair(e: Edge): (string, string) { (e.source, e.target) }

  /** `x` is the author id or the community id of some post. */
  predicate Mentioned(posts: seq<Post>, x: string) {
    x in KeySet(posts, AuthorId) || x in KeySet(posts, SubmoltId)
  }

  /** No id names both an author and a community. */
  predicate DisjointIds(posts: seq<Post>) {
    forall i, j :: 0 <= i < |posts| && 0 <= j < |posts| ==> posts[i].author.id != posts[j].submolt.id
  }

  /** Two author ids whose edge keys cannot be confused: equally long, or both free of '-'. */
  predicate SeparableIds(a: string, b: string) {
    |a| == |b| || ('-' !in a && '-' !in b)
  }

  /** Every pair of author ids of the batch is separable. */
  predicate SeparableAuthorIds(posts: seq<Post>) {
    forall i, j :: 0 <= i < |posts| && 0 <= j < |posts| ==> SeparableIds(posts[i].author.id, posts[j].author.id)
  }

  // ---------------------------------------------------------------------
  // Reference definition of the graph

  /** Node ids in the order `buildGraph` creates them: per post, author before community. */
  function NodeOrder(posts: seq<Post>): seq<string> {
    if posts == [] then []
    else
      var p := posts[|posts| - 1];
      AddNew(AddNew(NodeOrder(posts[..|posts| - 1]), p.author.id), p.submolt.id)
  }

  /** The node ids are distinct, and they are exactly the ids the posts mention. */
  lemma NodeOrderFacts(posts: seq<Post>)
    ensures Distinct(NodeOrder(posts))
    ensures forall x :: x in NodeOrder(posts) ==> Mentioned(posts, x)
    ensures forall i :: 0 <= i < |posts| ==> posts[i].author.id in NodeOrder(posts) && posts[i].submolt.id in NodeOrder(posts)
  {
    NodeOrderDistinct(posts);
    NodeOrderMentioned(posts);
    NodeOrderCovers(posts);
  }

  lemma {:induction false} NodeOrderDistinct(posts: seq<Post>)
    ensures Distinct(NodeOrder(posts))
  {
    if posts != [] {
      var init := posts[..|posts| - 1];
      var p := posts[|posts| - 1];
      NodeOrderDistinct(init);
      AddNewFacts(NodeOrder(init), p.author.id);
      AddNewFacts(AddNew(NodeOrder(init), p.author.id), p.submolt.id);
    }
  }

  lemma {:induction false} NodeOrderMentioned(posts: seq<Post>)
    ensures forall x :: x in NodeOrder(posts) ==> Mentioned(posts, x)
  {
    if posts != [] {
      var init := posts[..|posts| - 1];
      var p := posts[|posts| - 1];
      NodeOrderMentioned(init);
      AddNewFacts(NodeOrder(init), p.author.id);
      AddNewFacts(AddNew(NodeOrder(init), p.author.id), p.submolt.id);
      KeySetSnoc(posts, AuthorId);
      KeySetSnoc(posts, SubmoltId);
    }
  }

  lemma {:induction false} NodeOrderCovers(posts: seq<Post>)
    ensures forall i :: 0 <= i < |posts| ==> posts[i].author.id in NodeOrder(posts) && posts[i].submolt.id in NodeOrder(posts)
  {
    if posts != [] {
      var init := posts[..|posts| - 1];
      var p := posts[|posts| - 1];
      NodeOrderCovers(init);
      AddNewFacts(NodeOrder(init), p.author.id);
      AddNewFacts(AddNew(NodeOrder(init), p.author.id), p.submolt.id);
      forall i | 0 <= i < |posts|
        ensures posts[i].author.id in NodeOrder(posts) && posts[i].submolt.id in NodeOrder(posts)
      {
        if i < |init| {
          assert posts[i] == init[i];
          assert init[i].author.id in NodeOrder(init) && init[i].submolt.id in NodeOrder(init);
        } else {
          assert posts[i] == p;
        }
      }
    }
  }

  /** The label of the node `x`: taken from the first post that mentions `x`, author slot first. */
  function FirstLabel(posts: seq<Post>, x: string): Label
    requires x in NodeOrder(posts)
  {
    var init := posts[..|posts| - 1];
    var p := posts[|posts| - 1];
    AddNewFacts(NodeOrder(init), p.author.id);
    if x in NodeOrder(init) then FirstLabel(init, x)
    else if p.author.id == x then Label(p.author.name, AgentNode)
    else Label(p.submolt.displayName, SubmoltNode)
  }

  /** A node's size: upvotes + 1 for each post it authored, 1 for each post in it. */
  function NodeSize(posts: seq<Post>, x: string): int {
    SumWhere(posts, AuthorId, x, UpvotesPlusOne) + Count(posts, SubmoltId, x)
  }

  function GraphNode(posts: seq<Post>, x: string): Node
    requires x in NodeOrder(posts)
  {
    Node(x, FirstLabel(posts, x).name, FirstLabel(posts, x).kind, NodeSize(posts, x))
  }

  /** The edge stored under `key`: endpoints of the first post with that key, one unit per post. */
  function GraphEdge(posts: seq<Post>, key: string): Edge
    requires key in KeySet(posts, PostEdgeKey)
  {
    var p := FirstWith(posts, PostEdgeKey, key);
    Edge(p.author.id, p.submolt.id, Count(posts, PostEdgeKey, key))
  }

  /** The nodes returned by `buildGraph`, in map insertion order. */
  function GraphNodes(posts: seq<Post>): seq<Node> {
    var ids := NodeOrder(posts);
    seq(|ids|, k requires 0 <= k < |ids| => GraphNode(posts, ids[k]))
  }

  /** The edges returned by `buildGraph`, in map insertion order. */
  function GraphEdges(posts: seq<Post>): seq<Edge> {
    var keys := FirstSeen(posts, PostEdgeKey);
    seq(|keys|, k requires 0 <= k < |keys| => GraphEdge(posts, keys[k]))
  }

  /** The node order, one post further. */
  lemma NodeOrderSnoc(ps: seq<Post>, p: Post)
    ensures NodeOrder(ps + [p]) == AddNew(AddNew(NodeOrder(ps), p.author.id), p.submolt.id)
    ensures forall x :: x in NodeOrder(ps + [p]) <==> x in NodeOrder(ps) || x == p.author.id || x == p.submolt.id
  {
    assert (ps + [p])[..|ps|] == ps;
    AddNewFacts(NodeOrder(ps), p.author.id);
    AddNewFacts(AddNew(NodeOrder(ps), p.author.id), p.submolt.id);
  }

  /** A node keeps the label it was created with. */
  lemma LabelKept(ps: seq<Post>, p: Post, x: string)
    requires x in NodeOrder(ps)
    ensures x in NodeOrder(ps + [p]) && FirstLabel(ps + [p], x) == FirstLabel(ps, x)
  {
    NodeOrderSnoc(ps, p);
    assert (ps + [p])[..|ps|] == ps;
  }

  /** A node created by the post `p` takes its label from `p`, author slot first. */
  lemma LabelNew(ps: seq<Post>, p: Post, x: string)
    requires x !in NodeOrder(ps) && (x == p.author.id || x == p.submolt.id)
    ensures x in NodeOrder(ps + [p])
    ensures FirstLabel(ps + [p], x)
         == if x == p.author.id then Label(p.author.name, AgentNode) else Label(p.submolt.displayName, SubmoltNode)
  {
    NodeOrderSnoc(ps, p);
    assert (ps + [p])[..|ps|] == ps;
  }

  /** Node sizes, one post further. */
  lemma SizesSnoc(ps: seq<Post>, p: Post)
    ensures forall x :: (NodeSize(ps + [p], x) ==
      NodeSize(ps, x) + (if p.author.id == x then p.upvotes + 1 else 0) + (if p.submolt.id == x then 1 else 0))
  {
    assert (ps + [p])[..|ps|] == ps;
  }

  /** An existing edge keeps its endpoints and gains one unit of weight per further post with its key. */
  lemma EdgeKept(ps: seq<Post>, p: Post, k: string)
    requires k in KeySet(ps, PostEdgeKey)
    ensures k in KeySet(ps + [p], PostEdgeKey)
    ensures GraphEdge(ps + [p], k)
         == GraphEdge(ps, k).(weight := GraphEdge(ps, k).weight + if PostEdgeKey(p) == k then 1 else 0)
  {
    assert (ps + [p])[..|ps|] == ps;
    KeySetSnoc(ps + [p], PostEdgeKey);
  }

  /** The edge created by the post `p` runs from its author to its community, with weight one. */
  lemma EdgeNew(ps: seq<Post>, p: Post)
    requires PostEdgeKey(p) !in KeySet(ps, PostEdgeKey)
    ensures PostEdgeKey(p) in KeySet(ps + [p], PostEdgeKey)
    ensures GraphEdge(ps + [p], PostEdgeKey(p)) == Edge(p.author.id, p.submolt.id, 1)
  {
    assert (ps + [p])[..|ps|] == ps;
    KeySetSnoc(ps + [p], PostEdgeKey);
    AbsentKey(ps, PostEdgeKey, PostEdgeKey(p), UpvotesPlusOne);
  }

  // ---------------------------------------------------------------------
  // The fold

  /** The first part of what the `forEach` callback of `buildGraph` does to the node map: create the post's nodes if new. */
  ghost function CreateNodes(m0: map<string, Node>, p: Post): (m: map<string, Node>)
    ensures p.author.id in m && p.submolt.id in m
  {
    var m1 := if p.author.id in m0 then m0 else m0[p.author.id := Node(p.author.id, p.author.name, AgentNode, 0)];
    if p.submolt.id in m1 then m1 else m1[p.submolt.id := Node(p.submolt.id, p.submolt.displayName, SubmoltNode, 0)]
  }

  /** The second part: add upvotes + 1 to the agent's size and 1 to the community's. */
  ghost function GrowNodes(m2: map<string, Node>, p: Post): map<string, Node>
    requires p.author.id in m2 && p.submolt.id in m2
  {
    var agent := m2[p.author.id];
    var m3 := m2[p.author.id := agent.(size := agent.size + p.upvotes + 1)];
    var submolt := m3[p.submolt.id];
    m3[p.submolt.id := submolt.(size := submolt.size + 1)]
  }

  /** What the callback does to the node map. */
  ghost function NodeStep(m0: map<string, Node>, p: Post): map<string, Node> {
    GrowNodes(CreateNodes(m0, p), p)
  }

  /** What the callback does to the edge map: create the post's edge if it is new, then add one to its weight. */
  ghost function EdgeStep(m0: map<string, Edge>, p: Post): map<string, Edge> {
    var edgeKey := EdgeKey(p.author.id, p.submolt.id);
    var m1 := if edgeKey in m0 then m0 else m0[edgeKey := Edge(p.author.id, p.submolt.id, 0)];
    var edge := m1[edgeKey];
    m1[edgeKey := edge.(weight := edge.weight + 1)]
  }

  /** The node `Map` that the `forEach` of `buildGraph` has built after the posts `ps`. */
  ghost function NodeFold(ps: seq<Post>): map<string, Node> {
    if ps == [] then map[] else NodeStep(NodeFold(ps[..|ps| - 1]), ps[|ps| - 1])
  }

  /** The edge `Map` that the `forEach` of `buildGraph` has built after the posts `ps`. */
  ghost function EdgeFold(ps: seq<Post>): map<string, Edge> {
    if ps == [] then map[] else EdgeStep(EdgeFold(ps[..|ps| - 1]), ps[|ps| - 1])
  }

  /** `m` is the node map after the posts `ps`: one reference node per id the posts mention. */
  ghost predicate NodesMatch(m: map<string, Node>, ps: seq<Post>) {
    && (forall x :: x in m <==> x in NodeOrder(ps))
    && (forall x :: x in m ==> m[x] == GraphNode(ps, x))
  }

  /** `m` is the node map midway through the post `p`: final ids and labels, sizes as before `p`. */
  ghost predicate CreatedMatch(m: map<string, Node>, ps: seq<Post>, p: Post) {
    && (forall x :: x in m <==> x in NodeOrder(ps + [p]))
    && (forall x :: x in m ==> m[x] == GraphNode(ps + [p], x).(size := NodeSize(ps, x)))
  }

  lemma CreateMatches(m0: map<string, Node>, ps: seq<Post>, p: Post)
    requires NodesMatch(m0, ps)
    ensures CreatedMatch(CreateNodes(m0, p), ps, p)
  {
    var m := CreateNodes(m0, p);
    NodeOrderSnoc(ps, p);
    forall x | x in m ensures m[x] == GraphNode(ps + [p], x).(size := NodeSize(ps, x)) {
      if x in m0 {
        LabelKept(ps, p, x);
        assert m[x] == m0[x] == GraphNode(ps, x);
      } else {
        LabelNew(ps, p, x);
        NewNodeSize(ps, x);
      }
    }
  }

  /** An id no post mentions has size zero. */
  lemma NewNodeSize(ps: seq<Post>, x: string)
    requires x !in NodeOrder(ps)
    ensures NodeSize(ps, x) == 0
  {
    NodeOrderCovers(ps);
    AbsentKey(ps, AuthorId, x, UpvotesPlusOne);
    AbsentKey(ps, SubmoltId, x, UpvotesPlusOne);
  }

  lemma GrowMatches(m: map<string, Node>, ps: seq<Post>, p: Post)
    requires CreatedMatch(m, ps, p)
    ensures p.author.id in m && p.submolt.id in m
    ensures NodesMatch(GrowNodes(m, p), ps + [p])
  {
    NodeOrderCovers(ps + [p]);
    assert (ps + [p])[|ps|] == p;
    SizesSnoc(ps, p);
    var m' := GrowNodes(m, p);
    forall x | x in m' ensures m'[x] == GraphNode(ps + [p], x) {
      var extra := (if p.author.id == x then p.upvotes + 1 else 0) + (if p.submolt.id == x then 1 else 0);
      assert m'[x].size == NodeSize(ps, x) + extra;
      assert NodeSize(ps + [p], x) == NodeSize(ps, x) + extra;
    }
  }

  /** The node map holds exactly the reference nodes. */
  lemma {:induction false} NodeFoldFacts(ps: seq<Post>)
    ensures NodesMatch(NodeFold(ps), ps)
  {
    if ps != [] {
      var init := ps[..|ps| - 1];
      var p := ps[|ps| - 1];
      assert init + [p] == ps;
      NodeFoldFacts(init);
      CreateMatches(NodeFold(init), init, p);
      GrowMatches(CreateNodes(NodeFold(init), p), init, p);
    }
  }

  /** `m` is the edge map after the posts `ps`: one reference edge per edge key. */
  ghost predicate EdgesMatch(m: map<string, Edge>, ps: seq<Post>) {
    && (forall k :: k in m <==> k in FirstSeen(ps, PostEdgeKey))
    && (forall k :: k in m ==> k in KeySet(ps, PostEdgeKey) && m[k] == GraphEdge(ps, k))
  }

  lemma EdgeStepMatches(m0: map<string, Edge>, ps: seq<Post>, p: Post)
    requires EdgesMatch(m0, ps)
    ensures EdgesMatch(EdgeStep(m0, p), ps + [p])
  {
    assert FirstSeen(ps + [p], PostEdgeKey) == AddNew(FirstSeen(ps, PostEdgeKey), PostEdgeKey(p)) by {
      assert (ps + [p])[..|ps|] == ps;
    }
    AddNewFacts(FirstSeen(ps, PostEdgeKey), PostEdgeKey(p));
    forall k | k in EdgeStep(m0, p)
      ensures k in KeySet(ps + [p], PostEdgeKey) && EdgeStep(m0, p)[k] == GraphEdge(ps + [p], k)
    {
      EdgeStepValue(m0, ps, p, k);
    }
  }

  lemma EdgeStepValue(m0: map<string, Edge>, ps: seq<Post>, p: Post, k: string)
    requires EdgesMatch(m0, ps)
    requires k in EdgeStep(m0, p)
    ensures k in KeySet(ps + [p], PostEdgeKey) && EdgeStep(m0, p)[k] == GraphEdge(ps + [p], k)
  {
    if k in m0 {
      assert m0[k] == GraphEdge(ps, k);
      EdgeKept(ps, p, k);
    } else {
      assert k == PostEdgeKey(p) && k !in FirstSeen(ps, PostEdgeKey);
      EdgeNew(ps, p);
    }
  }

  /** The edge map holds exactly the reference edges, one per edge key. */
  lemma {:induction false} EdgeFoldFacts(ps: seq<Post>)
    ensures EdgesMatch(EdgeFold(ps), ps)
  {
    if ps != [] {
      var init := ps[..|ps| - 1];
      var p := ps[|ps| - 1];
      assert init + [p] == ps;
      EdgeFoldFacts(init);
      EdgeStepMatches(EdgeFold(init), init, p);
    }
  }

  /**
   * The node half of the `forEach` callback of `buildGraph`: create the
   * post's agent and community nodes if they are new, then add upvotes + 1 to
   * the agent's size and 1 to the community's. This is the statement-level
   * form of the ghost function `NodeStep` (`CreateNodes` then `GrowNodes`).
   */
  method UpsertNodes(nodeMap: map<string, Node>, post: Post) returns (m: map<string, Node>)
    ensures m == NodeStep(nodeMap, post)
  {
    m := nodeMap;
    // Agent node
    if post.author.id !in m {
      m := m[post.author.id := Node(post.author.id, post.author.name, AgentNode, 0)];
    }
    // Submolt node
    if post.submolt.id !in m {
      m := m[post.submolt.id := Node(post.submolt.id, post.submolt.displayName, SubmoltNode, 0)];
    }
    // Increase sizes
    var agent := m[post.author.id];
    m := m[post.author.id := agent.(size := agent.size + post.upvotes + 1)];
    var submolt := m[post.submolt.id];
    m := m[post.submolt.id := submolt.(size := submolt.size + 1)];
  }

  /**
   * The edge half of the callback: create the post's edge if it is new, then
   * add one to its weight. This is the statement-level form of the ghost
   * function `EdgeStep`.
   */
  method UpsertEdge(edgeMap: map<string, Edge>, post: Post) returns (m: map<string, Edge>)
    ensures m == EdgeStep(edgeMap, post)
  {
    m := edgeMap;
    var edgeKey := post.author.id + "-" + post.submolt.id;
    if edgeKey !in m {
      m := m[edgeKey := Edge(post.author.id, post.submolt.id, 0)];
    }
    var edge := m[edgeKey];
    m := m[edgeKey := edge.(weight := edge.weight + 1)];
  }

  /** `buildGraph`: fold every post into the node and edge maps, then list their values. */
  method BuildGraph(posts: seq<Post>) returns (nodes: seq<Node>, edges: seq<Edge>)
    ensures nodes == GraphNodes(posts)
    ensures edges == GraphEdges(posts)
  {
    var nodeMap: map<string, Node> := map[];
    var nodeOrder: seq<string> := [];  // the insertion order of nodeMap
    var edgeMap: map<string, Edge> := map[];
    var edgeOrder: seq<string> := [];  // the insertion order of edgeMap
    for i := 0 to |posts|
      invariant nodeMap == NodeFold(posts[..i]) && nodeOrder == NodeOrder(posts[..i])
      invariant edgeMap == EdgeFold(posts[..i]) && edgeOrder == FirstSeen(posts[..i], PostEdgeKey)
    {
      var post := posts[i];
      nodeMap := UpsertNodes(nodeMap, post);
      nodeOrder := AddNew(AddNew(nodeOrder, post.author.id), post.submolt.id);
      edgeMap := UpsertEdge(edgeMap, post);
      edgeOrder := AddNew(edgeOrder, post.author.id + "-" + post.submolt.id);
      assert posts[..i + 1][..i] == posts[..i];
    }
    assert posts[..|posts|] == posts;
    NodesListed(posts);
    EdgesListed(posts);
    nodes := InsertionValues(nodeMap, nodeOrder);
    edges := InsertionValues(edgeMap, edgeOrder);
  }

  /** `Array.from(nodeMap.values())` lists the reference nodes. */
  lemma NodesListed(posts: seq<Post>)
    ensures forall i :: 0 <= i < |NodeOrder(posts)| ==> NodeOrder(posts)[i] in NodeFold(posts)
    ensures InsertionValues(NodeFold(posts), NodeOrder(posts)) == GraphNodes(posts)
  {
    NodeFoldFacts(posts);
  }

  /** `Array.from(edgeMap.values())` lists the reference edges. */
  lemma EdgesListed(posts: seq<Post>)
    ensures forall i :: 0 <= i < |FirstSeen(posts, PostEdgeKey)| ==> FirstSeen(posts, PostEdgeKey)[i] in EdgeFold(posts)
    ensures InsertionValues(EdgeFold(posts), FirstSeen(posts, PostEdgeKey)) == GraphEdges(posts)
  {
    EdgeFoldFacts(posts);
  }
}
