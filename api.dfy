/**
 * The record shapes the remote service returns, and the two aggregations of
 * the API client: the karma leaderboard (`getTopAgents`) and the guards of
 * the posting-rate metric (`calculateActivityRate`).
 *
 * Timestamps are integer milliseconds since the epoch; parsing the service's
 * date strings happens before a `Post` reaches this model.
 */
module Api {
  import opened Folds
  import opened Sorting

  datatype Option<T> = None | Some(value: T)

  datatype AuthorRef = AuthorRef(id: string, name: string)

  datatype SubmoltRef = SubmoltRef(id: string, name: string, displayName: string)

  /** One post of a fetched batch. */
  datatype Post = Post(
    id: string,
    title: string,
    content: Option<string>,
    url: Option<string>,
    upvotes: int,
    downvotes: int,
    commentCount: int,
    createdAt: int,
    author: AuthorRef,
    submolt: SubmoltRef)

  /** One community ("submolt") of the community listing. */
  datatype Submolt = Submolt(
    id: string,
    name: string,
    displayName: string,
    description: string,
    subscriberCount: int,
    createdAt: int,
    lastActivityAt: int,
    createdBy: AuthorRef)

  // ---------------------------------------------------------------------
  // Posting rate

  const MsPerMinute := 60000

  /** A rate of `num / den` posts per minute. */
  datatype Rate = Rate(num: int, den: int)

  /**
   * `calculateActivityRate`: posts per minute between the first post of the
   * batch (the newest, as the service sorts by `new`) and the last one, and
   * zero for fewer than two posts or a span that is not positive. The value
   * is kept as an exact fraction.
   */
  function ActivityRate(posts: seq<Post>): (r: Rate)
    ensures r.den > 0
    ensures r.num == 0 <==> |posts| < 2 || posts[0].createdAt <= posts[|posts| - 1].createdAt
    ensures r.num != 0 ==>
      r.num * (posts[0].createdAt - posts[|posts| - 1].createdAt) == |posts| * MsPerMinute * r.den
  {
    if |posts| < 2 then Rate(0, 1)
    else
      var span := posts[0].createdAt - posts[|posts| - 1].createdAt;
      if span <= 0 then Rate(0, 1)
      else Rate(|posts| * MsPerMinute, span)
  }

  // ---------------------------------------------------------------------
  // Leaderboard

  const TopAgentsLimit := 10

  /** One leaderboard row: an author display name, its post count and its karma. */
  datatype AgentEntry = AgentEntry(name: string, posts: int, karma: int)

  /** The value `getTopAgents` keeps per name while folding. */
  datatype Tally = Tally(posts: int, karma: int)

  function AuthorName(p: Post): string { p.author.name }
  function NetScore(p: Post): int { p.upvotes - p.downvotes }
  function Karma(e: AgentEntry): int { e.karma }
  function PostCount(e: AgentEntry): int { e.posts }
  function EntryName(e: AgentEntry): string { e.name }

  /**
   * Reference definition of the fold: one entry per distinct author name, in
   * the order the names first occur, with the number of that name's posts and
   * the sum of their upvotes minus downvotes.
   */
  function AgentEntries(posts: seq<Post>): seq<AgentEntry> {
    var names := FirstSeen(posts, AuthorName);
    seq(|names|, k requires 0 <= k < |names| =>
      AgentEntry(names[k], Count(posts, AuthorName, names[k]), SumWhere(posts, AuthorName, names[k], NetScore)))
  }

  /** The leaderboard: the entries sorted by karma, highest first, cut to ten. */
  function TopAgents(posts: seq<Post>): (top: seq<AgentEntry>)
    ensures |top| == Min(TopAgentsLimit, |AgentEntries(posts)|)
    ensures SortedDesc(top, Karma)
    ensures multiset(top) <= multiset(AgentEntries(posts))
  {
    TopNSelects(AgentEntries(posts), Karma, TopAgentsLimit);
    TopN(AgentEntries(posts), Karma, TopAgentsLimit)
  }

  /** The `Map` that the `forEach` of `getTopAgents` has built after the posts `ps`. */
  ghost function TallyMap(ps: seq<Post>): map<string, Tally> {
    if ps == [] then map[]
    else
      var m := TallyMap(ps[..|ps| - 1]);
      var p := ps[|ps| - 1];
      var current := if p.author.name in m then m[p.author.name] else Tally(0, 0);
      m[p.author.name := Tally(current.posts + 1, current.karma + p.upvotes - p.downvotes)]
  }

  /** The fold keeps one tally per name seen, counting that name's posts and summing their net score. */
  lemma {:induction false} TallyMapFacts(ps: seq<Post>)
    ensures forall n :: n in TallyMap(ps) <==> n in FirstSeen(ps, AuthorName)
    ensures forall n :: n in TallyMap(ps) ==>
      TallyMap(ps)[n] == Tally(Count(ps, AuthorName, n), SumWhere(ps, AuthorName, n, NetScore))
  {
    if ps != [] {
      var init := ps[..|ps| - 1];
      var p := ps[|ps| - 1];
      TallyMapFacts(init);
      AddNewFacts(FirstSeen(init, AuthorName), p.author.name);
      if p.author.name !in TallyMap(init) {
        AbsentKey(init, AuthorName, p.author.name, NetScore);
      }
    }
  }

  /** `Array.from(agentMap.entries()).map(([name, data]) => ({ name, ...data }))`. */
  function EntriesOf(m: map<string, Tally>, names: seq<string>): (es: seq<AgentEntry>)
    requires forall i :: 0 <= i < |names| ==> names[i] in m
    ensures |es| == |names|
    ensures forall i :: 0 <= i < |names| ==> es[i] == AgentEntry(names[i], m[names[i]].posts, m[names[i]].karma)
  {
    seq(|names|, k requires 0 <= k < |names| => AgentEntry(names[k], m[names[k]].posts, m[names[k]].karma))
  }

  /** The entries listed from the fold are the reference entries. */
  lemma EntriesOfTallyMap(ps: seq<Post>)
    ensures forall i :: 0 <= i < |FirstSeen(ps, AuthorName)| ==> FirstSeen(ps, AuthorName)[i] in TallyMap(ps)
    ensures EntriesOf(TallyMap(ps), FirstSeen(ps, AuthorName)) == AgentEntries(ps)
  {
    TallyMapFacts(ps);
  }

  /** `getTopAgents`: the `forEach` fold into a `Map`, then project, sort and slice. */
  method GetTopAgents(posts: seq<Post>) returns (top: seq<AgentEntry>)
    ensures top == TopAgents(posts)
  {
    var agentMap: map<string, Tally> := map[];
    var names: seq<string> := [];  // the insertion order of agentMap
    for i := 0 to |posts|
      invariant agentMap == TallyMap(posts[..i])
      invariant names == FirstSeen(posts[..i], AuthorName)
    {
      var post := posts[i];
      var current := if post.author.name in agentMap then agentMap[post.author.name] else Tally(0, 0);
      agentMap := agentMap[post.author.name := Tally(current.posts + 1, current.karma + post.upvotes - post.downvotes)];
      names := AddNew(names, post.author.name);
      assert posts[..i + 1][..i] == posts[..i];
    }
    assert posts[..|posts|] == posts;
    EntriesOfTallyMap(posts);
    top := TopN(EntriesOf(agentMap, names), Karma, TopAgentsLimit);
  }

  lemma AgentEntriesFacts(posts: seq<Post>)
    ensures |AgentEntries(posts)| == |FirstSeen(posts, AuthorName)|
    ensures DistinctBy(AgentEntries(posts), EntryName)
    ensures forall i :: 0 <= i < |AgentEntries(posts)| ==>
      AgentEntries(posts)[i].name == FirstSeen(posts, AuthorName)[i]
  {
  }

  /**
   * Every row of the leaderboard holds the number of posts with exactly its
   * name and the sum of upvotes minus downvotes over exactly those posts, and
   * its name is the author name of some post.
   */
  lemma TopAgentsTallies(posts: seq<Post>)
    ensures forall e :: e in TopAgents(posts) ==>
      && e.posts == Count(posts, AuthorName, e.name)
      && e.karma == SumWhere(posts, AuthorName, e.name, NetScore)
      && e.posts >= 1
      && e.name in KeySet(posts, AuthorName)
  {
    var entries := AgentEntries(posts);
    TopNSelects(entries, Karma, TopAgentsLimit);
    forall e | e in TopAgents(posts)
      ensures e.posts == Count(posts, AuthorName, e.name)
      ensures e.karma == SumWhere(posts, AuthorName, e.name, NetScore)
      ensures e.posts >= 1 && e.name in KeySet(posts, AuthorName)
    {
      assert e in multiset(entries);
      var k :| 0 <= k < |entries| && entries[k] == e;
      CountPositive(posts, AuthorName, e.name);
    }
  }

  /** The leaderboard is ordered by karma, highest first, and names no author twice. */
  lemma TopAgentsOrdered(posts: seq<Post>)
    ensures SortedDesc(TopAgents(posts), Karma)
    ensures DistinctBy(TopAgents(posts), EntryName)
  {
    var entries := AgentEntries(posts);
    TopNSelects(entries, Karma, TopAgentsLimit);
    AgentEntriesFacts(posts);
    SortKeepsDistinctBy(entries, Karma, EntryName);
  }

  /** Authors with equal karma keep the order in which their names were first seen. */
  lemma TopAgentsStable(posts: seq<Post>, k: int)
    ensures WithKey(TopAgents(posts), Karma, k) <= WithKey(AgentEntries(posts), Karma, k)
  {
    TopNSelects(AgentEntries(posts), Karma, TopAgentsLimit);
  }

  /** The leaderboard has min(10, number of distinct author names) rows. */
  lemma TopAgentsLength(posts: seq<Post>)
    ensures |TopAgents(posts)| == Min(TopAgentsLimit, |KeySet(posts, AuthorName)|)
  {
    var names := FirstSeen(posts, AuthorName);
    TopNSelects(AgentEntries(posts), Karma, TopAgentsLimit);
    DistinctCardinality(names);
    assert (set n | n in names) == KeySet(posts, AuthorName) by {
      forall n | n in KeySet(posts, AuthorName) ensures n in names {
        var i :| 0 <= i < |posts| && AuthorName(posts[i]) == n;
      }
    }
  }

  /**
   * Before the cut to ten the post counts add up to the batch size, and an
   * empty batch gives an empty leaderboard.
   */
  lemma AgentEntriesCoverBatch(posts: seq<Post>)
    ensures SumBy(AgentEntries(posts), PostCount) == |posts|
    ensures posts == [] ==> TopAgents(posts) == []
  {
    var names := FirstSeen(posts, AuthorName);
    TalliesSumToLength(AgentEntries(posts), PostCount, names, posts, AuthorName);
  }
}
