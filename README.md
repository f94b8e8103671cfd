# openclawviewer aggregation core, in Dafny

openclawviewer is a live dashboard for a social network of AI agents: posts
are grouped into communities ("submolts") and authored by agents. Each
panel pulls a batch of posts or communities from the network's API and
turns that batch into a derived structure before drawing it. This project
models those derivations and proves what they compute:

- **Leaderboard** (`getTopAgents`): a fold that keys posts by author
  display name and keeps a post count and a net karma per name. The names
  come out in `Map` insertion order, are sorted by karma with the highest
  first, and the list is cut to ten. The posting rate
  (`calculateActivityRate`) is modelled as an exact fraction together with
  its two zero guards.
- **Interaction graph** (`buildGraph` and the trim in `Scene`):
  - Authors and communities become nodes in one map keyed by id.
  - An author node grows by upvotes + 1 for each post, a community node by
    one for each post.
  - Each post adds one unit of weight to the edge stored under the string
    key `${author.id}-${submolt.id}`.
  - The scene then draws the fifty largest nodes and the edges between
    them.
- **Activity pulse**: posts are grouped into five-minute windows, keeping a
  count and an upvote total per window, with the windows listed earliest
  first.
- **Live feed** (`loadPosts`, `formatTimeAgo`):
  - On a successful refresh, the feed highlights the ids that the previous
    batch lacked, shows the new batch, and replaces the remembered ids.
  - A failed refresh only ends the loading state.
  - A timer clears the highlights.
  - Each card shows "Ns/m/h/d ago".
- **Community heatmap**: the sixty communities with the most subscribers,
  largest first, and the scale `maxSubs`, which falls back to 1.

Layout:

- `folds.dfy` holds the reference folds (per-key counts and sums, keys in
  first-seen order).
- `sorting.dfy` holds the stable sort that stands for
  `Array.prototype.sort` with a numeric comparator. That sort is required
  to be stable since ECMAScript 2019.
- The other files follow the source files.

Where the source loops (the `forEach` folds, the id diff) the model is a
method with a loop. Each such method is proved equal to a reference
function, and the properties are proved about those functions. The feed
component's state is a class whose methods are its state transitions. The
sort, slice and filter chains are functions.

Three behaviours of the code that are easy to miss; the model follows the
code:

- Edges are keyed by a string: the author id, a `-`, then the community id.
  They are not keyed by the (author, community) pair. Two different pairs
  can therefore share an edge when author ids contain `-`; see
  `GraphFacts.EdgeKeyCollision`. The one-edge-per-pair properties are
  proved under `SeparableAuthorIds`: every two author ids of the batch are
  equally long or both free of `-`.
- The feed has no gate that keeps a second fetch from starting while one is
  in flight, and nothing discards a result that arrives after teardown.
- The trim sorts the full node list in place, so the builder's own list does
  not survive the trim unchanged.

## Model

| member | source | states |
|---|---|---|
| Api.ActivityRate | src/lib/api.ts:94-101 | the rate is 0 exactly when there are fewer than two posts or the first post is not later than the last; otherwise it is posts per minute over the span between them, as an exact fraction |
| Api.TopAgents | src/lib/api.ts:114-117 | the leaderboard is cut to min(10, number of entries), ordered by karma with the highest first, and every row is an entry of the fold |
| Api.GetTopAgents | src/lib/api.ts:103-118 | the `forEach` fold into a map, then project, sort by karma and keep ten: the result is `TopAgents(posts)` |
| Api.TallyMapFacts | src/lib/api.ts:104-112 | the fold holds a key for exactly the author names seen, and each key's value is the number of that name's posts and the sum of their upvotes minus downvotes |
| Api.EntriesOfTallyMap | src/lib/api.ts:114-115 | listing the fold's entries in insertion order gives the reference entries |
| Api.AgentEntriesFacts | src/lib/api.ts:104-115 | one entry per distinct author name, in first-seen order, no name twice |
| Api.TopAgentsTallies | src/lib/api.ts:106-111 | every row's post count and karma are the count and the net score of exactly the posts with its name, it has at least one post, and its name is some post's author name |
| Api.TopAgentsOrdered | src/lib/api.ts:114-116 | the leaderboard is ordered by karma, highest first, with pairwise distinct names |
| Api.TopAgentsStable | src/lib/api.ts:114-116 | rows of equal karma keep the order in which their names were first seen |
| Api.TopAgentsLength | src/lib/api.ts:104-117 | the leaderboard has min(10, number of distinct author names) rows |
| Api.AgentEntriesCoverBatch | src/lib/api.ts:103-117 | before the cut, the post counts add up to the batch size; an empty batch gives an empty leaderboard |
| Folds.FirstSeen | src/lib/api.ts:104-114 | the keys in `Map` insertion order: no key twice, and each is the key of some element |
| Folds.FirstSeenOrder | src/lib/api.ts:104-114 | when a key is listed before another, some element with the first key precedes every element with the second: keys come in order of first occurrence |
| Folds.FirstWith | src/components/NetworkGraph.tsx:36-59 | the first element that carries a given key |
| Folds.InsertionValues | src/components/NetworkGraph.tsx:80-83 | `Array.from(map.values())` over insertion order `ks`: one value per key, position by position |
| Folds.CountPositive | src/lib/api.ts:107-109 | a key occurs in the batch exactly when its count is positive |
| Folds.TalliesSumToLength | src/lib/api.ts:106-112 | per-key counts over distinct keys that cover every element add up to the number of elements |
| Sorting.SortPermutes | src/lib/api.ts:116 | sorting rearranges its input: same multiset, same length |
| Sorting.SortSorts | src/lib/api.ts:116 | the sorted sequence is ordered by the key, largest first |
| Sorting.SortStable | src/lib/api.ts:116 | elements with equal keys keep their original relative order |
| Sorting.SortedIsFixpoint | src/components/NetworkGraph.tsx:168 | sorting an ordered sequence leaves it unchanged |
| Sorting.SortKeepsSum | src/components/ActivityPulse.tsx:72-74 | sorting keeps the sum of any per-element value |
| Sorting.SortKeepsDistinctBy | src/lib/api.ts:114-116 | sorting keeps any projection pairwise distinct |
| Sorting.TopNSelects | src/lib/api.ts:116-117 | sort-then-slice keeps min(n, len) elements in key order, all from the input, none smaller than one dropped, ties in input order |
| Sorting.Take | src/lib/api.ts:117 | `slice(0, n)` is the prefix of length min(n, len) |
| ActivityPulse.BucketStart | src/components/ActivityPulse.tsx:59-64 | the window start is a multiple of 300000 ms and the timestamp lies in [start, start + 300000) |
| ActivityPulse.Bucketize | src/components/ActivityPulse.tsx:58-74 | the `forEach` fold into the bucket map followed by the ascending sort of its entries: the result is `Buckets(posts)` |
| ActivityPulse.TotalsMapFacts | src/components/ActivityPulse.tsx:61-70 | the fold holds a key for exactly the windows seen, and each value is the window's post count and upvote total |
| ActivityPulse.BucketsOfTotalsMap | src/components/ActivityPulse.tsx:72-73 | listing the fold's entries in insertion order gives the reference buckets |
| ActivityPulse.BucketTallyFacts | src/components/ActivityPulse.tsx:61-70 | one bucket per distinct window, in first-seen order, no window twice |
| ActivityPulse.BucketsCountEveryPost | src/components/ActivityPulse.tsx:63-70 | the bucket counts add up to the number of posts |
| ActivityPulse.BucketsAscending | src/components/ActivityPulse.tsx:72-74 | window starts are strictly ascending, so no window occurs twice |
| ActivityPulse.BucketsTotals | src/components/ActivityPulse.tsx:63-70 | every bucket starts on a five-minute boundary, has count at least 1, and holds the count and upvote total of exactly the posts in its window |
| ActivityPulse.BucketsCoverPosts | src/components/ActivityPulse.tsx:63-70 | every post's timestamp lies in the window of some bucket |
| NetworkGraph.EdgeKey | src/components/NetworkGraph.tsx:69 | the key is the author id, then `-`, then the community id, and is exactly that long |
| NetworkGraph.BuildGraph | src/components/NetworkGraph.tsx:29-84 | the fold of every post into the node and edge maps, and the listing of their values: the results are `GraphNodes(posts)` and `GraphEdges(posts)` |
| NetworkGraph.UpsertNodes | src/components/NetworkGraph.tsx:35-66 | the node half of one `forEach` step: create the agent and community nodes if new, then grow the agent by upvotes + 1 and the community by 1 |
| NetworkGraph.UpsertEdge | src/components/NetworkGraph.tsx:68-77 | the edge half of one step: create the edge under `${author.id}-${submolt.id}` if new, then add 1 to its weight |
| NetworkGraph.CreateNodes | src/components/NetworkGraph.tsx:36-59 | after the creation step both of the post's ids have a node |
| NetworkGraph.NodeFoldFacts | src/components/NetworkGraph.tsx:34-66 | after any prefix of posts the node map holds exactly the ids seen, each with its first label and its accumulated size |
| NetworkGraph.CreateMatches | src/components/NetworkGraph.tsx:36-59 | the creation step adds nodes for exactly the post's new ids, labelled from the post, with their old sizes |
| NetworkGraph.GrowMatches | src/components/NetworkGraph.tsx:61-66 | the size step brings every node to its size after the post |
| NetworkGraph.NewNodeSize | src/components/NetworkGraph.tsx:41-54 | a node not yet seen has accumulated size 0 |
| NetworkGraph.EdgeFoldFacts | src/components/NetworkGraph.tsx:68-77 | after any prefix the edge map holds exactly the keys seen, each with the endpoints of its first post and its post count as weight |
| NetworkGraph.EdgeStepMatches | src/components/NetworkGraph.tsx:68-77 | one edge step takes the edge map of a prefix to that of the prefix one post longer |
| NetworkGraph.EdgeStepValue | src/components/NetworkGraph.tsx:70-77 | one edge step, key by key |
| NetworkGraph.NodesListed | src/components/NetworkGraph.tsx:80-81 | `Array.from(nodeMap.values())` lists the reference nodes |
| NetworkGraph.EdgesListed | src/components/NetworkGraph.tsx:80-83 | `Array.from(edgeMap.values())` lists the reference edges |
| NetworkGraph.NodeOrderFacts | src/components/NetworkGraph.tsx:34-59 | node ids are created once each, and they are exactly the ids the posts mention |
| NetworkGraph.NodeOrderDistinct | src/components/NetworkGraph.tsx:36-49 | no id is created twice |
| NetworkGraph.NodeOrderMentioned | src/components/NetworkGraph.tsx:36-59 | every node id is an author or community id of some post |
| NetworkGraph.NodeOrderCovers | src/components/NetworkGraph.tsx:36-59 | every post's author id and community id get a node |
| NetworkGraph.NodeOrderSnoc | src/components/NetworkGraph.tsx:36-59 | one post further, the author id and then the community id are appended if new |
| NetworkGraph.LabelKept | src/components/NetworkGraph.tsx:36-49 | a node that exists keeps its name and kind when a further post arrives |
| NetworkGraph.LabelNew | src/components/NetworkGraph.tsx:37-58 | a node created by a post takes its label from that post, the author slot first |
| NetworkGraph.SizesSnoc | src/components/NetworkGraph.tsx:61-66 | one post further, the author's size grows by upvotes + 1 and the community's by 1, and no other size changes |
| NetworkGraph.EdgeKept | src/components/NetworkGraph.tsx:70-77 | an existing edge keeps its endpoints and gains 1 exactly when the post has its key |
| NetworkGraph.EdgeNew | src/components/NetworkGraph.tsx:70-77 | a new key creates an edge from the post's author to its community with weight 1 |
| GraphFacts.GraphNodeIds | src/components/NetworkGraph.tsx:80-81 | the nodes are listed in creation order of their ids |
| GraphFacts.NodeIdsUnique | src/components/NetworkGraph.tsx:34-59 | node ids are pairwise distinct, and they are exactly the author and community ids of the posts |
| GraphFacts.MentionedIdsAreNodes | src/components/NetworkGraph.tsx:36-59 | every mentioned id is a node id |
| GraphFacts.NodeIdsAreMentioned | src/components/NetworkGraph.tsx:36-59 | every node id is a mentioned id |
| GraphFacts.FirstLabelMeaning | src/components/NetworkGraph.tsx:36-59 | with disjoint ids, a node's label is the author name of the first post by that author, or else the display name of the first post in that community |
| GraphFacts.LabelMeaningStep | src/components/NetworkGraph.tsx:36-59 | that meaning survives one more post, whether the node is old or new |
| GraphFacts.LabelOldMeaning | src/components/NetworkGraph.tsx:36-49 | the meaning of an existing label survives one more post |
| GraphFacts.LabelNewMeaning | src/components/NetworkGraph.tsx:36-59 | a label created by the last post has that meaning |
| GraphFacts.GraphNodeMeaning | src/components/NetworkGraph.tsx:36-66 | with disjoint ids, a node is an agent exactly when its id is an author id; an agent's size is the sum of upvotes + 1 over its posts, and a community's size is its number of posts |
| GraphFacts.LabelsFixedAtFirstSight | src/components/NetworkGraph.tsx:36-59 | however many posts follow, a node's name and kind stay the ones it was created with |
| GraphFacts.EdgeKeyInjective | src/components/NetworkGraph.tsx:69 | with separable author ids, equal edge keys come from equal (author, community) pairs |
| GraphFacts.EdgeKeyCollision | src/components/NetworkGraph.tsx:69 | without that condition, the pairs ("a-b", "c") and ("a", "b-c") share a key |
| GraphFacts.GraphEdgeAt | src/components/NetworkGraph.tsx:69-77 | each edge comes from a post of the batch with its key, and weighs the number of posts with that key |
| GraphFacts.EdgeWeightsSumToPosts | src/components/NetworkGraph.tsx:34-78 | the edge weights add up to the number of posts |
| GraphFacts.EdgeEndpointsAreNodes | src/components/NetworkGraph.tsx:69-75 | every edge runs from an author id to a community id, and both are node ids |
| GraphFacts.EdgesDistinctPairs | src/components/NetworkGraph.tsx:69-77 | no two edges join the same (author, community) pair |
| GraphFacts.EdgeWeights | src/components/NetworkGraph.tsx:69-77 | with separable author ids, each edge's weight is the number of posts with exactly its author and community |
| GraphFacts.SameKeySamePair | src/components/NetworkGraph.tsx:69-70 | with separable author ids, two posts share a key exactly when they share a pair |
| GraphFacts.EveryPairHasEdge | src/components/NetworkGraph.tsx:69-77 | with separable author ids, every post's pair has an edge |
| GraphTrim.TopNodes | src/components/NetworkGraph.tsx:166-170 | min(50, number of nodes) nodes, ordered by size with the largest first, all taken from the input |
| GraphTrim.Trim | src/components/NetworkGraph.tsx:166-177 | the top nodes as above, and the edges kept are exactly the given edges whose source and target are both kept ids |
| GraphTrim.SceneGraph | src/components/NetworkGraph.tsx:160-177 | what the scene draws for a batch: at most 50 nodes of the full graph, and exactly the full graph's edges that join two of them |
| GraphTrim.KeepEdges | src/components/NetworkGraph.tsx:172-177 | the filter keeps exactly the edges with both endpoints in the kept ids, and never more edges than it was given |
| GraphTrim.TrimNodes | src/components/NetworkGraph.tsx:166-170 | the trim keeps min(50, number of nodes) nodes, largest first, all from the input; no dropped node is larger than a kept one; equal sizes keep their order |
| GraphTrim.TrimEdges | src/components/NetworkGraph.tsx:172-177 | the kept edges are exactly those whose source and target are both kept node ids |
| GraphTrim.KeepEdgesAppend | src/components/NetworkGraph.tsx:174-176 | the filter distributes over concatenation, so it keeps the original order |
| GraphTrim.KeepEdgesIdempotent | src/components/NetworkGraph.tsx:174-176 | filtering twice with the same ids changes nothing |
| GraphTrim.TrimIdempotent | src/components/NetworkGraph.tsx:166-177 | trimming a trimmed graph returns it unchanged |
| GraphTrim.SceneEdgesJoinDrawnNodes | src/components/NetworkGraph.tsx:160-177 | every drawn edge is an edge of the full graph and joins two drawn nodes |
| LiveFeed.FindNewIds | src/components/LiveFeed.tsx:88-94 | the ids of the batch that are not among the previous ids |
| LiveFeed.Feed.constructor | src/components/LiveFeed.tsx:77-80 | the feed starts with no posts, no highlights, no remembered ids, and loading |
| LiveFeed.Feed.OnSuccess | src/components/LiveFeed.tsx:83-109 | the highlights become the batch ids not remembered before; the posts become the batch; the remembered ids are replaced by the batch ids; loading ends; the invariant `Valid` is kept |
| LiveFeed.Feed.OnFailure | src/components/LiveFeed.tsx:104-108 | only the loading flag changes, and it becomes false |
| LiveFeed.Feed.ClearHighlights | src/components/LiveFeed.tsx:103 | the highlights are emptied and nothing else changes |
| LiveFeed.FirstRefresh | src/components/LiveFeed.tsx:77-109 | the first refresh after mounting highlights every id of its batch and ends loading |
| LiveFeed.ThreeRefreshes | src/components/LiveFeed.tsx:89-100 | the third refresh highlights what the second batch lacked, whatever the first held: remembered ids are replaced, not accumulated |
| LiveFeed.RefreshFailsInBetween | src/components/LiveFeed.tsx:83-108 | a failure leaves the posts and highlights of the last success, and the next success compares against that batch |
| LiveFeed.RefreshUnchanged | src/components/LiveFeed.tsx:89-103 | fetching the same batch again highlights nothing |
| LiveFeed.ElapsedSeconds | src/components/LiveFeed.tsx:9-11 | whole seconds, rounded down, also for a timestamp in the future |
| LiveFeed.FormatTimeAgo | src/components/LiveFeed.tsx:8-17 | seconds below 60 s, minutes below 3600 s, hours below 86400 s, days otherwise (each in both directions); the amount is the whole number of units; minutes lie in [1, 59], hours in [1, 23], days are at least 1 |
| LiveFeed.Decimal | src/components/LiveFeed.tsx:13-16 | the decimal text of a count is a non-empty string of digits without a leading zero |
| LiveFeed.DecimalRoundTrip | src/components/LiveFeed.tsx:13-16 | the decimal text reads back as the number |
| LiveFeed.IntTextRoundTrip | src/components/LiveFeed.tsx:13 | an integer's text, with a minus sign when negative, reads back as the integer |
| LiveFeed.TimeAgoText | src/components/LiveFeed.tsx:13-16 | the rendered "<amount><unit letter> ago" reads back as exactly the amount and unit it was rendered from |
| LiveFeed.FormatTimeAgoText | src/components/LiveFeed.tsx:8-17 | the string `formatTimeAgo` returns reads back as the amount and unit `FormatTimeAgo` chose |
| SubmoltHeatmap.SortedSubmolts | src/components/SubmoltHeatmap.tsx:57-63 | min(60, n) communities, ordered by subscribers with the largest first, all taken from the input |
| SubmoltHeatmap.SortedSubmoltsSelects | src/components/SubmoltHeatmap.tsx:57-63 | min(60, n) communities, by subscribers with the largest first, all from the input; none left out has more subscribers than one kept; ties keep input order |
| SubmoltHeatmap.MaxSubs | src/components/SubmoltHeatmap.tsx:65 | the first kept count when there is one and it is nonzero, else 1; never 0 |
| SubmoltHeatmap.MaxSubsBoundsCounts | src/components/SubmoltHeatmap.tsx:60-65 | a scale taken from a nonzero count is at least every kept count and every input count |
| Scenarios.LeaderboardExample | src/lib/api.ts:103-118 | two posts by X (5 up 1 down, 2 up) give the single row (X, 2 posts, karma 6) |
| Scenarios.GraphExample | src/components/NetworkGraph.tsx:29-84 | the same batch gives agent X of size 9, community m of size 2, and one edge X to m of weight 2 |
| Scenarios.FeedExample | src/components/LiveFeed.tsx:89-103 | ids {1, 2, 3} and then {2, 3, 4}: the first refresh flags all three, the second only 4 |
| Scenarios.TimeAgoExamples | src/components/LiveFeed.tsx:8-17 | 90.5 s ago renders "1m ago", 5 s ahead renders "-5s ago", 200000 s ago renders "2d ago" |

## Left out

- Network fetches (`fetchPosts`, `fetchSubmolts` and the page loader) are
  not modelled. A fetch's outcome is the argument of `Feed.OnSuccess`, or a
  call of `Feed.OnFailure`. The diagnostic `console.error` is dropped.
- Timers are not modelled: the 15-second `setInterval`, its
  `clearInterval` on teardown, and the 3-second `setTimeout`. Each timer
  that fires is a method call. Which call comes after which (a clear from
  an older refresh landing after a newer one, overlapping fetches) is up to
  the caller.
- Random node positions are omitted from `Node`.
- Floating point is not modelled:
  - the logarithmic node radius and edge opacity;
  - the heat ratio and tile size in the heatmap.
- The value of `calculateActivityRate` is kept as an exact fraction, which
  leaves out the floating-point division.
- Dates and the clock: timestamps are integer milliseconds, and the current
  time is a parameter. Unparsable dates (NaN) cannot occur in the model.
- Rendering is not modelled: React, three.js, d3 and framer-motion. This
  includes the label cuts: a tile name cut to eight characters, and a node
  name cut to twelve characters followed by `...`.
- Numeric fields (upvotes, downvotes, subscriber counts, karma, node sizes,
  edge weights) are unbounded integers. In the source they are JavaScript
  numbers, whose sums lose precision beyond 2^53; the model's sums stay
  exact.
- The `!posts` guard of `calculateActivityRate` is left out: a `seq` cannot
  be null.
- The pulse chart's early return on an empty batch is left out. `Buckets`
  of an empty batch is simply empty.
- NetworkGraph.BuildGraph works on values. The component updates the
  shared node and edge objects in place and then sorts the `nodes` array
  in place, inside `Scene`. The model does not capture that aliasing, nor
  the fact that the untrimmed list is reordered.
- GraphFacts.GraphNodeMeaning, GraphFacts.FirstLabelMeaning: the kind,
  name and size of a node are stated only for batches where no id is both
  an author id and a community id (`DisjointIds`). Without that, the shared
  map merges the two nodes; the fold and `BuildGraph` model that merging
  exactly.
- GraphFacts.EdgeWeights, GraphFacts.EveryPairHasEdge,
  GraphFacts.SameKeySamePair: one edge per (author, community) pair is
  proved only under `SeparableAuthorIds` (see above). For other batches
  `BuildGraph` still follows the string key exactly.
- `SubmoltHeatmap.SortedSubmolts`: the source copies the list before
  sorting so that the caller's list is not mutated. Every Dafny sequence is
  a value, so there is nothing to prove about that.
