/**
 * The live post feed: the highlight bookkeeping of its periodic refresh, and
 * the relative timestamp shown on every card.
 *
 * The fetch itself and the timers around it are not modelled: a refresh that
 * fetched a batch is a call of `Feed.OnSuccess` with that batch, one whose
 * fetch threw is a call of `Feed.OnFailure`, and the timer that clears the
 * highlights three seconds later is a call of `Feed.ClearHighlights`.
 */
module LiveFeed {
  import opened Folds
  import opened Api

  function PostId(p: Post): string { p.id }

  /** The ids of a batch: `new Set(posts.map((p) => p.id))`. */
  function BatchIds(batch: seq<Post>): set<string> {
    KeySet(batch, PostId)
  }

  /**
   * The "truly new" ids of a refresh: the ids of the batch that the previous
   * refresh did not show.
   */
  method FindNewIds(prev: set<string>, batch: seq<Post>) returns (newIds: set<string>)
    ensures newIds == BatchIds(batch) - prev
  {
    newIds := {};
    for i := 0 to |batch|
      invariant newIds == BatchIds(batch[..i]) - prev
    {
      if batch[i].id !in prev {
        newIds := newIds + {batch[i].id};
      }
      KeySetSnoc(batch[..i + 1], PostId);
      assert batch[..i + 1][..i] == batch[..i];
    }
    assert batch[..|batch|] == batch;
  }

  /** The state of the feed component. */
  class Feed {
    /** The posts on screen: the batch of the last successful refresh. */
    var posts: seq<Post>
    /** The ids drawn highlighted. */
    var newPostIds: set<string>
    /** Whether the skeleton placeholder is still shown. */
    var isLoading: bool
    /** The ids of the last successful batch, kept across refreshes. */
    var prevPostIds: set<string>

    /**
     * The feed remembers the ids of exactly the posts on screen, and only
     * posts on screen are highlighted.
     */
    predicate Valid()
      reads this
    {
      prevPostIds == BatchIds(posts) && newPostIds <= prevPostIds
    }

    /** Mounting: no posts, nothing highlighted, still loading. */
    constructor()
      ensures Valid()
      ensures posts == [] && newPostIds == {} && prevPostIds == {} && isLoading
    {
      posts := [];
      newPostIds := {};
      isLoading := true;
      prevPostIds := {};
    }

    /**
     * A refresh whose fetch returned `batch`: highlight the ids the previous
     * batch did not have, show the batch, and remember its ids in place of
     * the old ones.
     */
    method OnSuccess(batch: seq<Post>)
      requires Valid()
      modifies this
      ensures Valid()
      ensures newPostIds == BatchIds(batch) - old(prevPostIds)
      ensures posts == batch
      ensures prevPostIds == BatchIds(batch)
      ensures !isLoading
    {
      var newIds := FindNewIds(prevPostIds, batch);
      newPostIds := newIds;
      posts := batch;
      prevPostIds := BatchIds(batch);
      isLoading := false;
    }

    /** A refresh whose fetch threw: only the loading flag goes down. */
    method OnFailure()
      requires Valid()
      modifies this`isLoading
      ensures Valid()
      ensures !isLoading
    {
      isLoading := false;
    }

    /** The timer three seconds after a success: drop every highlight. */
    method ClearHighlights()
      requires Valid()
      modifies this`newPostIds
      ensures Valid()
      ensures newPostIds == {}
    {
      newPostIds := {};
    }
  }

  /** The first refresh after mounting highlights every post of its batch. */
  method FirstRefresh(batch: seq<Post>) returns (highlighted: set<string>, loading: bool)
    ensures highlighted == BatchIds(batch)
    ensures !loading
  {
    var feed := new Feed();
    feed.OnSuccess(batch);
    highlighted := feed.newPostIds;
    loading := feed.isLoading;
  }

  /**
   * Three successful refreshes: the third highlights what the second batch
   * lacked, whatever the first one held, because the remembered ids are
   * replaced and not accumulated.
   */
  method ThreeRefreshes(b1: seq<Post>, b2: seq<Post>, b3: seq<Post>) returns (highlighted: set<string>)
    ensures highlighted == BatchIds(b3) - BatchIds(b2)
  {
    var feed := new Feed();
    feed.OnSuccess(b1);
    feed.OnSuccess(b2);
    feed.OnSuccess(b3);
    highlighted := feed.newPostIds;
  }

  /**
   * A refresh that fails between two successes leaves the first batch on
   * screen, and the next success compares against that batch.
   */
  method RefreshFailsInBetween(b1: seq<Post>, b2: seq<Post>)
    returns (shownAfterFailure: seq<Post>, highlightedAfterFailure: set<string>, highlighted: set<string>)
    ensures shownAfterFailure == b1
    ensures highlightedAfterFailure == BatchIds(b1)
    ensures highlighted == BatchIds(b2) - BatchIds(b1)
  {
    var feed := new Feed();
    feed.OnSuccess(b1);
    feed.OnFailure();
    shownAfterFailure := feed.posts;
    highlightedAfterFailure := feed.newPostIds;
    feed.OnSuccess(b2);
    highlighted := feed.newPostIds;
  }

  /** Fetching the same batch twice highlights nothing the second time. */
  method RefreshUnchanged(batch: seq<Post>) returns (highlighted: set<string>)
    ensures highlighted == {}
  {
    var feed := new Feed();
    feed.OnSuccess(batch);
    feed.ClearHighlights();
    feed.OnSuccess(batch);
    highlighted := feed.newPostIds;
  }

  // ---------------------------------------------------------------------
  // Relative timestamps

  datatype TimeUnit = Seconds | Minutes | Hours | Days

  /** `amount` units ago. */
  datatype TimeAgo = TimeAgo(amount: int, unit: TimeUnit)

  /** The length of one unit, in seconds. */
  function UnitSeconds(u: TimeUnit): nat {
    match u
    case Seconds => 1
    case Minutes => 60
    case Hours => 3600
    case Days => 86400
  }

  /**
   * Whole seconds from `createdMs` to `nowMs`, rounded down (`Math.floor` of
   * the millisecond difference over 1000); negative for a post stamped in
   * the future.
   */
  function ElapsedSeconds(nowMs: int, createdMs: int): (s: int)
    ensures 1000 * s <= nowMs - createdMs < 1000 * (s + 1)
  {
    (nowMs - createdMs) / 1000
  }

  /**
   * `formatTimeAgo` before rendering: the largest unit among seconds,
   * minutes, hours and days that the elapsed time reaches, and the whole
   * number of those units. A time in the future lands in the seconds form
   * with a negative amount.
   */
  function FormatTimeAgo(nowMs: int, createdMs: int): (t: TimeAgo)
    ensures t.unit == Seconds <==> ElapsedSeconds(nowMs, createdMs) < 60
    ensures t.unit == Minutes <==> 60 <= ElapsedSeconds(nowMs, createdMs) < 3600
    ensures t.unit == Hours <==> 3600 <= ElapsedSeconds(nowMs, createdMs) < 86400
    ensures t.unit == Days <==> 86400 <= ElapsedSeconds(nowMs, createdMs)
    ensures t.unit == Seconds ==> t.amount == ElapsedSeconds(nowMs, createdMs)
    ensures UnitSeconds(t.unit) * t.amount <= ElapsedSeconds(nowMs, createdMs)
              < UnitSeconds(t.unit) * (t.amount + 1)
    ensures t.unit == Minutes ==> 1 <= t.amount <= 59
    ensures t.unit == Hours ==> 1 <= t.amount <= 23
    ensures t.unit == Days ==> t.amount >= 1
  {
    var seconds := ElapsedSeconds(nowMs, createdMs);
    if seconds < 60 then TimeAgo(seconds, Seconds)
    else if seconds < 3600 then TimeAgo(seconds / 60, Minutes)
    else if seconds < 86400 then TimeAgo(seconds / 3600, Hours)
    else TimeAgo(seconds / 86400, Days)
  }

  // ---------------------------------------------------------------------
  // Rendering: `${amount}s ago`, `${amount}m ago`, `${amount}h ago`, `${amount}d ago`

  function Suffix(u: TimeUnit): char {
    match u
    case Seconds => 's'
    case Minutes => 'm'
    case Hours => 'h'
    case Days => 'd'
  }

  function DigitChar(d: nat): char
    requires d < 10
  {
    "0123456789"[d]
  }

  predicate IsDigit(c: char) { '0' <= c <= '9' }

  function DigitValue(c: char): nat
    requires IsDigit(c)
  {
    (c as int - '0' as int) as nat
  }

  /** A natural number in decimal, without leading zeros. */
  function Decimal(n: nat): (r: string)
    ensures |r| >= 1
    ensures forall i :: 0 <= i < |r| ==> IsDigit(r[i])
    ensures r[0] == '0' ==> n == 0
  {
    if n < 10 then [DigitChar(n)]
    else Decimal(n / 10) + [DigitChar(n % 10)]
  }

  /** How a JavaScript template literal writes an integer. */
  function IntText(n: int): string {
    if n < 0 then "-" + Decimal(-n) else Decimal(n)
  }

  /**
   * The text of a card's timestamp, "<amount><unit letter> ago"; it
   * determines the amount and the unit it was rendered from.
   */
  function TimeAgoText(t: TimeAgo): (text: string)
    ensures ParseTimeAgo(text) == Some(t)
  {
    var num := IntText(t.amount);
    var text := num + [Suffix(t.unit)] + " ago";
    assert text[|text| - 4..] == " ago";
    assert text[|text| - 5] == Suffix(t.unit);
    assert text[..|text| - 5] == num;
    IntTextRoundTrip(t.amount);
    text
  }

  /**
   * `formatTimeAgo`, with the clock passed in: the text on a card reads back
   * as the amount and unit `FormatTimeAgo` chose.
   */
  function FormatTimeAgoText(nowMs: int, createdMs: int): (text: string)
    ensures ParseTimeAgo(text) == Some(FormatTimeAgo(nowMs, createdMs))
  {
    TimeAgoText(FormatTimeAgo(nowMs, createdMs))
  }

  /** The number a string of digits denotes. */
  function DigitsValue(s: string): nat
    requires forall i :: 0 <= i < |s| ==> IsDigit(s[i])
  {
    if s == [] then 0 else DigitsValue(s[..|s| - 1]) * 10 + DigitValue(s[|s| - 1])
  }

  function UnitOf(c: char): Option<TimeUnit> {
    if c == 's' then Some(Seconds)
    else if c == 'm' then Some(Minutes)
    else if c == 'h' then Some(Hours)
    else if c == 'd' then Some(Days)
    else None
  }

  /** Reads a number in the form `IntText` writes. */
  function ParseInt(s: string): Option<int> {
    if s != [] && s[0] == '-' then
      if |s| >= 2 && forall i :: 1 <= i < |s| ==> IsDigit(s[i]) then Some(-(DigitsValue(s[1..]) as int)) else None
    else if s != [] && forall i :: 0 <= i < |s| ==> IsDigit(s[i]) then Some(DigitsValue(s) as int)
    else None
  }

  /** Reads a timestamp text back into its amount and unit. */
  function ParseTimeAgo(text: string): Option<TimeAgo> {
    if |text| < 5 || text[|text| - 4..] != " ago" then None
    else
      var unit := UnitOf(text[|text| - 5]);
      var amount := ParseInt(text[..|text| - 5]);
      if unit.Some? && amount.Some? then Some(TimeAgo(amount.value, unit.value)) else None
  }

  /** Decimal digits read back to the number they were written from. */
  lemma {:induction false} DecimalRoundTrip(n: nat)
    ensures DigitsValue(Decimal(n)) == n
  {
    if n >= 10 {
      var r := Decimal(n);
      assert r[..|r| - 1] == Decimal(n / 10);
      DecimalRoundTrip(n / 10);
    }
  }

  lemma IntTextRoundTrip(n: int)
    ensures ParseInt(IntText(n)) == Some(n)
  {
    if n < 0 {
      var d := Decimal(-n);
      assert ("-" + d)[1..] == d;
      DecimalRoundTrip(-n);
    } else {
      DecimalRoundTrip(n);
    }
  }
}
