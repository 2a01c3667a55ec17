/**
 * The two fetchers: `RSSFeedScraper` over a list of feed URLs, and
 * `NitterScraper`, which reads X/Twitter accounts through an ordered list of
 * Nitter mirror instances. `feedparser.parse` is the parameter `parse`, from a
 * URL to what parsing that URL gave; a fetcher's `cutoff` is the
 * `datetime.now() - timedelta(hours=hours_back)` it computed, in epoch seconds.
 */
module Scrapers {
  import opened Opt
  import opened PyText
  import opened Feeds

  /** What `entry.published_parsed` gives once `datetime(*published_parsed[:6])` has been applied. */
  datatype PubDate =
    | Absent            // missing or None
    | Unrepresentable   // a time tuple `datetime` rejects, such as a leap second
    | At(seconds: int)  // a usable time, in epoch seconds

  /** One entry of a parsed feed; each optional field is one `entry.get(...)`. */
  datatype Entry = Entry(published: PubDate, summary: Option<string>, title: Option<string>, link: Option<string>)

  /** The outcome of `feedparser.parse(url)`. */
  datatype ParsedFeed =
    | Raises
    | Parsed(bozo: bool, title: Option<string>, entries: seq<Entry>)

  /** `entry.get('summary', entry.get('title', ''))` */
  function EntryContent(e: Entry): string {
    e.summary.GetOr(e.title.GetOr(""))
  }

  // ---------------------------------------------------------------------------
  // RSSFeedScraper
  // ---------------------------------------------------------------------------

  const RssEntryLimit := 10
  const UnknownRssTitle := "Unknown RSS"

  function RssItem(feedUrl: string, sourceName: string, e: Entry, seconds: int): FeedItem {
    NewFeedItem("rss", sourceName, EntryContent(e), seconds, e.link, map["feed_url" := feedUrl])
  }

  /**
   * The items one feed's entries yield, in entry order. An entry without a
   * usable date raises inside the feed's `try`, which ends that feed: the
   * items before it stay, the entries after it are not read.
   */
  function RssEntryItems(feedUrl: string, sourceName: string, entries: seq<Entry>, cutoff: int): seq<FeedItem>
    decreases |entries|
  {
    if entries == [] then []
    else match entries[0].published
      case At(t) =>
        (if t < cutoff then [] else [RssItem(feedUrl, sourceName, entries[0], t)])
        + RssEntryItems(feedUrl, sourceName, entries[1..], cutoff)
      case _ => []
  }

  function RssFeedItems(feedUrl: string, feed: ParsedFeed, cutoff: int): seq<FeedItem> {
    match feed
    case Raises => []
    case Parsed(_, title, entries) =>
      RssEntryItems(feedUrl, title.GetOr(UnknownRssTitle), Take(entries, RssEntryLimit), cutoff)
  }

  /** What `RSSFeedScraper.fetch` returns: each feed's items, in feed order. */
  function RssItems(feedUrls: seq<string>, parse: string -> ParsedFeed, cutoff: int): seq<FeedItem>
    decreases |feedUrls|
  {
    if feedUrls == [] then []
    else RssFeedItems(feedUrls[0], parse(feedUrls[0]), cutoff) + RssItems(feedUrls[1..], parse, cutoff)
  }

  /** One step of `RssEntryItems` at position `j`. */
  lemma RssEntryStep(feedUrl: string, sourceName: string, entries: seq<Entry>, cutoff: int, j: nat)
    requires j < |entries|
    ensures entries[j..][1..] == entries[j + 1..]
    ensures !entries[j].published.At? ==> RssEntryItems(feedUrl, sourceName, entries[j..], cutoff) == []
    ensures entries[j].published.At? && entries[j].published.seconds < cutoff ==>
      RssEntryItems(feedUrl, sourceName, entries[j..], cutoff) == RssEntryItems(feedUrl, sourceName, entries[j + 1..], cutoff)
    ensures entries[j].published.At? && entries[j].published.seconds >= cutoff ==>
      RssEntryItems(feedUrl, sourceName, entries[j..], cutoff)
      == [RssItem(feedUrl, sourceName, entries[j], entries[j].published.seconds)]
         + RssEntryItems(feedUrl, sourceName, entries[j + 1..], cutoff)
  {
    assert entries[j..][1..] == entries[j + 1..];
  }

  /** One step of `RssItems` at position `i`. */
  lemma RssItemsStep(feedUrls: seq<string>, parse: string -> ParsedFeed, cutoff: int, i: nat)
    requires i < |feedUrls|
    ensures RssItems(feedUrls[i..], parse, cutoff)
      == RssFeedItems(feedUrls[i], parse(feedUrls[i]), cutoff) + RssItems(feedUrls[i + 1..], parse, cutoff)
  {
    assert feedUrls[i..][1..] == feedUrls[i + 1..];
  }

  /** `RSSFeedScraper.fetch`. */
  method FetchRss(feedUrls: seq<string>, parse: string -> ParsedFeed, cutoff: int) returns (items: seq<FeedItem>)
    ensures items == RssItems(feedUrls, parse, cutoff)
  {
    items := [];
    var i := 0;
    while i < |feedUrls|
      invariant 0 <= i <= |feedUrls|
      invariant items + RssItems(feedUrls[i..], parse, cutoff) == RssItems(feedUrls, parse, cutoff)
    {
      var feedUrl := feedUrls[i];
      var feed := parse(feedUrl);
      var got := [];
      if feed.Parsed? {
        got := ReadRssEntries(feedUrl, feed.title.GetOr(UnknownRssTitle), Take(feed.entries, RssEntryLimit), cutoff);
      }
      // otherwise the `except` around the feed reports the failure and moves on
      RssItemsStep(feedUrls, parse, cutoff, i);
      AppendAssoc(items, got, RssItems(feedUrls[i + 1..], parse, cutoff));
      items := items + got;
      i := i + 1;
    }
  }

  /**
   * The entry loop of `RSSFeedScraper.fetch` for one feed: the items it
   * appends before the feed ends or an entry without a date raises.
   */
  method ReadRssEntries(feedUrl: string, sourceName: string, window: seq<Entry>, cutoff: int)
    returns (items: seq<FeedItem>)
    ensures items == RssEntryItems(feedUrl, sourceName, window, cutoff)
  {
    items := [];
    var j := 0;
    var raised := false;  // `datetime(*entry.published_parsed[:6])` raised: the feed's `except` ends it
    assert window[j..] == window;
    while j < |window| && !raised
      invariant 0 <= j <= |window|
      invariant items + RssEntryItems(feedUrl, sourceName, window[j..], cutoff)
                == RssEntryItems(feedUrl, sourceName, window, cutoff)
      invariant raised ==> j < |window| && RssEntryItems(feedUrl, sourceName, window[j..], cutoff) == []
      decreases |window| - j, if raised then 0 else 1
    {
      var entry := window[j];
      RssEntryStep(feedUrl, sourceName, window, cutoff, j);
      if !entry.published.At? {
        raised := true;
      } else {
        var pubDate := entry.published.seconds;
        if pubDate >= cutoff {
          AppendAssoc(items, [RssItem(feedUrl, sourceName, entry, pubDate)],
                      RssEntryItems(feedUrl, sourceName, window[j + 1..], cutoff));
          items := items + [RssItem(feedUrl, sourceName, entry, pubDate)];
        }
        j := j + 1;
      }
    }
    assert RssEntryItems(feedUrl, sourceName, window[j..], cutoff) == [];
    assert items + [] == items;
  }

  /** Fetching two lists of feeds is fetching each, one after the other: no feed affects another's items. */
  lemma {:induction false} RssItemsAppend(a: seq<string>, b: seq<string>, parse: string -> ParsedFeed, cutoff: int)
    ensures RssItems(a + b, parse, cutoff) == RssItems(a, parse, cutoff) + RssItems(b, parse, cutoff)
    decreases |a|
  {
    if a != [] {
      assert (a + b)[1..] == a[1..] + b;
      RssItemsAppend(a[1..], b, parse, cutoff);
    } else {
      assert a + b == b;
    }
  }

  /** A feed whose parse raised contributes nothing. */
  lemma RssFailedFeedIsEmpty(feedUrl: string, cutoff: int)
    ensures RssFeedItems(feedUrl, Raises, cutoff) == []
  {
  }

  predicate Dated(e: Entry) {
    e.published.At?
  }

  /**
   * The first entry without a usable date ends the feed: the result is what
   * the entries before it yield.
   */
  lemma {:induction false} RssStopsAtUndated(feedUrl: string, sourceName: string, entries: seq<Entry>, cutoff: int, k: nat)
    requires k < |entries| && !Dated(entries[k])
    ensures RssEntryItems(feedUrl, sourceName, entries, cutoff) == RssEntryItems(feedUrl, sourceName, entries[..k], cutoff)
    decreases k
  {
    if k > 0 && Dated(entries[0]) {
      assert entries[1..][..k - 1] == entries[..k][1..];
      RssStopsAtUndated(feedUrl, sourceName, entries[1..], cutoff, k - 1);
    }
  }

  /** Every RSS item comes from a dated entry at or after the cutoff. */
  predicate FromRssEntry(x: FeedItem, feedUrl: string, sourceName: string, entries: seq<Entry>, cutoff: int) {
    x.timestamp >= cutoff &&
    exists j | 0 <= j < |entries| ::
      entries[j].published == At(x.timestamp) && x == RssItem(feedUrl, sourceName, entries[j], x.timestamp)
  }

  lemma {:induction false} RssEntryItemsFrom(feedUrl: string, sourceName: string, entries: seq<Entry>, cutoff: int)
    ensures forall x | x in RssEntryItems(feedUrl, sourceName, entries, cutoff) ::
      FromRssEntry(x, feedUrl, sourceName, entries, cutoff)
    decreases |entries|
  {
    if entries != [] && Dated(entries[0]) {
      RssEntryItemsFrom(feedUrl, sourceName, entries[1..], cutoff);
      forall x | x in RssEntryItems(feedUrl, sourceName, entries, cutoff)
        ensures FromRssEntry(x, feedUrl, sourceName, entries, cutoff)
      {
        if x !in RssEntryItems(feedUrl, sourceName, entries[1..], cutoff) {
          assert entries[0].published == At(x.timestamp);
        } else {
          var j :| 0 <= j < |entries[1..]| && entries[1..][j].published == At(x.timestamp)
                   && x == RssItem(feedUrl, sourceName, entries[1..][j], x.timestamp);
          assert entries[j + 1] == entries[1..][j];
        }
      }
    }
  }

  /**
   * Every item of a feed is an "rss" item built from one of the feed's first
   * ten entries, whose date is at or after the cutoff; a feed yields at most
   * ten items.
   */
  lemma RssFeedItemsFacts(feedUrl: string, feed: ParsedFeed, cutoff: int)
    ensures |RssFeedItems(feedUrl, feed, cutoff)| <= RssEntryLimit
    ensures forall x | x in RssFeedItems(feedUrl, feed, cutoff) ::
      feed.Parsed? && x.source == "rss" && x.metadata == map["feed_url" := feedUrl] &&
      FromRssEntry(x, feedUrl, feed.title.GetOr(UnknownRssTitle), Take(feed.entries, RssEntryLimit), cutoff)
  {
    if feed.Parsed? {
      var sourceName := feed.title.GetOr(UnknownRssTitle);
      var window := Take(feed.entries, RssEntryLimit);
      RssEntryItemsFrom(feedUrl, sourceName, window, cutoff);
      RssEntryItemsLength(feedUrl, sourceName, window, cutoff);
    }
  }

  lemma {:induction false} RssEntryItemsLength(feedUrl: string, sourceName: string, entries: seq<Entry>, cutoff: int)
    ensures |RssEntryItems(feedUrl, sourceName, entries, cutoff)| <= |entries|
    decreases |entries|
  {
    if entries != [] {
      RssEntryItemsLength(feedUrl, sourceName, entries[1..], cutoff);
    }
  }

  /**
   * A dated entry among the first ten, with no undated entry before it, is
   * kept exactly when its date is at or after the cutoff; there is no upper
   * bound, so an entry dated in the future is kept.
   */
  lemma {:induction false} RssKeepsEntry(feedUrl: string, sourceName: string, entries: seq<Entry>, cutoff: int, k: nat)
    requires k < |entries| && forall m | 0 <= m <= k :: entries[m].published.At?
    ensures var t := entries[k].published.seconds;
      RssItem(feedUrl, sourceName, entries[k], t) in RssEntryItems(feedUrl, sourceName, entries, cutoff) <==> t >= cutoff
    decreases k
  {
    var t := entries[k].published.seconds;
    var x := RssItem(feedUrl, sourceName, entries[k], t);
    var rest := RssEntryItems(feedUrl, sourceName, entries[1..], cutoff);
    RssMemberCons(feedUrl, sourceName, entries, cutoff, x);
    if k == 0 {
      RssEntryItemsFrom(feedUrl, sourceName, entries[1..], cutoff);
      if x in rest {
        assert FromRssEntry(x, feedUrl, sourceName, entries[1..], cutoff);
      }
    } else {
      RssKeepsEntry(feedUrl, sourceName, entries[1..], cutoff, k - 1);
      assert entries[1..][k - 1] == entries[k];
    }
  }

  /** An item is among a feed's items when the first, dated, entry gives it or the later entries do. */
  lemma RssMemberCons(feedUrl: string, sourceName: string, entries: seq<Entry>, cutoff: int, x: FeedItem)
    requires entries != [] && Dated(entries[0])
    ensures var head := entries[0];
      x in RssEntryItems(feedUrl, sourceName, entries, cutoff) <==>
        (head.published.seconds >= cutoff && x == RssItem(feedUrl, sourceName, head, head.published.seconds))
        || x in RssEntryItems(feedUrl, sourceName, entries[1..], cutoff)
  {
  }

  // ---------------------------------------------------------------------------
  // NitterScraper
  // ---------------------------------------------------------------------------

  const NitterEntryLimit := 20

  /** `NitterScraper._rss_url` */
  function NitterRssUrl(instance: string, account: string): string {
    "https://" + instance + "/" + account + "/rss"
  }

  /** The link as stored: every `https://{instance}` in it becomes `https://x.com`. */
  function RewriteLink(link: string, instance: string): string {
    Replace(link, "https://" + instance, "https://x.com")
  }

  function TweetItem(instance: string, account: string, e: Entry, seconds: int): FeedItem {
    NewFeedItem("twitter", "@" + account, EntryContent(e), seconds,
                Some(RewriteLink(e.link.GetOr(""), instance)), map["nitter_instance" := instance])
  }

  /** What reading one instance's entries did: the items it appended, and whether an entry raised. */
  datatype Attempt = Attempt(items: seq<FeedItem>, raised: bool)

  /**
   * Reads entries in order: an undated entry is skipped, one whose date
   * cannot be represented raises (the items before it stay appended), one
   * before the cutoff is skipped, and the rest become items.
   */
  function TweetRun(instance: string, account: string, entries: seq<Entry>, cutoff: int): Attempt
    decreases |entries|
  {
    if entries == [] then Attempt([], false)
    else match entries[0].published
      case Absent => TweetRun(instance, account, entries[1..], cutoff)
      case Unrepresentable => Attempt([], true)
      case At(t) =>
        var rest := TweetRun(instance, account, entries[1..], cutoff);
        if t < cutoff then rest
        else Attempt([TweetItem(instance, account, entries[0], t)] + rest.items, rest.raised)
  }

  /** `feed.bozo and not feed.entries`, or the parse raised: the instance is passed over unread. */
  predicate Skipped(feed: ParsedFeed) {
    feed.Raises? || (feed.bozo && feed.entries == [])
  }

  function InstanceAttempt(instance: string, account: string, feed: ParsedFeed, cutoff: int): Attempt
    requires !Skipped(feed)
  {
    TweetRun(instance, account, Take(feed.entries, NitterEntryLimit), cutoff)
  }

  /** The instance ends the search: it was read, and no entry raised (however few items it gave). */
  predicate Wins(instance: string, account: string, parse: string -> ParsedFeed, cutoff: int) {
    var feed := parse(NitterRssUrl(instance, account));
    !Skipped(feed) && !InstanceAttempt(instance, account, feed, cutoff).raised
  }

  /** The items one account yields, trying the instances in order until one wins. */
  function AccountItems(instances: seq<string>, account: string, parse: string -> ParsedFeed, cutoff: int): seq<FeedItem>
    decreases |instances|
  {
    if instances == [] then []
    else
      var feed := parse(NitterRssUrl(instances[0], account));
      if Skipped(feed) then AccountItems(instances[1..], account, parse, cutoff)
      else
        var attempt := InstanceAttempt(instances[0], account, feed, cutoff);
        if attempt.raised then attempt.items + AccountItems(instances[1..], account, parse, cutoff)
        else attempt.items
  }

  /** What `NitterScraper.fetch` returns: each account's items, in account order. */
  function NitterItems(instances: seq<string>, accounts: seq<string>, parse: string -> ParsedFeed, cutoff: int): seq<FeedItem>
    decreases |accounts|
  {
    if accounts == [] then []
    else AccountItems(instances, accounts[0], parse, cutoff) + NitterItems(instances, accounts[1..], parse, cutoff)
  }

  /** One step of `TweetRun` at position `j`. */
  lemma TweetRunStep(instance: string, account: string, entries: seq<Entry>, cutoff: int, j: nat)
    requires j < |entries|
    ensures entries[j].published.Absent? ==>
      TweetRun(instance, account, entries[j..], cutoff) == TweetRun(instance, account, entries[j + 1..], cutoff)
    ensures entries[j].published.Unrepresentable? ==>
      TweetRun(instance, account, entries[j..], cutoff) == Attempt([], true)
    ensures entries[j].published.At? && entries[j].published.seconds < cutoff ==>
      TweetRun(instance, account, entries[j..], cutoff) == TweetRun(instance, account, entries[j + 1..], cutoff)
    ensures entries[j].published.At? && entries[j].published.seconds >= cutoff ==>
      var rest := TweetRun(instance, account, entries[j + 1..], cutoff);
      TweetRun(instance, account, entries[j..], cutoff)
      == Attempt([TweetItem(instance, account, entries[j], entries[j].published.seconds)] + rest.items, rest.raised)
  {
    assert entries[j..][1..] == entries[j + 1..];
  }

  /** One step of `AccountItems` at instance `k`. */
  lemma AccountItemsStep(instances: seq<string>, account: string, parse: string -> ParsedFeed, cutoff: int, k: nat)
    requires k < |instances|
    ensures var feed := parse(NitterRssUrl(instances[k], account));
      var rest := AccountItems(instances[k + 1..], account, parse, cutoff);
      AccountItems(instances[k..], account, parse, cutoff)
      == if Skipped(feed) then rest
         else if InstanceAttempt(instances[k], account, feed, cutoff).raised
         then InstanceAttempt(instances[k], account, feed, cutoff).items + rest
         else InstanceAttempt(instances[k], account, feed, cutoff).items
  {
    assert instances[k..][1..] == instances[k + 1..];
  }

  /** One step of `NitterItems` at account `a`. */
  lemma NitterItemsStep(instances: seq<string>, accounts: seq<string>, parse: string -> ParsedFeed, cutoff: int, a: nat)
    requires a < |accounts|
    ensures NitterItems(instances, accounts[a..], parse, cutoff)
      == AccountItems(instances, accounts[a], parse, cutoff) + NitterItems(instances, accounts[a + 1..], parse, cutoff)
  {
    assert accounts[a..][1..] == accounts[a + 1..];
  }

  /** A Nitter URL names its instance and its account: distinct pairs give distinct URLs. */
  lemma NitterRssUrlInjective(i1: string, a1: string, i2: string, a2: string)
    requires '/' !in i1 && '/' !in i2
    ensures NitterRssUrl(i1, a1) == NitterRssUrl(i2, a2) <==> i1 == i2 && a1 == a2
  {
    var u1, u2 := NitterRssUrl(i1, a1), NitterRssUrl(i2, a2);
    var r1, r2 := a1 + "/rss", a2 + "/rss";
    assert u1 == "https://" + (i1 + ['/'] + r1);
    assert u2 == "https://" + (i2 + ['/'] + r2);
    if u1 == u2 {
      assert i1 + ['/'] + r1 == u1[8..] == i2 + ['/'] + r2;
      CutAtChar(i1, r1, i2, r2, '/');
      assert a1 == r1[..|r1| - 4] && a2 == r2[..|r2| - 4];
    }
  }

  /**
   * A link that points at the instance it came from is sent to x.com, with
   * the rest of the link kept (when the instance address does not recur in it).
   */
  lemma RewriteToX(instance: string, path: string)
    requires Find(path, "https://" + instance).None?
    ensures RewriteLink("https://" + instance + path, instance) == "https://x.com" + path
  {
    ReplaceAtStart("https://" + instance, path, "https://x.com");
    ReplaceAbsent(path, "https://" + instance, "https://x.com");
  }

  /** A tweet item as the fetcher builds it for `account` from `instance`. */
  predicate FromTweet(x: FeedItem, instance: string, account: string, cutoff: int) {
    WellFormed(x) && x.source == "twitter" && x.author == "@" + account && x.timestamp >= cutoff
    && x.url.Some? && x.metadata == map["nitter_instance" := instance]
  }

  /**
   * The item was built from one of the entries, dated at or after the cutoff,
   * with the entry's link sent from the instance to x.com.
   */
  predicate FromTweetEntry(x: FeedItem, instance: string, account: string, entries: seq<Entry>, cutoff: int) {
    x.timestamp >= cutoff &&
    exists j | 0 <= j < |entries| ::
      entries[j].published == At(x.timestamp) && x == TweetItem(instance, account, entries[j], x.timestamp)
  }

  /**
   * Reading one instance yields no more items than entries, each a tweet item
   * built from one of the entries read, dated at or after the cutoff, with its
   * link rewritten.
   */
  lemma {:induction false} TweetRunFacts(instance: string, account: string, entries: seq<Entry>, cutoff: int)
    ensures |TweetRun(instance, account, entries, cutoff).items| <= |entries|
    ensures forall x | x in TweetRun(instance, account, entries, cutoff).items ::
      FromTweet(x, instance, account, cutoff) && FromTweetEntry(x, instance, account, entries, cutoff)
    decreases |entries|
  {
    if entries != [] {
      TweetRunFacts(instance, account, entries[1..], cutoff);
      var rest := TweetRun(instance, account, entries[1..], cutoff).items;
      forall x | x in TweetRun(instance, account, entries, cutoff).items
        ensures FromTweet(x, instance, account, cutoff) && FromTweetEntry(x, instance, account, entries, cutoff)
      {
        if x in rest {
          var j :| 0 <= j < |entries[1..]| && entries[1..][j].published == At(x.timestamp)
                   && x == TweetItem(instance, account, entries[1..][j], x.timestamp);
          assert entries[j + 1] == entries[1..][j];
        } else {
          assert entries[0].published == At(x.timestamp);
        }
      }
    }
  }

  /**
   * The first entry whose date cannot be represented ends the instance with
   * an error; the items of the entries before it stay.
   */
  lemma {:induction false} TweetStopsAtUnrepresentable(instance: string, account: string, entries: seq<Entry>, cutoff: int, k: nat)
    requires k < |entries| && entries[k].published.Unrepresentable?
    requires forall m | 0 <= m < k :: !entries[m].published.Unrepresentable?
    ensures !TweetRun(instance, account, entries[..k], cutoff).raised
    ensures TweetRun(instance, account, entries, cutoff) == Attempt(TweetRun(instance, account, entries[..k], cutoff).items, true)
    decreases k
  {
    if k > 0 {
      assert entries[1..][..k - 1] == entries[..k][1..];
      assert entries[..k][0] == entries[0];
      TweetStopsAtUnrepresentable(instance, account, entries[1..], cutoff, k - 1);
    }
  }

  /** The item is a tweet item built from an entry of the window the instance's feed gave for `account`. */
  predicate FromInstance(x: FeedItem, instance: string, account: string, parse: string -> ParsedFeed, cutoff: int) {
    var feed := parse(NitterRssUrl(instance, account));
    FromTweet(x, instance, account, cutoff) &&
    !Skipped(feed) && FromTweetEntry(x, instance, account, Take(feed.entries, NitterEntryLimit), cutoff)
  }

  /**
   * Every item an account yields is a tweet item for that account, at or
   * after the cutoff, built from an entry among the first twenty of one of
   * the configured instances' feeds, and tagged with that instance.
   */
  lemma {:induction false} AccountItemsFacts(instances: seq<string>, account: string, parse: string -> ParsedFeed, cutoff: int)
    ensures forall x | x in AccountItems(instances, account, parse, cutoff) ::
      exists n | 0 <= n < |instances| :: FromInstance(x, instances[n], account, parse, cutoff)
    decreases |instances|
  {
    if instances != [] {
      AccountItemsFacts(instances[1..], account, parse, cutoff);
      var feed := parse(NitterRssUrl(instances[0], account));
      if !Skipped(feed) {
        TweetRunFacts(instances[0], account, Take(feed.entries, NitterEntryLimit), cutoff);
      }
      forall x | x in AccountItems(instances, account, parse, cutoff)
        ensures exists n | 0 <= n < |instances| :: FromInstance(x, instances[n], account, parse, cutoff)
      {
        if x in AccountItems(instances[1..], account, parse, cutoff) {
          var n :| 0 <= n < |instances[1..]| && FromInstance(x, instances[1..][n], account, parse, cutoff);
          assert instances[n + 1] == instances[1..][n];
        } else {
          assert FromInstance(x, instances[0], account, parse, cutoff);
        }
      }
    }
  }

  /** Every item the Nitter fetcher returns is a tweet item of one of the requested accounts. */
  lemma {:induction false} NitterItemsFacts(instances: seq<string>, accounts: seq<string>, parse: string -> ParsedFeed, cutoff: int)
    ensures forall x | x in NitterItems(instances, accounts, parse, cutoff) ::
      x.source == "twitter" && x.timestamp >= cutoff && exists a | 0 <= a < |accounts| :: x.author == "@" + accounts[a]
    decreases |accounts|
  {
    if accounts != [] {
      NitterItemsFacts(instances, accounts[1..], parse, cutoff);
      AccountItemsFacts(instances, accounts[0], parse, cutoff);
      forall x | x in NitterItems(instances, accounts, parse, cutoff)
        ensures x.source == "twitter" && x.timestamp >= cutoff && exists a | 0 <= a < |accounts| :: x.author == "@" + accounts[a]
      {
        if x in NitterItems(instances, accounts[1..], parse, cutoff) {
          var a :| 0 <= a < |accounts[1..]| && x.author == "@" + accounts[1..][a];
          assert accounts[a + 1] == accounts[1..][a];
        } else {
          var n :| 0 <= n < |instances| && FromInstance(x, instances[n], accounts[0], parse, cutoff);
          assert x.author == "@" + accounts[0];
        }
      }
    }
  }

  /** Once an instance wins, the instances listed after it are never consulted. */
  lemma {:induction false} WinnerEndsSearch(instances: seq<string>, more: seq<string>, account: string,
                                           parse: string -> ParsedFeed, cutoff: int, k: nat)
    requires k < |instances| && Wins(instances[k], account, parse, cutoff)
    ensures AccountItems(instances + more, account, parse, cutoff) == AccountItems(instances, account, parse, cutoff)
    decreases k
  {
    assert (instances + more)[0] == instances[0];
    assert (instances + more)[1..] == instances[1..] + more;
    if !Wins(instances[0], account, parse, cutoff) {
      WinnerEndsSearch(instances[1..], more, account, parse, cutoff, k - 1);
    }
  }

  /** The first instance that answers without error is the only one whose items count, along with what failing instances before it appended. */
  lemma FirstWinnerSuffices(instances: seq<string>, account: string, parse: string -> ParsedFeed, cutoff: int, k: nat)
    requires k < |instances| && Wins(instances[k], account, parse, cutoff)
    ensures AccountItems(instances, account, parse, cutoff) == AccountItems(instances[..k + 1], account, parse, cutoff)
  {
    assert instances == instances[..k + 1] + instances[k + 1..];
    WinnerEndsSearch(instances[..k + 1], instances[k + 1..], account, parse, cutoff, k);
  }

  /** When every instance is down (its parse raised, or it parsed as broken and empty), the account yields nothing. */
  lemma {:induction false} AllMirrorsDown(instances: seq<string>, account: string, parse: string -> ParsedFeed, cutoff: int)
    requires forall k | 0 <= k < |instances| :: Skipped(parse(NitterRssUrl(instances[k], account)))
    ensures AccountItems(instances, account, parse, cutoff) == []
    decreases |instances|
  {
    if instances != [] {
      assert Skipped(parse(NitterRssUrl(instances[0], account)));
      assert forall k | 0 <= k < |instances[1..]| :: instances[1..][k] == instances[k + 1];
      AllMirrorsDown(instances[1..], account, parse, cutoff);
    }
  }

  class NitterScraper {
    const instances: seq<string>

    constructor (instances: seq<string>)
      ensures this.instances == instances
    {
      this.instances := instances;
    }

    /** `NitterScraper.fetch`. */
    method Fetch(accounts: seq<string>, parse: string -> ParsedFeed, cutoff: int) returns (items: seq<FeedItem>)
      ensures items == NitterItems(instances, accounts, parse, cutoff)
    {
      items := [];
      var a := 0;
      while a < |accounts|
        invariant 0 <= a <= |accounts|
        invariant items + NitterItems(instances, accounts[a..], parse, cutoff) == NitterItems(instances, accounts, parse, cutoff)
      {
        var got := FetchAccount(accounts[a], parse, cutoff);
        NitterItemsStep(instances, accounts, parse, cutoff, a);
        AppendAssoc(items, got, NitterItems(instances, accounts[a + 1..], parse, cutoff));
        items := items + got;
        a := a + 1;
      }
    }

    /**
     * The instance loop of `NitterScraper.fetch` for one account: the items it
     * appends, trying the instances in order until one is read without error.
     */
    method FetchAccount(account: string, parse: string -> ParsedFeed, cutoff: int) returns (items: seq<FeedItem>)
      ensures items == AccountItems(instances, account, parse, cutoff)
    {
      items := [];
      var fetched := false;
      var k := 0;
      while k < |instances| && !fetched
        invariant 0 <= k <= |instances|
        invariant items + (if fetched then [] else AccountItems(instances[k..], account, parse, cutoff))
                  == AccountItems(instances, account, parse, cutoff)
        decreases |instances| - k, if fetched then 0 else 1
      {
        var instance := instances[k];
        var url := NitterRssUrl(instance, account);
        var feed := parse(url);
        AccountItemsStep(instances, account, parse, cutoff, k);
        ghost var rest := AccountItems(instances[k + 1..], account, parse, cutoff);
        if feed.Raises? || (feed.bozo && |feed.entries| == 0) {
          // a raising parse is reported by the `except` clause; either way the next instance is tried
          assert AccountItems(instances[k..], account, parse, cutoff) == rest;
          k := k + 1;
        } else {
          var got, raised := ReadEntries(instance, account, Take(feed.entries, NitterEntryLimit), cutoff);
          assert Attempt(got, raised) == InstanceAttempt(instance, account, feed, cutoff);
          if raised {
            // the `except` clause reports the failure and the next instance is tried
            assert AccountItems(instances[k..], account, parse, cutoff) == got + rest;
            AppendAssoc(items, got, rest);
            k := k + 1;
          } else {
            assert AccountItems(instances[k..], account, parse, cutoff) == got;
            fetched := true;
          }
          items := items + got;
        }
      }
      // when no instance wins, `fetch` only reports it
      assert !fetched ==> instances[k..] == [];
    }
  }

  /**
   * The entry loop of `NitterScraper.fetch` for one instance: the items it
   * appends, and whether an entry raised (the items before it stay appended).
   */
  method ReadEntries(instance: string, account: string, window: seq<Entry>, cutoff: int)
    returns (items: seq<FeedItem>, raised: bool)
    ensures Attempt(items, raised) == TweetRun(instance, account, window, cutoff)
  {
    ghost var attempt := TweetRun(instance, account, window, cutoff);
    items := [];
    raised := false;
    var j := 0;
    assert window[j..] == window;
    while j < |window| && !raised
      invariant 0 <= j <= |window|
      invariant !raised ==> items + TweetRun(instance, account, window[j..], cutoff).items == attempt.items
      invariant !raised ==> TweetRun(instance, account, window[j..], cutoff).raised == attempt.raised
      invariant raised ==> items == attempt.items && attempt.raised
      decreases |window| - j, if raised then 0 else 1
    {
      var entry := window[j];
      TweetRunStep(instance, account, window, cutoff, j);
      match entry.published {
        case Absent =>
          j := j + 1;
        case Unrepresentable =>
          // `datetime(*entry.published_parsed[:6])` raises
          raised := true;
        case At(pubDate) =>
          if pubDate >= cutoff {
            var link := entry.link.GetOr("");
            link := Replace(link, "https://" + instance, "https://x.com");
            ghost var next := TweetRun(instance, account, window[j + 1..], cutoff).items;
            AppendAssoc(items, [TweetItem(instance, account, entry, pubDate)], next);
            items := items + [NewFeedItem("twitter", "@" + account, EntryContent(entry), pubDate,
                                          Some(link), map["nitter_instance" := instance])];
          }
          j := j + 1;
      }
    }
    assert !raised ==> window[j..] == [];
  }
}
