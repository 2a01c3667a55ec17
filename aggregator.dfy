/**
 * `RedHoodAggregator.run`: fetch RSS and X/Twitter items, merge them, order
 * them newest first, and extract narratives from the first few; and the
 * entropy-risk band `_print_summary` shows for each narrative.
 */
module Aggregator {
  import opened Opt
  import opened PyText
  import opened Feeds
  import opened Scrapers
  import opened Extraction

  // ---------------------------------------------------------------------------
  // Newest-first stable ordering
  // ---------------------------------------------------------------------------

  predicate NewestFirst(s: seq<FeedItem>) {
    forall i, j | 0 <= i < j < |s| :: s[i].timestamp >= s[j].timestamp
  }

  /** The items of `s` stamped `t`, in their order in `s`. */
  function AtTime(s: seq<FeedItem>, t: int): seq<FeedItem>
    decreases |s|
  {
    if s == [] then [] else (if s[0].timestamp == t then [s[0]] else []) + AtTime(s[1..], t)
  }

  /** Places `x` after every item strictly newer than it and before the rest. */
  function InsertByTime(x: FeedItem, s: seq<FeedItem>): seq<FeedItem>
    decreases |s|
  {
    if s == [] || s[0].timestamp <= x.timestamp then [x] + s
    else [s[0]] + InsertByTime(x, s[1..])
  }

  /**
   * `list.sort(key=lambda x: x.timestamp, reverse=True)`: newest first, and
   * items with equal timestamps keep their relative order.
   */
  function SortNewestFirst(xs: seq<FeedItem>): seq<FeedItem>
    decreases |xs|
  {
    if xs == [] then [] else InsertByTime(xs[0], SortNewestFirst(xs[1..]))
  }

  lemma {:induction false} AtTimeAppend(a: seq<FeedItem>, b: seq<FeedItem>, t: int)
    ensures AtTime(a + b, t) == AtTime(a, t) + AtTime(b, t)
    decreases |a|
  {
    if a == [] {
      assert a + b == b;
    } else {
      assert (a + b)[0] == a[0];
      assert (a + b)[1..] == a[1..] + b;
      AtTimeAppend(a[1..], b, t);
      AppendAssoc(if a[0].timestamp == t then [a[0]] else [], AtTime(a[1..], t), AtTime(b, t));
    }
  }

  lemma {:induction false} InsertByTimeMultiset(x: FeedItem, s: seq<FeedItem>)
    ensures multiset(InsertByTime(x, s)) == multiset(s) + multiset{x}
    decreases |s|
  {
    if s != [] && s[0].timestamp > x.timestamp {
      InsertByTimeMultiset(x, s[1..]);
      assert s == [s[0]] + s[1..];
    }
  }

  /** A newest-first item is not older than anything after it. */
  lemma HeadNewest(s: seq<FeedItem>, y: FeedItem)
    requires NewestFirst(s) && s != [] && y in multiset(s[1..])
    ensures s[0].timestamp >= y.timestamp
  {
    var m :| 0 <= m < |s[1..]| && s[1..][m] == y;
    assert s[m + 1] == y;
  }

  /** An item not older than anything in a newest-first list can be put in front of it. */
  lemma ConsNewestFirst(a: FeedItem, r: seq<FeedItem>)
    requires NewestFirst(r)
    requires forall k | 0 <= k < |r| :: a.timestamp >= r[k].timestamp
    ensures NewestFirst([a] + r)
  {
    var w := [a] + r;
    forall i, j | 0 <= i < j < |w| ensures w[i].timestamp >= w[j].timestamp {
      assert w[j] == r[j - 1];
      if i > 0 {
        assert w[i] == r[i - 1];
      }
    }
  }

  lemma {:induction false} InsertByTimeSorted(x: FeedItem, s: seq<FeedItem>)
    requires NewestFirst(s)
    ensures NewestFirst(InsertByTime(x, s))
    decreases |s|
  {
    if s == [] || s[0].timestamp <= x.timestamp {
      ConsNewestFirst(x, s);
    } else {
      var rest := InsertByTime(x, s[1..]);
      InsertByTimeSorted(x, s[1..]);
      InsertByTimeMultiset(x, s[1..]);
      forall k | 0 <= k < |rest| ensures s[0].timestamp >= rest[k].timestamp {
        var y := rest[k];
        assert y in multiset(rest);
        if y != x {
          HeadNewest(s, y);
        }
      }
      ConsNewestFirst(s[0], rest);
    }
  }

  lemma AtTimeCons(a: FeedItem, rest: seq<FeedItem>, t: int)
    ensures AtTime([a] + rest, t) == (if a.timestamp == t then [a] else []) + AtTime(rest, t)
  {
    assert ([a] + rest)[0] == a && ([a] + rest)[1..] == rest;
  }

  lemma {:induction false} InsertByTimeAtTime(x: FeedItem, s: seq<FeedItem>, t: int)
    ensures AtTime(InsertByTime(x, s), t) == (if x.timestamp == t then [x] else []) + AtTime(s, t)
    decreases |s|
  {
    if s == [] || s[0].timestamp <= x.timestamp {
      AtTimeCons(x, s, t);
    } else {
      InsertByTimeAtTime(x, s[1..], t);
      AtTimeCons(s[0], InsertByTime(x, s[1..]), t);
      AtTimeCons(s[0], s[1..], t);
      assert [s[0]] + s[1..] == s;
    }
  }

  /**
   * The ordering is newest first, a permutation of its input, and stable:
   * for every timestamp, the items stamped with it appear in input order.
   */
  lemma {:induction false} SortNewestFirstFacts(xs: seq<FeedItem>)
    ensures NewestFirst(SortNewestFirst(xs))
    ensures multiset(SortNewestFirst(xs)) == multiset(xs)
    ensures forall t :: AtTime(SortNewestFirst(xs), t) == AtTime(xs, t)
  {
    SortNewestFirstSorted(xs);
    SortNewestFirstPermutes(xs);
    forall t ensures AtTime(SortNewestFirst(xs), t) == AtTime(xs, t) {
      SortNewestFirstStable(xs, t);
    }
  }

  lemma {:induction false} SortNewestFirstSorted(xs: seq<FeedItem>)
    ensures NewestFirst(SortNewestFirst(xs))
    decreases |xs|
  {
    if xs != [] {
      SortNewestFirstSorted(xs[1..]);
      InsertByTimeSorted(xs[0], SortNewestFirst(xs[1..]));
    }
  }

  lemma {:induction false} SortNewestFirstPermutes(xs: seq<FeedItem>)
    ensures multiset(SortNewestFirst(xs)) == multiset(xs)
    decreases |xs|
  {
    if xs != [] {
      SortNewestFirstPermutes(xs[1..]);
      InsertByTimeMultiset(xs[0], SortNewestFirst(xs[1..]));
      assert xs == [xs[0]] + xs[1..];
    }
  }

  lemma {:induction false} SortNewestFirstStable(xs: seq<FeedItem>, t: int)
    ensures AtTime(SortNewestFirst(xs), t) == AtTime(xs, t)
    decreases |xs|
  {
    if xs != [] {
      SortNewestFirstStable(xs[1..], t);
      InsertByTimeAtTime(xs[0], SortNewestFirst(xs[1..]), t);
      AtTimeCons(xs[0], xs[1..], t);
      assert xs == [xs[0]] + xs[1..];
    }
  }

  // ---------------------------------------------------------------------------
  // Configuration and the run
  // ---------------------------------------------------------------------------

  /** The part of `Config` the run reads. */
  datatype Config = Config(
    substackFeeds: seq<string>,
    twitterAccounts: seq<string>,
    nitterInstances: seq<string>,
    maxFeedsToProcess: int)

  const DefaultConfig := Config(
    ["https://arbitrageandy.substack.com/feed",
     "https://doomberg.substack.com/feed",
     "https://noahpinion.substack.com/feed"],
    ["unusual_whales", "FirstSquawk", "AutismCapital"],
    ["nitter.poast.org", "nitter.privacydev.net", "nitter.net"],
    50)

  /** The `feeds` and `narratives` of the dictionary `run` returns. */
  datatype RunResult = RunResult(feeds: seq<FeedItem>, narratives: seq<Narrative>)

  /**
   * What `run` returns: nothing at all when neither fetcher found an item;
   * otherwise every item found, newest first, and the narratives extracted
   * from the first `maxFeedsToProcess` of them.
   */
  function RunOutcome(config: Config, parse: string -> ParsedFeed, rssCutoff: int, twitterCutoff: int,
                      formatTime: int -> string, complete: string -> Option<string>,
                      decode: string -> Option<Json>): RunResult
  {
    var all := RssItems(config.substackFeeds, parse, rssCutoff)
               + NitterItems(config.nitterInstances, config.twitterAccounts, parse, twitterCutoff);
    if all == [] then RunResult([], [])
    else
      var sorted := SortNewestFirst(all);
      RunResult(sorted, ExtractedNarratives(sorted, config.maxFeedsToProcess, formatTime, complete, decode))
  }

  /**
   * What `run` hands back once its results `r` are saved: `r` when
   * `_print_summary` gets through every narrative, None when it raises.
   */
  function Returned(r: RunResult): Option<RunResult> {
    if SummaryPrints(r.narratives) then Some(r) else None
  }

  /**
   * `run` returns its results exactly when every narrative prints; results
   * without a narrative are always returned, and one narrative whose
   * `entropy_risk` is text or null makes the run raise.
   */
  lemma ReturnedFacts(r: RunResult)
    ensures Returned(r).Some? <==> forall n | n in r.narratives :: Printable(n)
    ensures Returned(r).Some? ==> Returned(r).value == r
    ensures r.narratives == [] ==> Returned(r) == Some(r)
    ensures (exists n | n in r.narratives :: n.entropyRisk.JStr? || n.entropyRisk.JNull?) ==> Returned(r).None?
  {
    if forall n | n in r.narratives :: Printable(n) {
      forall k | 0 <= k < |r.narratives| ensures Printable(r.narratives[k]) {
        assert r.narratives[k] in r.narratives;
      }
    }
  }

  /** Every RSS item is an "rss" item at or after the cutoff. */
  lemma {:induction false} RssItemsFacts(feedUrls: seq<string>, parse: string -> ParsedFeed, cutoff: int)
    ensures forall x | x in RssItems(feedUrls, parse, cutoff) :: x.source == "rss" && x.timestamp >= cutoff
    decreases |feedUrls|
  {
    if feedUrls != [] {
      RssFeedItemsFacts(feedUrls[0], parse(feedUrls[0]), cutoff);
      RssItemsFacts(feedUrls[1..], parse, cutoff);
    }
  }

  /**
   * The run keeps every item either fetcher found (no cap) and orders them
   * newest first with ties in fetch order: RSS items before tweets, each in
   * the order its fetcher produced them. When nothing was found it returns
   * nothing.
   */
  lemma RunOrdering(config: Config, parse: string -> ParsedFeed, rssCutoff: int, twitterCutoff: int,
                    formatTime: int -> string, complete: string -> Option<string>, decode: string -> Option<Json>)
    ensures var rss := RssItems(config.substackFeeds, parse, rssCutoff);
      var tweets := NitterItems(config.nitterInstances, config.twitterAccounts, parse, twitterCutoff);
      var r := RunOutcome(config, parse, rssCutoff, twitterCutoff, formatTime, complete, decode);
      (rss + tweets == [] ==> r == RunResult([], [])) &&
      NewestFirst(r.feeds) &&
      multiset(r.feeds) == multiset(rss + tweets) &&
      (forall t :: AtTime(r.feeds, t) == AtTime(rss, t) + AtTime(tweets, t))
  {
    var rss := RssItems(config.substackFeeds, parse, rssCutoff);
    var tweets := NitterItems(config.nitterInstances, config.twitterAccounts, parse, twitterCutoff);
    var all := rss + tweets;
    forall t ensures AtTime(all, t) == AtTime(rss, t) + AtTime(tweets, t) {
      AtTimeAppend(rss, tweets, t);
    }
    SortNewestFirstFacts(all);
  }

  /**
   * Every returned item is an RSS item at or after the RSS cutoff or a tweet
   * at or after the X/Twitter cutoff.
   */
  lemma RunSources(config: Config, parse: string -> ParsedFeed, rssCutoff: int, twitterCutoff: int,
                   formatTime: int -> string, complete: string -> Option<string>, decode: string -> Option<Json>)
    ensures forall x | x in RunOutcome(config, parse, rssCutoff, twitterCutoff, formatTime, complete, decode).feeds ::
      (x.source == "rss" && x.timestamp >= rssCutoff) || (x.source == "twitter" && x.timestamp >= twitterCutoff)
  {
    var rss := RssItems(config.substackFeeds, parse, rssCutoff);
    var tweets := NitterItems(config.nitterInstances, config.twitterAccounts, parse, twitterCutoff);
    var all := rss + tweets;
    var r := RunOutcome(config, parse, rssCutoff, twitterCutoff, formatTime, complete, decode);
    if all != [] {
      RssItemsFacts(config.substackFeeds, parse, rssCutoff);
      NitterItemsFacts(config.nitterInstances, config.twitterAccounts, parse, twitterCutoff);
      SortNewestFirstFacts(all);
      forall x | x in r.feeds
        ensures (x.source == "rss" && x.timestamp >= rssCutoff) || (x.source == "twitter" && x.timestamp >= twitterCutoff)
      {
        assert x in multiset(r.feeds);
        assert x in all;
      }
    }
  }

  /**
   * Every narrative cites only items among the first `maxFeedsToProcess`
   * returned (the first 50 with the default configuration).
   */
  lemma RunCitations(config: Config, parse: string -> ParsedFeed, rssCutoff: int, twitterCutoff: int,
                     formatTime: int -> string, complete: string -> Option<string>, decode: string -> Option<Json>)
    ensures var r := RunOutcome(config, parse, rssCutoff, twitterCutoff, formatTime, complete, decode);
      forall n, id | n in r.narratives && id in n.supportingFeeds ::
        exists j | 0 <= j < |Take(r.feeds, config.maxFeedsToProcess)| :: id == r.feeds[j].id
    ensures config == DefaultConfig ==>
      var r := RunOutcome(config, parse, rssCutoff, twitterCutoff, formatTime, complete, decode);
      |Take(r.feeds, config.maxFeedsToProcess)| <= 50
  {
    var r := RunOutcome(config, parse, rssCutoff, twitterCutoff, formatTime, complete, decode);
    ExtractionFacts(r.feeds, config.maxFeedsToProcess, formatTime, complete, decode);
  }

  class RedHoodAggregator {
    const config: Config
    const twitterScraper: NitterScraper

    /** The fetcher for X/Twitter reads through the configured instances. */
    predicate Valid() {
      twitterScraper.instances == config.nitterInstances
    }

    constructor ()
      ensures config == DefaultConfig && Valid()
    {
      config := DefaultConfig;
      twitterScraper := new NitterScraper(DefaultConfig.nitterInstances);
    }

    /**
     * `run`. Each fetcher's cutoff is its own `datetime.now() - hours_back`;
     * the accounts come from the configuration, never from the account
     * registry.
     */
    method Run(parse: string -> ParsedFeed, rssCutoff: int, twitterCutoff: int, formatTime: int -> string,
               complete: string -> Option<string>, decode: string -> Option<Json>)
      returns (result: Option<RunResult>)
      requires Valid()
      ensures result == Returned(RunOutcome(config, parse, rssCutoff, twitterCutoff, formatTime, complete, decode))
    {
      var allFeeds: seq<FeedItem> := [];
      var rssFeeds := FetchRss(config.substackFeeds, parse, rssCutoff);
      allFeeds := allFeeds + rssFeeds;
      var twitterFeeds := twitterScraper.Fetch(config.twitterAccounts, parse, twitterCutoff);
      allFeeds := allFeeds + twitterFeeds;
      assert allFeeds == rssFeeds + twitterFeeds;
      if |allFeeds| == 0 {
        return Some(RunResult([], []));
      }
      allFeeds := SortNewestFirst(allFeeds);
      var narratives := ExtractNarratives(allFeeds, config.maxFeedsToProcess, formatTime, complete, decode);
      // the results are saved here, before the summary
      var printed := PrintSummary(narratives);
      if !printed {
        return None;
      }
      result := Some(RunResult(allFeeds, narratives));
    }
  }

  // ---------------------------------------------------------------------------
  // Entropy-risk band
  // ---------------------------------------------------------------------------

  datatype Band = Low | Medium | High

  function Rank(b: Band): nat {
    match b
    case Low => 0
    case Medium => 1
    case High => 2
  }

  /** At most 3 is low, at most 7 medium, anything above high. */
  function RiskBand(risk: real): Band {
    if risk <= 3.0 then Low else if risk <= 7.0 then Medium else High
  }

  /**
   * The band shown for a narrative's `entropy_risk` as decoded: a number (a
   * bool counts as 0 or 1) is banded whatever its range; anything else does
   * not compare with 3 and raises.
   */
  function EntropyLevel(risk: Json): Option<Band> {
    match risk
    case JInt(v) => Some(RiskBand(v as real))
    case JReal(r) => Some(RiskBand(r))
    case JBool(b) => Some(RiskBand(if b then 1.0 else 0.0))
    case _ => None
  }

  /**
   * `', '.join(catalysts)` gets through: a list of strings, or a string or a
   * dict, which iterate over characters and keys; anything else raises.
   */
  predicate Joinable(catalysts: Json) {
    match catalysts
    case JArr(xs) => forall k | 0 <= k < |xs| :: xs[k].JStr?
    case JStr(_) => true
    case JObj(_) => true
    case _ => false
  }

  /** `_print_summary` gets through a narrative: its risk is banded and its catalysts join. */
  predicate Printable(n: Narrative) {
    EntropyLevel(n.entropyRisk).Some? && Joinable(n.catalysts)
  }

  predicate SummaryPrints(narratives: seq<Narrative>) {
    forall k | 0 <= k < |narratives| :: Printable(narratives[k])
  }

  /**
   * The loop of `_print_summary`, printing aside: whether it gets through
   * every narrative without raising.
   */
  method PrintSummary(narratives: seq<Narrative>) returns (printed: bool)
    ensures printed <==> forall k | 0 <= k < |narratives| :: EntropyLevel(narratives[k].entropyRisk).Some?
                                                          && Joinable(narratives[k].catalysts)
  {
    printed := true;
    var i := 0;
    while i < |narratives| && printed
      invariant 0 <= i <= |narratives|
      invariant printed ==> forall k | 0 <= k < i :: Printable(narratives[k])
      invariant !printed ==> i < |narratives| && !Printable(narratives[i])
      decreases |narratives| - i, if printed then 1 else 0
    {
      var narrative := narratives[i];
      var level := EntropyLevel(narrative.entropyRisk);
      if level.None? || !Joinable(narrative.catalysts) {
        // `entropy_risk <= 3` or the join raises
        printed := false;
      } else {
        i := i + 1;
      }
    }
  }

  /**
   * The band agrees with the prompt's 1-10 scale (1-3 low, 4-7 medium, 8-10
   * high), never falls as the risk rises, and is given for any integer at
   * all, since the value is never range-checked.
   */
  lemma RiskBandFacts(a: real, b: real, v: int)
    ensures a <= b ==> Rank(RiskBand(a)) <= Rank(RiskBand(b))
    ensures 1 <= v <= 10 ==>
      (RiskBand(v as real) == Low <==> v <= 3) &&
      (RiskBand(v as real) == Medium <==> 4 <= v <= 7) &&
      (RiskBand(v as real) == High <==> 8 <= v)
    ensures EntropyLevel(JInt(v)) == Some(if v <= 3 then Low else if v <= 7 then Medium else High)
  {
  }
}
