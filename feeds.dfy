/** The record every fetcher produces, and the identity string derived from it. */
module Feeds {
  import opened Opt
  import opened PyText

  /**
   * One collected post or article. `timestamp` is the publication time in whole
   * epoch seconds; `metadata` is the small dictionary each fetcher attaches.
   */
  datatype FeedItem = FeedItem(
    id: string,
    source: string,
    author: string,
    content: string,
    timestamp: int,
    url: Option<string>,
    metadata: map<string, string>)

  /** The id `f"{source}_{author}_{int(timestamp.timestamp())}"`. */
  function FeedId(source: string, author: string, seconds: int): string {
    source + "_" + author + "_" + IntToString(seconds)
  }

  /** `FeedItem.__init__`: every field is stored as given and the id is derived. */
  function NewFeedItem(source: string, author: string, content: string, timestamp: int,
                       url: Option<string>, metadata: map<string, string>): FeedItem
  {
    FeedItem(FeedId(source, author, timestamp), source, author, content, timestamp, url, metadata)
  }

  /** An item whose id is the one its constructor derives. */
  predicate WellFormed(f: FeedItem) {
    f.id == FeedId(f.source, f.author, f.timestamp)
  }

  datatype IdParts = IdParts(source: string, author: string, seconds: int)

  /**
   * Reads an id back: the source runs to the first underscore, the seconds
   * follow the last one, and the author is what lies in between.
   */
  function ParseFeedId(id: string): Option<IdParts> {
    match Find(id, "_")
    case None => None
    case Some(i) =>
      var rest := id[i + 1..];
      match RFind(rest, '_')
      case None => None
      case Some(j) =>
        match ParseInt(rest[j + 1..])
        case None => None
        case Some(t) => Some(IdParts(id[..i], rest[..j], t))
  }

  /** For a source without underscores (the fetchers use "rss" and "twitter"), the id can be read back. */
  lemma FeedIdRoundTrip(source: string, author: string, seconds: int)
    requires '_' !in source
    ensures ParseFeedId(FeedId(source, author, seconds)) == Some(IdParts(source, author, seconds))
  {
    var digits := IntToString(seconds);
    var rest := author + "_" + digits;
    var id := FeedId(source, author, seconds);
    assert id == source + "_" + rest;
    FindChar(source, '_', rest);
    assert id[|source| + 1..] == rest;
    assert '_' !in digits;
    RFindChar(author, '_', digits);
    assert rest[|author| + 1..] == digits;
    ParseIntRoundTrip(seconds);
    assert id[..|source|] == source && rest[..|author|] == author;
    assert ParseFeedId(id) == Some(IdParts(id[..|source|], rest[..|author|], seconds));
  }

  /** Two ids agree exactly when source, author and whole second agree. */
  lemma FeedIdInjective(s1: string, a1: string, t1: int, s2: string, a2: string, t2: int)
    requires '_' !in s1 && '_' !in s2
    ensures FeedId(s1, a1, t1) == FeedId(s2, a2, t2) <==> (s1 == s2 && a1 == a2 && t1 == t2)
  {
    FeedIdRoundTrip(s1, a1, t1);
    FeedIdRoundTrip(s2, a2, t2);
  }

  /**
   * Two constructed items share an id exactly when their source, author and
   * second agree, whatever their content, url or metadata.
   */
  lemma SameIdIff(x: FeedItem, y: FeedItem)
    requires WellFormed(x) && WellFormed(y)
    requires '_' !in x.source && '_' !in y.source
    ensures x.id == y.id <==> (x.source == y.source && x.author == y.author && x.timestamp == y.timestamp)
  {
    FeedIdInjective(x.source, x.author, x.timestamp, y.source, y.author, y.timestamp);
  }
}
