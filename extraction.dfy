/**
 * `NarrativeExtractor`: the prompt's feed listing, the call to the language
 * model, and the reading of its reply into narratives. The model call is the
 * parameter `complete` (None when it raised) and `json.loads` is the
 * parameter `decode` (None on a `JSONDecodeError`); what they return is taken
 * as given.
 */
module Extraction {
  import opened Opt
  import opened PyText
  import opened Feeds

  /** A value `json.loads` can return; an object is a dict from keys to values. */
  datatype Json =
    | JNull
    | JBool(b: bool)
    | JInt(i: int)
    | JReal(r: real)
    | JStr(s: string)
    | JArr(items: seq<Json>)
    | JObj(fields: map<string, Json>)

  /** `d.get(key, default)` on a dict. */
  function Get(fields: map<string, Json>, key: string, default: Json): Json {
    if key in fields then fields[key] else default
  }

  /**
   * A narrative as `_parse_claude_response` builds it. Its fields hold the
   * decoded values as they came: nothing checks their types or ranges. The
   * id and date that `Narrative.__init__` takes from the clock are not part
   * of this model.
   */
  datatype Narrative = Narrative(
    title: Json,
    entropyRisk: Json,
    hypothesis: Json,
    rationale: Json,
    catalysts: Json,
    supportingFeeds: seq<string>)

  // ---------------------------------------------------------------------------
  // Supporting feed indices
  // ---------------------------------------------------------------------------

  /** What the comprehension does with one index. */
  datatype IndexOutcome = Drop | Keep(id: string) | Fail

  /**
   * `feeds[i-1].id ... if 0 < i <= len(feeds)` for one decoded index `i`. A
   * bool compares as 0 or 1; a float in range passes the test and then fails
   * as a list index; null, strings, lists and dicts do not compare with an
   * int.
   */
  function ResolveIndex(i: Json, feeds: seq<FeedItem>): IndexOutcome {
    match i
    case JInt(v) => if 0 < v <= |feeds| then Keep(feeds[v - 1].id) else Drop
    case JBool(b) => if b && 1 <= |feeds| then Keep(feeds[0].id) else Drop
    case JReal(r) => if 0.0 < r <= |feeds| as real then Fail else Drop
    case _ => Fail
  }

  function ResolveList(xs: seq<Json>, feeds: seq<FeedItem>): Option<seq<string>>
    decreases |xs|
  {
    if xs == [] then Some([])
    else match ResolveIndex(xs[0], feeds)
      case Fail => None
      case Drop => ResolveList(xs[1..], feeds)
      case Keep(id) =>
        match ResolveList(xs[1..], feeds)
        case None => None
        case Some(rest) => Some([id] + rest)
  }

  /**
   * The `supporting_feeds` comprehension over the decoded value. Iterating an
   * empty string or dict yields nothing; a non-empty one yields strings,
   * which do not compare with 0; other scalars are not iterable.
   */
  function ResolveIndices(idxs: Json, feeds: seq<FeedItem>): Option<seq<string>> {
    match idxs
    case JArr(xs) => ResolveList(xs, feeds)
    case JStr(s) => if s == [] then Some([]) else None
    case JObj(m) => if m == map[] then Some([]) else None
    case _ => None
  }

  /** The comprehension over a concatenation is the concatenation of the comprehensions. */
  lemma {:induction false} ResolveListAppend(a: seq<Json>, b: seq<Json>, feeds: seq<FeedItem>)
    ensures ResolveList(a + b, feeds) ==
      if ResolveList(a, feeds).None? || ResolveList(b, feeds).None? then None
      else Some(ResolveList(a, feeds).value + ResolveList(b, feeds).value)
    decreases |a|
  {
    if a == [] {
      assert a + b == b;
      if ResolveList(b, feeds).Some? {
        assert [] + ResolveList(b, feeds).value == ResolveList(b, feeds).value;
      }
    } else {
      assert (a + b)[0] == a[0];
      assert (a + b)[1..] == a[1..] + b;
      ResolveListAppend(a[1..], b, feeds);
      var o := ResolveIndex(a[0], feeds);
      var ra, rb := ResolveList(a[1..], feeds), ResolveList(b, feeds);
      if o.Keep? && ra.Some? && rb.Some? {
        assert ResolveList(a[1..] + b, feeds) == Some(ra.value + rb.value);
        AppendAssoc([o.id], ra.value, rb.value);
        assert ResolveList(a + b, feeds) == Some([o.id] + (ra.value + rb.value));
      }
    }
  }

  /**
   * An index the comprehension drops (an integer outside 1..len(feeds),
   * `false`, a float outside that range) leaves the result as if it were not
   * listed at all.
   */
  lemma ResolveDropped(xs: seq<Json>, feeds: seq<FeedItem>, k: nat)
    requires k < |xs| && ResolveIndex(xs[k], feeds).Drop?
    ensures ResolveList(xs, feeds) == ResolveList(xs[..k] + xs[k + 1..], feeds)
  {
    var rest := xs[k + 1..];
    assert xs == xs[..k] + ([xs[k]] + rest);
    assert ([xs[k]] + rest)[1..] == rest;
    assert ResolveList([xs[k]] + rest, feeds) == ResolveList(rest, feeds);
    ResolveListAppend(xs[..k], [xs[k]] + rest, feeds);
    ResolveListAppend(xs[..k], rest, feeds);
  }

  /**
   * Integer indices never make the comprehension fail. The ids come out in
   * the order of the indices, once per occurrence (a repeated index repeats
   * its id), and an index outside 1..len(feeds) is dropped: removing it
   * from the list does not change the result.
   */
  lemma {:induction false} ResolveIntegers(xs: seq<Json>, feeds: seq<FeedItem>)
    requires forall k | 0 <= k < |xs| :: xs[k].JInt?
    ensures ResolveList(xs, feeds).Some?
    ensures |ResolveList(xs, feeds).value| <= |xs|
    ensures (forall k | 0 <= k < |xs| :: 0 < xs[k].i <= |feeds|) ==>
      ResolveList(xs, feeds).value == seq(|xs|, k requires 0 <= k < |xs| => feeds[xs[k].i - 1].id)
    ensures forall k | 0 <= k < |xs| && !(0 < xs[k].i <= |feeds|) ::
      ResolveList(xs, feeds) == ResolveList(xs[..k] + xs[k + 1..], feeds)
    decreases |xs|
  {
    if xs != [] {
      assert xs[0].JInt?;
      assert forall k | 0 <= k < |xs[1..]| :: xs[1..][k] == xs[k + 1];
      ResolveIntegers(xs[1..], feeds);
    }
    forall k | 0 <= k < |xs| && !(0 < xs[k].i <= |feeds|)
      ensures ResolveList(xs, feeds) == ResolveList(xs[..k] + xs[k + 1..], feeds)
    {
      ResolveDropped(xs, feeds, k);
    }
  }

  /** Every resolved id is the id of one of the feeds. */
  lemma {:induction false} ResolvedIdsAreFeedIds(xs: seq<Json>, feeds: seq<FeedItem>)
    requires ResolveList(xs, feeds).Some?
    ensures forall id | id in ResolveList(xs, feeds).value :: exists j | 0 <= j < |feeds| :: id == feeds[j].id
    decreases |xs|
  {
    if xs != [] {
      ResolvedIdsAreFeedIds(xs[1..], feeds);
      var o := ResolveIndex(xs[0], feeds);
      if o.Keep? {
        if xs[0].JInt? {
          assert o.id == feeds[xs[0].i - 1].id;
        } else {
          assert o.id == feeds[0].id;
        }
      }
    }
  }

  // ---------------------------------------------------------------------------
  // Narratives
  // ---------------------------------------------------------------------------

  /**
   * One element of the `narratives` list. It must be a dict; `title`,
   * `entropy_risk`, `hypothesis` and `rationale` are required, and
   * `catalysts` and `supporting_feed_indices` default to empty lists.
   */
  function DecodeNarrative(n: Json, feeds: seq<FeedItem>): Option<Narrative> {
    match n
    case JObj(m) =>
      (match ResolveIndices(Get(m, "supporting_feed_indices", JArr([])), feeds)
       case None => None
       case Some(ids) =>
         if "title" in m && "entropy_risk" in m && "hypothesis" in m && "rationale" in m then
           Some(Narrative(m["title"], m["entropy_risk"], m["hypothesis"], m["rationale"],
                          Get(m, "catalysts", JArr([])), ids))
         else None)
    case _ => None
  }

  /** Every element decoded, in order, or None as soon as one fails. */
  function DecodeAll(xs: seq<Json>, feeds: seq<FeedItem>): Option<seq<Narrative>>
    decreases |xs|
  {
    if xs == [] then Some([])
    else match DecodeNarrative(xs[0], feeds)
      case None => None
      case Some(n) =>
        match DecodeAll(xs[1..], feeds)
        case None => None
        case Some(rest) => Some([n] + rest)
  }

  /**
   * All or nothing: the list decodes exactly when every element does, and
   * then the k-th narrative is the k-th element's.
   */
  lemma {:induction false} DecodeAllOrNothing(xs: seq<Json>, feeds: seq<FeedItem>)
    ensures DecodeAll(xs, feeds).Some? <==> forall k | 0 <= k < |xs| :: DecodeNarrative(xs[k], feeds).Some?
    ensures DecodeAll(xs, feeds).Some? ==>
      |DecodeAll(xs, feeds).value| == |xs| &&
      forall k | 0 <= k < |xs| :: DecodeAll(xs, feeds).value[k] == DecodeNarrative(xs[k], feeds).value
    decreases |xs|
  {
    if xs != [] {
      DecodeAllOrNothing(xs[1..], feeds);
      assert forall k | 0 <= k < |xs[1..]| :: xs[1..][k] == xs[k + 1];
      if DecodeNarrative(xs[0], feeds).Some? && DecodeAll(xs[1..], feeds).Some? {
        var rest := DecodeAll(xs[1..], feeds).value;
        assert forall k | 1 <= k < |xs| :: ([DecodeNarrative(xs[0], feeds).value] + rest)[k] == rest[k - 1];
      }
    }
  }

  /**
   * A narrative without `catalysts` decodes with an empty list of catalysts,
   * and one without `supporting_feed_indices` cites no feed.
   */
  lemma CatalystsDefault(m: map<string, Json>, feeds: seq<FeedItem>)
    requires "catalysts" !in m
    requires DecodeNarrative(JObj(m), feeds).Some?
    ensures DecodeNarrative(JObj(m), feeds).value.catalysts == JArr([])
  {
  }

  lemma SupportDefault(m: map<string, Json>, feeds: seq<FeedItem>)
    requires "supporting_feed_indices" !in m
    requires "title" in m && "entropy_risk" in m && "hypothesis" in m && "rationale" in m
    ensures DecodeNarrative(JObj(m), feeds).Some?
    ensures DecodeNarrative(JObj(m), feeds).value.supportingFeeds == []
  {
  }

  /** A narrative missing a required key makes the whole list fail. */
  lemma MissingKeyFailsAll(xs: seq<Json>, feeds: seq<FeedItem>, k: nat, key: string)
    requires k < |xs| && xs[k].JObj?
    requires key in {"title", "entropy_risk", "hypothesis", "rationale"} && key !in xs[k].fields
    ensures DecodeAll(xs, feeds).None?
  {
    DecodeAllOrNothing(xs, feeds);
  }

  /**
   * The ids a decoded narrative cites are those of the feeds it was read
   * against.
   */
  lemma DecodedSupportIsFeeds(n: Json, feeds: seq<FeedItem>)
    requires DecodeNarrative(n, feeds).Some?
    ensures forall id | id in DecodeNarrative(n, feeds).value.supportingFeeds ::
      exists j | 0 <= j < |feeds| :: id == feeds[j].id
  {
    var idxs := Get(n.fields, "supporting_feed_indices", JArr([]));
    if idxs.JArr? {
      ResolvedIdsAreFeedIds(idxs.items, feeds);
    }
  }

  // ---------------------------------------------------------------------------
  // The reply text
  // ---------------------------------------------------------------------------

  const Fence := "```"

  /**
   * The text handed to the decoder, before its final strip: when the stripped
   * reply starts with a code fence, the part of the reply between its first
   * two fences, less a leading `json` tag; otherwise the reply unchanged.
   */
  function FencePayload(text: string): string {
    if StartsWith(Strip(text), Fence) then
      StrippedPrefixOccurs(text, Fence);
      var segment := Split(text, Fence)[1];
      if StartsWith(segment, "json") then segment[4..] else segment
    else text
  }

  /** A reply that does not open with a fence is decoded as it is. */
  lemma UnfencedPassesThrough(text: string)
    requires !StartsWith(Strip(text), Fence)
    ensures FencePayload(text) == text
  {
  }

  /**
   * A reply made of leading whitespace, a fence with an optional `json` tag,
   * a payload without backticks, a closing fence and anything after it hands
   * the decoder the payload.
   */
  lemma FencedPayload(lead: string, tag: string, body: string, trail: string)
    requires AllSpace(lead)
    requires tag == "json" || (tag == "" && !StartsWith(body, "json"))
    requires '`' !in body
    ensures FencePayload(lead + Fence + tag + body + Fence + trail) == body
  {
    var segment := tag + body;
    assert '`' !in segment;
    FenceSegment(lead, segment, trail);
    Regroup(lead, Fence, tag, body, Fence, trail);
    if tag == "json" {
      assert segment[..4] == "json";
      assert segment[4..] == body;
    } else {
      assert segment == body;
    }
  }

  /** The text between the fences of a fenced reply is what the split hands on. */
  lemma FenceSegment(lead: string, segment: string, trail: string)
    requires AllSpace(lead) && '`' !in segment
    ensures var text := lead + Fence + segment + Fence + trail;
      StartsWith(Strip(text), Fence) && |Split(text, Fence)| >= 2 && Split(text, Fence)[1] == segment
  {
    var rest := Fence + segment + Fence + trail;
    assert lead + Fence + segment + Fence + trail == lead + rest by {
      AppendAssoc(lead, Fence, segment + Fence + trail);
      AppendAssoc(lead + Fence, segment, Fence + trail);
      AppendAssoc(lead + Fence + segment, Fence, trail);
    }
    assert rest[..|Fence|] == Fence;
    FencedReplyOpensWithFence(lead, rest);
    NoBacktickInSpace(lead);
    SplitSecond(lead, Fence, segment, trail);
  }

  /** The two groupings of a six-part concatenation the fence lemma needs. */
  lemma Regroup<T>(a: seq<T>, b: seq<T>, c: seq<T>, d: seq<T>, e: seq<T>, f: seq<T>)
    ensures a + b + c + d + e + f == a + (b + c + d + e + f)
    ensures a + b + c + d + e + f == a + b + (c + d) + e + f
  {
  }

  lemma NoBacktickInSpace(lead: string)
    requires AllSpace(lead)
    ensures '`' !in lead
  {
    forall i | 0 <= i < |lead| ensures lead[i] != '`' {
      assert IsSpace(lead[i]);
    }
  }

  /** Leading whitespace before a fence does not hide it. */
  lemma FencedReplyOpensWithFence(lead: string, rest: string)
    requires AllSpace(lead) && StartsWith(rest, Fence)
    ensures StartsWith(Strip(lead + rest), Fence)
  {
    assert rest[0] == '`';
    LStripLeading(lead, rest);
    RStripKeepsPrefix(rest, Fence);
  }

  /**
   * The list the reply holds: the decoded value must be a dict, and its
   * `narratives` entry (an empty list when missing) a list. Otherwise the
   * reply yields nothing: an empty string or dict there iterates zero times,
   * and any other value raises.
   */
  function NarrativeList(text: string, decode: string -> Option<Json>): Option<seq<Json>> {
    match decode(Strip(FencePayload(text)))
    case None => None
    case Some(data) =>
      if data.JObj? && Get(data.fields, "narratives", JArr([])).JArr? then
        Some(Get(data.fields, "narratives", JArr([])).items)
      else None
  }

  /** A decoded dict without `narratives` lists none, so the reply yields no narrative. */
  lemma NarrativesDefault(text: string, decode: string -> Option<Json>, feeds: seq<FeedItem>)
    requires decode(Strip(FencePayload(text))).Some?
    requires var data := decode(Strip(FencePayload(text))).value; data.JObj? && "narratives" !in data.fields
    ensures NarrativeList(text, decode) == Some([])
    ensures ParsedNarratives(text, decode, feeds) == []
  {
  }

  /** What `_parse_claude_response` returns. */
  function ParsedNarratives(text: string, decode: string -> Option<Json>, feeds: seq<FeedItem>): seq<Narrative> {
    match NarrativeList(text, decode)
    case None => []
    case Some(xs) => DecodeAll(xs, feeds).GetOr([])
  }

  /**
   * The reply yields one narrative per listed element when every element
   * decodes, and nothing otherwise; every id a narrative cites is the id of
   * one of the feeds.
   */
  lemma ParsedNarrativesFacts(text: string, decode: string -> Option<Json>, feeds: seq<FeedItem>)
    ensures var r := ParsedNarratives(text, decode, feeds);
      var list := NarrativeList(text, decode);
      (r != [] ==> list.Some? && |r| == |list.value| &&
                   forall k | 0 <= k < |r| :: Some(r[k]) == DecodeNarrative(list.value[k], feeds))
      && (list.Some? && (forall k | 0 <= k < |list.value| :: DecodeNarrative(list.value[k], feeds).Some?) ==>
          |r| == |list.value|)
      && (list.Some? && (exists k | 0 <= k < |list.value| :: DecodeNarrative(list.value[k], feeds).None?) ==> r == [])
  {
    var list := NarrativeList(text, decode);
    if list.Some? {
      assert ParsedNarratives(text, decode, feeds) == DecodeAll(list.value, feeds).GetOr([]);
      DecodeAllOrNothing(list.value, feeds);
    }
  }

  /** Every id a parsed narrative cites is the id of one of the feeds. */
  lemma ParsedNarrativesCiteFeeds(text: string, decode: string -> Option<Json>, feeds: seq<FeedItem>)
    ensures forall n, id | n in ParsedNarratives(text, decode, feeds) && id in n.supportingFeeds ::
      exists j | 0 <= j < |feeds| :: id == feeds[j].id
  {
    var list := NarrativeList(text, decode);
    var r := ParsedNarratives(text, decode, feeds);
    if list.Some? {
      var xs := list.value;
      assert r == DecodeAll(xs, feeds).GetOr([]);
      DecodeAllOrNothing(xs, feeds);
      forall n, id | n in r && id in n.supportingFeeds
        ensures exists j | 0 <= j < |feeds| :: id == feeds[j].id
      {
        var k :| 0 <= k < |r| && r[k] == n;
        DecodedSupportIsFeeds(xs[k], feeds);
      }
    }
  }

  /** One step of `DecodeAll` at position `k`. */
  lemma DecodeAllStep(xs: seq<Json>, feeds: seq<FeedItem>, k: nat)
    requires k < |xs|
    ensures DecodeAll(xs[k..], feeds) ==
      match DecodeNarrative(xs[k], feeds)
      case None => None
      case Some(n) =>
        match DecodeAll(xs[k + 1..], feeds)
        case None => None
        case Some(rest) => Some([n] + rest)
  {
    assert xs[k..][1..] == xs[k + 1..];
  }

  /** `_parse_claude_response`. */
  method ParseResponse(responseText: string, decode: string -> Option<Json>, feeds: seq<FeedItem>)
    returns (narratives: seq<Narrative>)
    ensures narratives == ParsedNarratives(responseText, decode, feeds)
  {
    var text := FencePayload(responseText);
    var data := decode(Strip(text));
    if data.None? || !data.value.JObj? {
      // `JSONDecodeError`, or a decoded list or scalar, which has no `get`
      assert NarrativeList(responseText, decode).None?;
      return [];
    }
    var listed := Get(data.value.fields, "narratives", JArr([]));
    if !listed.JArr? {
      assert NarrativeList(responseText, decode).None?;
      return [];
    }
    var xs := listed.items;
    assert NarrativeList(responseText, decode) == Some(xs);
    var decoded := DecodeNarratives(xs, feeds);
    narratives := decoded.GetOr([]);
  }

  /**
   * The loop of `_parse_claude_response` over the listed narratives; None
   * when an element raises, which makes the whole reply yield nothing.
   */
  method DecodeNarratives(xs: seq<Json>, feeds: seq<FeedItem>) returns (decoded: Option<seq<Narrative>>)
    ensures decoded == DecodeAll(xs, feeds)
  {
    var narratives: seq<Narrative> := [];
    var k := 0;
    assert xs[k..] == xs;
    if DecodeAll(xs, feeds).Some? {
      assert narratives + DecodeAll(xs, feeds).value == DecodeAll(xs, feeds).value;
    }
    while k < |xs|
      invariant 0 <= k <= |xs|
      invariant DecodeAll(xs, feeds) ==
        match DecodeAll(xs[k..], feeds)
        case None => None
        case Some(rest) => Some(narratives + rest)
    {
      DecodeAllStep(xs, feeds, k);
      var n := DecodeNarrative(xs[k], feeds);
      if n.None? {
        // a missing key or a bad index raises
        return None;
      }
      ghost var tail := DecodeAll(xs[k + 1..], feeds);
      if tail.Some? {
        AppendAssoc(narratives, [n.value], tail.value);
      }
      narratives := narratives + [n.value];
      k := k + 1;
    }
    assert xs[k..] == [];
    assert DecodeAll(xs[k..], feeds) == Some([]);
    assert narratives + [] == narratives;
    decoded := Some(narratives);
  }

  // ---------------------------------------------------------------------------
  // The prompt's feed listing and the extraction
  // ---------------------------------------------------------------------------

  const ContentLimit := 300

  /** The first line of block `k`, up to the formatted time. */
  function BlockHeader(k: nat, f: FeedItem): string {
    "[" + NatToString(k) + "] " + Upper(f.source) + " | " + f.author + " | "
  }

  /** Block `k` of the listing; `formatTime` is the `strftime('%Y-%m-%d %H:%M')` of a timestamp. */
  function FeedBlock(k: nat, f: FeedItem, formatTime: int -> string): string {
    BlockHeader(k, f) + formatTime(f.timestamp) + "\n" + Take(f.content, ContentLimit) + "...\n"
  }

  /** One block per feed, numbered from 1 in list order. */
  function FeedBlocks(feeds: seq<FeedItem>, formatTime: int -> string): seq<string> {
    seq(|feeds|, k requires 0 <= k < |feeds| => FeedBlock(k + 1, feeds[k], formatTime))
  }

  /** The `feeds_text` of the prompt: the blocks joined by newlines. */
  function FeedsText(feeds: seq<FeedItem>, formatTime: int -> string): string {
    Join(FeedBlocks(feeds, formatTime), "\n")
  }

  /**
   * Block `k` opens with its 1-based number, the upper-cased source and the
   * author, and closes with at most 300 characters of the content followed
   * by an ellipsis.
   */
  lemma FeedBlockShape(k: nat, f: FeedItem, formatTime: int -> string)
    ensures StartsWith(FeedBlock(k, f, formatTime), "[" + NatToString(k) + "] " + Upper(f.source) + " | " + f.author + " | ")
    ensures var excerpt := Take(f.content, ContentLimit);
      |excerpt| == (if |f.content| < ContentLimit then |f.content| else ContentLimit) &&
      excerpt == f.content[..|excerpt|] &&
      FeedBlock(k, f, formatTime)[|FeedBlock(k, f, formatTime)| - |excerpt| - 4..] == excerpt + "...\n"
  {
    var block := FeedBlock(k, f, formatTime);
    var header := BlockHeader(k, f);
    var tail := formatTime(f.timestamp) + "\n" + Take(f.content, ContentLimit) + "...\n";
    var excerpt := Take(f.content, ContentLimit);
    Regroup(header, formatTime(f.timestamp), "\n", excerpt, "...\n", []);
    assert block == header + tail;
    assert block[..|header|] == header;
    assert block == (header + formatTime(f.timestamp) + "\n") + (excerpt + "...\n");
  }

  /**
   * The listing holds block `k + 1` for feed `k`, after the blocks of the
   * feeds before it and a newline, and before a newline and the blocks of
   * the feeds after it.
   */
  lemma BlockInText(feeds: seq<FeedItem>, formatTime: int -> string, k: nat)
    requires k < |feeds|
    ensures var blocks := FeedBlocks(feeds, formatTime);
      FeedsText(feeds, formatTime) ==
        (if k == 0 then "" else Join(blocks[..k], "\n") + "\n")
        + FeedBlock(k + 1, feeds[k], formatTime)
        + (if k == |feeds| - 1 then "" else "\n" + Join(blocks[k + 1..], "\n"))
  {
    var blocks := FeedBlocks(feeds, formatTime);
    var left := if k == 0 then "" else Join(blocks[..k], "\n") + "\n";
    var right := if k == |feeds| - 1 then "" else "\n" + Join(blocks[k + 1..], "\n");
    JoinAt(blocks, k, "\n");
    JoinHead(blocks[k..], "\n");
    assert blocks[k..][0] == FeedBlock(k + 1, feeds[k], formatTime);
    assert blocks[k..][1..] == blocks[k + 1..];
    AppendAssoc(left, FeedBlock(k + 1, feeds[k], formatTime), right);
  }

  /** `_format_feeds_for_prompt`. */
  method FormatFeeds(feeds: seq<FeedItem>, formatTime: int -> string) returns (text: string)
    ensures text == FeedsText(feeds, formatTime)
  {
    var formatted: seq<string> := [];
    var i := 0;
    while i < |feeds|
      invariant 0 <= i <= |feeds|
      invariant formatted == FeedBlocks(feeds, formatTime)[..i]
    {
      var feed := feeds[i];
      formatted := formatted + [BlockHeader(i + 1, feed) + formatTime(feed.timestamp) + "\n"
                                + Take(feed.content, ContentLimit) + "...\n"];
      i := i + 1;
    }
    assert formatted == FeedBlocks(feeds, formatTime);
    text := Join(formatted, "\n");
  }

  /**
   * What `extract_narratives` returns. `complete` stands for building the
   * prompt around the listing and calling the model: it gives the reply's
   * text, or None when the call raised.
   */
  function ExtractedNarratives(feeds: seq<FeedItem>, maxFeeds: int, formatTime: int -> string,
                               complete: string -> Option<string>, decode: string -> Option<Json>): seq<Narrative>
  {
    var processed := Take(feeds, maxFeeds);
    match complete(FeedsText(processed, formatTime))
    case None => []
    case Some(reply) => ParsedNarratives(reply, decode, processed)
  }

  /** `extract_narratives`. */
  method ExtractNarratives(feeds: seq<FeedItem>, maxFeeds: int, formatTime: int -> string,
                           complete: string -> Option<string>, decode: string -> Option<Json>)
    returns (narratives: seq<Narrative>)
    ensures narratives == ExtractedNarratives(feeds, maxFeeds, formatTime, complete, decode)
  {
    var feedsToProcess := Take(feeds, maxFeeds);
    var feedsText := FormatFeeds(feedsToProcess, formatTime);
    var reply := complete(feedsText);
    if reply.None? {
      // the `except` reports the failed call
      return [];
    }
    narratives := ParseResponse(reply.value, decode, feedsToProcess);
  }

  /**
   * Only the first `maxFeeds` feeds are listed, and every id a narrative
   * cites is the id of one of them; a failed call yields no narratives.
   */
  lemma ExtractionFacts(feeds: seq<FeedItem>, maxFeeds: int, formatTime: int -> string,
                        complete: string -> Option<string>, decode: string -> Option<Json>)
    ensures var processed := Take(feeds, maxFeeds);
      |FeedBlocks(processed, formatTime)| == |processed| &&
      (0 <= maxFeeds ==> |processed| == if maxFeeds < |feeds| then maxFeeds else |feeds|)
    ensures complete(FeedsText(Take(feeds, maxFeeds), formatTime)).None? ==>
      ExtractedNarratives(feeds, maxFeeds, formatTime, complete, decode) == []
    ensures forall n, id | n in ExtractedNarratives(feeds, maxFeeds, formatTime, complete, decode)
                          && id in n.supportingFeeds ::
      exists j | 0 <= j < |Take(feeds, maxFeeds)| :: id == feeds[j].id
  {
    var processed := Take(feeds, maxFeeds);
    var reply := complete(FeedsText(processed, formatTime));
    if reply.Some? {
      ParsedNarrativesCiteFeeds(reply.value, decode, processed);
    }
  }
}
