# RedHood Insights: the feed aggregator and its account registry, in Dafny

RedHood Insights does four things:

- It collects recent posts from Substack RSS feeds.
- It collects recent tweets of a few X/Twitter accounts through public Nitter mirrors.
- It merges the posts and tweets newest first.
- It asks a language model for the day's top market narratives and maps the feed numbers the model cites back to feed ids.

A small SQLite registry of X/Twitter accounts sits beside it.

This project models the following, and proves properties of each:

- the core of the aggregator: the `FeedItem` id, both fetchers, the prompt listing, the reply parser, the narrative extraction, the merge and sort of `run`, and the summary's entropy-risk band and the exceptions the summary raises
- the registry's table and the statements it issues

The files:

| file | contents |
|---|---|
| `opt.dfy` | `Option` |
| `py_text.dfy` | the Python string and integer builtins the core uses, each with its own properties |
| `feeds.dfy` | `FeedItem` and its id |
| `scrapers.dfy` | `RSSFeedScraper.fetch` and `NitterScraper` |
| `extraction.dfy` | the listing, the reply parser and `extract_narratives` |
| `aggregator.dfy` | `Config`, the merge and sort, `run` and the risk band |
| `accounts_db.dfy` | the `twitter_accounts` table, `init_db`, `add_account`, `remove_account`, `toggle_account` and `get_active_handles` |

**How the code is modelled.**

- The source works by loops that append to a list or a table. Those loops are Dafny methods with loop invariants.
- Each method is proved equal to a specification function.
- The properties of each specification function are lemmas.
- Each external effect is a parameter of the operation that uses it:

| effect | parameter |
|---|---|
| `feedparser.parse` | `parse: string -> ParsedFeed` |
| the clock | a cutoff in epoch seconds, and a registry timestamp string |
| `strftime` | `formatTime` |
| the prompt template together with the Anthropic call | `complete: string -> Option<string>`, where None means the call raised |
| `json.loads` | `decode: string -> Option<Json>` |

- An exception the source catches becomes an explicit outcome:
  - A parse that raises is `Raises`.
  - An entry whose date raises ends its feed's `try`.
  - A reply that fails to decode yields no narratives.

**Behaviour of the code that the model keeps, although a reader might expect otherwise:**

- The RSS fetcher applies no upper time bound. An entry dated in the future is kept (`redhood_aggregator.py:152`).
- Every RSS entry must carry a date. An undated entry raises and ends its feed, keeping the items read before it.
- A supporting index that occurs twice gives its feed id twice (`redhood_aggregator.py:347-350`).
- Tweets carry the source tag `twitter` (`redhood_aggregator.py:203`).
- `entropy_risk` is stored and banded without a range check (`redhood_aggregator.py:354`, `:469-470`).
- `run` reads the accounts from `Config.TWITTER_ACCOUNTS` (three handles), never from the registry (five default handles) (`redhood_aggregator.py:415`).
- A Nitter instance that is read without an exception ends the search for that account, even when it yields no item.
- `run` saves its results before printing the summary. A narrative whose `entropy_risk` is not a number, or whose `catalysts` do not join as text, makes the summary raise, so `run` returns nothing (`redhood_aggregator.py:442-443`, `:469`, `:476`).

## Model

| member | source | states |
|---|---|---|
| Feeds.FeedId | redhood_aggregator.py:81 | the id `source_author_seconds` of an item; its properties are the next two rows |
| Feeds.FeedIdRoundTrip | redhood_aggregator.py:81 | for a source without underscores, source, author and whole seconds can be read back from the id |
| Feeds.FeedIdInjective | redhood_aggregator.py:81 | two ids are equal iff source, author and second are equal |
| Feeds.SameIdIff | redhood_aggregator.py:79-87 | two constructed items share an id iff source, author and timestamp agree, whatever their content, url or metadata |
| Scrapers.RssEntryItems | redhood_aggregator.py:149-163 | the items one feed's first ten entries yield: a dated entry at or after the cutoff becomes an `rss` item, an earlier one is skipped, an undated one ends the feed |
| Scrapers.RssItems | redhood_aggregator.py:139-168 | what `RSSFeedScraper.fetch` returns: each feed's items in feed order, nothing for a feed whose parse raised |
| Scrapers.FetchRss | redhood_aggregator.py:139-168 | the loop returns exactly the specified items of every feed, in feed order |
| Scrapers.ReadRssEntries | redhood_aggregator.py:149-163 | the entry loop appends exactly the specified items of one feed, stopping at the first undated entry |
| Scrapers.RssItemsAppend | redhood_aggregator.py:144-166 | fetching a concatenation of feed lists is the concatenation of the fetches: no feed affects another |
| Scrapers.RssFailedFeedIsEmpty | redhood_aggregator.py:165-166 | a feed whose parse raises contributes no items |
| Scrapers.RssStopsAtUndated | redhood_aggregator.py:149-150 | the first entry without a usable date ends the feed, keeping the items before it |
| Scrapers.RssFeedItemsFacts | redhood_aggregator.py:147-163 | a feed yields at most 10 items, each an `rss` item from one of its first ten entries, dated at or after the cutoff, with the feed title as author and the feed url as metadata |
| Scrapers.RssEntryItemsLength | redhood_aggregator.py:149-163 | no more items than entries |
| Scrapers.RssEntryItemsFrom | redhood_aggregator.py:149-163 | every item is built from a dated entry at or after the cutoff |
| Scrapers.RssKeepsEntry | redhood_aggregator.py:149-163 | a dated entry among the first ten, with only dated entries before it, is kept iff its date is at or after the cutoff; there is no upper bound |
| Scrapers.NitterRssUrl | redhood_aggregator.py:177-178 | the URL `https://{instance}/{account}/rss` |
| Scrapers.RewriteLink | redhood_aggregator.py:200-201 | the stored link: every `https://{instance}` in it becomes `https://x.com` |
| Scrapers.TweetRun | redhood_aggregator.py:193-210 | what reading one instance's first twenty entries appends, and whether an entry raised: undated entries and entries before the cutoff are skipped, an unrepresentable date raises |
| Scrapers.AccountItems | redhood_aggregator.py:185-217 | what one account yields: instances are tried in order, a skipped or failing one passes to the next, and the first read without error ends the search |
| Scrapers.NitterRssUrlInjective | redhood_aggregator.py:177-178 | distinct (instance, account) pairs give distinct RSS URLs |
| Scrapers.RewriteToX | redhood_aggregator.py:200-201 | a link on the instance becomes the same path on `https://x.com` |
| Scrapers.TweetRunFacts | redhood_aggregator.py:193-210 | one instance yields no more items than entries, each a `twitter` item by `@account` tagged with the instance and built from one of the entries read, dated at or after the cutoff, with that entry's link rewritten to x.com |
| Scrapers.TweetStopsAtUnrepresentable | redhood_aggregator.py:193-196 | the first entry whose date cannot be represented ends the instance with an error, keeping the items of the entries before it |
| Scrapers.AccountItemsFacts | redhood_aggregator.py:185-217 | every item an account yields is such a tweet item, built from an entry among the first twenty of one configured instance's feed for that account, and tagged with that instance |
| Scrapers.NitterItemsFacts | redhood_aggregator.py:180-219 | every item the fetcher returns is a `twitter` item by `@a` for one of the requested accounts, at or after the cutoff |
| Scrapers.WinnerEndsSearch | redhood_aggregator.py:211-212 | once an instance is read without error, instances listed after it are never consulted |
| Scrapers.FirstWinnerSuffices | redhood_aggregator.py:187-212 | an account's items come from the instances up to and including the first that succeeds |
| Scrapers.AllMirrorsDown | redhood_aggregator.py:189-192 | when every instance raises or parses as broken and empty, the account yields nothing |
| Scrapers.NitterScraper.Fetch | redhood_aggregator.py:180-219 | the account loop returns exactly the specified items of every account, in account order |
| Scrapers.NitterScraper.FetchAccount | redhood_aggregator.py:186-217 | the instance loop appends exactly the specified items of one account |
| Scrapers.ReadEntries | redhood_aggregator.py:193-212 | the entry loop gives exactly the specified items of one instance and whether an entry raised |
| Extraction.ResolveIndex | redhood_aggregator.py:347-350 | what the comprehension does with one decoded index: an integer in 1..len(feeds) gives that feed's id, `true` the first feed's, an out-of-range number is dropped, an in-range float and any non-number raise |
| Extraction.ResolveIndices | redhood_aggregator.py:347-350 | the comprehension over the decoded `supporting_feed_indices`: a list is resolved element by element, an empty string or dict gives nothing, anything else raises |
| Extraction.ResolveListAppend | redhood_aggregator.py:347-350 | the index comprehension over a concatenation is the concatenation of the comprehensions, and fails iff either part fails |
| Extraction.ResolveIntegers | redhood_aggregator.py:347-350 | integer indices never fail; in-range indices give their feeds' ids in index order, repeats included; out-of-range ones are dropped |
| Extraction.ResolveDropped | redhood_aggregator.py:347-350 | an index the comprehension drops leaves the result as if it were not listed |
| Extraction.ResolvedIdsAreFeedIds | redhood_aggregator.py:347-350 | every resolved id is the id of one of the feeds |
| Extraction.DecodeNarrative | redhood_aggregator.py:347-359 | one listed element: a dict with `title`, `entropy_risk`, `hypothesis` and `rationale` gives a narrative, with `catalysts` and the indices defaulting to empty lists; anything else raises |
| Extraction.CatalystsDefault | redhood_aggregator.py:357 | a narrative without `catalysts` has an empty list of catalysts |
| Extraction.SupportDefault | redhood_aggregator.py:348-358 | a narrative with the four required keys and without `supporting_feed_indices` decodes and cites no feed |
| Extraction.DecodeAllOrNothing | redhood_aggregator.py:345-370 | the narratives list decodes iff every element does, and then element k gives narrative k |
| Extraction.MissingKeyFailsAll | redhood_aggregator.py:352-356 | one narrative missing `title`, `entropy_risk`, `hypothesis` or `rationale` makes the whole reply yield nothing |
| Extraction.DecodedSupportIsFeeds | redhood_aggregator.py:347-358 | a decoded narrative cites only ids of the feeds it was read against |
| Extraction.FencePayload | redhood_aggregator.py:336-340 | the text handed to the decoder: the part between the first two fences, less a `json` tag, when the stripped reply opens with a fence, and otherwise the reply |
| Extraction.UnfencedPassesThrough | redhood_aggregator.py:337 | a reply that does not open with a code fence is decoded unchanged |
| Extraction.FencedPayload | redhood_aggregator.py:337-340 | for a fenced reply with an optional `json` tag, exactly the payload between the fences is decoded |
| Extraction.FencedReplyOpensWithFence | redhood_aggregator.py:337 | leading whitespace before a fence does not hide it |
| Extraction.NarrativeList | redhood_aggregator.py:342-345 | the decoded value must be a dict whose `narratives` (an empty list when missing) is a list; otherwise the reply yields nothing |
| Extraction.NarrativesDefault | redhood_aggregator.py:345 | a decoded dict without `narratives` lists nothing, and the reply yields no narrative |
| Extraction.ParsedNarrativesFacts | redhood_aggregator.py:332-370 | the reply yields one narrative per listed element, in order, when all decode, and none when any fails |
| Extraction.ParsedNarrativesCiteFeeds | redhood_aggregator.py:345-358 | every id a parsed narrative cites is the id of one of the feeds |
| Extraction.ParseResponse | redhood_aggregator.py:332-370 | returns exactly the specified narratives: the fence is removed, a reply that is not a dict with a list of narratives yields nothing |
| Extraction.DecodeNarratives | redhood_aggregator.py:345-360 | the loop decodes every element in order, or fails when one fails |
| Extraction.FeedBlock | redhood_aggregator.py:282-286 | block k of the listing: number, upper-cased source, author, formatted time, then at most 300 content characters and `...` |
| Extraction.FeedsText | redhood_aggregator.py:277-288 | the listing: one block per feed, numbered from 1, joined by newlines |
| Extraction.FeedBlockShape | redhood_aggregator.py:282-286 | block k opens with `[k] SOURCE \| author \| ` and ends with the first 300 (or fewer) content characters, `...` and a newline |
| Extraction.BlockInText | redhood_aggregator.py:281-288 | the listing holds feed k's block, numbered k+1, between the earlier and later blocks, newline-separated |
| Extraction.FormatFeeds | redhood_aggregator.py:277-288 | the loop returns exactly the specified listing |
| Extraction.ExtractNarratives | redhood_aggregator.py:233-275 | returns exactly the narratives the specification gives |
| Extraction.ExtractionFacts | redhood_aggregator.py:245-275 | only the first `max_feeds` feeds are listed and cited; a failed call yields no narratives |
| Aggregator.SortNewestFirst | redhood_aggregator.py:426 | `all_feeds.sort(key=timestamp, reverse=True)` as a stable insertion sort; its properties are the rows below |
| Aggregator.AtTimeAppend | redhood_aggregator.py:426 | the items with a given time in a concatenation are those of each part, in order |
| Aggregator.InsertByTimeMultiset | redhood_aggregator.py:426 | inserting adds exactly the item |
| Aggregator.HeadNewest | redhood_aggregator.py:426 | in a newest-first list the head is not older than anything after it |
| Aggregator.InsertByTimeSorted | redhood_aggregator.py:426 | inserting into a newest-first list keeps it newest first |
| Aggregator.InsertByTimeAtTime | redhood_aggregator.py:426 | inserting places the item after the items with its own time, leaving their order alone |
| Aggregator.SortNewestFirstFacts | redhood_aggregator.py:426 | the sort is newest first, a permutation, and stable |
| Aggregator.RunOutcome | redhood_aggregator.py:407-440 | the results `run` saves: nothing when no item was found, otherwise every item newest first and the narratives of the first `MAX_FEEDS_TO_PROCESS` |
| Aggregator.RssItemsFacts | redhood_aggregator.py:410 | every RSS item is an `rss` item at or after its cutoff |
| Aggregator.RunOrdering | redhood_aggregator.py:407-426 | the run keeps every fetched item, a permutation of RSS items followed by tweets, newest first, ties in fetch order; nothing found returns nothing |
| Aggregator.RunSources | redhood_aggregator.py:407-417 | every returned item is an RSS item or a tweet at or after its fetcher's cutoff |
| Aggregator.RunCitations | redhood_aggregator.py:428-433 | narratives cite only the first `MAX_FEEDS_TO_PROCESS` returned items (50 by default) |
| Aggregator.Returned | redhood_aggregator.py:443-445 | what `run` hands back: the saved results when the summary prints every narrative, nothing when it raises |
| Aggregator.ReturnedFacts | redhood_aggregator.py:443-476 | the results are returned iff every narrative has a numeric `entropy_risk` and joinable `catalysts`; results without a narrative are always returned; a text or null `entropy_risk` makes the run raise |
| Aggregator.PrintSummary | redhood_aggregator.py:461-476 | the summary loop gets through exactly when every narrative's risk compares with 3 and 7 and its catalysts join |
| Aggregator.RedHoodAggregator.Run | redhood_aggregator.py:393-445 | the run saves exactly the specified feeds and narratives and returns them, or raises when the summary does |
| Aggregator.RiskBand | redhood_aggregator.py:469-470 | at most 3 is low, at most 7 medium, anything above high |
| Aggregator.EntropyLevel | redhood_aggregator.py:469-470 | the band of a decoded `entropy_risk`: numbers (bools as 0 and 1) are banded, anything else raises |
| Aggregator.RiskBandFacts | redhood_aggregator.py:469-470 | the band matches the 1-10 scale of the prompt, is monotone, and any integer is banded |
| AccountsDb.Normalise | accounts_db.py:81 | `handle.lstrip('@')` |
| AccountsDb.Insert | accounts_db.py:80-93 | the `INSERT`: a new handle is appended as an active row with the next id, a duplicate violates UNIQUE and changes nothing |
| AccountsDb.Delete | accounts_db.py:96-105 | the `DELETE`: the rows without the handle, counter unchanged |
| AccountsDb.Toggle | accounts_db.py:108-121 | the `UPDATE`: `active` becomes `1 - active` on the handle's row |
| AccountsDb.SeedWith | accounts_db.py:54-59 | `INSERT OR IGNORE` of each account in turn |
| AccountsDb.ActiveHandles | accounts_db.py:124-131 | the `SELECT`: handles of rows with `active = 1`, in id order |
| AccountsDb.InsertFacts | accounts_db.py:80-93 | a new handle is appended as an active row with an id above all ids assigned; a duplicate changes nothing; the constraints hold |
| AccountsDb.DeleteFacts | accounts_db.py:96-105 | removal deletes exactly the handle's row, keeps every other row and the id counter, and changes nothing for an absent handle |
| AccountsDb.ToggleFacts | accounts_db.py:108-121 | only the handle's row has `active` flipped; toggling twice restores the table; the constraints hold |
| AccountsDb.SeedWithFacts | accounts_db.py:54-59 | inserting-or-ignoring any list of accounts keeps the table valid and its rows in place, never lowers the counter, and leaves every listed handle present |
| AccountsDb.SeedFacts | accounts_db.py:47-62 | seeding keeps existing rows as they were, makes every default present, and is idempotent |
| AccountsDb.SeedEmpty | accounts_db.py:32-38 | seeding an empty table gives the five defaults, active, with ids 1 to 5 |
| AccountsDb.ActiveHandlesFacts | accounts_db.py:124-131 | the active handles are exactly those of rows with `active = 1` |
| AccountsDb.NormaliseFacts | accounts_db.py:81 | stripping `@` is idempotent, ignores extra leading `@`, and leaves no leading `@` |
| AccountsDb.AccountsDb.InitDb | accounts_db.py:47-62 | the loop leaves the table seeded as specified, and valid |
| AccountsDb.AccountsDb.AddAccount | accounts_db.py:80-93 | the table after the insert, and whether a row was added |
| AccountsDb.AccountsDb.RemoveAccount | accounts_db.py:96-105 | the table after the delete, and whether a row was found |
| AccountsDb.AccountsDb.ToggleAccount | accounts_db.py:108-121 | the table after the update, and the row's new flag or none |
| AccountsDb.AccountsDb.GetActiveHandles | accounts_db.py:124-131 | the loop returns the active handles in id order |
| PyText.ParseIntRoundTrip | redhood_aggregator.py:81 | the decimal text of an integer reads back as that integer |
| PyText.SplitJoin | redhood_aggregator.py:338 | joining the pieces of a split with the separator rebuilds the text |
| PyText.StrippedPrefixOccurs | redhood_aggregator.py:337-338 | when the stripped text starts with a pattern, the pattern occurs in the text |

## Left out

- Network access, `feedparser`, the clock, `strftime`, `json.loads` and the Anthropic client are parameters. `parse` is a function, so a URL parses the same way each time it is fetched.
- The prompt text of `_build_extraction_prompt` is not modelled. `complete` takes the listing and stands for the prompt and the call together.
- Times are whole epoch seconds. Naive `datetime` values and time zones are not modelled. `hours_back` is a float in the source; here each fetcher gets an integer cutoff.
- `Narrative.id`, `Narrative.date` and the run's `timestamp` key come from the clock and are not modelled.
- `to_dict`, `__repr__`, `_save_results`, `main` and every `print` are not modelled. Of `_print_summary` only whether it raises is modelled. `demo.py` and `models.py` are not part of this model.
- `list_accounts` only prints and is not modelled.
- The SQLite connection, file and commits are not modelled. The table lives in memory.
- Ids are unbounded integers. SQLite's 64-bit id limit is not modelled.
- `Upper` upper-cases ASCII letters only.
- `Replace` with an empty pattern is not modelled. The instance name is never empty.
- NaN and infinite floats in a reply are not modelled. `Json` reals are Dafny reals.
- `catalysts` are kept as the decoded value. The summary's `', '.join` is modelled only as whether it raises.
- Aggregator.RiskBandFacts: the band is proved for numbers. A non-numeric `entropy_risk` has no band (`EntropyLevel` gives None); `PrintSummary` and `Returned` turn that into the exception the summary raises.
