# Apple TV search: ranking and normalisation

A Dafny model of the core of `AppleTV_Search_tool.py`, the unofficial Apple
TV search client. It covers four pieces:

- **Scoring.** `ATVSearch._score_result` gives one hit a relevance score. It
  adds three parts:
  - a match-tier bonus: exact 1000, prefix 500, word start 300 or substring
    200;
  - 50 for every query word that is a title word;
  - `max(0, 100 - position)`.
- **Post-response search.** This is the second half of `ATVSearch.search`,
  which runs once the response is decoded:
  - skip people shelves;
  - de-duplicate by id, where an id is spent on its first occurrence even
    if that item is then rejected;
  - check the URL shape;
  - apply the optional movie/show/series filter;
  - score each item by its position in its own shelf;
  - sort stably by (score descending, title ascending);
  - cut the list to `max_results`.
- **Storefront fallback.** The client's constructor settles the storefront.
- **Command line.** `main` reads the `-sf` value as a storefront id or a
  region.

Modules:

- `Wrappers`: `Option`, which stands for the JSON keys that may be absent.
- `Text`: the ASCII string operations the tool relies on.
  - `lower()`, `upper()`, `split()`, `startswith`, `in`, `isdigit()`;
  - Python's `<` on strings.
- `Scoring`: the score as a function, with its properties.
- `ScoringExamples`: worked examples on concrete titles.
- `Catalog`: the decoded response as datatypes, and a declarative account of
  which items the search keeps.
  - Every shelf that is not skipped is flattened into a stream of slots. A
    slot is (shelf id, position in the shelf, item).
  - `Accepted` lists the entries of the kept slots. A slot is kept when it
    is the first to carry its non-empty id, its URL has a content path, and
    it passes the filter.
- `Ranking`: the stable sort by rank, as an insertion sort, and the cut to
  `max_results`.
- `AppleTV`: the class `ATVSearch`, plus the storefront and command-line
  functions.
  - The constructor reassigns the storefront step by step, as the source
    does.
  - `ScoreResult` computes the score with the source's loop over query
    words and is proved equal to `Scoring.Score`.
  - `Search` walks the shelves with the source's nested loops, a set of
    seen ids and a growing result list. It is proved to return
    `Ranked(...)`: the sorted, truncated `Accepted` list.
  - The loop over one shelf's items is the method `WalkShelf`. The source
    writes it inline in `search`. It is split out only to keep each proof
    small, and the statements are the source's.

The HTTP requests are not modelled; each becomes a parameter:

- The search request's outcome is the parameter `fetched`: either `Failed`,
  for a transport or status error, or the decoded body.
- The storefront-directory lookup (`get_storefront_for_region`) is the
  function parameter `lookup` of the constructor.

Details of the source's behaviour the model keeps:

- The people-shelf test matches "PN" case-sensitively and "people"
  case-insensitively (`Catalog.PeopleShelfExamples`).
- The type filter also accepts "series", which it treats as "show".
- An absent item id is treated like the empty id. Python's `not content_id`
  skips both.

## Model

| member | source | states |
|---|---|---|
| Text.Lower | AppleTV_Search_tool.py:136-137 | lower-casing keeps the length and lower-cases each character (ASCII) |
| Text.Upper | AppleTV_Search_tool.py:353 | upper-casing keeps the length and upper-cases each character (ASCII) |
| Text.LowerIdempotent | AppleTV_Search_tool.py:136-137 | lower-casing a lower-cased string changes nothing |
| Text.TokenLength | AppleTV_Search_tool.py:151-152 | the leading run of non-whitespace ends at the first whitespace character or at the end |
| Text.Words | AppleTV_Search_tool.py:151-152 | `split()` yields only non-empty words without whitespace |
| Text.WordsOfWord | AppleTV_Search_tool.py:151-152 | a string without whitespace splits into itself alone |
| Text.WordsOfSpaced | AppleTV_Search_tool.py:151-152 | a word followed by a space and more text splits into that word then the split of the rest |
| Text.TokenLengthExtend | AppleTV_Search_tool.py:151-152 | a leading word ended by whitespace is still the leading word when more text follows |
| Text.WordsConcat | AppleTV_Search_tool.py:151-152 | splitting two texts joined at whitespace gives the words of the first followed by the words of the second |
| Text.WordsOfPrefix | AppleTV_Search_tool.py:151-152 | every word of the query but the last is a word of any text that starts with the query |
| Text.WordsOfInfix | AppleTV_Search_tool.py:151-152 | every word of the query but the first and the last is a word of any text that contains the query |
| Text.PrefixIsContained | AppleTV_Search_tool.py:143-147 | a prefix of the title is a substring of it |
| Text.SpacedContainsIsContained | AppleTV_Search_tool.py:145-147 | a word-start match (`" "+q in " "+t`) implies a substring match |
| Text.PrefixIsSpacedContained | AppleTV_Search_tool.py:143-145 | a prefix match implies a word-start match |
| Text.WordStartSplit | AppleTV_Search_tool.py:145 | where `" "+q` occurs in `" "+t`, the title is text ending in whitespace (or nothing), then the query, then the rest |
| Text.LexLessIrreflexive | AppleTV_Search_tool.py:251 | no title sorts before itself |
| Text.LexLessTransitive | AppleTV_Search_tool.py:251 | title order is transitive |
| Text.LexLessTotal | AppleTV_Search_tool.py:251 | of two different titles, one sorts before the other |
| Scoring.WordBonus | AppleTV_Search_tool.py:150-155 | the word bonus is at most 50 per query word, and reaches that exactly when every query word is a title word |
| Scoring.PositionBonus | AppleTV_Search_tool.py:158 | `max(0, 100 - position)`: never negative, zero exactly from position 100 on |
| Scoring.TierChain | AppleTV_Search_tool.py:140-148 | each tier's condition implies the next, so the first match picks the single tier; the bonus is one of 1000/500/300/200/0, and positive exactly when the title contains the query |
| Scoring.WordBonusAdditive | AppleTV_Search_tool.py:153-155 | the word bonus of two query word lists joined is the sum of their bonuses (each occurrence of a word counts) |
| Scoring.WordBonusSingle | AppleTV_Search_tool.py:153-155 | one query word earns 50 exactly when it is a title word |
| Scoring.ScoreBounds | AppleTV_Search_tool.py:130-160 | the score is at least the position bonus, so never negative, and at most 1000 + 50 per query word + the position bonus |
| Scoring.ScoreByPosition | AppleTV_Search_tool.py:157-158 | for a fixed title and query the score never rises with the position, falls strictly below position 100, and is constant from 100 on |
| Scoring.ScoreIgnoresCase | AppleTV_Search_tool.py:136-137 | the score depends only on the lower-cased title and query |
| Scoring.ExactMatchOutranks | AppleTV_Search_tool.py:141-142 | at the same position, a title equal to the query (ignoring case) outscores any title that is not |
| Scoring.WordBonusAtLeast | AppleTV_Search_tool.py:153-155 | a run of query words that are all title words earns at least 50 each |
| Scoring.PrefixWordFloor | AppleTV_Search_tool.py:143-155 | a title starting with the query earns the word bonus of every query word but the last |
| Scoring.WordStartWordFloor | AppleTV_Search_tool.py:145-155 | a title in which the query starts a word earns the word bonus of every query word but the last |
| Scoring.SubstringWordFloor | AppleTV_Search_tool.py:147-155 | a title containing the query earns the word bonus of every query word but the first and the last |
| Scoring.TierOutranks | AppleTV_Search_tool.py:130-160 | at the same position a better match tier always gives the higher whole score: exact over prefix over word start over substring over no match, whatever the word bonuses |
| Scoring.TierBonus | AppleTV_Search_tool.py:140-148 | defines the match-tier bonus of a lower-cased title and query, testing equal, prefix, word start and substring in that order |
| Scoring.Score | AppleTV_Search_tool.py:130-160 | defines the relevance score: tier bonus plus word bonus of the lower-cased texts plus position bonus |
| ScoringExamples.TierExamples | AppleTV_Search_tool.py:140-148 | for "foundation": itself 1000, "foundation ii" 500, "the foundation show" 300, "xfoundationx" 200, "dune" 0 |
| ScoringExamples.FoundationRanking | AppleTV_Search_tool.py:130-160 | for the query "foundation" at any common position: "Foundation" outscores "Foundation II", which outscores "The Foundation Show", which outscores "xFoundationx" |
| ScoringExamples.ExactTitleExample | AppleTV_Search_tool.py:130-160 | "Ted Lasso" for "ted lasso" at position 0 scores 1000 + 100 + 100 |
| ScoringExamples.SwappedTitleExample | AppleTV_Search_tool.py:130-160 | "Lasso Ted" for "ted lasso" at position 5 scores 0 + 100 + 95 |
| ScoringExamples.SwappedWords | AppleTV_Search_tool.py:150-155 | both words of "ted lasso" are words of "lasso ted" |
| ScoringExamples.SwappedTier | AppleTV_Search_tool.py:140-148 | "ted lasso" earns no tier bonus against "lasso ted" |
| Catalog.SlotsOf | AppleTV_Search_tool.py:196-207 | a skipped shelf contributes no slots; any other contributes one per item, carrying its shelf id and its 0-based position |
| Catalog.ShelvesOf | AppleTV_Search_tool.py:189 | defines the shelves of a response: `data.canvas.shelves`, empty when any level is absent |
| Catalog.IsPeopleShelf | AppleTV_Search_tool.py:199-203 | defines a people shelf: its id contains "PN", or its lower-cased id contains "people" |
| Catalog.HasContentPath | AppleTV_Search_tool.py:219-225 | defines a usable URL: non-empty and containing "/show/", "/movie/" or "/person/" |
| Catalog.PassesFilter | AppleTV_Search_tool.py:227-235 | defines the type filter: absent or empty passes all; "movie" in any case needs "/movie/"; "show" or "series" need "/show/"; anything else passes all |
| Catalog.Accepted | AppleTV_Search_tool.py:207-248 | defines the candidate entries: the entries of the kept slots (first occurrence of a non-empty id, usable URL, passes the filter), in walk order |
| Catalog.EntryOf | AppleTV_Search_tool.py:214-248 | an entry carries the item's id and URL, the title or "Unknown", the raw type or "Unknown", the localized type or else the raw type, and the score at the item's position |
| Catalog.SeenIdsSnoc | AppleTV_Search_tool.py:208-212 | walking one more item marks its non-empty id as seen, whatever becomes of the item |
| Catalog.KeepsPrefix | AppleTV_Search_tool.py:207-235 | whether an item is kept depends only on the items walked up to it |
| Catalog.AcceptedSnoc | AppleTV_Search_tool.py:207-248 | walking one more item appends its entry exactly when its id is non-empty and unseen, its URL has a content path and it passes the filter |
| Catalog.AcceptedSound | AppleTV_Search_tool.py:207-248 | every accepted entry is the entry of a kept item |
| Catalog.AcceptedComplete | AppleTV_Search_tool.py:207-248 | every kept item's entry is accepted |
| Catalog.WellFormedFiltered | AppleTV_Search_tool.py:227-235 | with filter "movie" (any case) every kept URL contains "/movie/"; with "show" or "series" every kept URL contains "/show/" |
| Catalog.AcceptedWellFormed | AppleTV_Search_tool.py:208-235 | accepted ids are non-empty and pairwise distinct; every URL has "/show/", "/movie/" or "/person/" and passes the filter |
| Catalog.FirstOccurrenceDecides | AppleTV_Search_tool.py:208-212 | the first item carrying an id decides that id: its entry is returned exactly when it is kept, it is the only entry with that id, and if it is rejected no entry has that id |
| Catalog.BurnedIdExample | AppleTV_Search_tool.py:208-225 | a duplicate of an id whose first item had no usable URL is dropped too |
| Catalog.OtherFilterKeepsAll | AppleTV_Search_tool.py:228-235 | a filter other than movie, show or series (any case) filters nothing |
| Catalog.PeopleShelfExamples | AppleTV_Search_tool.py:199-203 | "uts.col.Featured.PN" is a people shelf; "uts.col.featured.pn" is not |
| Catalog.StreamOrigin | AppleTV_Search_tool.py:196-207 | every walked slot is an item of a shelf that is not skipped, at its own position in it |
| Catalog.AcceptedFromShelves | AppleTV_Search_tool.py:199-207 | every accepted entry comes from an item of the response, from a shelf that is not a people shelf unless people are included |
| Ranking.Insert | AppleTV_Search_tool.py:251 | inserting adds exactly the one entry |
| Ranking.SortByRank | AppleTV_Search_tool.py:251 | sorting is a permutation |
| Ranking.Truncate | AppleTV_Search_tool.py:253-254 | a positive maximum keeps the first min(maximum, length) entries; an absent or non-positive one keeps all |
| Ranking.RankOrder | AppleTV_Search_tool.py:251 | the sort key order is a strict weak order whose incomparable entries have equal score and title |
| Ranking.InsertOrdered | AppleTV_Search_tool.py:251 | inserting into an ordered list keeps it ordered |
| Ranking.SortByRankOrdered | AppleTV_Search_tool.py:251 | the sorted list has no entry ranked strictly before an earlier one |
| Ranking.WithRankCons | AppleTV_Search_tool.py:251 | the entries of one key among a list with one more entry at the front |
| Ranking.InsertWithRank | AppleTV_Search_tool.py:251 | inserting passes only entries of other keys, so each key's entries keep their order |
| Ranking.SortByRankStable | AppleTV_Search_tool.py:251 | the sort is stable: entries with equal score and title keep their original order |
| Ranking.InsertDistinct | AppleTV_Search_tool.py:251 | inserting an entry with a new id keeps ids distinct |
| Ranking.SortByRankDistinct | AppleTV_Search_tool.py:251 | sorting keeps ids distinct |
| AppleTV.Storefront | AppleTV_Search_tool.py:68-79 | an explicit storefront id wins; else a region whose lookup succeeds gives that storefront; else "143441"; never empty |
| AppleTV.ClassifyStorefrontArg | AppleTV_Search_tool.py:349-353 | an all-digit value is a storefront id, any other non-empty value an upper-cased region, an absent or empty one neither |
| AppleTV.CliStorefront | AppleTV_Search_tool.py:349-353 | from the command line value to the storefront: digits as given, else the looked-up upper-cased region, else "143441" |
| AppleTV.NoShelvesNoResults | AppleTV_Search_tool.py:185-191 | a failed request or a response without shelves returns nothing |
| AppleTV.Ranked | AppleTV_Search_tool.py:250-256 | defines the returned list: the candidates of the response sorted by rank, then cut to `max_results` |
| AppleTV.RankedGuarantees | AppleTV_Search_tool.py:193-256 | the result has distinct non-empty ids and well-formed filtered URLs, is ordered by rank, is drawn from the accepted entries, and is as long as `max_results` allows |
| AppleTV.RankedFromShelves | AppleTV_Search_tool.py:199-203 | every returned entry is built from an item of the response at its own position, from a shelf that is not a people shelf unless people are included |
| AppleTV.ATVSearch.constructor | AppleTV_Search_tool.py:63-81 | the stored storefront is `Storefront(...)` of the arguments; the other settings are stored unchanged |
| AppleTV.ATVSearch.ScoreResult | AppleTV_Search_tool.py:130-160 | the step-by-step score equals `Scoring.Score` |
| AppleTV.ATVSearch.WalkShelf | AppleTV_Search_tool.py:205-248 | after the items of one shelf, the seen ids and the results are those of the walk extended by that shelf's slots |
| AppleTV.ATVSearch.Search | AppleTV_Search_tool.py:189-256 | returns the accepted entries sorted and truncated; nothing on failure or without shelves; distinct ids, well-formed and filtered URLs, ordered, at most `max_results` long |

## Left out

- The HTTP session, its headers, the search request, `raise_for_status` and JSON decoding. These are network I/O. The search outcome is the parameter `fetched`.
- The body of `get_storefront_for_region`. It is a network call that swallows its exceptions. It is the parameter `lookup`, which returns a storefront or nothing.
- Argument parsing, the version banner, and all printing and JSON output of `main`. These are command-line and formatting glue.
- The warnings printed to standard error. They are output only.
- `base_params` and the endpoint URLs. They are constant configuration and have no behaviour.
- `locale` and `timeout` are stored but never used by the modelled code. They only feed the requests.
- JSON values of the wrong type, such as a null or numeric id, title or shelf id. In the source they raise or compare oddly. In the model every field is an optional string.
- Non-ASCII text. Lower- and upper-casing, whitespace splitting and `isdigit()` are modelled on ASCII only. Python applies full Unicode rules.
- Ranking.SortByRank: Python's in-place `list.sort` is modelled as a function on values. It is proved ordered, a permutation and stable, but the in-place update is not modelled.
- Positions are non-negative, as `enumerate` makes them. `PositionBonus` itself accepts any integer.
