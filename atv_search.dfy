/**
 * The search client: storefront selection when it is constructed, the
 * relevance score, and the search itself, which walks the shelves of one
 * decoded response, keeps the qualifying items, sorts and truncates them.
 * The HTTP requests are not modelled: the outcome of the search request
 * and the region-to-storefront lookup are parameters.
 */
module AppleTV {
  import opened Wrappers
  import opened Text
  import opened Scoring
  import opened Catalog
  import opened Ranking

  /** The US storefront, used whenever no other storefront can be determined. */
  const DefaultStorefront := "143441"

  /** Python truthiness of an optional string: present and non-empty. */
  predicate Truthy(s: Option<string>) {
    s.Some? && s.value != ""
  }

  /**
   * The storefront the client ends up with: an explicit storefront id
   * wins; otherwise a region whose lookup yields a storefront gives that
   * one; otherwise (failed lookup, or neither given) the US storefront.
   */
  function Storefront(storefrontId: Option<string>, region: Option<string>, lookup: string -> Option<string>): (sf: string)
    ensures sf != ""
    ensures Truthy(storefrontId) ==> sf == storefrontId.value
    ensures !Truthy(storefrontId) && Truthy(region) && Truthy(lookup(region.value)) ==> sf == lookup(region.value).value
    ensures !Truthy(storefrontId) && !(Truthy(region) && Truthy(lookup(region.value))) ==> sf == DefaultStorefront
  {
    if Truthy(storefrontId) then storefrontId.value
    else if Truthy(region) && Truthy(lookup(region.value)) then lookup(region.value).value
    else DefaultStorefront
  }

  /** How the command line's `-sf` value is read: a storefront id, a region, or nothing. */
  datatype StorefrontArg = StorefrontArg(storefrontId: Option<string>, region: Option<string>)

  /**
   * An all-digit `-sf` value is a storefront id; any other non-empty value
   * is a region, upper-cased; an absent or empty value is neither.
   */
  function ClassifyStorefrontArg(arg: Option<string>): (c: StorefrontArg)
    ensures !Truthy(arg) ==> c.storefrontId.None? && c.region.None?
    ensures Truthy(arg) && IsDigits(arg.value) ==> c.storefrontId == arg && c.region.None?
    ensures Truthy(arg) && !IsDigits(arg.value) ==> c.storefrontId.None? && c.region == Some(Upper(arg.value))
  {
    if !Truthy(arg) then StorefrontArg(None, None)
    else if IsDigits(arg.value) then StorefrontArg(arg, None)
    else StorefrontArg(None, Some(Upper(arg.value)))
  }

  /**
   * From the command line to the client's storefront: an all-digit value is
   * used as it is; any other value is looked up as an upper-cased region and
   * falls back to the US storefront when the lookup fails; no value gives
   * the US storefront. The storefront is never empty.
   */
  lemma CliStorefront(arg: Option<string>, lookup: string -> Option<string>)
    ensures var c := ClassifyStorefrontArg(arg);
      Storefront(c.storefrontId, c.region, lookup) ==
        if !Truthy(arg) then DefaultStorefront
        else if IsDigits(arg.value) then arg.value
        else if Truthy(lookup(Upper(arg.value))) then lookup(Upper(arg.value)).value
        else DefaultStorefront
  {
    if Truthy(arg) {
      assert |Upper(arg.value)| == |arg.value|;
    }
  }

  /** The candidate entries of a search response, in shelf and item order. */
  function Candidates(fetched: Fetch, query: string, includePeople: bool, filterType: Option<string>): seq<SearchResult> {
    match fetched
    case Failed => []
    case Fetched(response) => Accepted(Stream(ShelvesOf(response), includePeople), query, filterType)
  }

  /** The returned list: the candidates sorted by rank, then cut to `max_results`. */
  function Ranked(fetched: Fetch, query: string, includePeople: bool, filterType: Option<string>, maxResults: Option<int>): seq<SearchResult> {
    Truncate(SortByRank(Candidates(fetched, query, includePeople, filterType)), maxResults)
  }

  /** A failed request, or a response without shelves, returns nothing. */
  lemma {:induction false} NoShelvesNoResults(fetched: Fetch, query: string, includePeople: bool, filterType: Option<string>, maxResults: Option<int>)
    requires fetched.Failed? || ShelvesOf(fetched.response) == []
    ensures Ranked(fetched, query, includePeople, filterType, maxResults) == []
  {
  }

  /**
   * What the returned list guarantees: ids non-empty and pairwise distinct,
   * URLs with a content path that pass the filter, ordered by rank, drawn
   * from the candidates, and as long as `max_results` allows.
   */
  lemma {:induction false} RankedGuarantees(fetched: Fetch, query: string, includePeople: bool, filterType: Option<string>, maxResults: Option<int>)
    ensures DistinctIds(Ranked(fetched, query, includePeople, filterType, maxResults))
    ensures WellFormedEntries(Ranked(fetched, query, includePeople, filterType, maxResults), filterType)
    ensures Ordered(Ranked(fetched, query, includePeople, filterType, maxResults))
    ensures multiset(Ranked(fetched, query, includePeople, filterType, maxResults))
         <= multiset(Candidates(fetched, query, includePeople, filterType))
    ensures var n := |Candidates(fetched, query, includePeople, filterType)|;
      |Ranked(fetched, query, includePeople, filterType, maxResults)| ==
        if maxResults.Some? && 0 < maxResults.value < n then maxResults.value else n
  {
    var c := Candidates(fetched, query, includePeople, filterType);
    var sorted := SortByRank(c);
    var r := Ranked(fetched, query, includePeople, filterType, maxResults);
    if fetched.Fetched? {
      AcceptedWellFormed(Stream(ShelvesOf(fetched.response), includePeople), query, filterType);
    }
    SortByRankOrdered(c);
    SortByRankDistinct(c);
    assert sorted == r + sorted[|r|..];
    forall i | 0 <= i < |r|
      ensures r[i].id != "" && HasContentPath(r[i].url) && PassesFilter(r[i].url, filterType)
    {
      assert r[i] in multiset(c);
    }
  }

  /**
   * Every returned entry is the entry of one item of one shelf of the
   * response, at that item's position within its shelf, and that shelf is
   * not a people shelf unless people were asked for.
   */
  lemma {:induction false} RankedFromShelves(response: Response, query: string, includePeople: bool, filterType: Option<string>, maxResults: Option<int>)
    ensures forall r :: r in Ranked(Fetched(response), query, includePeople, filterType, maxResults) ==>
      EntryFromShelves(ShelvesOf(response), includePeople, r, query)
  {
    var c := Candidates(Fetched(response), query, includePeople, filterType);
    var sorted := SortByRank(c);
    var ranked := Ranked(Fetched(response), query, includePeople, filterType, maxResults);
    AcceptedFromShelves(ShelvesOf(response), includePeople, query, filterType);
    assert sorted == ranked + sorted[|ranked|..];
    forall r | r in ranked
      ensures r in c
    {
      assert r in multiset(c);
    }
  }

  /** Extending a prefix by one element. */
  lemma TakeOneMore<T>(s: seq<T>, i: nat)
    requires i < |s|
    ensures s[..i + 1] == s[..i] + [s[i]]
  {
  }

  /** The search client. Its settings are fixed when it is constructed. */
  class ATVSearch {
    const storefrontId: string
    const locale: string
    const timeout: int
    const includePeople: bool

    /**
     * Settles the storefront: a region given without a storefront id is
     * looked up with `lookup` (which stands for the storefront-directory
     * request), falling back to the US storefront when that fails.
     */
    constructor (storefrontId: Option<string>, region: Option<string>, locale: string, timeout: int,
                 includePeople: bool, lookup: string -> Option<string>)
      ensures this.storefrontId == Storefront(storefrontId, region, lookup)
      ensures this.locale == locale && this.timeout == timeout && this.includePeople == includePeople
    {
      this.locale := locale;
      this.timeout := timeout;
      this.includePeople := includePeople;
      var sf := storefrontId;
      if Truthy(region) && !Truthy(sf) {
        sf := lookup(region.value);
        if !Truthy(sf) {
          sf := Some(DefaultStorefront);
        }
      }
      if !Truthy(sf) {
        sf := Some(DefaultStorefront);
      }
      this.storefrontId := sf.value;
    }

    /** The relevance score, computed step by step; it is `Score`. */
    static method ScoreResult(title: string, query: string, position: int) returns (score: int)
      ensures score == Score(title, query, position)
    {
      var titleLower := Lower(title);
      var queryLower := Lower(query);
      score := 0;
      if titleLower == queryLower {
        score := score + ExactBonus;
      } else if IsPrefix(queryLower, titleLower) {
        score := score + PrefixBonus;
      } else if Contains(" " + titleLower, " " + queryLower) {
        score := score + WordStartBonus;
      } else if Contains(titleLower, queryLower) {
        score := score + SubstringBonus;
      }
      var queryWords := Words(queryLower);
      var titleWords := Words(titleLower);
      for i := 0 to |queryWords|
        invariant score == TierBonus(titleLower, queryLower) + WordBonus(queryWords[..i], titleWords)
      {
        assert queryWords[..i + 1][..i] == queryWords[..i];
        if queryWords[i] in titleWords {
          score := score + WordMatchBonus;
        }
      }
      assert queryWords[..|queryWords|] == queryWords;
      score := score + (if PositionCeiling - position > 0 then PositionCeiling - position else 0);
    }

    /**
     * The walk over the items of one shelf that is not skipped: after
     * walking the slots `before`, it continues with this shelf's slots,
     * marking each non-empty id as seen and appending the entry of every
     * kept item.
     */
    method WalkShelf(shelf: Shelf, query: string, filterType: Option<string>,
                     results0: seq<SearchResult>, seenIds0: set<string>, ghost before: seq<Slot>)
      returns (results: seq<SearchResult>, seenIds: set<string>)
      requires !Skipped(shelf, includePeople)
      requires seenIds0 == SeenIds(before) && results0 == Accepted(before, query, filterType)
      ensures seenIds == SeenIds(before + SlotsOf(shelf, includePeople))
      ensures results == Accepted(before + SlotsOf(shelf, includePeople), query, filterType)
    {
      results, seenIds := results0, seenIds0;
      var shelfId := shelf.id.GetOr("");
      var items := shelf.items.GetOr([]);
      ghost var slots := SlotsOf(shelf, includePeople);
      ghost var walked := before;
      assert |slots| == |items|;
      for position := 0 to |items|
        invariant walked == before + slots[..position]
        invariant seenIds == SeenIds(walked)
        invariant results == Accepted(walked, query, filterType)
      {
        var item := items[position];
        ghost var slot := Slot(shelfId, position, item);
        assert slots[position] == slot;
        TakeOneMore(slots, position);
        assert walked + [slot] == before + slots[..position + 1];
        SeenIdsSnoc(walked, slot);
        AcceptedSnoc(walked, slot, query, filterType);
        walked := walked + [slot];

        var contentId := item.id.GetOr("");
        if contentId == "" || contentId in seenIds {
          continue;
        }
        seenIds := seenIds + {contentId};

        var title := item.title.GetOr("Unknown");
        var contentType := item.kind.GetOr("Unknown");
        var localizedType := item.localizedType.GetOr(contentType);
        var url := item.url.GetOr("");

        if url == "" || (!Contains(url, "/show/") && !Contains(url, "/movie/") && !Contains(url, "/person/")) {
          continue;
        }

        if filterType.Some? && filterType.value != "" {
          var ft := Lower(filterType.value);
          var isMovie := Contains(url, "/movie/");
          var isShow := Contains(url, "/show/");
          if ft == "movie" && !isMovie {
            continue;
          }
          if (ft == "show" || ft == "series") && !isShow {
            continue;
          }
        }

        var score := ScoreResult(title, query, position);
        results := results + [SearchResult(score, contentId, title, localizedType, contentType, url)];
      }
      assert slots[..|items|] == slots;
    }

    /**
     * Searches one decoded response (`fetched`; a failed request gives no
     * results): walks the shelves and their items, keeps the qualifying
     * ones, sorts them by rank and cuts the list to `maxResults`.
     */
    method Search(query: string, maxResults: Option<int>, filterType: Option<string>, fetched: Fetch)
      returns (results: seq<SearchResult>)
      ensures results == Ranked(fetched, query, includePeople, filterType, maxResults)
      ensures fetched.Failed? || ShelvesOf(fetched.response) == [] ==> results == []
      ensures DistinctIds(results) && WellFormedEntries(results, filterType) && Ordered(results)
      ensures filterType.Some? && Lower(filterType.value) == "movie" ==>
        forall r :: r in results ==> Contains(r.url, "/movie/")
      ensures filterType.Some? && (Lower(filterType.value) == "show" || Lower(filterType.value) == "series") ==>
        forall r :: r in results ==> Contains(r.url, "/show/")
      ensures maxResults.Some? && maxResults.value > 0 ==> |results| <= maxResults.value
    {
      if fetched.Failed? {
        return [];
      }
      var shelves := ShelvesOf(fetched.response);
      if |shelves| == 0 {
        return [];
      }

      results := [];
      var seenIds: set<string> := {};
      ghost var walked: seq<Slot> := [];

      for s := 0 to |shelves|
        invariant walked == Stream(shelves[..s], includePeople)
        invariant seenIds == SeenIds(walked)
        invariant results == Accepted(walked, query, filterType)
      {
        var shelf := shelves[s];
        var shelfId := shelf.id.GetOr("");
        assert shelves[..s + 1][..s] == shelves[..s];

        if !includePeople && (Contains(shelfId, "PN") || Contains(Lower(shelfId), "people")) {
          continue;
        }

        ghost var before := walked;
        assert !Skipped(shelf, includePeople);
        results, seenIds := WalkShelf(shelf, query, filterType, results, seenIds, before);
        walked := before + SlotsOf(shelf, includePeople);
      }
      assert shelves[..|shelves|] == shelves;

      results := SortByRank(results);
      if maxResults.Some? && maxResults.value > 0 && maxResults.value < |results| {
        results := results[..maxResults.value];
      }
      RankedGuarantees(fetched, query, includePeople, filterType, maxResults);
      WellFormedFiltered(results, filterType);
    }
  }
}
