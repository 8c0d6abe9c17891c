/**
 * The decoded search response and the normalisation of its shelves into
 * candidate results: people-shelf exclusion, de-duplication by id (an id
 * is spent on its first non-empty occurrence, kept or not), the URL-shape
 * check, the optional movie/show filter and per-shelf positions.
 *
 * The response is flattened into a stream of slots (one per item of every
 * shelf that is not skipped, in order), and `Accepted` says declaratively
 * which slots become results; the imperative walk in `AppleTV` is proved to
 * compute exactly that.
 */
module Catalog {
  import opened Wrappers
  import opened Text
  import Scoring

  /** One raw item of a shelf; every field is a JSON key that may be absent. */
  datatype Item = Item(
    id: Option<string>,
    title: Option<string>,
    kind: Option<string>,           // the raw "type" key
    localizedType: Option<string>,
    url: Option<string>)

  /** A shelf: an optional identifier and an optional list of items. */
  datatype Shelf = Shelf(id: Option<string>, items: Option<seq<Item>>)

  /** `data.canvas.shelves` of the response, each level optional. */
  datatype Canvas = Canvas(shelves: Option<seq<Shelf>>)
  datatype Payload = Payload(canvas: Option<Canvas>)
  datatype Response = Response(data: Option<Payload>)

  /** The outcome of the HTTP request: a transport or status failure, or the decoded body. */
  datatype Fetch = Failed | Fetched(response: Response)

  /** One returned entry; `kind` is the localized type, `rawType` the raw one. */
  datatype SearchResult = SearchResult(
    score: int,
    id: string,
    title: string,
    kind: string,
    rawType: string,
    url: string)

  /** An item together with its shelf's identifier and its 0-based position in that shelf. */
  datatype Slot = Slot(shelfId: string, position: nat, item: Item)

  /** `data.get("data", {}).get("canvas", {}).get("shelves", [])`. */
  function ShelvesOf(r: Response): seq<Shelf> {
    match r.data
    case None => []
    case Some(payload) =>
      match payload.canvas
      case None => []
      case Some(canvas) => canvas.shelves.GetOr([])
  }

  /** `shelf.get("id", "")`. */
  function ShelfId(shelf: Shelf): string {
    shelf.id.GetOr("")
  }

  /** `shelf.get("items", [])`. */
  function ItemsOf(shelf: Shelf): seq<Item> {
    shelf.items.GetOr([])
  }

  /** A people shelf: its id contains "PN", or its lower-cased id contains "people". */
  predicate IsPeopleShelf(shelfId: string) {
    Contains(shelfId, "PN") || Contains(Lower(shelfId), "people")
  }

  /** The shelf is passed over entirely. */
  predicate Skipped(shelf: Shelf, includePeople: bool) {
    !includePeople && IsPeopleShelf(ShelfId(shelf))
  }

  /** The slots of one shelf: none when it is skipped, else one per item with its position. */
  function SlotsOf(shelf: Shelf, includePeople: bool): (r: seq<Slot>)
    ensures Skipped(shelf, includePeople) ==> r == []
    ensures !Skipped(shelf, includePeople) ==>
      |r| == |ItemsOf(shelf)| &&
      forall p :: 0 <= p < |r| ==> r[p] == Slot(ShelfId(shelf), p, ItemsOf(shelf)[p])
  {
    if Skipped(shelf, includePeople) then []
    else
      var items := ItemsOf(shelf);
      seq(|items|, p requires 0 <= p < |items| => Slot(ShelfId(shelf), p, items[p]))
  }

  /** The slots of all shelves, shelf by shelf, in order. */
  function Stream(shelves: seq<Shelf>, includePeople: bool): seq<Slot> {
    if shelves == [] then []
    else
      var n := |shelves| - 1;
      Stream(shelves[..n], includePeople) + SlotsOf(shelves[n], includePeople)
  }

  /** `item.get("id")`, with an absent id read as the empty (falsy) one. */
  function IdOf(item: Item): string {
    item.id.GetOr("")
  }

  /** `item.get("url", "")`. */
  function UrlOf(item: Item): string {
    item.url.GetOr("")
  }

  /** The URL is non-empty and names a show, a movie or a person. */
  predicate HasContentPath(url: string) {
    url != "" && (Contains(url, "/show/") || Contains(url, "/movie/") || Contains(url, "/person/"))
  }

  /**
   * The optional type filter: absent or empty filters nothing; "movie"
   * (any case) needs "/movie/" in the URL; "show" or "series" need "/show/";
   * any other value filters nothing.
   */
  predicate PassesFilter(url: string, filterType: Option<string>) {
    match filterType
    case None => true
    case Some(f) =>
      f == "" ||
      var ft := Lower(f);
      (ft != "movie" || Contains(url, "/movie/")) &&
      ((ft != "show" && ft != "series") || Contains(url, "/show/"))
  }

  /**
   * The entry built for a slot: the score for its position, the title
   * ("Unknown" when absent), the localized type (the raw type when absent)
   * and the raw type ("Unknown" when absent).
   */
  function EntryOf(slot: Slot, query: string): (r: SearchResult)
    ensures r.id == IdOf(slot.item) && r.url == UrlOf(slot.item)
    ensures r.title == slot.item.title.GetOr("Unknown")
    ensures r.rawType == slot.item.kind.GetOr("Unknown")
    ensures r.kind == slot.item.localizedType.GetOr(r.rawType)
    ensures r.score == Scoring.Score(r.title, query, slot.position)
  {
    var item := slot.item;
    var title := item.title.GetOr("Unknown");
    var rawType := item.kind.GetOr("Unknown");
    SearchResult(Scoring.Score(title, query, slot.position), IdOf(item), title,
                 item.localizedType.GetOr(rawType), rawType, UrlOf(item))
  }

  /** Slot `k` carries a non-empty id that no earlier slot carries. */
  predicate FirstOccurrence(st: seq<Slot>, k: nat)
    requires k < |st|
  {
    IdOf(st[k].item) != "" && forall j :: 0 <= j < k ==> IdOf(st[j].item) != IdOf(st[k].item)
  }

  /** Slot `k` yields a result: first occurrence of its id, valid URL, passes the filter. */
  predicate Keeps(st: seq<Slot>, k: nat, filterType: Option<string>)
    requires k < |st|
  {
    FirstOccurrence(st, k) && HasContentPath(UrlOf(st[k].item)) && PassesFilter(UrlOf(st[k].item), filterType)
  }

  /** The entries of the kept slots, in stream order. */
  function Accepted(st: seq<Slot>, query: string, filterType: Option<string>): seq<SearchResult> {
    if st == [] then []
    else
      var n := |st| - 1;
      Accepted(st[..n], query, filterType) + (if Keeps(st, n, filterType) then [EntryOf(st[n], query)] else [])
  }

  /** The non-empty ids carried by the slots, i.e. the ids marked as seen after walking them. */
  function SeenIds(st: seq<Slot>): set<string> {
    set j | 0 <= j < |st| && IdOf(st[j].item) != "" :: IdOf(st[j].item)
  }

  /** Walking one more slot marks its id as seen, whatever becomes of the slot. */
  lemma SeenIdsSnoc(st: seq<Slot>, x: Slot)
    ensures SeenIds(st + [x]) == SeenIds(st) + (if IdOf(x.item) != "" then {IdOf(x.item)} else {})
  {
    var st' := st + [x];
    assert forall j :: 0 <= j < |st| ==> st'[j] == st[j];
    assert st'[|st|] == x;
  }

  /** Whether slot `k` is kept depends only on the slots up to `k`. */
  lemma KeepsPrefix(st: seq<Slot>, m: nat, k: nat, filterType: Option<string>)
    requires k < m <= |st|
    ensures Keeps(st[..m], k, filterType) == Keeps(st, k, filterType)
  {
    assert forall j :: 0 <= j <= k ==> st[..m][j] == st[j];
  }

  /**
   * Walking one more slot appends its entry exactly when its id is
   * non-empty and not yet seen, its URL has a content path and it passes
   * the filter.
   */
  lemma AcceptedSnoc(st: seq<Slot>, x: Slot, query: string, filterType: Option<string>)
    ensures Accepted(st + [x], query, filterType) ==
      Accepted(st, query, filterType) +
      (if IdOf(x.item) != "" && IdOf(x.item) !in SeenIds(st) &&
          HasContentPath(UrlOf(x.item)) && PassesFilter(UrlOf(x.item), filterType)
       then [EntryOf(x, query)] else [])
  {
    var st' := st + [x];
    assert st'[..|st|] == st;
    assert st'[|st|] == x;
    if IdOf(x.item) != "" {
      if IdOf(x.item) in SeenIds(st) {
        var j :| 0 <= j < |st| && IdOf(st[j].item) != "" && IdOf(st[j].item) == IdOf(x.item);
        assert st'[j] == st[j];
      } else {
        forall j | 0 <= j < |st|
          ensures IdOf(st'[j].item) != IdOf(x.item)
        {
          assert st'[j] == st[j];
          if IdOf(st[j].item) != "" {
            assert IdOf(st[j].item) in SeenIds(st);
          }
        }
      }
    }
  }

  /** Entry `r` is the entry of some kept slot of `st`. */
  predicate FromKeptSlot(st: seq<Slot>, r: SearchResult, query: string, filterType: Option<string>) {
    exists k :: 0 <= k < |st| && Keeps(st, k, filterType) && r == EntryOf(st[k], query)
  }

  /** Every entry of `s` is the entry of some kept slot of `st`. */
  predicate AllFromKeptSlots(st: seq<Slot>, s: seq<SearchResult>, query: string, filterType: Option<string>) {
    forall i :: 0 <= i < |s| ==> FromKeptSlot(st, s[i], query, filterType)
  }

  /** Every accepted entry is the entry of some kept slot. */
  lemma {:induction false} AcceptedSound(st: seq<Slot>, query: string, filterType: Option<string>)
    ensures AllFromKeptSlots(st, Accepted(st, query, filterType), query, filterType)
  {
    if st != [] {
      var n := |st| - 1;
      var prev := Accepted(st[..n], query, filterType);
      var all := Accepted(st, query, filterType);
      AcceptedSound(st[..n], query, filterType);
      forall i | 0 <= i < |all|
        ensures FromKeptSlot(st, all[i], query, filterType)
      {
        if i < |prev| {
          assert FromKeptSlot(st[..n], prev[i], query, filterType);
          var k :| 0 <= k < n && Keeps(st[..n], k, filterType) && prev[i] == EntryOf(st[..n][k], query);
          KeepsPrefix(st, n, k, filterType);
          assert st[..n][k] == st[k];
          assert all[i] == prev[i];
          assert Keeps(st, k, filterType) && all[i] == EntryOf(st[k], query);
        } else {
          assert Keeps(st, n, filterType) && all[i] == EntryOf(st[n], query);
        }
      }
    }
  }

  /** Every kept slot contributes its entry. */
  lemma {:induction false} AcceptedComplete(st: seq<Slot>, query: string, filterType: Option<string>, k: nat)
    requires k < |st| && Keeps(st, k, filterType)
    ensures EntryOf(st[k], query) in Accepted(st, query, filterType)
  {
    var n := |st| - 1;
    if k < n {
      KeepsPrefix(st, n, k, filterType);
      AcceptedComplete(st[..n], query, filterType, k);
      assert st[..n][k] == st[k];
    }
  }

  /** No two entries share an id. */
  predicate DistinctIds(s: seq<SearchResult>) {
    forall i, j :: 0 <= i < j < |s| ==> s[i].id != s[j].id
  }

  /** Every entry has a non-empty id and a URL with a content path that passes the filter. */
  predicate WellFormedEntries(s: seq<SearchResult>, filterType: Option<string>) {
    forall i :: 0 <= i < |s| ==> s[i].id != "" && HasContentPath(s[i].url) && PassesFilter(s[i].url, filterType)
  }

  /**
   * For well-formed entries a "movie" filter (any case) means every URL
   * names a movie, and a "show" or "series" filter means every URL names a
   * show.
   */
  lemma WellFormedFiltered(s: seq<SearchResult>, filterType: Option<string>)
    requires WellFormedEntries(s, filterType)
    ensures filterType.Some? && Lower(filterType.value) == "movie" ==>
      forall r :: r in s ==> Contains(r.url, "/movie/")
    ensures filterType.Some? && (Lower(filterType.value) == "show" || Lower(filterType.value) == "series") ==>
      forall r :: r in s ==> Contains(r.url, "/show/")
  {
    if filterType.Some? && filterType.value == "" {
      assert Lower(filterType.value) == "";
    }
  }

  /**
   * The accepted entries have non-empty, pairwise distinct ids, and every
   * URL has a content path and passes the filter.
   */
  lemma {:induction false} AcceptedWellFormed(st: seq<Slot>, query: string, filterType: Option<string>)
    ensures WellFormedEntries(Accepted(st, query, filterType), filterType)
    ensures DistinctIds(Accepted(st, query, filterType))
  {
    AcceptedSound(st, query, filterType);
    if st != [] {
      var n := |st| - 1;
      var prev := Accepted(st[..n], query, filterType);
      var a := Accepted(st, query, filterType);
      AcceptedWellFormed(st[..n], query, filterType);
      AcceptedSound(st[..n], query, filterType);
      if Keeps(st, n, filterType) {
        var e := EntryOf(st[n], query);
        assert a == prev + [e];
        forall i | 0 <= i < |prev|
          ensures prev[i].id != e.id
        {
          assert FromKeptSlot(st[..n], prev[i], query, filterType);
          var k :| 0 <= k < n && Keeps(st[..n], k, filterType) && prev[i] == EntryOf(st[..n][k], query);
          assert st[..n][k] == st[k];
        }
      } else {
        assert a == prev;
      }
    }
  }

  /**
   * De-duplication keeps the first occurrence and spends the id there: if
   * slot `k` is the first to carry its id, then an entry with that id is
   * returned exactly when slot `k` is kept, and it is slot `k`'s entry; when
   * slot `k` is rejected (bad URL, filtered out), no entry with that id is
   * returned at all, however many later slots carry it.
   */
  lemma {:induction false} FirstOccurrenceDecides(st: seq<Slot>, query: string, filterType: Option<string>, k: nat)
    requires k < |st| && FirstOccurrence(st, k)
    ensures var a := Accepted(st, query, filterType);
      forall r :: r in a && r.id == IdOf(st[k].item) ==> r == EntryOf(st[k], query)
    ensures EntryOf(st[k], query) in Accepted(st, query, filterType) <==> Keeps(st, k, filterType)
    ensures !Keeps(st, k, filterType) ==>
      forall r :: r in Accepted(st, query, filterType) ==> r.id != IdOf(st[k].item)
  {
    var a := Accepted(st, query, filterType);
    AcceptedSound(st, query, filterType);
    forall r | r in a && r.id == IdOf(st[k].item)
      ensures r == EntryOf(st[k], query) && Keeps(st, k, filterType)
    {
      var i :| 0 <= i < |a| && a[i] == r;
      assert FromKeptSlot(st, a[i], query, filterType);
      var k' :| 0 <= k' < |st| && Keeps(st, k', filterType) && a[i] == EntryOf(st[k'], query);
      assert IdOf(st[k'].item) == IdOf(st[k].item);
      assert k' == k;
    }
    if Keeps(st, k, filterType) {
      AcceptedComplete(st, query, filterType, k);
    }
  }

  /**
   * Two items with the same id where the first has no usable URL: the
   * first is rejected after spending the id, so the second, however
   * good its URL, is dropped as a duplicate and nothing is returned.
   */
  lemma {:induction false} BurnedIdExample(st: seq<Slot>, query: string, filterType: Option<string>)
    requires |st| == 2 && IdOf(st[0].item) != "" && IdOf(st[1].item) == IdOf(st[0].item)
    requires !HasContentPath(UrlOf(st[0].item))
    ensures Accepted(st, query, filterType) == []
  {
    var first := st[..1];
    assert first[0] == st[0];
    assert first[..0] == [];
    assert !Keeps(first, 0, filterType);
    assert Accepted(first, query, filterType) == [];
    assert st[..|st| - 1] == first;
    assert !FirstOccurrence(st, 1);
  }

  /** A filter value other than movie, show or series (in any case) filters nothing. */
  lemma {:induction false} OtherFilterKeepsAll(st: seq<Slot>, query: string, f: string)
    requires Lower(f) != "movie" && Lower(f) != "show" && Lower(f) != "series"
    ensures Accepted(st, query, Some(f)) == Accepted(st, query, None)
  {
    if st != [] {
      OtherFilterKeepsAll(st[..|st| - 1], query, f);
    }
  }

  /**
   * "uts.col.Featured.PN" is a people shelf. The "PN" marker is matched
   * case-sensitively, so "uts.col.featured.pn" (which does not contain
   * "people" either) is not one.
   */
  lemma PeopleShelfExamples(marked: string, lowered: string)
    requires marked == "uts.col.Featured.PN" && lowered == "uts.col.featured.pn"
    ensures IsPeopleShelf(marked)
    ensures !IsPeopleShelf(lowered)
  {
    assert marked[17..][..2] == "PN";
    forall i | 0 <= i <= |lowered| - 2
      ensures !IsPrefix("PN", lowered[i..])
    {
      assert lowered[i] != 'P';
    }
    assert Lower(lowered) == lowered;
    forall i | 0 <= i <= |lowered| - 6
      ensures !IsPrefix("people", lowered[i..])
    {
      assert lowered[i] != 'p';
    }
  }

  /** Slot `x` is item `p` of shelf `s`, and that shelf is not skipped. */
  predicate SlotOfShelf(shelves: seq<Shelf>, includePeople: bool, x: Slot) {
    exists s, p :: 0 <= s < |shelves| && !Skipped(shelves[s], includePeople) &&
      0 <= p < |ItemsOf(shelves[s])| && x == Slot(ShelfId(shelves[s]), p, ItemsOf(shelves[s])[p])
  }

  /**
   * Every slot of the stream is some item of some shelf that is not
   * skipped, at its own position within that shelf.
   */
  lemma {:induction false} StreamOrigin(shelves: seq<Shelf>, includePeople: bool)
    ensures forall x :: x in Stream(shelves, includePeople) ==> SlotOfShelf(shelves, includePeople, x)
  {
    if shelves != [] {
      var n := |shelves| - 1;
      var prev := Stream(shelves[..n], includePeople);
      var last := SlotsOf(shelves[n], includePeople);
      StreamOrigin(shelves[..n], includePeople);
      forall x | x in Stream(shelves, includePeople)
        ensures SlotOfShelf(shelves, includePeople, x)
      {
        if x in prev {
          assert SlotOfShelf(shelves[..n], includePeople, x);
          var s, p :| 0 <= s < n && !Skipped(shelves[..n][s], includePeople) &&
            0 <= p < |ItemsOf(shelves[..n][s])| && x == Slot(ShelfId(shelves[..n][s]), p, ItemsOf(shelves[..n][s])[p]);
          assert shelves[..n][s] == shelves[s];
        } else {
          assert x in last;
          var p :| 0 <= p < |last| && last[p] == x;
          assert x == Slot(ShelfId(shelves[n]), p, ItemsOf(shelves[n])[p]);
        }
      }
    }
  }

  /**
   * Entry `r` is built from item `p` of shelf `s` at position `p`, and that
   * shelf is not a people shelf unless people are included.
   */
  predicate EntryFromShelves(shelves: seq<Shelf>, includePeople: bool, r: SearchResult, query: string) {
    exists s, p :: 0 <= s < |shelves| && (includePeople || !IsPeopleShelf(ShelfId(shelves[s]))) &&
      0 <= p < |ItemsOf(shelves[s])| && r == EntryOf(Slot(ShelfId(shelves[s]), p, ItemsOf(shelves[s])[p]), query)
  }

  /** Every accepted entry of a response's stream is built from one of its shelves' items. */
  lemma {:induction false} AcceptedFromShelves(shelves: seq<Shelf>, includePeople: bool, query: string, filterType: Option<string>)
    ensures forall r :: r in Accepted(Stream(shelves, includePeople), query, filterType) ==>
      EntryFromShelves(shelves, includePeople, r, query)
  {
    var st := Stream(shelves, includePeople);
    var a := Accepted(st, query, filterType);
    AcceptedSound(st, query, filterType);
    StreamOrigin(shelves, includePeople);
    forall r | r in a
      ensures EntryFromShelves(shelves, includePeople, r, query)
    {
      var i :| 0 <= i < |a| && a[i] == r;
      assert FromKeptSlot(st, a[i], query, filterType);
      var k :| 0 <= k < |st| && Keeps(st, k, filterType) && r == EntryOf(st[k], query);
      assert st[k] in st;
      assert SlotOfShelf(shelves, includePeople, st[k]);
      var s, p :| 0 <= s < |shelves| && !Skipped(shelves[s], includePeople) &&
        0 <= p < |ItemsOf(shelves[s])| && st[k] == Slot(ShelfId(shelves[s]), p, ItemsOf(shelves[s])[p]);
      assert includePeople || !IsPeopleShelf(ShelfId(shelves[s]));
    }
  }
}
