/**
 * Ordering of the results: Python's stable `list.sort` with the key
 * `(-score, title)`, i.e. higher scores first and equal scores by title in
 * ascending string order, ties keeping their original order; then the
 * optional cut to `max_results`.
 */
module Ranking {
  import opened Wrappers
  import opened Text
  import opened Catalog

  /** `a` sorts strictly before `b`: a higher score, or the same score and a smaller title. */
  predicate RanksBefore(a: SearchResult, b: SearchResult) {
    a.score > b.score || (a.score == b.score && LexLess(a.title, b.title))
  }

  /** `a` and `b` have equal sort keys. */
  predicate SameRank(a: SearchResult, b: SearchResult) {
    a.score == b.score && a.title == b.title
  }

  /** No entry sorts strictly before an entry placed ahead of it. */
  predicate Ordered(s: seq<SearchResult>) {
    forall i, j :: 0 <= i < j < |s| ==> !RanksBefore(s[j], s[i])
  }

  /** Insert `x` ahead of the first entry that does not sort strictly before it. */
  function Insert(x: SearchResult, s: seq<SearchResult>): (r: seq<SearchResult>)
    ensures multiset(r) == multiset(s) + multiset{x}
  {
    if s == [] then [x]
    else
      assert s == [s[0]] + s[1..];
      if RanksBefore(s[0], x) then [s[0]] + Insert(x, s[1..])
      else [x] + s
  }

  /** The stable sort by rank, as an insertion sort. */
  function SortByRank(s: seq<SearchResult>): (r: seq<SearchResult>)
    ensures multiset(r) == multiset(s)
  {
    if s == [] then []
    else
      assert s == [s[0]] + s[1..];
      Insert(s[0], SortByRank(s[1..]))
  }

  /** The entries of `s` whose key is (score, title), in their order in `s`. */
  function WithRank(s: seq<SearchResult>, score: int, title: string): seq<SearchResult> {
    if s == [] then []
    else (if s[0].score == score && s[0].title == title then [s[0]] else []) + WithRank(s[1..], score, title)
  }

  /**
   * `results[:max_results]` when a positive maximum is given, otherwise the
   * whole list.
   */
  function Truncate<T>(s: seq<T>, maxResults: Option<int>): (r: seq<T>)
    ensures maxResults.Some? && maxResults.value > 0 ==>
      |r| == (if maxResults.value < |s| then maxResults.value else |s|)
    ensures maxResults.None? || maxResults.value <= 0 ==> r == s
    ensures r == s[..|r|]
  {
    if maxResults.Some? && maxResults.value > 0 && maxResults.value < |s| then s[..maxResults.value]
    else s
  }

  /** `RanksBefore` is a strict weak order: irreflexive, transitive, and incomparability is equal keys. */
  lemma RankOrder(a: SearchResult, b: SearchResult, c: SearchResult)
    ensures !RanksBefore(a, a)
    ensures RanksBefore(a, b) ==> !RanksBefore(b, a) && !SameRank(a, b)
    ensures RanksBefore(a, b) && RanksBefore(b, c) ==> RanksBefore(a, c)
    ensures !RanksBefore(a, b) && !RanksBefore(b, a) ==> SameRank(a, b)
    ensures RanksBefore(a, c) && !RanksBefore(a, b) ==> RanksBefore(b, c)
  {
    LexLessIrreflexive(a.title);
    if LexLess(a.title, b.title) && LexLess(b.title, a.title) {
      LexLessTransitive(a.title, b.title, a.title);
    }
    if LexLess(a.title, b.title) && LexLess(b.title, c.title) {
      LexLessTransitive(a.title, b.title, c.title);
    }
    if a.title != b.title {
      LexLessTotal(a.title, b.title);
    }
    if LexLess(b.title, a.title) && LexLess(a.title, c.title) {
      LexLessTransitive(b.title, a.title, c.title);
    }
  }

  /** Inserting into an ordered list keeps it ordered. */
  lemma {:induction false} InsertOrdered(x: SearchResult, s: seq<SearchResult>)
    requires Ordered(s)
    ensures Ordered(Insert(x, s))
  {
    var r := Insert(x, s);
    if s == [] {
    } else if RanksBefore(s[0], x) {
      var rest := Insert(x, s[1..]);
      InsertOrdered(x, s[1..]);
      assert r == [s[0]] + rest;
      forall j | 0 < j < |r|
        ensures !RanksBefore(r[j], s[0])
      {
        var y := r[j];
        assert y in multiset(rest);
        if y == x {
          RankOrder(s[0], x, x);
        } else {
          assert y in s[1..];
        }
      }
    } else {
      forall j | 0 < j < |r|
        ensures !RanksBefore(r[j], x)
      {
        assert r[j] == s[j - 1];
        if j > 1 {
          assert !RanksBefore(s[j - 1], s[0]);
          RankOrder(s[j - 1], s[0], x);
        }
      }
    }
  }

  /** The sort's output is ordered by rank. */
  lemma {:induction false} SortByRankOrdered(s: seq<SearchResult>)
    ensures Ordered(SortByRank(s))
  {
    if s != [] {
      SortByRankOrdered(s[1..]);
      InsertOrdered(s[0], SortByRank(s[1..]));
    }
  }

  /** The entries of key (score, title) among `[y] + s`. */
  lemma WithRankCons(y: SearchResult, s: seq<SearchResult>, score: int, title: string)
    ensures WithRank([y] + s, score, title) ==
      (if y.score == score && y.title == title then [y] else []) + WithRank(s, score, title)
  {
    assert ([y] + s)[1..] == s;
  }

  /** Insertion passes only over entries of a different key, so it keeps each key's subsequence. */
  lemma {:induction false} InsertWithRank(x: SearchResult, s: seq<SearchResult>, score: int, title: string)
    ensures WithRank(Insert(x, s), score, title) == WithRank([x] + s, score, title)
  {
    if s != [] && RanksBefore(s[0], x) {
      var t := s[0];
      var ft := if t.score == score && t.title == title then [t] else [];
      var fx := if x.score == score && x.title == title then [x] else [];
      RankOrder(t, x, x);
      assert ft == [] || fx == [];
      InsertWithRank(x, s[1..], score, title);
      WithRankCons(t, Insert(x, s[1..]), score, title);
      WithRankCons(x, s[1..], score, title);
      WithRankCons(x, s, score, title);
      WithRankCons(t, s[1..], score, title);
      assert s == [t] + s[1..];
      calc {
        WithRank(Insert(x, s), score, title);
        ft + WithRank(Insert(x, s[1..]), score, title);
        ft + (fx + WithRank(s[1..], score, title));
        fx + (ft + WithRank(s[1..], score, title));
        WithRank([x] + s, score, title);
      }
    }
  }

  /**
   * The sort is stable: for every key, the entries with that key appear in
   * the same order as before sorting.
   */
  lemma {:induction false} SortByRankStable(s: seq<SearchResult>, score: int, title: string)
    ensures WithRank(SortByRank(s), score, title) == WithRank(s, score, title)
  {
    if s != [] {
      SortByRankStable(s[1..], score, title);
      InsertWithRank(s[0], SortByRank(s[1..]), score, title);
      WithRankCons(s[0], SortByRank(s[1..]), score, title);
      WithRankCons(s[0], s[1..], score, title);
      assert s == [s[0]] + s[1..];
    }
  }

  /** Inserting an entry whose id is new keeps the ids distinct. */
  lemma {:induction false} InsertDistinct(x: SearchResult, s: seq<SearchResult>)
    requires DistinctIds(s)
    requires forall y :: y in s ==> y.id != x.id
    ensures DistinctIds(Insert(x, s))
  {
    if s != [] && RanksBefore(s[0], x) {
      InsertDistinct(x, s[1..]);
      var rest := Insert(x, s[1..]);
      forall j | 0 <= j < |rest|
        ensures rest[j].id != s[0].id
      {
        assert rest[j] in multiset(rest);
      }
    }
  }

  /** Sorting keeps the ids distinct. */
  lemma {:induction false} SortByRankDistinct(s: seq<SearchResult>)
    requires DistinctIds(s)
    ensures DistinctIds(SortByRank(s))
  {
    if s != [] {
      SortByRankDistinct(s[1..]);
      forall y | y in SortByRank(s[1..])
        ensures y.id != s[0].id
      {
        assert y in multiset(s[1..]);
      }
      InsertDistinct(s[0], SortByRank(s[1..]));
    }
  }
}
