/**
 * The relevance score of one search hit: a match-tier bonus, a bonus per
 * query word found among the title's words, and a bonus for appearing
 * early in its shelf. All comparisons are on lower-cased text.
 */
module Scoring {
  import opened Text

  const ExactBonus := 1000
  const PrefixBonus := 500
  const WordStartBonus := 300
  const SubstringBonus := 200
  const WordMatchBonus := 50
  const PositionCeiling := 100

  /**
   * The match tier of a lower-cased title against a lower-cased query,
   * tested in priority order: equal, title starts with the query, the query
   * starts a word of the title (`" " + q` occurs in `" " + t`), the query
   * occurs anywhere in the title, no match.
   */
  function TierBonus(t: string, q: string): nat {
    if t == q then ExactBonus
    else if IsPrefix(q, t) then PrefixBonus
    else if Contains(" " + t, " " + q) then WordStartBonus
    else if Contains(t, q) then SubstringBonus
    else 0
  }

  /**
   * The word bonus: 50 for every query word (duplicates each counted) that
   * is one of the title's words.
   */
  function WordBonus(queryWords: seq<string>, titleWords: seq<string>): (r: nat)
    ensures r <= WordMatchBonus * |queryWords|
    ensures r == WordMatchBonus * |queryWords| <==> forall i :: 0 <= i < |queryWords| ==> queryWords[i] in titleWords
  {
    if queryWords == [] then 0
    else
      var n := |queryWords| - 1;
      WordBonus(queryWords[..n], titleWords) + (if queryWords[n] in titleWords then WordMatchBonus else 0)
  }

  /** `max(0, 100 - position)`. */
  function PositionBonus(position: int): (r: nat)
    ensures r >= 0 && r >= PositionCeiling - position
    ensures r == 0 || r == PositionCeiling - position
    ensures r == 0 <==> position >= PositionCeiling
  {
    if PositionCeiling - position > 0 then PositionCeiling - position else 0
  }

  /** The relevance score of `title` for `query` at 0-based `position` in its shelf. */
  function Score(title: string, query: string, position: int): int {
    var t := Lower(title);
    var q := Lower(query);
    TierBonus(t, q) + WordBonus(Words(q), Words(t)) + PositionBonus(position)
  }

  /**
   * Each tier's condition implies the next one's, so the first condition
   * that holds picks the tier, and the tier bonuses strictly decrease along
   * the chain; a title earns some tier bonus exactly when it contains the query.
   */
  lemma {:induction false} TierChain(t: string, q: string)
    ensures t == q ==> IsPrefix(q, t)
    ensures IsPrefix(q, t) ==> Contains(" " + t, " " + q)
    ensures Contains(" " + t, " " + q) ==> Contains(t, q)
    ensures TierBonus(t, q) > 0 <==> Contains(t, q)
    ensures TierBonus(t, q) in {0, SubstringBonus, WordStartBonus, PrefixBonus, ExactBonus}
  {
    if IsPrefix(q, t) {
      PrefixIsSpacedContained(t, q);
    }
    if Contains(" " + t, " " + q) {
      SpacedContainsIsContained(t, q);
    }
  }

  /** The word bonus of a concatenation of query word lists is the sum of their bonuses. */
  lemma {:induction false} WordBonusAdditive(a: seq<string>, b: seq<string>, titleWords: seq<string>)
    ensures WordBonus(a + b, titleWords) == WordBonus(a, titleWords) + WordBonus(b, titleWords)
    decreases |b|
  {
    if b != [] {
      var n := |b| - 1;
      assert (a + b)[..|a + b| - 1] == a + b[..n];
      assert (a + b)[|a + b| - 1] == b[n];
      WordBonusAdditive(a, b[..n], titleWords);
    } else {
      assert a + b == a;
    }
  }

  /** One query word earns 50 exactly when it is one of the title's words. */
  lemma WordBonusSingle(w: string, titleWords: seq<string>)
    ensures WordBonus([w], titleWords) == if w in titleWords then WordMatchBonus else 0
  {
    assert [w][..0] == [];
  }

  /**
   * The score is never negative: at least the position bonus, and at most
   * the exact-match bonus plus 50 per query word plus the position bonus.
   */
  lemma ScoreBounds(title: string, query: string, position: int)
    ensures Score(title, query, position) >= PositionBonus(position) >= 0
    ensures Score(title, query, position)
         <= ExactBonus + WordMatchBonus * |Words(Lower(query))| + PositionBonus(position)
  {
  }

  /**
   * For a fixed title and query the score never increases with the
   * position, strictly decreases while the earlier position is below 100,
   * and is constant from position 100 on.
   */
  lemma ScoreByPosition(title: string, query: string, p1: int, p2: int)
    requires p1 <= p2
    ensures Score(title, query, p2) <= Score(title, query, p1)
    ensures p1 < p2 && p1 < PositionCeiling ==> Score(title, query, p2) < Score(title, query, p1)
    ensures PositionCeiling <= p1 ==> Score(title, query, p2) == Score(title, query, p1)
  {
  }

  /** The score depends only on the lower-cased title and query. */
  lemma ScoreIgnoresCase(title: string, query: string, position: int)
    ensures Score(title, query, position) == Score(Lower(title), Lower(query), position)
  {
    LowerIdempotent(title);
    LowerIdempotent(query);
  }

  /**
   * At the same position, a title equal to the query (ignoring case)
   * outscores every title that is not.
   */
  lemma {:induction false} ExactMatchOutranks(exact: string, other: string, query: string, position: int)
    requires Lower(exact) == Lower(query)
    requires Lower(other) != Lower(query)
    ensures Score(exact, query, position) > Score(other, query, position)
  {
    var q := Lower(query);
    var qw := Words(q);
    assert WordBonus(qw, qw) == WordMatchBonus * |qw|;
    assert WordBonus(qw, Words(Lower(other))) <= WordMatchBonus * |qw|;
    assert TierBonus(Lower(other), q) <= PrefixBonus;
  }

  /** If the query words from `lo` to `hi` are all title words, the word bonus is at least 50 for each. */
  lemma WordBonusAtLeast(queryWords: seq<string>, titleWords: seq<string>, lo: nat, hi: nat)
    requires lo <= hi <= |queryWords|
    requires forall i :: lo <= i < hi ==> queryWords[i] in titleWords
    ensures WordBonus(queryWords, titleWords) >= WordMatchBonus * (hi - lo)
  {
    var a, b, c := queryWords[..lo], queryWords[lo..hi], queryWords[hi..];
    assert queryWords == a + b + c;
    WordBonusAdditive(a + b, c, titleWords);
    WordBonusAdditive(a, b, titleWords);
    assert forall i :: 0 <= i < |b| ==> b[i] == queryWords[lo + i];
  }

  /** A title that starts with the query has every query word but the last among its words. */
  lemma PrefixWordFloor(t: string, q: string)
    requires IsPrefix(q, t)
    ensures WordBonus(Words(q), Words(t)) >= WordMatchBonus * (|Words(q)| - 1)
  {
    var r := t[|q|..];
    assert t == q + r;
    WordsOfPrefix(q, r);
    if Words(q) != [] {
      WordBonusAtLeast(Words(q), Words(t), 0, |Words(q)| - 1);
    }
  }

  /** A title in which the query starts a word has every query word but the last among its words. */
  lemma WordStartWordFloor(t: string, q: string)
    requires Contains(" " + t, " " + q)
    ensures WordBonus(Words(q), Words(t)) >= WordMatchBonus * (|Words(q)| - 1)
  {
    var a, r := WordStartSplit(t, q);
    WordsConcat(a, q + r);
    WordsOfPrefix(q, r);
    if Words(q) != [] {
      WordBonusAtLeast(Words(q), Words(t), 0, |Words(q)| - 1);
    }
  }

  /** A title that contains the query has every query word but the first and the last among its words. */
  lemma SubstringWordFloor(t: string, q: string)
    requires Contains(t, q)
    ensures WordBonus(Words(q), Words(t)) >= WordMatchBonus * (|Words(q)| - 2)
  {
    var i :| 0 <= i <= |t| - |q| && IsPrefix(q, t[i..]);
    var a, r := t[..i], t[i + |q|..];
    assert t[i..][..|q|] == t[i..i + |q|];
    assert t == a + q + r;
    WordsOfInfix(a, q, r);
    if |Words(q)| > 1 {
      WordBonusAtLeast(Words(q), Words(t), 1, |Words(q)| - 1);
    }
  }

  /**
   * At the same position a better match tier always wins on the whole
   * score: exact beats prefix beats word start beats substring beats no
   * match, whatever the word bonuses.
   */
  lemma {:induction false} TierOutranks(better: string, worse: string, query: string, position: int)
    requires TierBonus(Lower(better), Lower(query)) > TierBonus(Lower(worse), Lower(query))
    ensures Score(better, query, position) > Score(worse, query, position)
  {
    var t, q := Lower(better), Lower(query);
    TierChain(t, q);
    TierChain(Lower(worse), q);
    if t == q {
      assert WordBonus(Words(q), Words(t)) == WordMatchBonus * |Words(q)|;
    } else if IsPrefix(q, t) {
      PrefixWordFloor(t, q);
    } else if Contains(" " + t, " " + q) {
      WordStartWordFloor(t, q);
    } else {
      SubstringWordFloor(t, q);
    }
  }
}
