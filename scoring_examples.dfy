/**
 * Worked examples of the relevance score on concrete titles, one per match
 * tier and two for the word bonus. The strings are bound by `requires` so
 * that each lemma reasons about them symbolically.
 */
module ScoringExamples {
  import opened Text
  import opened Scoring

  /**
   * Against the query "foundation": the title itself is an exact match,
   * "foundation ii" a prefix match, "the foundation show" a word-start
   * match, "xfoundationx" a plain substring match and "dune" no match.
   */
  lemma TierExamples(q: string, exact: string, prefixed: string, wordStart: string, inside: string, none: string)
    requires q == "foundation"
    requires exact == q && prefixed == q + " ii" && wordStart == "the " + q + " show" && inside == "x" + q + "x"
    requires none == "dune"
    ensures TierBonus(exact, q) == ExactBonus
    ensures TierBonus(prefixed, q) == PrefixBonus
    ensures TierBonus(wordStart, q) == WordStartBonus
    ensures TierBonus(inside, q) == SubstringBonus
    ensures TierBonus(none, q) == 0
  {
    assert prefixed[..|q|] == q;
    assert wordStart[0] != q[0];
    assert (" " + wordStart)[4..][..|" " + q|] == " " + q;
    assert inside[0] != q[0];
    assert inside[1..][..|q|] == q;
    var si, sq := " " + inside, " " + q;
    forall i | 0 <= i <= |si| - |sq|
      ensures !IsPrefix(sq, si[i..])
    {
      if i == 0 {
        assert si[1] != sq[1];
      } else {
        assert si[i] != ' ';
      }
    }
    assert |none| < |q|;
  }

  /**
   * The four "Foundation" titles for the query "foundation", at any common
   * position, rank in tier order on their whole scores: the exact title,
   * then "Foundation II" (prefix), then "The Foundation Show" (word start),
   * then "xFoundationx" (substring).
   */
  lemma FoundationRanking(query: string, exact: string, prefixed: string, wordStart: string, inside: string,
                          position: int)
    requires query == "foundation"
    requires exact == "Foundation" && prefixed == "Foundation II"
    requires wordStart == "The Foundation Show" && inside == "xFoundationx"
    ensures Score(exact, query, position) > Score(prefixed, query, position)
    ensures Score(prefixed, query, position) > Score(wordStart, query, position)
    ensures Score(wordStart, query, position) > Score(inside, query, position)
  {
    assert Lower(query) == query;
    assert Lower(exact) == query;
    assert Lower(prefixed) == query + " ii";
    assert Lower(wordStart) == "the " + query + " show";
    assert Lower(inside) == "x" + query + "x";
    TierExamples(query, Lower(exact), Lower(prefixed), Lower(wordStart), Lower(inside), "dune");
    TierOutranks(exact, prefixed, query, position);
    TierOutranks(prefixed, wordStart, query, position);
    TierOutranks(wordStart, inside, query, position);
  }

  /**
   * "Ted Lasso" for the query "ted lasso" at the head of its shelf: exact
   * match (case is ignored), both query words, full position bonus.
   */
  lemma ExactTitleExample(a: string, b: string, query: string, title: string)
    requires a == "ted" && b == "lasso"
    requires query == a + " " + b && title == "Ted Lasso"
    ensures Score(title, query, 0) == ExactBonus + 2 * WordMatchBonus + PositionCeiling
  {
    assert Lower(query) == query;
    assert Lower(title) == query;
    WordsOfWord(b);
    WordsOfSpaced(a, b);
    WordBonusAdditive([a], [b], [a, b]);
    WordBonusSingle(a, [a, b]);
    WordBonusSingle(b, [a, b]);
  }

  /**
   * "Lasso Ted" for the query "ted lasso" at position 5: no tier bonus,
   * but both query words are title words.
   */
  lemma SwappedTitleExample(a: string, b: string, query: string, title: string)
    requires a == "ted" && b == "lasso"
    requires query == a + " " + b && title == "Lasso Ted"
    ensures Score(title, query, 5) == 2 * WordMatchBonus + PositionCeiling - 5
  {
    assert Lower(query) == query;
    assert Lower(title) == b + " " + a;
    SwappedWords(a, b);
    SwappedTier(a, b);
  }

  /** Both words of "ted lasso" are words of "lasso ted". */
  lemma SwappedWords(a: string, b: string)
    requires a == "ted" && b == "lasso"
    ensures WordBonus(Words(a + " " + b), Words(b + " " + a)) == 2 * WordMatchBonus
  {
    WordsOfWord(a);
    WordsOfWord(b);
    WordsOfSpaced(a, b);
    WordsOfSpaced(b, a);
    WordBonusAdditive([a], [b], [b, a]);
    WordBonusSingle(a, [b, a]);
    WordBonusSingle(b, [b, a]);
  }

  /** "ted lasso" neither starts, nor starts a word of, nor occurs in "lasso ted". */
  lemma SwappedTier(a: string, b: string)
    requires a == "ted" && b == "lasso"
    ensures TierBonus(b + " " + a, a + " " + b) == 0
  {
    var t, q := b + " " + a, a + " " + b;
    var st, sq := " " + t, " " + q;
    forall i | 0 <= i <= |st| - |sq|
      ensures !IsPrefix(sq, st[i..])
    {
      assert st[1] != sq[1];
    }
    forall i | 0 <= i <= |t| - |q|
      ensures !IsPrefix(q, t[i..])
    {
      assert t[0] != q[0];
    }
  }
}
