/**
 * The string operations the search tool relies on, restricted to ASCII:
 * lower- and upper-casing, splitting on whitespace, prefix and substring
 * tests, the all-digits test and Python's ordering of strings.
 */
module Text {

  /** ASCII lower-casing of one character; every other character is unchanged. */
  function LowerChar(c: char): char {
    if 'A' <= c <= 'Z' then (c as int + 32) as char else c
  }

  /** ASCII upper-casing of one character; every other character is unchanged. */
  function UpperChar(c: char): char {
    if 'a' <= c <= 'z' then (c as int - 32) as char else c
  }

  /** `s.lower()` on ASCII text. */
  function Lower(s: string): (r: string)
    ensures |r| == |s|
    ensures forall i :: 0 <= i < |s| ==> r[i] == LowerChar(s[i])
  {
    seq(|s|, i requires 0 <= i < |s| => LowerChar(s[i]))
  }

  /** `s.upper()` on ASCII text. */
  function Upper(s: string): (r: string)
    ensures |r| == |s|
    ensures forall i :: 0 <= i < |s| ==> r[i] == UpperChar(s[i])
  {
    seq(|s|, i requires 0 <= i < |s| => UpperChar(s[i]))
  }

  /** Lower-casing twice is lower-casing once. */
  lemma LowerIdempotent(s: string)
    ensures Lower(Lower(s)) == Lower(s)
  {
    assert forall i :: 0 <= i < |s| ==> LowerChar(LowerChar(s[i])) == LowerChar(s[i]);
  }

  /** The ASCII characters Python's `str.split()` treats as whitespace. */
  predicate IsSpace(c: char) {
    9 <= c as int <= 13 || 28 <= c as int <= 32
  }

  /** Length of the run of non-whitespace characters that starts `s`. */
  function TokenLength(s: string): (n: nat)
    ensures n <= |s|
    ensures forall i :: 0 <= i < n ==> !IsSpace(s[i])
    ensures n < |s| ==> IsSpace(s[n])
  {
    if s == [] || IsSpace(s[0]) then 0 else 1 + TokenLength(s[1..])
  }

  /** A word as `str.split()` yields it: non-empty, free of whitespace. */
  predicate IsWord(w: string) {
    w != [] && forall i :: 0 <= i < |w| ==> !IsSpace(w[i])
  }

  /**
   * `s.split()` with no separator: the maximal runs of non-whitespace
   * characters, in order; leading, trailing and repeated whitespace yield
   * no empty words.
   */
  function Words(s: string): (ws: seq<string>)
    ensures forall i :: 0 <= i < |ws| ==> IsWord(ws[i])
    decreases |s|
  {
    if s == [] then []
    else if IsSpace(s[0]) then Words(s[1..])
    else
      var n := TokenLength(s);
      [s[..n]] + Words(s[n..])
  }

  /** A string without whitespace splits into itself alone. */
  lemma {:induction false} WordsOfWord(w: string)
    requires IsWord(w)
    ensures Words(w) == [w]
  {
    var n := TokenLength(w);
    assert n == |w|;
    assert w[..n] == w && w[n..] == [];
  }

  /** Words separated by single spaces split back into those words. */
  lemma {:induction false} WordsOfSpaced(w: string, rest: string)
    requires IsWord(w)
    ensures Words(w + " " + rest) == [w] + Words(rest)
  {
    var s := w + " " + rest;
    assert s[0] == w[0];
    var n := TokenLength(s);
    assert forall i :: 0 <= i < |w| ==> s[i] == w[i];
    assert s[|w|] == ' ';
    assert n == |w|;
    assert s[..n] == w;
    assert s[n..] == " " + rest;
    assert (" " + rest)[1..] == rest;
  }

  /** A run of non-whitespace followed by more text keeps its length as the leading token. */
  lemma TokenLengthExtend(a: string, s: string)
    requires TokenLength(a) < |a| || (s != [] && IsSpace(s[0]))
    ensures TokenLength(a + s) == TokenLength(a)
  {
    var n := TokenLength(a);
    var m := TokenLength(a + s);
    assert (a + s)[n] == if n < |a| then a[n] else s[0];
    assert forall i :: 0 <= i < n ==> (a + s)[i] == a[i];
  }

  /** Splitting text joined at whitespace splits each side on its own. */
  lemma {:induction false} WordsConcat(a: string, s: string)
    requires a == [] || s == [] || IsSpace(a[|a| - 1]) || IsSpace(s[0])
    ensures Words(a + s) == Words(a) + Words(s)
    decreases |a|
  {
    if a == [] {
      assert a + s == s;
    } else if IsSpace(a[0]) {
      assert (a + s)[1..] == a[1..] + s;
      WordsConcat(a[1..], s);
    } else {
      var n := TokenLength(a);
      if n < |a| {
        TokenLengthExtend(a, s);
        assert (a + s)[..n] == a[..n];
        assert (a + s)[n..] == a[n..] + s;
        WordsConcat(a[n..], s);
      } else if s == [] {
        assert a + s == a;
      } else {
        TokenLengthExtend(a, s);
        assert (a + s)[..n] == a && (a + s)[n..] == s;
        assert a[..n] == a && a[n..] == [];
      }
    }
  }

  /** Every word of `q` but the last is a word of any text that starts with `q`. */
  lemma {:induction false} WordsOfPrefix(q: string, r: string)
    ensures forall i :: 0 <= i < |Words(q)| - 1 ==> Words(q)[i] in Words(q + r)
    decreases |q|
  {
    if q != [] {
      if IsSpace(q[0]) {
        assert (q + r)[1..] == q[1..] + r;
        WordsOfPrefix(q[1..], r);
      } else {
        var n := TokenLength(q);
        if n < |q| {
          var w, rest := q[..n], q[n..];
          assert q == w + rest && q + r == w + (rest + r);
          WordsConcat(w, rest + r);
          WordsOfWord(w);
          WordsOfPrefix(rest, r);
        }
      }
    }
  }

  /** Every word of `q` but the first and the last is a word of any text that contains `q`. */
  lemma {:induction false} WordsOfInfix(a: string, q: string, r: string)
    ensures forall i :: 1 <= i < |Words(q)| - 1 ==> Words(q)[i] in Words(a + q + r)
  {
    if q != [] {
      if IsSpace(q[0]) {
        assert a + q + r == a + (q + r);
        WordsConcat(a, q + r);
        WordsOfPrefix(q, r);
      } else {
        var n := TokenLength(q);
        if n < |q| {
          var w, rest := q[..n], q[n..];
          assert q == w + rest && a + q + r == (a + w) + (rest + r);
          WordsConcat(a + w, rest + r);
          WordsOfPrefix(rest, r);
        }
      }
    }
  }

  /** `s.startswith(p)`. */
  predicate IsPrefix(p: string, s: string) {
    |p| <= |s| && s[..|p|] == p
  }

  /** `p in s` for strings: `p` occurs in `s` at some offset. */
  predicate Contains(s: string, p: string) {
    exists i :: 0 <= i <= |s| - |p| && IsPrefix(p, s[i..])
  }

  /** A prefix is a substring. */
  lemma PrefixIsContained(p: string, s: string)
    requires IsPrefix(p, s)
    ensures Contains(s, p)
  {
    assert s[0..] == s;
  }

  /** If `" " + p` occurs in `" " + s`, then `p` occurs in `s`. */
  lemma {:induction false} SpacedContainsIsContained(s: string, p: string)
    requires Contains(" " + s, " " + p)
    ensures Contains(s, p)
  {
    var i :| 0 <= i <= |" " + s| - |" " + p| && IsPrefix(" " + p, (" " + s)[i..]);
    if i == 0 {
      assert (" " + s)[..|p| + 1] == " " + p;
      assert s[..|p|] == (" " + s)[..|p| + 1][1..];
      PrefixIsContained(p, s);
    } else {
      assert (" " + s)[i..] == s[i - 1..];
      assert s[i - 1..][..|p| + 1] == " " + p;
      assert s[i..][..|p|] == s[i - 1..][..|p| + 1][1..];
      assert IsPrefix(p, s[i..]);
    }
  }

  /** If `s` starts with `p`, then `" " + p` occurs in `" " + s` (at offset 0). */
  lemma PrefixIsSpacedContained(s: string, p: string)
    requires IsPrefix(p, s)
    ensures Contains(" " + s, " " + p)
  {
    assert (" " + s)[0..][..|p| + 1] == " " + s[..|p|];
  }

  /** Where the query starts a word of the title, the title is some text ending in whitespace (or nothing), the query, and the rest. */
  lemma WordStartSplit(t: string, q: string) returns (a: string, r: string)
    requires Contains(" " + t, " " + q)
    ensures t == a + (q + r)
    ensures a == [] || IsSpace(a[|a| - 1])
  {
    var st, sq := " " + t, " " + q;
    var i :| 0 <= i <= |st| - |sq| && IsPrefix(sq, st[i..]);
    assert st[i] == sq[0] == ' ';
    a, r := t[..i], t[i + |q|..];
    forall j | 0 <= j < |q|
      ensures t[i + j] == q[j]
    {
      assert t[i + j] == st[i..][j + 1] == sq[j + 1];
    }
    assert t[i..i + |q|] == q;
    assert t == a + (q + r);
    if a != [] {
      assert a[|a| - 1] == st[i];
    }
  }

  /** `s.isdigit()` on ASCII text: non-empty and every character a decimal digit. */
  predicate IsDigits(s: string) {
    s != [] && forall i :: 0 <= i < |s| ==> '0' <= s[i] <= '9'
  }

  /**
   * Python's `a < b` on strings: lexicographic by code point, a proper
   * prefix sorting first.
   */
  predicate LexLess(a: string, b: string)
    decreases |a|
  {
    if b == [] then false
    else if a == [] then true
    else if a[0] != b[0] then a[0] < b[0]
    else LexLess(a[1..], b[1..])
  }

  /** No string precedes itself. */
  lemma {:induction false} LexLessIrreflexive(a: string)
    ensures !LexLess(a, a)
    decreases |a|
  {
    if a != [] {
      LexLessIrreflexive(a[1..]);
    }
  }

  /** The order is transitive. */
  lemma {:induction false} LexLessTransitive(a: string, b: string, c: string)
    requires LexLess(a, b) && LexLess(b, c)
    ensures LexLess(a, c)
    decreases |a|
  {
    if a != [] && a[0] == b[0] && b[0] == c[0] {
      LexLessTransitive(a[1..], b[1..], c[1..]);
    }
  }

  /** Two different strings are always ordered one way or the other. */
  lemma {:induction false} LexLessTotal(a: string, b: string)
    requires a != b
    ensures LexLess(a, b) || LexLess(b, a)
    decreases |a|
  {
    if a != [] && b != [] && a[0] == b[0] {
      assert a == [a[0]] + a[1..] && b == [b[0]] + b[1..];
      LexLessTotal(a[1..], b[1..]);
    }
  }
}
