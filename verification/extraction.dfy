/**
 * `extract_course_number` and the title clean-up of `extract_assignment_data`:
 * a leftmost search for a bracketed course-number token, and the substitution that
 * deletes every bracketed occurrence of that token together with its surrounding
 * whitespace before the result is stripped.
 */
module Extraction {
  import opened Wrappers
  import opened Text
  import opened CourseToken

  // ---------------------------------------------------------------------------
  // Search.
  // ---------------------------------------------------------------------------

  /** `s` holds `[`, then `tok`, then `]`, starting at index `i`. */
  predicate BracketsAt(s: string, i: int, tok: string) {
    && 0 <= i && i + |tok| + 2 <= |s|
    && s[i] == '['
    && s[i + 1..i + 1 + |tok|] == tok
    && s[i + 1 + |tok|] == ']'
  }

  /** The pattern matches `s` at index `i` with `tok` as its capture group. */
  ghost predicate MatchAt(s: string, i: int, tok: string) {
    BracketsAt(s, i, tok) && TokenSpec(tok)
  }

  /** No match of the pattern starts at any index in `[lo, hi)`. */
  ghost predicate NoMatchIn(s: string, lo: int, hi: int) {
    forall p, tok :: lo <= p < hi ==> !MatchAt(s, p, tok)
  }

  /** The text between a `[` at index `i` and the first `]` after it. */
  function Bracketed(s: string, i: nat): Option<string>
    requires i < |s|
  {
    if s[i] != '[' then None
    else match IndexOf(s, "]", i + 1)
      case None => None
      case Some(j) => Some(s[i + 1..j])
  }

  /** What `Bracketed` found: a `[`, the text, and a `]` right after it. */
  lemma BracketedShape(s: string, i: nat)
    requires i < |s| && Bracketed(s, i).Some?
    ensures var tok := Bracketed(s, i).value;
            && i + |tok| + 2 <= |s| && s[i] == '['
            && s[i + 1..i + 1 + |tok|] == tok && s[i + 1 + |tok|] == ']'
  {
    var j := IndexOf(s, "]", i + 1).value;
    assert s[j..j + 1][0] == s[j];
  }

  /** `Bracketed` reads the text up to the first `]`. */
  lemma BracketedUpTo(s: string, i: nat, tok: string)
    requires i + |tok| + 2 <= |s| && s[i] == '[' && s[i + 1..i + 1 + |tok|] == tok
    requires IndexOf(s, "]", i + 1) == Some(i + 1 + |tok|)
    ensures Bracketed(s, i) == Some(tok)
  {
  }

  /** A captured token is accepted by the recogniser, so it is made of token characters. */
  lemma MatchedTokenChars(s: string, i: nat, tok: string)
    requires MatchAt(s, i, tok)
    ensures IsCourseToken(tok) && All(tok, IsTokenChar)
  {
    TokenEquiv(tok);
    TokenChars(tok);
  }

  /** With no `]` inside the token, the `]` closing a match is the first one after `[`. */
  lemma MatchCloses(s: string, i: nat, tok: string)
    requires BracketsAt(s, i, tok)
    requires All(tok, IsTokenChar)
    ensures IndexOf(s, "]", i + 1) == Some(i + 1 + |tok|)
  {
    var c := i + 1 + |tok|;
    assert OccursAt(s, "]", c) by {
      assert s[c..c + 1] == [s[c]];
    }
    forall k | i + 1 <= k < c ensures !OccursAt(s, "]", k) {
      assert s[k] == tok[k - i - 1];
      assert IsTokenChar(tok[k - i - 1]);
      assert s[k..k + 1][0] == s[k];
    }
  }

  /** The token alphabet has no `]`, so a match at `i` can only capture the bracketed
      text up to the first `]`. */
  lemma MatchIsBracketed(s: string, i: nat, tok: string)
    requires MatchAt(s, i, tok)
    ensures Bracketed(s, i) == Some(tok) && IsCourseToken(tok)
  {
    MatchedTokenChars(s, i, tok);
    MatchCloses(s, i, tok);
    BracketedUpTo(s, i, tok);
  }

  /** Bracketed text that is a token is a match. */
  lemma BracketedIsMatch(s: string, i: nat, tok: string)
    requires i < |s|
    requires Bracketed(s, i) == Some(tok) && IsCourseToken(tok)
    ensures MatchAt(s, i, tok)
  {
    TokenEquiv(tok);
    BracketedShape(s, i);
  }

  /** A match at `i` exists exactly when the bracketed text at `i` is a token. */
  lemma MatchAtIff(s: string, i: nat, tok: string)
    requires i < |s|
    ensures MatchAt(s, i, tok) <==> Bracketed(s, i) == Some(tok) && IsCourseToken(tok)
  {
    if MatchAt(s, i, tok) {
      MatchIsBracketed(s, i, tok);
    }
    if Bracketed(s, i) == Some(tok) && IsCourseToken(tok) {
      BracketedIsMatch(s, i, tok);
    }
  }

  /** At most one token can be captured at a given index. */
  lemma MatchAtUnique(s: string, i: nat, t1: string, t2: string)
    ensures MatchAt(s, i, t1) && MatchAt(s, i, t2) ==> t1 == t2
  {
    if MatchAt(s, i, t1) && MatchAt(s, i, t2) {
      MatchAtIff(s, i, t1);
      MatchAtIff(s, i, t2);
    }
  }

  /** The leftmost match at or after `i`, scanning one index at a time as `re.search` does. */
  function SearchFrom(s: string, i: nat): (r: Option<string>)
    ensures r.Some? ==> exists p :: i <= p && MatchAt(s, p, r.value) && NoMatchIn(s, i, p)
    ensures r.None? ==> NoMatchIn(s, i, |s|)
    decreases |s| - i
  {
    if i >= |s| then None
    else if Bracketed(s, i).Some? && IsCourseToken(Bracketed(s, i).value) then
      var tok := Bracketed(s, i).value;
      MatchAtIff(s, i, tok);
      Some(tok)
    else
      NoMatchHere(s, i);
      var r := SearchFrom(s, i + 1);
      SkipIndex(s, i, r);
      r
  }

  /** Where the bracketed text is not a token, nothing matches. */
  lemma NoMatchHere(s: string, i: nat)
    requires i < |s|
    requires Bracketed(s, i).None? || !IsCourseToken(Bracketed(s, i).value)
    ensures forall tok :: !MatchAt(s, i, tok)
  {
    forall tok ensures !MatchAt(s, i, tok) {
      MatchAtIff(s, i, tok);
    }
  }

  /** An index where nothing matches does not change the search result. */
  lemma SkipIndex(s: string, i: nat, r: Option<string>)
    requires i < |s|
    requires forall tok :: !MatchAt(s, i, tok)
    requires r.Some? ==> exists p :: i + 1 <= p && MatchAt(s, p, r.value) && NoMatchIn(s, i + 1, p)
    requires r.None? ==> NoMatchIn(s, i + 1, |s|)
    ensures r.Some? ==> exists p :: i <= p && MatchAt(s, p, r.value) && NoMatchIn(s, i, p)
    ensures r.None? ==> NoMatchIn(s, i, |s|)
  {
    if r.Some? {
      var p :| i + 1 <= p && MatchAt(s, p, r.value) && NoMatchIn(s, i + 1, p);
      assert NoMatchIn(s, i, p);
    }
  }

  /** A token between brackets is a match where its `[` stands. */
  lemma BracketMatches(a: string, tok: string, b: string)
    requires TokenSpec(tok)
    ensures MatchAt(a + "[" + tok + "]" + b, |a|, tok)
  {
    var s := a + "[" + tok + "]" + b;
    assert s[|a| + 1..|a| + 1 + |tok|] == tok;
  }

  /** A match at the first `[` of the title is the course number extracted. */
  lemma FirstBracketDecides(title: string, i: nat, tok: string)
    requires MatchAt(title, i, tok)
    requires forall j :: 0 <= j < i ==> title[j] != '['
    ensures ExtractCourseNumber(title) == Some(tok)
  {
    var r := ExtractCourseNumber(title);
    var p :| MatchAt(title, p, r.value) && NoMatchIn(title, 0, p);
    assert p == i;
    MatchAtUnique(title, i, r.value, tok);
  }

  /** A token in brackets, with no `[` before it, is the course number extracted. */
  lemma TokenAfterPlainText(a: string, tok: string, b: string)
    requires forall j :: 0 <= j < |a| ==> a[j] != '['
    requires IsCourseToken(tok)
    ensures ExtractCourseNumber(a + "[" + tok + "]" + b) == Some(tok)
  {
    var title := a + "[" + tok + "]" + b;
    assert forall j :: 0 <= j < |a| ==> title[j] != '[' by {
      assert forall j :: 0 <= j < |a| ==> title[j] == a[j];
    }
    assert MatchAt(title, |a|, tok) by {
      TokenEquiv(tok);
      BracketMatches(a, tok, b);
    }
    FirstBracketDecides(title, |a|, tok);
  }

  /** `extract_course_number`: the capture group of the leftmost match of the pattern in the
      title, or `None` when the pattern matches nowhere. */
  function ExtractCourseNumber(title: string): (r: Option<string>)
    ensures r.None? <==> forall p, tok :: !MatchAt(title, p, tok)
    ensures r.Some? ==> exists p :: MatchAt(title, p, r.value) && NoMatchIn(title, 0, p)
  {
    SearchFrom(title, 0)
  }

  /** A match is an occurrence of the bracketed token. */
  lemma MatchOccurs(s: string, i: nat, tok: string)
    requires MatchAt(s, i, tok)
    ensures OccursAt(s, "[" + tok + "]", i)
  {
    BracketsOccur(s, i, tok);
  }

  lemma BracketsOccur(s: string, i: nat, tok: string)
    requires BracketsAt(s, i, tok)
    ensures OccursAt(s, "[" + tok + "]", i)
  {
    var w := s[i..i + |tok| + 2];
    var pat := "[" + tok + "]";
    forall k | 0 <= k < |pat| ensures w[k] == pat[k] {
      if 0 < k < |pat| - 1 {
        assert pat[k] == tok[k - 1] == s[i + 1..i + 1 + |tok|][k - 1];
      }
    }
    assert w == pat;
  }

  /** A found course number is a word of the pattern's token grammar and appears in the
      title between brackets. */
  lemma ExtractedIsToken(title: string)
    ensures var r := ExtractCourseNumber(title);
            r.Some? ==> IsCourseToken(r.value) && exists p :: OccursAt(title, "[" + r.value + "]", p)
  {
    var r := ExtractCourseNumber(title);
    if r.Some? {
      var p :| MatchAt(title, p, r.value) && NoMatchIn(title, 0, p);
      MatchedTokenChars(title, p, r.value);
      MatchOccurs(title, p, r.value);
    }
  }
}
