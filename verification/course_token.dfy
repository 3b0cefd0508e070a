/**
 * The course-number token and its search inside an event title.
 *
 * The token is the capture group of
 *   \[((?:CCS_)?\d{4}[A-Z]{2,3}_[A-Z_]+_\d+(?:-\d+)?(?:_SEC\d+(?:_AND_SEC\d+)?|_ALL_SECTIONS)?)\]
 * Two readings of that group are given. `TokenSpec` is the regular expression read as a
 * language: each optional or repeated part is a cut point that may be placed anywhere the
 * pieces fit, exactly as a backtracking matcher may place it. `IsCourseToken` is a
 * deterministic recogniser that measures each digit or letter run once. `TokenEquiv`
 * proves that they accept the same strings.
 */
module CourseToken {
  import opened Wrappers
  import opened Text

  predicate IsDeptChar(c: char) { IsUpper(c) || c == '_' }

  /** The characters a token can contain; note that neither bracket nor whitespace is one. */
  predicate IsTokenChar(c: char) { IsDigit(c) || IsUpper(c) || c == '_' || c == '-' }

  // ---------------------------------------------------------------------------
  // The pattern as a language, one cut point per piece.
  // ---------------------------------------------------------------------------

  /** `\d+(?:_AND_SEC\d+)?` */
  ghost predicate SecNumSpec(t: string) {
    exists k :: 1 <= k <= |t| && All(t[..k], IsDigit)
                && (k == |t| || (k + 8 < |t| && t[k..k + 8] == "_AND_SEC" && All(t[k + 8..], IsDigit)))
  }

  /** `(?:_SEC\d+(?:_AND_SEC\d+)?|_ALL_SECTIONS)?` */
  ghost predicate SectionSpec(t: string) {
    t == "" || t == "_ALL_SECTIONS" || (|t| >= 4 && t[..4] == "_SEC" && SecNumSpec(t[4..]))
  }

  /** `-\d+` followed by the section part. */
  ghost predicate SubSpec(t: string) {
    exists k :: 2 <= k <= |t| && t[0] == '-' && All(t[1..k], IsDigit) && SectionSpec(t[k..])
  }

  /** `\d+(?:-\d+)?` followed by the section part. */
  ghost predicate NumberSpec(t: string) {
    exists k :: 1 <= k <= |t| && All(t[..k], IsDigit) && (SectionSpec(t[k..]) || SubSpec(t[k..]))
  }

  /** `[A-Z_]+_` followed by the course number. */
  ghost predicate DeptSpec(t: string) {
    exists k :: 1 <= k < |t| && All(t[..k], IsDeptChar) && t[k] == '_' && NumberSpec(t[k + 1..])
  }

  /** `\d{4}[A-Z]{2,3}_` followed by the department. */
  ghost predicate TermSpec(t: string) {
    exists k :: 6 <= k <= 7 && k < |t| && All(t[..4], IsDigit) && All(t[4..k], IsUpper)
                && t[k] == '_' && DeptSpec(t[k + 1..])
  }

  /** The whole capture group: `(?:CCS_)?` followed by the term. */
  ghost predicate TokenSpec(t: string) {
    TermSpec(t) || (|t| >= 4 && t[..4] == "CCS_" && TermSpec(t[4..]))
  }

  // ---------------------------------------------------------------------------
  // The deterministic recogniser.
  // ---------------------------------------------------------------------------

  predicate MatchesSecNum(t: string) {
    var k := LeadingRun(t, IsDigit);
    1 <= k && (k == |t| || (k + 8 < |t| && t[k..k + 8] == "_AND_SEC" && All(t[k + 8..], IsDigit)))
  }

  predicate MatchesSection(t: string) {
    t == "" || t == "_ALL_SECTIONS" || (|t| >= 4 && t[..4] == "_SEC" && MatchesSecNum(t[4..]))
  }

  predicate MatchesSub(t: string) {
    |t| >= 1 && t[0] == '-' &&
    var k := 1 + LeadingRun(t[1..], IsDigit);
    2 <= k && MatchesSection(t[k..])
  }

  predicate MatchesNumber(t: string) {
    var k := LeadingRun(t, IsDigit);
    1 <= k && (MatchesSection(t[k..]) || MatchesSub(t[k..]))
  }

  /** The department ends at the last underscore of the maximal `[A-Z_]` run, since the
      course number that follows starts with a digit. */
  predicate MatchesDept(t: string) {
    var k := LeadingRun(t, IsDeptChar);
    2 <= k && t[k - 1] == '_' && MatchesNumber(t[k..])
  }

  predicate MatchesTerm(t: string) {
    |t| >= 4 && All(t[..4], IsDigit) &&
    ((|t| > 6 && All(t[4..6], IsUpper) && t[6] == '_' && MatchesDept(t[7..])) ||
     (|t| > 7 && All(t[4..7], IsUpper) && t[7] == '_' && MatchesDept(t[8..])))
  }

  /** Whether `t` is a course-number token. */
  predicate IsCourseToken(t: string) {
    MatchesTerm(t) || (|t| >= 4 && t[..4] == "CCS_" && MatchesTerm(t[4..]))
  }

  // ---------------------------------------------------------------------------
  // The recogniser accepts exactly the language of the pattern.
  // ---------------------------------------------------------------------------

  lemma SecNumEquiv(t: string)
    ensures SecNumSpec(t) <==> MatchesSecNum(t)
  {
    var n := LeadingRun(t, IsDigit);
    if SecNumSpec(t) {
      var k :| 1 <= k <= |t| && All(t[..k], IsDigit)
               && (k == |t| || (k + 8 < |t| && t[k..k + 8] == "_AND_SEC" && All(t[k + 8..], IsDigit)));
      if k < |t| {
        assert t[k] == t[k..k + 8][0];
      }
      LeadingRunUnique(t, IsDigit, k);
    }
    if MatchesSecNum(t) {
      assert 1 <= n <= |t| && All(t[..n], IsDigit);
    }
  }

  /** A section part is empty or starts with an underscore. */
  lemma SectionSpecStart(t: string)
    requires SectionSpec(t)
    ensures t == [] || t[0] == '_'
  {
    if |t| >= 4 && t[..4] == "_SEC" {
      assert t[0] == t[..4][0];
    }
  }

  lemma SectionEquiv(t: string)
    ensures SectionSpec(t) <==> MatchesSection(t)
  {
    if |t| >= 4 {
      SecNumEquiv(t[4..]);
    }
  }

  /** A sub-number part starts with a dash. */
  lemma SubSpecStart(t: string)
    requires SubSpec(t)
    ensures |t| > 0 && t[0] == '-'
  {
  }

  lemma SubEquiv(t: string)
    ensures SubSpec(t) <==> MatchesSub(t)
  {
    if |t| >= 1 && t[0] == '-' {
      var u := t[1..];
      var n := LeadingRun(u, IsDigit);
      if SubSpec(t) {
        var k :| 2 <= k <= |t| && t[0] == '-' && All(t[1..k], IsDigit) && SectionSpec(t[k..]);
        SectionSpecStart(t[k..]);
        assert u[..k - 1] == t[1..k];
        if k - 1 < |u| {
          assert u[k - 1] == t[k..][0];
        }
        LeadingRunUnique(u, IsDigit, k - 1);
        assert t[k..] == t[1 + n..];
        SectionEquiv(t[k..]);
      }
      if MatchesSub(t) {
        assert t[1..1 + n] == u[..n];
        assert t[1 + n..] == u[n..];
        SectionEquiv(t[1 + n..]);
      }
    }
  }

  /** A number part starts with a digit. */
  lemma NumberSpecStart(t: string)
    requires NumberSpec(t)
    ensures |t| > 0 && IsDigit(t[0])
  {
    var k :| 1 <= k <= |t| && All(t[..k], IsDigit) && (SectionSpec(t[k..]) || SubSpec(t[k..]));
    assert t[..k][0] == t[0];
  }

  lemma NumberEquiv(t: string)
    ensures NumberSpec(t) <==> MatchesNumber(t)
  {
    var n := LeadingRun(t, IsDigit);
    if NumberSpec(t) {
      var k :| 1 <= k <= |t| && All(t[..k], IsDigit) && (SectionSpec(t[k..]) || SubSpec(t[k..]));
      if SectionSpec(t[k..]) {
        SectionSpecStart(t[k..]);
      } else {
        SubSpecStart(t[k..]);
      }
      if k < |t| {
        assert t[k] == t[k..][0];
      }
      LeadingRunUnique(t, IsDigit, k);
      SectionEquiv(t[k..]);
      SubEquiv(t[k..]);
    }
    if MatchesNumber(t) {
      SectionEquiv(t[n..]);
      SubEquiv(t[n..]);
    }
  }

  /** A department cut at `k` by the pattern is the one the recogniser finds. */
  lemma DeptCutIsRun(t: string, k: nat)
    requires 1 <= k < |t| && All(t[..k], IsDeptChar) && t[k] == '_' && NumberSpec(t[k + 1..])
    ensures MatchesDept(t)
  {
    NumberSpecStart(t[k + 1..]);
    assert All(t[..k + 1], IsDeptChar) by {
      AllSlice(t, 0, k, IsDeptChar);
      AllSlice(t, 0, k + 1, IsDeptChar);
    }
    assert k + 1 < |t| ==> t[k + 1] == t[k + 1..][0];
    LeadingRunUnique(t, IsDeptChar, k + 1);
    NumberEquiv(t[k + 1..]);
  }

  /** The recogniser's department is a cut the pattern may take. */
  lemma DeptRunIsCut(t: string)
    requires MatchesDept(t)
    ensures DeptSpec(t)
  {
    var n := LeadingRun(t, IsDeptChar);
    assert All(t[..n - 1], IsDeptChar) by {
      AllSlice(t, 0, n, IsDeptChar);
      AllSlice(t, 0, n - 1, IsDeptChar);
    }
    NumberEquiv(t[n..]);
    assert t[n - 1 + 1..] == t[n..];
    assert NumberSpec(t[n - 1 + 1..]);
  }

  lemma DeptEquiv(t: string)
    ensures DeptSpec(t) <==> MatchesDept(t)
  {
    if DeptSpec(t) {
      var k :| 1 <= k < |t| && All(t[..k], IsDeptChar) && t[k] == '_' && NumberSpec(t[k + 1..]);
      DeptCutIsRun(t, k);
    }
    if MatchesDept(t) {
      DeptRunIsCut(t);
    }
  }

  lemma TermEquiv(t: string)
    ensures TermSpec(t) <==> MatchesTerm(t)
  {
    if |t| > 7 {
      DeptEquiv(t[7..]);
      DeptEquiv(t[8..]);
    } else if |t| > 6 {
      DeptEquiv(t[7..]);
    }
    if MatchesTerm(t) {
      if |t| > 6 && All(t[4..6], IsUpper) && t[6] == '_' && MatchesDept(t[7..]) {
        assert t[6 + 1..] == t[7..];
      } else {
        assert t[7 + 1..] == t[8..];
      }
    }
  }

  /** The recogniser accepts exactly the strings the pattern's capture group can match. */
  lemma TokenEquiv(t: string)
    ensures TokenSpec(t) <==> IsCourseToken(t)
  {
    TermEquiv(t);
    if |t| >= 4 {
      TermEquiv(t[4..]);
    }
  }
  // ---------------------------------------------------------------------------
  // Alphabet: a token never contains a bracket or whitespace.
  // ---------------------------------------------------------------------------

  /** A string whose pieces are all made of token characters is made of token characters. */
  lemma TokenCharsJoin(t: string, k: int)
    requires 0 <= k <= |t|
    requires All(t[..k], IsTokenChar) && All(t[k..], IsTokenChar)
    ensures All(t, IsTokenChar)
  {
    AllSlice(t, 0, k, IsTokenChar);
    AllSlice(t, k, |t|, IsTokenChar);
  }

  lemma DigitsAreTokenChars(t: string)
    requires All(t, IsDigit)
    ensures All(t, IsTokenChar)
  {
  }

  lemma SecNumChars(t: string)
    requires MatchesSecNum(t)
    ensures All(t, IsTokenChar)
  {
    var k := LeadingRun(t, IsDigit);
    if k < |t| {
      var rest := t[k..];
      assert rest[..8] == "_AND_SEC";
      assert All(rest[..8], IsTokenChar);
      assert rest[8..] == t[k + 8..];
      TokenCharsJoin(rest, 8);
    }
    TokenCharsJoin(t, k);
  }

  lemma SectionChars(t: string)
    requires MatchesSection(t)
    ensures All(t, IsTokenChar)
  {
    if t == "_ALL_SECTIONS" {
      assert All(t, IsTokenChar);
    } else if t != "" {
      SecNumChars(t[4..]);
      assert All(t[..4], IsTokenChar);
      TokenCharsJoin(t, 4);
    }
  }

  lemma SubChars(t: string)
    requires MatchesSub(t)
    ensures All(t, IsTokenChar)
  {
    var n := LeadingRun(t[1..], IsDigit);
    assert t[1..][..n] == t[1..1 + n];
    SectionChars(t[1 + n..]);
    assert t[1..][n..] == t[1 + n..];
    TokenCharsJoin(t[1..], n);
    assert t[..1] == "-";
    TokenCharsJoin(t, 1);
  }

  lemma NumberChars(t: string)
    requires MatchesNumber(t)
    ensures All(t, IsTokenChar)
  {
    var k := LeadingRun(t, IsDigit);
    if MatchesSection(t[k..]) {
      SectionChars(t[k..]);
    } else {
      SubChars(t[k..]);
    }
    TokenCharsJoin(t, k);
  }

  lemma DeptChars(t: string)
    requires MatchesDept(t)
    ensures All(t, IsTokenChar)
  {
    var k := LeadingRun(t, IsDeptChar);
    NumberChars(t[k..]);
    TokenCharsJoin(t, k);
  }

  lemma TermChars(t: string)
    requires MatchesTerm(t)
    ensures All(t, IsTokenChar)
  {
    var k := if |t| > 6 && All(t[4..6], IsUpper) && t[6] == '_' && MatchesDept(t[7..]) then 7 else 8;
    DeptChars(t[k..]);
    AllSlice(t, 0, 4, IsDigit);
    AllSlice(t, 4, k - 1, IsUpper);
    AllSlice(t, 0, k, IsTokenChar);
    TokenCharsJoin(t, k);
  }

  /** Every character of a token is a digit, an upper-case letter, `_` or `-`. */
  lemma TokenChars(t: string)
    requires IsCourseToken(t)
    ensures All(t, IsTokenChar)
  {
    if MatchesTerm(t) {
      TermChars(t);
    } else {
      TermChars(t[4..]);
      assert All(t[..4], IsTokenChar);
      TokenCharsJoin(t, 4);
    }
  }
}
