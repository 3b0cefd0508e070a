/** Worked examples on concrete calendar entries. Each literal is passed in through a
    precondition so that the proofs unfold the definitions one step at a time. */
module Examples {
  import opened Wrappers
  import opened Text
  import opened Events
  import opened CourseToken
  import opened Extraction
  import opened Titles
  import opened EventProcessor

  lemma SectionExample(sec: string)
    requires sec == "_SEC20"
    ensures MatchesSection(sec)
  {
    assert sec[..4] == "_SEC";
    assert sec[4..] == "20";
    LeadingRunUnique("20", IsDigit, 2);
  }

  lemma SubExample(sub: string)
    requires sub == "-0_SEC20"
    ensures MatchesSub(sub)
  {
    assert sub[1..] == "0_SEC20";
    LeadingRunUnique("0_SEC20", IsDigit, 1);
    SectionExample(sub[2..]);
  }

  lemma NumberExample(n: string)
    requires n == "105-0_SEC20"
    ensures MatchesNumber(n)
  {
    LeadingRunUnique(n, IsDigit, 3);
    SubExample(n[3..]);
  }

  lemma DeptExample(d: string)
    requires d == "ENGLISH_105-0_SEC20"
    ensures MatchesDept(d)
  {
    assert All(d[..8], IsDeptChar);
    LeadingRunUnique(d, IsDeptChar, 8);
    NumberExample(d[8..]);
  }

  /** `2024FA_ENGLISH_105-0_SEC20` is a course-number token: term `2024FA`, department
      `ENGLISH_`, number `105`, sub-number `-0`, section `_SEC20`. */
  lemma TokenExample(t: string)
    requires t == "2024FA_ENGLISH_105-0_SEC20"
    ensures IsCourseToken(t)
  {
    assert All(t[..4], IsDigit);
    assert All(t[4..6], IsUpper);
    DeptExample(t[7..]);
    assert MatchesTerm(t);
  }

  /** The course number of `Essay 1 [2024FA_ENGLISH_105-0_SEC20]` is the bracketed token. */
  lemma ExtractExample(tok: string)
    requires tok == "2024FA_ENGLISH_105-0_SEC20"
    ensures ExtractCourseNumber("Essay 1 [" + tok + "]") == Some(tok)
  {
    var a := "Essay 1 ";
    assert forall j :: 0 <= j < |a| ==> a[j] != '[';
    assert "Essay 1 [" + tok + "]" == a + "[" + tok + "]" + "";
    TokenExample(tok);
    TokenAfterPlainText(a, tok, "");
  }

  /** Whatever the token, `Essay 1 [tok]` cleans to `Essay 1`: the space before the
      bracket goes with it. */
  lemma CleanTitleExample(tok: string)
    ensures CleanTitle("Essay 1 [" + tok + "]", tok) == "Essay 1"
  {
    var a := "Essay 1";
    assert "Essay 1 [" + tok + "]" == a + " " + Bracket(tok) + "" + "";
    NoMatchInPrefix(a, " " + Bracket(tok) + "" + "", Bracket(tok));
    assert a + " " + Bracket(tok) + "" + "" == a + (" " + Bracket(tok) + "" + "");
    CleanTitleCutsToken(a, " ", tok, "", "");
    assert a + "" == a;
    TrimKeepsTrimmed(a);
  }

  /** A token in the middle of a title takes the whitespace on both sides with it, so the
      words around it are joined: `Read [tok] chapter 3` cleans to `Readchapter 3`. */
  lemma MidTitleTokenJoinsWords(a: string, tok: string, b: string)
    requires a == "Read" && b == "chapter 3"
    ensures CleanTitle(a + " [" + tok + "] " + b, tok) == a + b
  {
    CleanTitleJoinsWords(a, tok, b);
  }

  /** The whole extraction on a calendar entry. */
  lemma AssignmentDataExample(e: RawEvent, tok: string)
    requires tok == "2024FA_ENGLISH_105-0_SEC20"
    requires e == RawEvent("assignment-abc123", "Essay 1 [" + tok + "]", "2024-10-01T23:59:00")
    ensures ExtractAssignmentData(e) == Some(Assignment(e.uid, "Essay 1", tok, e.date))
  {
    ExtractExample(tok);
    CleanTitleExample(tok);
  }

  /** The uid test ignores case. */
  lemma IsAssignmentExample(e: RawEvent)
    requires e.uid == "ASSIGNMENT-abc123"
    ensures IsAssignment(e)
  {
    var low := ToLower(e.uid);
    assert low[..10] == Marker;
    assert OccursAt(low, Marker, 0);
  }

  /** A uid shorter than the marker cannot hold it. */
  lemma NotAssignmentExample(e: RawEvent)
    requires e.uid == "event-1"
    ensures !IsAssignment(e)
  {
  }
}
