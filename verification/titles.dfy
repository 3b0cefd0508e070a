/**
 * The clean title of `extract_assignment_data`: the substitution
 *   re.sub(r'\s*\[' + re.escape(tok) + r'\]\s*', '', title)
 * followed by `.strip()`.
 */
module Titles {
  import opened Text

  /** The bracketed token the substitution looks for. */
  function Bracket(tok: string): (pat: string)
    ensures |pat| == |tok| + 2 && pat[0] == '[' && pat[|pat| - 1] == ']'
  {
    "[" + tok + "]"
  }

  /** `re.sub(r'\s*' + re.escape(pat) + r'\s*', '', s)` for a non-empty literal `pat`,
      scanning left to right as `re.sub` does. At each index the pattern can only match by
      taking the whole whitespace run there (when `pat` does not start with whitespace) and
      then `pat`; a match also takes the whole whitespace run after it. Where nothing
      matches, one character is kept and the scan moves on. */
  function RemoveSpaced(s: string, pat: string): (r: string)
    requires |pat| > 0
    ensures |r| <= |s|
    decreases |s|
  {
    if |s| == 0 then s
    else
      var w := LeadingRun(s, IsSpace);
      if OccursAt(s, pat, w) then
        var rest := s[w + |pat|..];
        RemoveSpaced(rest[LeadingRun(rest, IsSpace)..], pat)
      else
        [s[0]] + RemoveSpaced(s[1..], pat)
  }

  /** `extract_assignment_data`'s clean title for the course number `tok`. */
  function CleanTitle(title: string, tok: string): (r: string)
    ensures |r| <= |title|
    ensures r == [] || (!IsSpace(r[0]) && !IsSpace(r[|r| - 1]))
  {
    Trim(RemoveSpaced(title, Bracket(tok)))
  }

  /** One step of the scan where a match starts at the front. */
  lemma RemoveStepMatch(s: string, pat: string)
    requires |pat| > 0
    requires 0 < |s| && OccursAt(s, pat, LeadingRun(s, IsSpace))
    ensures var rest := s[LeadingRun(s, IsSpace) + |pat|..];
            RemoveSpaced(s, pat) == RemoveSpaced(rest[LeadingRun(rest, IsSpace)..], pat)
  {
  }

  /** One step of the scan where no match starts at the front. */
  lemma RemoveStepKeep(s: string, pat: string)
    requires |pat| > 0
    requires 0 < |s| && !OccursAt(s, pat, LeadingRun(s, IsSpace))
    ensures RemoveSpaced(s, pat) == [s[0]] + RemoveSpaced(s[1..], pat)
  {
  }

  /** Text in which the pattern does not occur passes through unchanged. */
  lemma {:induction false} RemoveNoOccurrence(s: string, pat: string)
    requires |pat| > 0
    requires forall i :: !OccursAt(s, pat, i)
    ensures RemoveSpaced(s, pat) == s
    decreases |s|
  {
    if |s| > 0 {
      RemoveStepKeep(s, pat);
      forall i | 0 <= i && i + |pat| <= |s| - 1 ensures !OccursAt(s[1..], pat, i) {
        assert s[1..][i..i + |pat|] == s[i + 1..i + 1 + |pat|];
        assert !OccursAt(s, pat, i + 1);
      }
      RemoveNoOccurrence(s[1..], pat);
      assert s == [s[0]] + s[1..];
    }
  }

  /** No occurrence of `pat` starts at index `k` of `s`. */
  predicate Unmatched(s: string, pat: string, k: int) {
    !OccursAt(s, pat, k)
  }

  /** Text without the pattern's first character holds no start of a match. */
  lemma NoMatchInPrefix(a: string, c: string, pat: string)
    requires |pat| > 0
    requires forall i :: 0 <= i < |a| ==> a[i] != pat[0]
    ensures forall k :: 0 <= k < |a| ==> Unmatched(a + c, pat, k)
  {
    var s := a + c;
    forall k | 0 <= k < |a| ensures Unmatched(s, pat, k) {
      assert s[k] == a[k];
      if k + |pat| <= |s| {
        assert s[k..k + |pat|][0] == s[k];
      }
    }
  }

  /** Dropping the first character shifts the match-free starts down by one. */
  lemma ShiftNoMatch(s: string, pat: string, n: int)
    requires 0 < |s|
    requires forall k :: 0 <= k < n ==> Unmatched(s, pat, k)
    ensures forall k :: 0 <= k < n - 1 ==> Unmatched(s[1..], pat, k)
  {
    forall k | 0 <= k < n - 1 ensures Unmatched(s[1..], pat, k) {
      assert Unmatched(s, pat, k + 1);
      if k + |pat| <= |s| - 1 {
        assert s[1..][k..k + |pat|] == s[k + 1..k + 1 + |pat|];
      }
    }
  }

  /** The leading whitespace run stops before a non-space character. */
  lemma RunStopsBefore(s: string, n: int)
    requires 0 < n <= |s| && !IsSpace(s[n - 1])
    ensures LeadingRun(s, IsSpace) < n
  {
    AllSlice(s, 0, LeadingRun(s, IsSpace), IsSpace);
  }

  /** The first `n` characters of `s`, where no match starts and which do not end in
      whitespace, are kept as they are and the scan resumes after them. */
  lemma {:induction false} RemoveKeepsFront(s: string, n: int, pat: string)
    requires |pat| > 0 && 0 <= n <= |s|
    requires forall k :: 0 <= k < n ==> Unmatched(s, pat, k)
    requires n == 0 || !IsSpace(s[n - 1])
    ensures RemoveSpaced(s, pat) == s[..n] + RemoveSpaced(s[n..], pat)
    decreases n
  {
    if n > 0 {
      ShiftNoMatch(s, pat, n);
      assert n > 1 ==> s[1..][n - 2] == s[n - 1];
      RemoveKeepsFront(s[1..], n - 1, pat);
      KeepsFrontStep(s, n, pat);
    } else {
      assert s[..n] == [] && s[n..] == s;
    }
  }

  /** The inductive step of `RemoveKeepsFront`: keeping the first character and then the
      next `n - 1` keeps the first `n`. */
  lemma KeepsFrontStep(s: string, n: int, pat: string)
    requires |pat| > 0 && 0 < n <= |s|
    requires forall k :: 0 <= k < n ==> Unmatched(s, pat, k)
    requires !IsSpace(s[n - 1])
    requires RemoveSpaced(s[1..], pat) == s[1..][..n - 1] + RemoveSpaced(s[1..][n - 1..], pat)
    ensures RemoveSpaced(s, pat) == s[..n] + RemoveSpaced(s[n..], pat)
  {
    KeepsFirst(s, n, pat);
    assert s[1..][n - 1..] == s[n..];
    ConsJoin(s, n, RemoveSpaced(s, pat), RemoveSpaced(s[1..], pat), RemoveSpaced(s[n..], pat));
  }

  /** A first character before the end of a run with no match in it is kept. */
  lemma KeepsFirst(s: string, n: int, pat: string)
    requires |pat| > 0 && 0 < n <= |s|
    requires forall k :: 0 <= k < n ==> Unmatched(s, pat, k)
    requires !IsSpace(s[n - 1])
    ensures RemoveSpaced(s, pat) == [s[0]] + RemoveSpaced(s[1..], pat)
  {
    RunStopsBefore(s, n);
    assert Unmatched(s, pat, LeadingRun(s, IsSpace));
    RemoveStepKeep(s, pat);
  }

  /** Putting the first character back in front of the next `n - 1`. */
  lemma ConsJoin(s: string, n: int, whole: string, tail: string, rest: string)
    requires 0 < n <= |s|
    requires whole == [s[0]] + tail && tail == s[1..][..n - 1] + rest
    ensures whole == s[..n] + rest
  {
    assert [s[0]] + s[1..][..n - 1] == s[..n];
  }

  /** Text in which no match starts and which does not end in whitespace cannot be part of
      a match, so it is kept as it is and the scan resumes after it. */
  lemma RemoveKeepsPrefix(a: string, c: string, pat: string)
    requires |pat| > 0
    requires forall k :: 0 <= k < |a| ==> Unmatched(a + c, pat, k)
    requires a == [] || !IsSpace(a[|a| - 1])
    ensures RemoveSpaced(a + c, pat) == a + RemoveSpaced(c, pat)
  {
    var s := a + c;
    assert |a| > 0 ==> s[|a| - 1] == a[|a| - 1];
    RemoveKeepsFront(s, |a|, pat);
    assert s[..|a|] == a && s[|a|..] == c;
  }

  /** A whitespace prefix followed by a non-space is the leading whitespace run. */
  lemma SpaceRunOf(w: string, x: string)
    requires All(w, IsSpace)
    requires x == [] || !IsSpace(x[0])
    ensures LeadingRun(w + x, IsSpace) == |w|
    ensures (w + x)[|w|..] == x
  {
    var s := w + x;
    assert s[..|w|] == w;
    assert |w| < |s| ==> s[|w|] == x[0];
    LeadingRunUnique(s, IsSpace, |w|);
  }

  /** Where the pattern sits in `w1 + pat + rest`. */
  lemma PatternAfter(w1: string, pat: string, rest: string)
    ensures OccursAt(w1 + pat + rest, pat, |w1|)
    ensures (w1 + pat + rest)[|w1| + |pat|..] == rest
  {
    var s := w1 + pat + rest;
    assert s[|w1|..|w1| + |pat|] == pat;
  }

  /** In `w1 + pat + rest` the scan finds the pattern right after the whitespace `w1`. */
  lemma MatchAtFront(w1: string, pat: string, rest: string)
    requires |pat| > 0 && !IsSpace(pat[0])
    requires All(w1, IsSpace)
    ensures var s := w1 + pat + rest;
            && LeadingRun(s, IsSpace) == |w1| && OccursAt(s, pat, |w1|)
            && s[|w1| + |pat|..] == rest
  {
    var s := w1 + pat + rest;
    assert s == w1 + (pat + rest);
    SpaceRunOf(w1, pat + rest);
    PatternAfter(w1, pat, rest);
  }

  /** After a match the scan also drops the whitespace `w2` and resumes at `b`. */
  lemma RemoveAfterMatch(s: string, pat: string, w2: string, b: string)
    requires |pat| > 0
    requires All(w2, IsSpace)
    requires b == [] || !IsSpace(b[0])
    requires 0 < |s| && OccursAt(s, pat, LeadingRun(s, IsSpace))
    requires s[LeadingRun(s, IsSpace) + |pat|..] == w2 + b
    ensures RemoveSpaced(s, pat) == RemoveSpaced(b, pat)
  {
    SpaceRunOf(w2, b);
    RemoveStepMatch(s, pat);
  }

  /** The pattern with the whitespace runs on both sides of it is deleted. */
  lemma RemoveDeletesMatch(w1: string, pat: string, w2: string, b: string)
    requires |pat| > 0 && !IsSpace(pat[0])
    requires All(w1, IsSpace) && All(w2, IsSpace)
    requires b == [] || !IsSpace(b[0])
    ensures RemoveSpaced(w1 + pat + w2 + b, pat) == RemoveSpaced(b, pat)
  {
    var c := w2 + b;
    assert w1 + pat + w2 + b == w1 + pat + c;
    assert RemoveSpaced(w1 + pat + c, pat) == RemoveSpaced(b, pat) by {
      MatchAtFront(w1, pat, c);
      RemoveAfterMatch(w1 + pat + c, pat, w2, b);
    }
  }

  /** Text without a `[` holds no bracketed token. */
  lemma NoOpenBracketNoToken(b: string, tok: string)
    requires forall i :: 0 <= i < |b| ==> b[i] != '['
    ensures forall i :: !OccursAt(b, Bracket(tok), i)
  {
    var pat := Bracket(tok);
    forall i | 0 <= i < |b| && i + |pat| <= |b|
      ensures !OccursAt(b, pat, i)
    {
      assert b[i..i + |pat|][0] == b[i];
    }
  }

  /** The substitution on `a + w1 + [tok] + w2 + b`, where no match starts inside `a`:
      `a` is kept, the first bracketed token and the whitespace runs around it are
      deleted, and the scan carries on over `b`, which may hold further copies. */
  lemma RemoveCutsFirst(a: string, w1: string, tok: string, w2: string, b: string)
    requires forall k :: 0 <= k < |a| ==> Unmatched(a + w1 + Bracket(tok) + w2 + b, Bracket(tok), k)
    requires a == [] || !IsSpace(a[|a| - 1])
    requires All(w1, IsSpace) && All(w2, IsSpace)
    requires b == [] || !IsSpace(b[0])
    ensures RemoveSpaced(a + w1 + Bracket(tok) + w2 + b, Bracket(tok)) == a + RemoveSpaced(b, Bracket(tok))
  {
    RemoveKeepsBefore(a, w1, tok, w2, b);
    assert Bracket(tok)[0] == '[';
    RemoveDeletesMatch(w1, Bracket(tok), w2, b);
  }

  /** The part of `RemoveCutsFirst` about `a`: it is kept and the scan resumes after it. */
  lemma RemoveKeepsBefore(a: string, w1: string, tok: string, w2: string, b: string)
    requires forall k :: 0 <= k < |a| ==> Unmatched(a + w1 + Bracket(tok) + w2 + b, Bracket(tok), k)
    requires a == [] || !IsSpace(a[|a| - 1])
    ensures RemoveSpaced(a + w1 + Bracket(tok) + w2 + b, Bracket(tok))
            == a + RemoveSpaced(w1 + Bracket(tok) + w2 + b, Bracket(tok))
  {
    SplitAfter(a, w1, Bracket(tok), w2, b);
    RemoveKeepsFront(a + w1 + Bracket(tok) + w2 + b, |a|, Bracket(tok));
  }

  /** Cutting `a + w1 + pat + w2 + b` after `a`. */
  lemma SplitAfter(a: string, w1: string, pat: string, w2: string, b: string)
    ensures (a + w1 + pat + w2 + b)[..|a|] == a
    ensures (a + w1 + pat + w2 + b)[|a|..] == w1 + pat + w2 + b
    ensures |a| > 0 ==> (a + w1 + pat + w2 + b)[|a| - 1] == a[|a| - 1]
  {
    assert a + w1 + pat + w2 + b == a + (w1 + pat + w2 + b);
  }

  /** The clean title of a title whose only bracketed copy of the token is the one between
      `a` and `b` is the text on either side of it, with the whitespace next to the
      brackets dropped (not replaced by a space) and the ends stripped. */
  lemma CleanTitleCutsToken(a: string, w1: string, tok: string, w2: string, b: string)
    requires forall k :: 0 <= k < |a| ==> Unmatched(a + w1 + Bracket(tok) + w2 + b, Bracket(tok), k)
    requires a == [] || !IsSpace(a[|a| - 1])
    requires All(w1, IsSpace) && All(w2, IsSpace)
    requires b == [] || !IsSpace(b[0])
    requires forall i :: !OccursAt(b, Bracket(tok), i)
    ensures CleanTitle(a + w1 + Bracket(tok) + w2 + b, tok) == Trim(a + b)
  {
    RemoveCutsFirst(a, w1, tok, w2, b);
    RemoveNoOccurrence(b, Bracket(tok));
  }

  /** When the title does not start or end with whitespace, nothing is stripped: the clean
      title is exactly the text on the two sides of the token, put together. */
  lemma CleanTitleCutsTokenExact(a: string, w1: string, tok: string, w2: string, b: string)
    requires forall k :: 0 <= k < |a| ==> Unmatched(a + w1 + Bracket(tok) + w2 + b, Bracket(tok), k)
    requires a == [] || (!IsSpace(a[0]) && !IsSpace(a[|a| - 1]))
    requires All(w1, IsSpace) && All(w2, IsSpace)
    requires b == [] || (!IsSpace(b[0]) && !IsSpace(b[|b| - 1]))
    requires forall i :: !OccursAt(b, Bracket(tok), i)
    ensures CleanTitle(a + w1 + Bracket(tok) + w2 + b, tok) == a + b
  {
    CleanTitleCutsToken(a, w1, tok, w2, b);
    JoinUnpadded(a, b);
  }

  /** Two texts without surrounding whitespace join into one that `Trim` leaves alone. */
  lemma JoinUnpadded(a: string, b: string)
    requires a == [] || (!IsSpace(a[0]) && !IsSpace(a[|a| - 1]))
    requires b == [] || (!IsSpace(b[0]) && !IsSpace(b[|b| - 1]))
    ensures Trim(a + b) == a + b
  {
    var ab := a + b;
    if a != [] { assert ab[0] == a[0]; }
    if b != [] { assert ab[|ab| - 1] == b[|b| - 1]; }
    TrimKeepsTrimmed(ab);
  }

  /** A token standing between two words, one space on each side, is deleted together
      with both spaces, so the words are joined. */
  lemma CleanTitleJoinsWords(a: string, tok: string, b: string)
    requires forall i :: 0 <= i < |a| ==> a[i] != '['
    requires forall i :: 0 <= i < |b| ==> b[i] != '['
    requires a != [] && !IsSpace(a[0]) && !IsSpace(a[|a| - 1])
    requires b != [] && !IsSpace(b[0]) && !IsSpace(b[|b| - 1])
    ensures CleanTitle(a + " [" + tok + "] " + b, tok) == a + b
  {
    assert a + " [" + tok + "] " + b == a + " " + Bracket(tok) + " " + b;
    assert CleanTitle(a + " [" + tok + "] " + b, tok) == Trim(a + b) by {
      NoOpenBracketNoToken(b, tok);
      NoMatchInPrefix(a, " " + Bracket(tok) + " " + b, Bracket(tok));
      assert a + " " + Bracket(tok) + " " + b == a + (" " + Bracket(tok) + " " + b);
      CleanTitleCutsToken(a, " ", tok, " ", b);
    }
    assert (a + b)[0] == a[0] && (a + b)[|a + b| - 1] == b[|b| - 1];
    TrimKeepsTrimmed(a + b);
  }
}
