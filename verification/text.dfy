/**
 * Character classes and string helpers shared by the extractor, the title cleaner and the
 * configuration loader. Only ASCII is modelled: Python's `\d`, `\s`, `str.lower()` and
 * `str.strip()` are restricted to their ASCII behaviour.
 */
module Text {
  import opened Wrappers

  /** ASCII whitespace as Python's `str.isspace()` and the regex class `\s` see it:
      space, tab, line feed, vertical tab, form feed, carriage return and the
      four separators 0x1C..0x1F. */
  predicate IsSpace(c: char) {
    c == ' ' || (9 <= c as int <= 13) || (28 <= c as int <= 31)
  }

  predicate IsDigit(c: char) { '0' <= c <= '9' }

  predicate IsUpper(c: char) { 'A' <= c <= 'Z' }

  /** Every character of `s` satisfies `p`. */
  predicate All(s: string, p: char -> bool) {
    forall i :: 0 <= i < |s| ==> p(s[i])
  }

  /** Length of the longest prefix of `s` whose characters all satisfy `p`. */
  function LeadingRun(s: string, p: char -> bool): (n: nat)
    ensures n <= |s|
    ensures All(s[..n], p)
    ensures n < |s| ==> !p(s[n])
    decreases |s|
  {
    if |s| == 0 || !p(s[0]) then 0 else 1 + LeadingRun(s[1..], p)
  }

  /** Length of the longest suffix of `s` whose characters all satisfy `p`. */
  function TrailingRun(s: string, p: char -> bool): (n: nat)
    ensures n <= |s|
    ensures All(s[|s| - n..], p)
    ensures n < |s| ==> !p(s[|s| - n - 1])
    ensures |s| > 0 && !p(s[0]) ==> n < |s|
    decreases |s|
  {
    if |s| == 0 || !p(s[|s| - 1]) then 0
    else
      var init := s[..|s| - 1];
      var m := TrailingRun(init, p);
      assert |s| > 1 ==> init[0] == s[0];
      assert m < |init| ==> init[|init| - m - 1] == s[|s| - (1 + m) - 1];
      assert s[|s| - (1 + m)..] == init[|init| - m..] + [s[|s| - 1]];
      1 + m
  }

  /** `All` over a slice, read index by index on the whole string. */
  lemma AllSlice(s: string, lo: int, hi: int, p: char -> bool)
    requires 0 <= lo <= hi <= |s|
    ensures All(s[lo..hi], p) <==> forall j :: lo <= j < hi ==> p(s[j])
  {
    if All(s[lo..hi], p) {
      forall j | lo <= j < hi ensures p(s[j]) {
        assert s[lo..hi][j - lo] == s[j];
      }
    }
  }

  /** A run is determined by where it stops: any prefix of `p`-characters followed by
      the end of `s` or by a non-`p` character is the leading run. */
  lemma LeadingRunUnique(s: string, p: char -> bool, k: nat)
    requires k <= |s|
    requires All(s[..k], p)
    requires k < |s| ==> !p(s[k])
    ensures LeadingRun(s, p) == k
  {
    AllSlice(s, 0, k, p);
    AllSlice(s, 0, LeadingRun(s, p), p);
  }

  /** Python's `str.strip()` on ASCII whitespace. */
  function Trim(s: string): (r: string)
    ensures |r| <= |s|
    ensures r == [] || (!IsSpace(r[0]) && !IsSpace(r[|r| - 1]))
    ensures exists i :: 0 <= i <= |s| - |r| && r == s[i..i + |r|]
                        && All(s[..i], IsSpace) && All(s[i + |r|..], IsSpace)
  {
    var l := LeadingRun(s, IsSpace);
    var rest := s[l..];
    var t := TrailingRun(rest, IsSpace);
    TrimCut(s, l, t);
    rest[..|rest| - t]
  }

  /** The cut `Trim` makes: after the leading whitespace run `l`, the trailing run `t` of
      the remainder stops short of a non-space character whenever anything is left. */
  lemma TrimCut(s: string, l: nat, t: nat)
    requires l == LeadingRun(s, IsSpace)
    requires t == TrailingRun(s[l..], IsSpace)
    ensures l + t <= |s|
    ensures l < |s| ==> l + t < |s| && !IsSpace(s[l]) && !IsSpace(s[|s| - t - 1])
    ensures s[l..][..|s[l..]| - t] == s[l..l + (|s| - t - l)]
    ensures All(s[..l], IsSpace) && All(s[l + (|s| - t - l)..], IsSpace)
  {
    var rest := s[l..];
    AllSlice(rest, |rest| - t, |rest|, IsSpace);
    if l < |s| {
      assert rest[0] == s[l];
      assert rest[|rest| - t - 1] == s[|s| - t - 1];
      assert !IsSpace(rest[|rest| - t - 1]);
    }
    assert s[l + (|s| - t - l)..] == rest[|rest| - t..];
  }

  /** A string that already has no surrounding whitespace is left alone by `Trim`. */
  lemma TrimKeepsTrimmed(s: string)
    requires s == [] || (!IsSpace(s[0]) && !IsSpace(s[|s| - 1]))
    ensures Trim(s) == s
  {
    var r := Trim(s);
    var i :| 0 <= i <= |s| - |r| && r == s[i..i + |r|]
             && All(s[..i], IsSpace) && All(s[i + |r|..], IsSpace);
    AllSlice(s, 0, i, IsSpace);
    AllSlice(s, i + |r|, |s|, IsSpace);
  }

  /** The trailing run is determined by where it stops, as for `LeadingRunUnique`. */
  lemma TrailingRunUnique(s: string, p: char -> bool, k: nat)
    requires k <= |s|
    requires All(s[|s| - k..], p)
    requires k < |s| ==> !p(s[|s| - k - 1])
    ensures TrailingRun(s, p) == k
  {
    AllSlice(s, |s| - k, |s|, p);
    AllSlice(s, |s| - TrailingRun(s, p), |s|, p);
  }

  /** `Trim` keeps exactly the stretch from the first to the last non-space character. */
  lemma TrimBetween(s: string, lo: nat, hi: nat)
    requires lo < hi <= |s|
    requires All(s[..lo], IsSpace) && All(s[hi..], IsSpace)
    requires !IsSpace(s[lo]) && !IsSpace(s[hi - 1])
    ensures Trim(s) == s[lo..hi]
  {
    LeadingRunUnique(s, IsSpace, lo);
    var rest := s[lo..];
    assert rest[|rest| - (|s| - hi)..] == s[hi..];
    assert rest[|rest| - (|s| - hi) - 1] == s[hi - 1];
    TrailingRunUnique(rest, IsSpace, |s| - hi);
    assert rest[..|rest| - (|s| - hi)] == s[lo..hi];
  }

  /** `Trim` removes exactly the whitespace padding around a string that starts and ends
      with a non-space character. */
  lemma TrimPadded(a: string, x: string, b: string)
    requires All(a, IsSpace) && All(b, IsSpace)
    requires x != [] && !IsSpace(x[0]) && !IsSpace(x[|x| - 1])
    ensures Trim(a + x + b) == x
  {
    var s := a + x + b;
    assert s[..|a|] == a;
    assert s[|a| + |x|..] == b;
    assert s[|a|..|a| + |x|] == x;
    TrimBetween(s, |a|, |a| + |x|);
  }

  /** `pat` occurs in `s` starting at index `i`. */
  predicate OccursAt(s: string, pat: string, i: int) {
    0 <= i && i + |pat| <= |s| && s[i..i + |pat|] == pat
  }

  /** Leftmost occurrence of `pat` in `s` at or after `from` (Python's `str.find`). */
  function IndexOf(s: string, pat: string, from: nat): (r: Option<nat>)
    ensures r.Some? ==> from <= r.value && OccursAt(s, pat, r.value)
    ensures r.Some? ==> forall k :: from <= k < r.value ==> !OccursAt(s, pat, k)
    ensures r.None? ==> forall k :: from <= k ==> !OccursAt(s, pat, k)
    decreases |s| - from
  {
    if from + |pat| > |s| then None
    else if s[from..from + |pat|] == pat then Some(from)
    else IndexOf(s, pat, from + 1)
  }

  /** ASCII `str.lower()` on one character. */
  function ToLowerChar(c: char): char {
    if IsUpper(c) then (c as int - 'A' as int + 'a' as int) as char else c
  }

  /** ASCII `str.lower()`. */
  function ToLower(s: string): (r: string)
    ensures |r| == |s|
    ensures forall i :: 0 <= i < |s| ==> r[i] == ToLowerChar(s[i])
  {
    seq(|s|, i requires 0 <= i < |s| => ToLowerChar(s[i]))
  }
}
