/** Configuration: required environment variables, the fetch interval, and the
    course-number to project-name lookup read from `courses.yml`. The environment and
    the parsed YAML document are parameters; reading files and `.env` is not modelled. */
module Config {
  import opened Wrappers
  import opened Text

  /** The process environment as seen by `os.getenv`: a variable is either absent or
      bound to a string. */
  type Env = map<string, string>

  /** Why loading the configuration stops (Python's `ConfigurationError` and the
      `ValueError` raised by `int()`). */
  datatype ConfigError = MissingEnv(name: string) | InvalidInteger(text: string)

  /** One entry of the `course_patterns` list: an arbitrary YAML mapping. */
  type CoursePattern = map<string, string>

  /** The three keys of `courses.yml` the program reads; a key missing from the
      document is `None`. */
  datatype CourseDocument = CourseDocument(
    courses: Option<map<string, string>>,
    defaultProject: Option<string>,
    coursePatterns: Option<seq<CoursePattern>>)

  /** The document `{}`. */
  const EmptyDocument := CourseDocument(None, None, None)

  const CanvasUrlVar := "CANVAS_ICS_URL"
  const TokenVar := "TODOIST_API_TOKEN"
  const FetchIntervalVar := "FETCH_INTERVAL"
  const DefaultFetchIntervalText := "3600"
  const DefaultProjectName := "Uncategorized"

  /** The loaded configuration (the fields of the `Config` singleton). */
  datatype Configuration = Configuration(
    canvasIcsUrl: string,
    todoistApiToken: string,
    fetchInterval: int,
    courseProjectMapping: map<string, string>,
    defaultProject: string,
    courseConfig: CourseDocument)

  /** `_get_required_env`: the value of `name`, which must be set and non-empty. */
  function GetRequiredEnv(env: Env, name: string): (r: Result<string, ConfigError>)
    ensures r.Failure? <==> name !in env || env[name] == ""
    ensures r.Failure? ==> r.error == MissingEnv(name)
    ensures r.Success? ==> name in env && r.value == env[name] && r.value != ""
  {
    if name in env && env[name] != "" then Success(env[name]) else Failure(MissingEnv(name))
  }

  // ---------------------------------------------------------------------------
  // Python's int() on a string: ASCII whitespace around an optional sign and a
  // non-empty run of ASCII digits.
  // ---------------------------------------------------------------------------

  function DigitValue(c: char): nat
    requires IsDigit(c)
  {
    c as int - '0' as int
  }

  function DigitChar(d: nat): (c: char)
    requires d < 10
    ensures IsDigit(c) && DigitValue(c) == d
  {
    ('0' as int + d) as char
  }

  /** The value of a string of decimal digits, most significant first. */
  function DigitsValue(ds: string): nat
    requires All(ds, IsDigit)
    decreases |ds|
  {
    if ds == [] then 0
    else
      var n := |ds| - 1;
      assert All(ds[..n], IsDigit) by { AllSlice(ds, 0, n, IsDigit); }
      DigitsValue(ds[..n]) * 10 + DigitValue(ds[n])
  }

  /** `t` is the text of an integer literal denoting `v`. */
  ghost predicate Denotes(t: string, v: int) {
    (|t| > 0 && All(t, IsDigit) && v == DigitsValue(t))
    || (|t| > 1 && t[0] == '+' && All(t[1..], IsDigit) && v == DigitsValue(t[1..]))
    || (|t| > 1 && t[0] == '-' && All(t[1..], IsDigit) && v == 0 - DigitsValue(t[1..]) as int)
  }

  /** The whitespace `int()` skips around a literal on ASCII text: space, tab, line feed,
      vertical tab, form feed and carriage return. Unlike `str.strip()`, it does not
      skip the separators 0x1C..0x1F. */
  predicate IsIntSpace(c: char) {
    c == ' ' || (9 <= c as int <= 13)
  }

  /** The text `int()` reads once the whitespace it skips is cut from both ends. */
  function IntStrip(s: string): (r: string)
    ensures |r| <= |s|
    ensures r == [] || (!IsIntSpace(r[0]) && !IsIntSpace(r[|r| - 1]))
  {
    var l := LeadingRun(s, IsIntSpace);
    var rest := s[l..];
    var t := TrailingRun(rest, IsIntSpace);
    assert l < |s| ==> rest[0] == s[l];
    rest[..|rest| - t]
  }

  /** `IntStrip` removes exactly the padding around a literal whose ends are not
      whitespace. */
  lemma IntStripPadded(a: string, x: string, b: string)
    requires All(a, IsIntSpace) && All(b, IsIntSpace)
    requires x != [] && !IsIntSpace(x[0]) && !IsIntSpace(x[|x| - 1])
    ensures IntStrip(a + x + b) == x
  {
    var s := a + x + b;
    assert s[..|a|] == a && s[|a|] == x[0];
    LeadingRunUnique(s, IsIntSpace, |a|);
    var rest := s[|a|..];
    assert rest == x + b;
    assert rest[|rest| - |b|..] == b && rest[|rest| - |b| - 1] == x[|x| - 1];
    TrailingRunUnique(rest, IsIntSpace, |b|);
    assert rest[..|rest| - |b|] == x;
  }

  /** Python's default limit on the digits `int()` converts from text (and `str()` writes):
      longer digit runs raise `ValueError`. */
  const MaxIntDigits := 4300

  /** The digits of a literal, after its sign if it has one. */
  function DigitRun(t: string): string {
    if |t| > 0 && (t[0] == '+' || t[0] == '-') then t[1..] else t
  }

  /** `int(s)`: `None` where Python raises `ValueError`. */
  function ParseInt(s: string): (r: Option<int>)
    ensures r.Some? ==> Denotes(IntStrip(s), r.value) && |DigitRun(IntStrip(s))| <= MaxIntDigits
    ensures r.None? ==> |DigitRun(IntStrip(s))| > MaxIntDigits || forall v :: !Denotes(IntStrip(s), v)
  {
    ParseLiteral(IntStrip(s))
  }

  /** The literal `int()` reads once the padding is gone: an optional sign and at most
      `MaxIntDigits` digits. */
  function ParseLiteral(t: string): (r: Option<int>)
    ensures r.Some? ==> Denotes(t, r.value) && |DigitRun(t)| <= MaxIntDigits
    ensures r.None? ==> |DigitRun(t)| > MaxIntDigits || forall v :: !Denotes(t, v)
  {
    if |t| > 0 && (t[0] == '+' || t[0] == '-') then
      var body := t[1..];
      if |body| > 0 && All(body, IsDigit) && |body| <= MaxIntDigits then
        Some(if t[0] == '-' then 0 - DigitsValue(body) as int else DigitsValue(body))
      else None
    else if |t| > 0 && All(t, IsDigit) && |t| <= MaxIntDigits then Some(DigitsValue(t))
    else None
  }

  /** Decimal text of a natural number, without leading zeros. */
  function FormatNat(n: nat): (s: string)
    ensures |s| > 0 && All(s, IsDigit)
    decreases n
  {
    if n < 10 then [DigitChar(n)] else FormatNat(n / 10) + [DigitChar(n % 10)]
  }

  /** Decimal text of an integer, with a leading `-` when negative (Python's `str(v)`). */
  function FormatInt(v: int): (s: string)
    ensures |s| > 0 && !IsSpace(s[0]) && !IsSpace(s[|s| - 1])
    ensures !IsIntSpace(s[0]) && !IsIntSpace(s[|s| - 1])
  {
    if v < 0 then "-" + FormatNat(-v) else FormatNat(v)
  }

  /** The number of decimal digits of `v`, its sign not counted. */
  function DigitCount(v: int): nat {
    |FormatNat(if v < 0 then -v else v)|
  }

  function Pow10(k: nat): nat {
    if k == 0 then 1 else 10 * Pow10(k - 1)
  }

  /** A natural number has at most `k` digits exactly when it is below `10^k`; so
      `DigitCount(v) <= MaxIntDigits` means `|v| < 10^4300`. */
  lemma {:induction false} DigitCountBound(n: nat, k: nat)
    requires k > 0
    ensures |FormatNat(n)| <= k <==> n < Pow10(k)
    decreases n
  {
    assert Pow10(k) == 10 * Pow10(k - 1);
    if n >= 10 {
      assert |FormatNat(n)| == |FormatNat(n / 10)| + 1;
      assert n < Pow10(k) <==> n / 10 < Pow10(k - 1) by {
        DivTen(n, Pow10(k - 1));
      }
      if k == 1 {
        assert Pow10(0) == 1;
      } else {
        DigitCountBound(n / 10, k - 1);
      }
    } else {
      assert Pow10(k - 1) >= 1 by { Pow10Positive(k - 1); }
    }
  }

  lemma DivTen(n: nat, p: nat)
    ensures n < 10 * p <==> n / 10 < p
  {
  }

  lemma {:induction false} Pow10Positive(k: nat)
    ensures Pow10(k) >= 1
    decreases k
  {
    if k > 0 {
      Pow10Positive(k - 1);
    }
  }

  lemma {:induction false} DigitsOfFormat(n: nat)
    ensures DigitsValue(FormatNat(n)) == n
    decreases n
  {
    if n >= 10 {
      var s := FormatNat(n);
      assert s[..|s| - 1] == FormatNat(n / 10);
      DigitsOfFormat(n / 10);
    }
  }

  /** `int()` on a bare run of digits. */
  lemma ParseDigits(ds: string)
    requires |ds| > 0 && All(ds, IsDigit)
    ensures ParseLiteral(ds) == if |ds| <= MaxIntDigits then Some(DigitsValue(ds)) else None
  {
    assert ds[0] != '+' && ds[0] != '-' by { assert IsDigit(ds[0]); }
  }

  /** `int()` on a minus sign followed by a run of digits. */
  lemma ParseNegativeDigits(ds: string)
    requires |ds| > 0 && All(ds, IsDigit)
    ensures ParseLiteral("-" + ds) == if |ds| <= MaxIntDigits then Some(0 - DigitsValue(ds) as int) else None
  {
    assert ("-" + ds)[1..] == ds;
  }

  /** `str(v)` has no padding for `int()` to skip. */
  lemma StripFormatted(v: int)
    ensures IntStrip(FormatInt(v)) == FormatInt(v)
  {
    var s := FormatInt(v);
    IntStripPadded([], s, []);
    assert [] + s + [] == s;
  }

  /** `int(str(v)) == v` while `v` has at most 4300 digits; beyond that `int()` (and
      `str()` before it) raises. */
  lemma ParseFormatRoundTrip(v: int)
    ensures DigitCount(v) <= MaxIntDigits ==> ParseInt(FormatInt(v)) == Some(v)
    ensures DigitCount(v) > MaxIntDigits ==> ParseInt(FormatInt(v)) == None
  {
    StripFormatted(v);
    if v < 0 {
      ParseNegativeDigits(FormatNat(-v));
      DigitsOfFormat(-v);
    } else {
      ParseDigits(FormatNat(v));
      DigitsOfFormat(v);
    }
  }

  /** `int()` ignores the whitespace it skips around the literal. */
  lemma ParseIgnoresPadding(a: string, v: int, b: string)
    requires All(a, IsIntSpace) && All(b, IsIntSpace)
    ensures ParseInt(a + FormatInt(v) + b) == ParseInt(FormatInt(v))
    ensures DigitCount(v) <= MaxIntDigits ==> ParseInt(a + FormatInt(v) + b) == Some(v)
  {
    var s := FormatInt(v);
    IntStripPadded(a, s, b);
    StripFormatted(v);
    ParseSeesStripped(a + s + b, s);
    ParseFormatRoundTrip(v);
  }

  /** `int()` does not skip the file separator 0x1C, although `str.strip()` would:
      `"\x1c60"` is no integer. */
  lemma SeparatorIsNotPadding(s: string)
    requires s == [28 as char, '6', '0']
    ensures ParseInt(s) == None
    ensures Trim(s) == "60"
  {
    assert LeadingRun(s, IsIntSpace) == 0;
    assert s[0..] == s;
    assert TrailingRun(s, IsIntSpace) == 0;
    assert IntStrip(s) == s;
    assert !All(s, IsDigit) by { assert !IsDigit(s[0]); }
    assert Trim(s) == "60" by {
      assert s == [28 as char] + "60" + [];
      TrimPadded([28 as char], "60", []);
    }
  }

  lemma ParseSeesStripped(s1: string, s2: string)
    ensures IntStrip(s1) == IntStrip(s2) ==> ParseInt(s1) == ParseInt(s2)
  {
  }

  /** `int(os.getenv('FETCH_INTERVAL', '3600'))`. */
  function FetchInterval(env: Env): (r: Result<int, ConfigError>)
    ensures var text := if FetchIntervalVar in env then env[FetchIntervalVar] else DefaultFetchIntervalText;
            (r.Success? <==> ParseInt(text).Some?)
            && (r.Success? ==> r.value == ParseInt(text).value)
            && (r.Failure? ==> r.error == InvalidInteger(text))
  {
    var text := if FetchIntervalVar in env then env[FetchIntervalVar] else DefaultFetchIntervalText;
    match ParseInt(text)
    case Some(v) => Success(v)
    case None => Failure(InvalidInteger(text))
  }

  /** When `FETCH_INTERVAL` is unset, the interval is 3600 seconds. */
  lemma FetchIntervalDefault(env: Env)
    requires FetchIntervalVar !in env
    ensures FetchInterval(env) == Success(3600)
  {
    ParseFormatRoundTrip(3600);
    assert FormatInt(3600) == DefaultFetchIntervalText;
  }

  /** `yaml.safe_load(f) or {}`: a null (empty) document becomes `{}`. */
  function NormalizeDocument(loaded: Option<CourseDocument>): (r: CourseDocument)
    ensures loaded.Some? ==> r == loaded.value
    ensures loaded.None? ==> r.courses.None? && r.defaultProject.None? && r.coursePatterns.None?
  {
    loaded.GetOr(EmptyDocument)
  }

  /** `_load_configuration`: the two required variables in order, then the fetch
      interval, then the course mappings with their defaults. */
  function LoadConfiguration(env: Env, loaded: Option<CourseDocument>): (r: Result<Configuration, ConfigError>)
    ensures r.Success? <==> GetRequiredEnv(env, CanvasUrlVar).Success?
                            && GetRequiredEnv(env, TokenVar).Success?
                            && FetchInterval(env).Success?
    ensures GetRequiredEnv(env, CanvasUrlVar).Failure? ==> r == Failure(MissingEnv(CanvasUrlVar))
    ensures GetRequiredEnv(env, CanvasUrlVar).Success? && GetRequiredEnv(env, TokenVar).Failure?
            ==> r == Failure(MissingEnv(TokenVar))
    ensures r.Success? ==> r.value.canvasIcsUrl == env[CanvasUrlVar]
                           && r.value.todoistApiToken == env[TokenVar]
                           && r.value.fetchInterval == FetchInterval(env).value
    ensures r.Success? && loaded.Some? ==> r.value.courseConfig == loaded.value
    ensures r.Success? && loaded.None? ==> r.value.courseConfig == EmptyDocument
    ensures r.Success? ==> r.value.courseProjectMapping == r.value.courseConfig.courses.GetOr(map[])
                           && r.value.defaultProject == r.value.courseConfig.defaultProject.GetOr(DefaultProjectName)
  {
    match GetRequiredEnv(env, CanvasUrlVar)
    case Failure(e) => Failure(e)
    case Success(url) =>
      match GetRequiredEnv(env, TokenVar)
      case Failure(e) => Failure(e)
      case Success(token) =>
        match FetchInterval(env)
        case Failure(e) => Failure(e)
        case Success(interval) =>
          var doc := NormalizeDocument(loaded);
          Success(Configuration(url, token, interval, doc.courses.GetOr(map[]),
                                doc.defaultProject.GetOr(DefaultProjectName), doc))
  }

  /** `get_project_name`: the mapped project name, or the default project. */
  function GetProjectName(cfg: Configuration, courseNumber: string): (name: string)
    ensures courseNumber in cfg.courseProjectMapping ==> name == cfg.courseProjectMapping[courseNumber]
    ensures courseNumber !in cfg.courseProjectMapping ==> name == cfg.defaultProject
  {
    if courseNumber in cfg.courseProjectMapping then cfg.courseProjectMapping[courseNumber]
    else cfg.defaultProject
  }

  /** The `course_patterns` property. */
  function CoursePatterns(cfg: Configuration): (r: seq<CoursePattern>)
    ensures cfg.courseConfig.coursePatterns.Some? ==> r == cfg.courseConfig.coursePatterns.value
    ensures cfg.courseConfig.coursePatterns.None? ==> r == []
  {
    cfg.courseConfig.coursePatterns.GetOr([])
  }

  /** A project name always comes from the mapping's values or is the default. */
  lemma ProjectNameRange(cfg: Configuration, courseNumber: string)
    ensures GetProjectName(cfg, courseNumber) in cfg.courseProjectMapping.Values
            || GetProjectName(cfg, courseNumber) == cfg.defaultProject
  {
  }

  /** A null document and an empty one load identically. */
  lemma NullDocumentIsEmpty(env: Env)
    ensures LoadConfiguration(env, None) == LoadConfiguration(env, Some(EmptyDocument))
  {
  }

  /** With no keys in `courses.yml`, every default applies: no mappings, the project
      "Uncategorized" for every course, and no course patterns. */
  lemma EmptyDocumentDefaults(env: Env, loaded: Option<CourseDocument>, courseNumber: string)
    requires loaded == None || loaded == Some(EmptyDocument)
    requires LoadConfiguration(env, loaded).Success?
    ensures var cfg := LoadConfiguration(env, loaded).value;
            cfg.courseProjectMapping == map[]
            && cfg.defaultProject == DefaultProjectName
            && GetProjectName(cfg, courseNumber) == "Uncategorized"
            && CoursePatterns(cfg) == []
  {
  }

  /** Keys missing from a loaded document take their defaults, independently of the
      keys that are present. */
  lemma MissingKeysDefault(env: Env, doc: CourseDocument)
    requires LoadConfiguration(env, Some(doc)).Success?
    ensures var cfg := LoadConfiguration(env, Some(doc)).value;
            (doc.courses.None? ==> cfg.courseProjectMapping == map[])
            && (doc.defaultProject.None? ==> cfg.defaultProject == DefaultProjectName)
            && (doc.coursePatterns.None? ==> CoursePatterns(cfg) == [])
            && (doc.courses.Some? ==> cfg.courseProjectMapping == doc.courses.value)
            && (doc.defaultProject.Some? ==> cfg.defaultProject == doc.defaultProject.value)
  {
  }

  /** Example: a course number missing from the mapping resolves to the default project. */
  lemma UnknownCourseUsesDefault(cfg: Configuration, courseNumber: string)
    requires courseNumber == "UNKNOWN_COURSE"
    requires cfg.courseProjectMapping == map["2024FA_ENGLISH_105-0_SEC20" := "English"]
    requires cfg.defaultProject == DefaultProjectName
    ensures GetProjectName(cfg, courseNumber) == "Uncategorized"
  {
  }
}
