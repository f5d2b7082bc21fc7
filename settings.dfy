/**
 * Configuration values of the alerter (src/alertbot/config.py): the parsing
 * rules for booleans, integers, the keyword list and optional selectors, the
 * fields of the configuration that the change-detection pipeline reads, and
 * the proxy map.
 */
module Settings {
  import opened Options
  import opened Strings

  /** The configuration fields that the pipeline reads (frozen dataclass). */
  datatype Config = Config(
    targetUrl: string,
    keywords: seq<string>,
    useKeywords: bool,
    pollIntervalSeconds: int,
    seedExisting: bool,
    itemSelector: Option<string>,
    titleSelector: Option<string>,
    linkSelector: Option<string>,
    contentSelector: Option<string>,
    httpProxy: Option<string>,
    httpsProxy: Option<string>,
    maxItems: int)

  // ---------------------------------------------------------------- booleans

  /** The spellings `_parse_bool` reads as true, after strip and lower. */
  const TruthyWords: set<string> := {"1", "true", "yes", "y", "on"}

  /** `_parse_bool`: an unset variable keeps the default; any set value decides by itself. */
  function ParseBool(value: Option<string>, default: bool): (r: bool)
    ensures value.None? ==> r == default
    ensures value.Some? && Blank(value.value) ==> !r
  {
    if value.None? then default else Lower(Strip(value.value)) in TruthyWords
  }

  /** A set value never falls back to the default, not even the empty string. */
  lemma ParseBoolIgnoresDefault(value: string)
    ensures ParseBool(Some(value), true) == ParseBool(Some(value), false)
    ensures ParseBool(Some(""), true) == false
    ensures ParseBool(None, true) && !ParseBool(None, false)
  {
    assert Strip("") == "";
  }

  /**
   * Any capitalisation of a truthy word, padded with any whitespace, reads as
   * true; any other trimmed word reads as false.
   */
  lemma {:induction false} ParseBoolPadded(pre: string, w: string, post: string, default: bool)
    requires Blank(pre) && Blank(post) && w != [] && Trimmed(w)
    ensures ParseBool(Some(pre + w + post), default) <==> Lower(w) in TruthyWords
  {
    StripPadded(pre, w, post);
  }

  // ---------------------------------------------------------------- integers

  predicate IsDigit(c: char)
  {
    '0' <= c <= '9'
  }

  function DigitValue(c: char): nat
  {
    if IsDigit(c) then c as int - '0' as int else 0
  }

  /** Decimal digits with single underscores between them: the body of a Python `int` literal. */
  predicate DigitRun(d: string)
  {
    && |d| > 0
    && IsDigit(d[0]) && IsDigit(d[|d| - 1])
    && (forall i :: 0 <= i < |d| ==> IsDigit(d[i]) || d[i] == '_')
    && (forall i :: 0 <= i < |d| - 1 ==> d[i] == '_' ==> d[i + 1] != '_')
  }

  /** The value of a digit run, underscores ignored. */
  function DigitsValue(d: string): nat
  {
    if d == [] then 0
    else if d[|d| - 1] == '_' then DigitsValue(d[..|d| - 1])
    else DigitsValue(d[..|d| - 1]) * 10 + DigitValue(d[|d| - 1])
  }

  /** How many digits `int` reads from a digit run: underscores are not counted. */
  function DigitCount(d: string): (k: nat)
    ensures k <= |d|
  {
    if d == [] then 0
    else DigitCount(d[..|d| - 1]) + (if d[|d| - 1] == '_' then 0 else 1)
  }

  /** `sys.int_info.default_max_str_digits`: `int` and `str` refuse decimal numbers with more digits. */
  const MaxStrDigits: nat := 4300

  /** A digit run `int` accepts: well formed and within the digit limit. */
  predicate IntDigits(d: string)
  {
    DigitRun(d) && DigitCount(d) <= MaxStrDigits
  }

  /** `int` applied to already stripped text: an optional sign, then a digit run within the limit. */
  function IntLiteral(t: string): (r: Option<int>)
    ensures r.Some? ==> t != [] && IsDigit(t[|t| - 1])
    ensures r.Some? && r.value < 0 ==> t[0] == '-'
  {
    if |t| > 0 && (t[0] == '-' || t[0] == '+') then
      if IntDigits(t[1..]) then
        Some(if t[0] == '-' then 0 - DigitsValue(t[1..]) as int else DigitsValue(t[1..]) as int)
      else None
    else if IntDigits(t) then Some(DigitsValue(t))
    else None
  }

  /**
   * `int(s)` for ASCII decimal text; `None` where Python raises `ValueError`.
   * `int` skips only its own whitespace around the literal, which excludes
   * the separators U+001C..U+001F that `strip()` would remove.
   */
  function PyInt(s: string): (r: Option<int>)
    ensures r.Some? ==> !BlankIn(IntWhitespace, s) && !Blank(s)
    ensures r.Some? ==> var t := StripIn(IntWhitespace, s); IsDigit(t[|t| - 1])
  {
    IntLiteral(StripIn(IntWhitespace, s))
  }

  /** `_parse_int`: unset or blank keeps the default, so does text `int` rejects. */
  function ParseInt(value: Option<string>, default: int): (r: int)
    ensures value.None? || Blank(value.value) ==> r == default
    ensures r != default ==> value.Some? && PyInt(value.value) == Some(r)
  {
    if value.None? || Strip(value.value) == [] then default
    else match PyInt(value.value)
      case Some(n) => n
      case None => default
  }

  function DigitChar(d: nat): char
    requires d < 10
  {
    ('0' as int + d) as char
  }

  /** `str(n)` for a natural number. */
  function NatDigits(n: nat): (s: string)
    ensures |s| > 0
  {
    if n < 10 then [DigitChar(n)] else NatDigits(n / 10) + [DigitChar(n % 10)]
  }

  /** `str(n)` for any integer. */
  function Decimal(n: int): string
  {
    if n < 0 then "-" + NatDigits(-n) else NatDigits(n)
  }

  /** `str(n)` succeeds: the magnitude of `n` has at most `MaxStrDigits` digits. */
  predicate WithinDigitLimit(n: int)
  {
    |NatDigits(if n < 0 then -n else n)| <= MaxStrDigits
  }

  lemma {:induction false} NatDigitsRoundTrip(n: nat)
    ensures forall i :: 0 <= i < |NatDigits(n)| ==> IsDigit(NatDigits(n)[i])
    ensures DigitsValue(NatDigits(n)) == n
    ensures DigitCount(NatDigits(n)) == |NatDigits(n)|
  {
    var s := NatDigits(n);
    if n < 10 {
      assert s[..0] == [];
    } else {
      NatDigitsRoundTrip(n / 10);
      var p := NatDigits(n / 10);
      assert s == p + [DigitChar(n % 10)];
      assert s[..|s| - 1] == p;
      assert forall i :: 0 <= i < |s| ==> IsDigit(s[i]) by {
        forall i | 0 <= i < |s| ensures IsDigit(s[i]) {
          if i < |p| { assert s[i] == p[i]; }
        }
      }
    }
  }

  /** The digits of `str(n)` form a valid literal for `int` whose value is `n`. */
  lemma DecimalShape(n: int)
    ensures Decimal(n) != [] && Trimmed(Decimal(n))
    ensures n < 0 ==> Decimal(n)[0] == '-' && DigitRun(Decimal(n)[1..]) && DigitsValue(Decimal(n)[1..]) == -n
    ensures n >= 0 ==> IsDigit(Decimal(n)[0]) && DigitRun(Decimal(n)) && DigitsValue(Decimal(n)) == n
    ensures n < 0 ==> DigitCount(Decimal(n)[1..]) == |NatDigits(-n)|
    ensures n >= 0 ==> DigitCount(Decimal(n)) == |NatDigits(n)|
  {
    var m: nat := if n < 0 then -n else n;
    NatDigitsRoundTrip(m);
    var d := NatDigits(m);
    var w := Decimal(n);
    assert w[|w| - 1] == d[|d| - 1];
    if n < 0 {
      assert w[1..] == d;
    }
  }

  /** An unset variable, or one holding only whitespace, keeps the default. */
  lemma ParseIntBlank(value: string, default: int)
    requires Blank(value)
    ensures ParseInt(Some(value), default) == default
    ensures ParseInt(None, default) == default
  {
  }

  /** `int(str(n)) == n` for every `n` that `str` can print. */
  lemma IntLiteralDecimal(n: int)
    requires WithinDigitLimit(n)
    ensures IntLiteral(Decimal(n)) == Some(n)
  {
    DecimalShape(n);
  }

  /**
   * `_parse_int` returns the written integer itself, unclamped and of either
   * sign, with any whitespace padding around it, as long as it has no more
   * digits than `int` accepts; the default plays no part.
   */
  lemma ParseIntRoundTrip(pre: string, n: int, post: string, default: int)
    requires BlankIn(IntWhitespace, pre) && BlankIn(IntWhitespace, post)
    requires WithinDigitLimit(n)
    ensures ParseInt(Some(pre + Decimal(n) + post), default) == n
  {
    var w := Decimal(n);
    var s := pre + w + post;
    assert PyInt(s) == Some(n) by {
      DecimalShape(n);
      StripInPadded(IntWhitespace, pre, w, post);
      IntLiteralDecimal(n);
    }
    assert !Blank(s) by {
      DecimalShape(n);
      assert s[|pre|] == w[0];
    }
  }

  /** A number with more digits than `int` accepts keeps the default, padded or not. */
  lemma ParseIntTooLong(pre: string, n: nat, post: string, default: int)
    requires BlankIn(IntWhitespace, pre) && BlankIn(IntWhitespace, post)
    requires |NatDigits(n)| > MaxStrDigits
    ensures ParseInt(Some(pre + NatDigits(n) + post), default) == default
  {
    var w := NatDigits(n);
    assert IntLiteral(w).None? by {
      NatDigitsRoundTrip(n);
      assert IsDigit(w[0]);
    }
    assert PyInt(pre + w + post).None? by {
      DecimalShape(n);
      StripInPadded(IntWhitespace, pre, w, post);
    }
  }

  /**
   * A number preceded by an information separator keeps the default:
   * `strip()` finds text there, but `int` refuses the separator.
   */
  lemma ParseIntSeparator(default: int)
    ensures ParseInt(Some("\U{1C}5"), default) == default
  {
    var s := "\U{1C}5";
    StripInTrimmed(IntWhitespace, s);
    assert !DigitRun(s) by { assert !IsDigit(s[0]); }
  }

  /** Text `int` does not accept leaves the default in place: a stray letter, a doubled underscore. */
  lemma ParseIntRejects(default: int)
    ensures ParseInt(Some("7a"), default) == default
    ensures ParseInt(Some("1__0"), default) == default
  {
    assert !DigitRun("7a") by { assert !IsDigit("7a"[1]) && "7a"[1] != '_'; }
    RejectedText("7a", default);
    assert !DigitRun("1__0") by { assert "1__0"[1] == '_' && "1__0"[2] == '_'; }
    RejectedText("1__0", default);
  }

  lemma RejectedText(s: string, default: int)
    requires s != [] && Trimmed(s) && IsDigit(s[0])
    requires !DigitRun(s)
    ensures ParseInt(Some(s), default) == default
  {
    StripInTrimmed(IntWhitespace, s);
    assert !Blank(s) by { assert !IsSpace(s[0]); }
  }

  /** Underscores between digits are accepted and ignored, as Python's `int` does. */
  lemma ParseIntUnderscore(default: int)
    ensures ParseInt(Some("1_5"), default) == 15
  {
    StripInTrimmed(IntWhitespace, "1_5");
    assert "1_5"[..2] == "1_" && "1_"[..1] == "1" && "1"[..0] == "";
  }

  // ---------------------------------------------------------------- keywords

  /** `[k.strip() for k in pieces if k.strip()]` */
  function StripAll(pieces: seq<string>): (kws: seq<string>)
    ensures |kws| <= |pieces|
    ensures forall i :: 0 <= i < |kws| ==> kws[i] != "" && Trimmed(kws[i])
  {
    if pieces == [] then []
    else
      var k := Strip(pieces[0]);
      (if k != "" then [k] else []) + StripAll(pieces[1..])
  }

  /** The keyword list built from the raw `KEYWORDS` value. */
  function KeywordList(raw: string): (kws: seq<string>)
    ensures forall i :: 0 <= i < |kws| ==> kws[i] != "" && Strip(kws[i]) == kws[i]
    ensures forall i :: 0 <= i < |kws| ==> ',' !in kws[i]
  {
    var kws := StripAll(Split(raw, ','));
    StripAllAvoids(Split(raw, ','), ',');
    forall i | 0 <= i < |kws| ensures Strip(kws[i]) == kws[i] {
      StripTrimmed(kws[i]);
    }
    kws
  }

  lemma {:induction false} StripAllAvoids(pieces: seq<string>, c: char)
    requires forall k :: 0 <= k < |pieces| ==> c !in pieces[k]
    ensures forall i :: 0 <= i < |StripAll(pieces)| ==> c !in StripAll(pieces)[i]
  {
    if pieces != [] {
      StripAllAvoids(pieces[1..], c);
      assert c !in pieces[0];
    }
  }

  /**
   * Keywords written with commas between them come back in their order, each
   * without its padding, and blank entries are dropped.
   */
  lemma KeywordListOfJoined(pieces: seq<string>)
    requires |pieces| >= 1
    requires forall k :: 0 <= k < |pieces| ==> ',' !in pieces[k]
    ensures KeywordList(Join(pieces, ',')) == StripAll(pieces)
  {
    SplitJoin(pieces, ',');
  }

  /** An unset or empty `KEYWORDS` gives no keywords. */
  lemma NoKeywords()
    ensures KeywordList("") == []
  {
    assert Split("", ',') == [""];
    assert Strip("") == "";
  }

  // ---------------------------------------------------------------- selectors

  /** `os.getenv(X) or None`: the empty string counts as unset. */
  function OrNone(value: Option<string>): (r: Option<string>)
    ensures r.None? <==> !Present(value)
    ensures r.Some? ==> r == value
  {
    if Present(value) then value else None
  }

  // ---------------------------------------------------------------- loading

  /**
   * What `os.getenv` returns for each variable `from_env` reads that the
   * pipeline uses, in order: TARGET_URL, KEYWORDS, USE_KEYWORDS,
   * POLL_INTERVAL_SECONDS, SEED_EXISTING, ITEM_SELECTOR, TITLE_SELECTOR,
   * LINK_SELECTOR, CONTENT_SELECTOR, HTTP_PROXY, HTTPS_PROXY, MAX_ITEMS.
   */
  datatype Environment = Environment(
    targetUrl: Option<string>,
    keywords: Option<string>,
    useKeywords: Option<string>,
    pollIntervalSeconds: Option<string>,
    seedExisting: Option<string>,
    itemSelector: Option<string>,
    titleSelector: Option<string>,
    linkSelector: Option<string>,
    contentSelector: Option<string>,
    httpProxy: Option<string>,
    httpsProxy: Option<string>,
    maxItems: Option<string>)

  /** `os.getenv(name, default)` */
  function GetOr(value: Option<string>, default: string): string
  {
    if value.Some? then value.value else default
  }

  /** `Config.from_env`, restricted to the pipeline's fields. */
  function FromEnv(env: Environment): (c: Config)
    ensures c.itemSelector.None? || c.itemSelector.value != ""
    ensures c.titleSelector.None? || c.titleSelector.value != ""
    ensures c.linkSelector.None? || c.linkSelector.value != ""
    ensures c.contentSelector.None? || c.contentSelector.value != ""
    ensures Trimmed(c.targetUrl)
    ensures forall i :: 0 <= i < |c.keywords| ==> c.keywords[i] != "" && Strip(c.keywords[i]) == c.keywords[i]
  {
    Config(
      targetUrl := Strip(GetOr(env.targetUrl, "")),
      keywords := KeywordList(GetOr(env.keywords, "")),
      useKeywords := ParseBool(env.useKeywords, false),
      pollIntervalSeconds := ParseInt(env.pollIntervalSeconds, 60),
      seedExisting := ParseBool(env.seedExisting, true),
      itemSelector := OrNone(env.itemSelector),
      titleSelector := OrNone(env.titleSelector),
      linkSelector := OrNone(env.linkSelector),
      contentSelector := OrNone(env.contentSelector),
      httpProxy := OrNone(env.httpProxy),
      httpsProxy := OrNone(env.httpsProxy),
      maxItems := ParseInt(env.maxItems, 30))
  }

  /** The defaults `from_env` applies to each variable the environment does not set. */
  lemma FromEnvDefaults(env: Environment)
    ensures env.pollIntervalSeconds.None? ==> FromEnv(env).pollIntervalSeconds == 60
    ensures env.maxItems.None? ==> FromEnv(env).maxItems == 30
    ensures env.seedExisting.None? ==> FromEnv(env).seedExisting
    ensures env.useKeywords.None? ==> !FromEnv(env).useKeywords
    ensures env.keywords.None? ==> FromEnv(env).keywords == []
    ensures env.targetUrl.None? ==> FromEnv(env).targetUrl == ""
  {
    NoKeywords();
    assert Strip("") == "";
  }

  // ---------------------------------------------------------------- proxies

  /** `Config.proxies()`: one entry per configured, non-empty proxy and nothing else. */
  method Proxies(config: Config) returns (proxies: map<string, string>)
    ensures "http" in proxies <==> Present(config.httpProxy)
    ensures "https" in proxies <==> Present(config.httpsProxy)
    ensures "http" in proxies ==> proxies["http"] == config.httpProxy.value
    ensures "https" in proxies ==> proxies["https"] == config.httpsProxy.value
    ensures proxies.Keys <= {"http", "https"}
  {
    proxies := map[];
    if Present(config.httpProxy) {
      proxies := proxies["http" := config.httpProxy.value];
    }
    if Present(config.httpsProxy) {
      proxies := proxies["https" := config.httpsProxy.value];
    }
  }
}
