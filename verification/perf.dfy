/**
 * The performance middleware.
 *
 * Two interceptors run in production mode only:
 *  - the path interceptor walks the configured path rules and, for every rule
 *    whose regular expression matches the request path, sets Cache-Control,
 *    Pragma and Expires from the rule's `seconds` (-1 is rewritten in the
 *    configuration to one year, 0 means no caching, a positive value means
 *    public caching for that long);
 *  - the mimetype interceptor picks a Cache-Control value for the requested
 *    file (thirty days for a fingerprinted name, one year for css, images and
 *    javascript, one hour for html, no-cache otherwise) and rewrites the
 *    request url so that a fingerprinted name `<name>-<key>.<ext>` resolves to
 *    `<name>.<ext>`.
 *
 * The regular-expression test of a rule, the clock (through the formatted
 * expiry date) and the mimetype table are parameters.
 */
module Perf {
  import opened Js

  const MAXAGE_ONE_YEAR_SECONDS: nat := 31536000
  const MAXAGE_ONE_HOUR_SECONDS: nat := 3600

  /** Cache-Control of a fingerprinted file: thirty days. */
  const FINGERPRINT_CACHE_CONTROL := "public, max-age=2592000"
  /** The fixed date in the past sent as Expires when caching is switched off. */
  const PAST_EXPIRES := "Mon, 7 Apr 2012, 16:00:00 GMT"

  /** The outgoing response; only its headers are modelled. */
  class Response {
    var headers: map<string, string>

    constructor (headers: map<string, string>)
      ensures this.headers == headers
    {
      this.headers := headers;
    }

    method SetHeader(name: string, value: string)
      modifies this
      ensures headers == old(headers)[name := value]
    {
      headers := headers[name := value];
    }
  }

  // ---------------------------------------------------------------------------
  // Path rules
  // ---------------------------------------------------------------------------

  /**
   * A rule's `cache` object. `seconds` is None when it is absent or holds a value that
   * compares neither `=== 0` nor `> 0`, such as false, null, an object or a non-numeric string.
   */
  datatype CacheSettings = CacheSettings(seconds: Option<int>)

  /** One entry of `configuration.paths`; `cache` is None when absent. */
  datatype PathRule = PathRule(regex: string, cache: Option<CacheSettings>)

  /** The interceptor's configuration, whose rules it rewrites in place. */
  class PerfConfiguration {
    var paths: seq<PathRule>

    constructor (paths: seq<PathRule>)
      ensures this.paths == paths
    {
      this.paths := paths;
    }
  }

  /** The three header values a rule produces; None leaves a header alone. */
  datatype CacheHeaders = CacheHeaders(cacheControl: Option<string>, pragma: Option<string>, expires: Option<string>)

  /** The rule takes part: a regex and a cache object are present and the regex matches the request path. */
  predicate Applies(rule: PathRule, matches: string -> bool)
  {
    rule.regex != "" && rule.cache.Some? && matches(rule.regex)
  }

  /** `seconds` after the rewrite of -1 to one year. */
  function Normalize(seconds: Option<int>): Option<int>
  {
    if seconds == Some(-1) then Some(MAXAGE_ONE_YEAR_SECONDS) else seconds
  }

  /**
   * The headers for a (rewritten) `seconds`; `utcAfter(ms)` is the UTC date
   * string of the current time plus `ms` milliseconds.
   */
  function HeadersFor(seconds: Option<int>, utcAfter: int -> string): CacheHeaders
  {
    if seconds == Some(0) then
      CacheHeaders(Some("max-age=0, no-cache, no-store"), Some("no-cache"), Some(PAST_EXPIRES))
    else if seconds.Some? && seconds.value > 0 then
      CacheHeaders(Some("public, max-age=" + NatToString(seconds.value)), Some("public"), Some(utcAfter(seconds.value * 1000)))
    else
      CacheHeaders(None, None, None)
  }

  /** A header is set only when its value is a non-empty string. */
  function WithHeader(h: map<string, string>, name: string, value: Option<string>): map<string, string>
  {
    if value.Some? && value.value != "" then h[name := value.value] else h
  }

  function ApplyHeaders(h: map<string, string>, c: CacheHeaders): map<string, string>
  {
    WithHeader(WithHeader(WithHeader(h, "Cache-Control", c.cacheControl), "Pragma", c.pragma), "Expires", c.expires)
  }

  /** The rule as the interceptor leaves it in the configuration. */
  function NormalizeRule(rule: PathRule, matches: string -> bool): PathRule
  {
    if Applies(rule, matches) then rule.(cache := Some(CacheSettings(Normalize(rule.cache.value.seconds))))
    else rule
  }

  /**
   * The configuration after the interceptor's loop. The same rules take part; none of them
   * holds -1 any more (a -1 becomes one year), and each keeps what its `seconds` means.
   * Every rule that does not take part, or does not hold -1, is left as it was.
   */
  function NormalizedRules(rules: seq<PathRule>, matches: string -> bool): (r: seq<PathRule>)
    ensures |r| == |rules|
    ensures forall i :: 0 <= i < |rules| ==> r[i].regex == rules[i].regex && r[i].cache.Some? == rules[i].cache.Some?
    ensures forall i :: 0 <= i < |rules| ==> (Applies(r[i], matches) <==> Applies(rules[i], matches))
    ensures forall i :: 0 <= i < |rules| && Applies(rules[i], matches) ==>
      && r[i].cache.Some?
      && r[i].cache.value.seconds != Some(-1)
      && Normalize(r[i].cache.value.seconds) == Normalize(rules[i].cache.value.seconds)
    ensures forall i :: 0 <= i < |rules| && Applies(rules[i], matches) && rules[i].cache.value.seconds == Some(-1) ==>
      r[i].cache == Some(CacheSettings(Some(MAXAGE_ONE_YEAR_SECONDS)))
    ensures forall i :: 0 <= i < |rules| && !(Applies(rules[i], matches) && rules[i].cache.value.seconds == Some(-1)) ==>
      r[i] == rules[i]
  {
    seq(|rules|, i requires 0 <= i < |rules| => NormalizeRule(rules[i], matches))
  }

  /** The headers after one rule has been considered. */
  function RuleHeaders(h: map<string, string>, rule: PathRule, matches: string -> bool, utcAfter: int -> string): map<string, string>
  {
    if Applies(rule, matches) then ApplyHeaders(h, HeadersFor(Normalize(rule.cache.value.seconds), utcAfter))
    else h
  }

  /** The headers after the rules have been considered in order. */
  function HeadersAfter(h: map<string, string>, rules: seq<PathRule>, matches: string -> bool, utcAfter: int -> string): map<string, string>
  {
    if rules == [] then h
    else RuleHeaders(HeadersAfter(h, rules[..|rules| - 1], matches, utcAfter), rules[|rules| - 1], matches, utcAfter)
  }

  /**
   * pathPerformanceInterceptor. `matches(regex)` is the test of `regex`
   * against the request path; the call to `next` that always follows is not
   * modelled.
   */
  method PathPerformanceInterceptor(production: bool, configuration: PerfConfiguration, matches: string -> bool,
                                    utcAfter: int -> string, res: Response)
    modifies configuration, res
    ensures !production ==> configuration.paths == old(configuration.paths) && res.headers == old(res.headers)
    ensures production ==> configuration.paths == NormalizedRules(old(configuration.paths), matches)
    ensures production ==> res.headers == HeadersAfter(old(res.headers), old(configuration.paths), matches, utcAfter)
  {
    if production {
      ghost var rules := configuration.paths;
      var i := 0;
      while i < |configuration.paths|
        invariant 0 <= i <= |configuration.paths| == |rules|
        invariant forall j :: 0 <= j < i ==> configuration.paths[j] == NormalizeRule(rules[j], matches)
        invariant forall j :: i <= j < |rules| ==> configuration.paths[j] == rules[j]
        invariant res.headers == HeadersAfter(old(res.headers), rules[..i], matches, utcAfter)
      {
        assert rules[..i + 1][..i] == rules[..i];
        ApplyRule(configuration, i, matches, utcAfter, res);
        i := i + 1;
      }
      assert rules[..i] == rules;
    }
  }

  /** One iteration of the interceptor's loop: rule `i` is considered. */
  method ApplyRule(configuration: PerfConfiguration, i: nat, matches: string -> bool, utcAfter: int -> string, res: Response)
    requires i < |configuration.paths|
    modifies configuration, res
    ensures configuration.paths == old(configuration.paths)[i := NormalizeRule(old(configuration.paths)[i], matches)]
    ensures res.headers == RuleHeaders(old(res.headers), old(configuration.paths)[i], matches, utcAfter)
  {
    var rule := configuration.paths[i];
    if rule.regex != "" && rule.cache.Some? {
      if matches(rule.regex) {
        var cacheSettings := rule.cache.value;
        if cacheSettings.seconds == Some(-1) {
          cacheSettings := CacheSettings(Some(MAXAGE_ONE_YEAR_SECONDS));
          configuration.paths := configuration.paths[i := PathRule(rule.regex, Some(cacheSettings))];
        }
        var cacheControl: Option<string> := None;
        var pragma: Option<string> := None;
        var expires: Option<string> := None;
        if cacheSettings.seconds == Some(0) {
          cacheControl := Some("max-age=0, no-cache, no-store");
          pragma := Some("no-cache");
          expires := Some(PAST_EXPIRES);
        } else if cacheSettings.seconds.Some? && cacheSettings.seconds.value > 0 {
          cacheControl := Some("public, max-age=" + NatToString(cacheSettings.seconds.value));
          pragma := Some("public");
          expires := Some(utcAfter(cacheSettings.seconds.value * 1000));
        }
        assert CacheHeaders(cacheControl, pragma, expires) == HeadersFor(cacheSettings.seconds, utcAfter);
        if cacheControl.Some? && cacheControl.value != "" {
          res.SetHeader("Cache-Control", cacheControl.value);
        }
        if pragma.Some? && pragma.value != "" {
          res.SetHeader("Pragma", pragma.value);
        }
        if expires.Some? && expires.value != "" {
          res.SetHeader("Expires", expires.value);
        }
      }
    }
  }

  lemma MaxAgeLiterals()
    ensures NatToString(MAXAGE_ONE_HOUR_SECONDS) == "3600"
    ensures NatToString(MAXAGE_ONE_YEAR_SECONDS) == "31536000"
  {
    NatToStringStep(36, "3", "36");
    NatToStringStep(360, "36", "360");
    NatToStringStep(3600, "360", "3600");
    NatToStringStep(31, "3", "31");
    NatToStringStep(315, "31", "315");
    NatToStringStep(3153, "315", "3153");
    NatToStringStep(31536, "3153", "31536");
    NatToStringStep(315360, "31536", "315360");
    NatToStringStep(3153600, "315360", "3153600");
    NatToStringStep(31536000, "3153600", "31536000");
  }

  /**
   * The documented meaning of a rule's `seconds`: -1 caches publicly for a
   * year, 0 switches caching off with an Expires date in the past, a positive
   * number caches publicly for that many seconds, and an absent value or one
   * below -1 sets no header.
   */
  lemma SecondsTable(seconds: Option<int>, utcAfter: int -> string)
    ensures seconds == Some(-1) ==>
      HeadersFor(Normalize(seconds), utcAfter)
        == CacheHeaders(Some("public, max-age=31536000"), Some("public"), Some(utcAfter(31536000000)))
    ensures seconds == Some(0) ==>
      HeadersFor(Normalize(seconds), utcAfter)
        == CacheHeaders(Some("max-age=0, no-cache, no-store"), Some("no-cache"), Some("Mon, 7 Apr 2012, 16:00:00 GMT"))
    ensures seconds.Some? && seconds.value > 0 ==>
      HeadersFor(Normalize(seconds), utcAfter)
        == CacheHeaders(Some("public, max-age=" + NatToString(seconds.value)), Some("public"), Some(utcAfter(seconds.value * 1000)))
    ensures (seconds.None? || seconds.value < -1) ==> HeadersFor(Normalize(seconds), utcAfter) == CacheHeaders(None, None, None)
  {
    MaxAgeLiterals();
    assert "public, max-age=" + "31536000" == "public, max-age=31536000";
  }

  /**
   * Rewriting the configuration does not change what the interceptor does:
   * whichever path the rewrite was made for, the rewritten rules give any later
   * request the same headers, and a second rewrite for the same path changes nothing.
   */
  lemma {:induction false} RewriteKeepsHeaders(h: map<string, string>, rules: seq<PathRule>, matches: string -> bool, later: string -> bool, utcAfter: int -> string)
    ensures HeadersAfter(h, NormalizedRules(rules, matches), later, utcAfter) == HeadersAfter(h, rules, later, utcAfter)
    ensures NormalizedRules(NormalizedRules(rules, matches), matches) == NormalizedRules(rules, matches)
    decreases |rules|
  {
    var n := NormalizedRules(rules, matches);
    if rules != [] {
      var k := |rules| - 1;
      assert n[..k] == NormalizedRules(rules[..k], matches);
      RewriteKeepsHeaders(h, rules[..k], matches, later, utcAfter);
      assert Applies(n[k], later) == Applies(rules[k], later);
    }
  }

  /** The value of one of the three headers, None for any other name. */
  function HeaderValue(c: CacheHeaders, name: string): Option<string>
  {
    if name == "Cache-Control" then c.cacheControl
    else if name == "Pragma" then c.pragma
    else if name == "Expires" then c.expires
    else None
  }

  /** The value a rule sets for a header: it takes part and has a non-empty value for it. */
  function RuleSets(rule: PathRule, matches: string -> bool, utcAfter: int -> string, name: string): Option<string>
  {
    if !Applies(rule, matches) then None
    else
      var v := HeaderValue(HeadersFor(Normalize(rule.cache.value.seconds), utcAfter), name);
      if v.Some? && v.value != "" then v else None
  }

  /** One rule sets a header to its value, or leaves the header as it was. */
  lemma RuleHeadersAt(h: map<string, string>, rule: PathRule, matches: string -> bool,
                      utcAfter: int -> string, name: string)
    ensures var r := RuleHeaders(h, rule, matches, utcAfter);
      var v := RuleSets(rule, matches, utcAfter, name);
      && (v.Some? ==> name in r && r[name] == v.value)
      && (v.None? ==> (name in r <==> name in h) && (name in h ==> r[name] == h[name]))
  {
    if Applies(rule, matches) {
      var c := HeadersFor(Normalize(rule.cache.value.seconds), utcAfter);
      WithHeadersAt(h, c, name);
    }
  }

  /** The three headers set one after another: each name gets its own value, if it has one. */
  lemma WithHeadersAt(h: map<string, string>, c: CacheHeaders, name: string)
    ensures var r := ApplyHeaders(h, c);
      var v := HeaderValue(c, name);
      && (v.Some? && v.value != "" ==> name in r && r[name] == v.value)
      && (!(v.Some? && v.value != "") ==> (name in r <==> name in h) && (name in h ==> r[name] == h[name]))
  {
  }

  /**
   * The last rule that sets a header decides it: the rules after it, none of which sets
   * that header, leave it alone.
   */
  lemma {:induction false} LastRuleWins(h: map<string, string>, rules: seq<PathRule>, matches: string -> bool,
                                        utcAfter: int -> string, name: string, j: nat)
    requires j < |rules| && RuleSets(rules[j], matches, utcAfter, name).Some?
    requires forall k :: j < k < |rules| ==> RuleSets(rules[k], matches, utcAfter, name).None?
    ensures var r := HeadersAfter(h, rules, matches, utcAfter);
      name in r && r[name] == RuleSets(rules[j], matches, utcAfter, name).value
    decreases |rules|
  {
    var init := rules[..|rules| - 1];
    var last := rules[|rules| - 1];
    if j < |rules| - 1 {
      assert init[j] == rules[j];
      forall k | j < k < |init| ensures RuleSets(init[k], matches, utcAfter, name).None? {
        assert init[k] == rules[k];
      }
      LastRuleWins(h, init, matches, utcAfter, name, j);
    }
    RuleHeadersAt(HeadersAfter(h, init, matches, utcAfter), last, matches, utcAfter, name);
  }

  /** A header no rule sets keeps the value it had, or stays absent. */
  lemma {:induction false} NoRuleSets(h: map<string, string>, rules: seq<PathRule>, matches: string -> bool,
                                      utcAfter: int -> string, name: string)
    requires forall k :: 0 <= k < |rules| ==> RuleSets(rules[k], matches, utcAfter, name).None?
    ensures var r := HeadersAfter(h, rules, matches, utcAfter);
      (name in r <==> name in h) && (name in h ==> r[name] == h[name])
    decreases |rules|
  {
    if rules != [] {
      var init := rules[..|rules| - 1];
      forall k | 0 <= k < |init| ensures RuleSets(init[k], matches, utcAfter, name).None? {
        assert init[k] == rules[k];
      }
      NoRuleSets(h, init, matches, utcAfter, name);
      RuleHeadersAt(HeadersAfter(h, init, matches, utcAfter), rules[|rules| - 1], matches, utcAfter, name);
    }
  }

  /** Only Cache-Control, Pragma and Expires are ever touched. */
  lemma OnlyCacheHeaders(h: map<string, string>, rules: seq<PathRule>, matches: string -> bool,
                         utcAfter: int -> string, name: string)
    requires name != "Cache-Control" && name != "Pragma" && name != "Expires"
    ensures var r := HeadersAfter(h, rules, matches, utcAfter);
      (name in r <==> name in h) && (name in h ==> r[name] == h[name])
  {
    NoRuleSets(h, rules, matches, utcAfter, name);
  }

  // ---------------------------------------------------------------------------
  // Filenames
  // ---------------------------------------------------------------------------

  /** The filename split at its first ".": what is before it, and the extension after it. */
  function SplitFilename(filename: string): (r: (string, Option<string>))
    ensures r.1.None? <==> '.' !in filename
    ensures filename == r.0 + ExtensionSuffix(r.1) && '.' !in r.0
  {
    var x := IndexOf(filename, '.');
    if x > -1 then
      assert filename == filename[..x] + "." + filename[x + 1..];
      (filename[..x], Some(filename[x + 1..]))
    else (filename, None)
  }

  predicate IsHexDigit(c: char)
  {
    '0' <= c <= '9' || 'a' <= c <= 'f'
  }

  predicate IsDecimalDigit(c: char)
  {
    '0' <= c <= '9'
  }

  /** `car` ends with "-" and 32 lower-case hexadecimal digits. */
  predicate HashKeySuffix(car: string)
  {
    |car| >= 33 && car[|car| - 33] == '-' && forall i :: |car| - 32 <= i < |car| ==> IsHexDigit(car[i])
  }

  /** `car` ends with "-" and 13 decimal digits (a millisecond timestamp). */
  predicate StampKeySuffix(car: string)
  {
    |car| >= 14 && car[|car| - 14] == '-' && forall i :: |car| - 13 <= i < |car| ==> IsDecimalDigit(car[i])
  }

  predicate Fingerprinted(car: string)
  {
    HashKeySuffix(car) || StampKeySuffix(car)
  }

  /** The part of `car` before its last "-" is at `d`, given that no "-" follows `d`. */
  lemma LastDashAt(car: string, d: nat)
    requires d < |car| && car[d] == '-'
    requires forall i :: d < i < |car| ==> car[i] != '-'
    ensures LastIndexOf(car, '-') == d
  {
    assert '-' in car;
  }

  /** The last "-" of a fingerprinted name is the one before its key. */
  lemma KeyDash(car: string)
    requires Fingerprinted(car)
    ensures LastIndexOf(car, '-') == if HashKeySuffix(car) then |car| - 33 else |car| - 14
  {
    if HashKeySuffix(car) {
      LastDashAt(car, |car| - 33);
    } else {
      LastDashAt(car, |car| - 14);
    }
  }

  /** The name before the key and the key, when `car` is fingerprinted. */
  function StripKey(car: string): (r: (string, Option<string>))
    ensures HashKeySuffix(car) ==> r == (car[..|car| - 33], Some(car[|car| - 32..]))
    ensures !HashKeySuffix(car) && StampKeySuffix(car) ==> r == (car[..|car| - 14], Some(car[|car| - 13..]))
    ensures !Fingerprinted(car) ==> r == (car, None)
  {
    if Fingerprinted(car) then
      var x := LastIndexOf(car, '-');
      KeyDash(car);
      (car[..x], Some(car[x + 1..]))
    else (car, None)
  }

  /** Node's `path.extname` of a name without "/": from its last "." on, unless that dot starts the name or the name is "..". */
  function ExtName(name: string): (e: string)
    ensures e != "" ==> |e| < |name| && e[0] == '.' && name == name[..|name| - |e|] + e && '.' !in e[1..]
    ensures e == "" <==> '.' !in name || name == ".." || (name[0] == '.' && '.' !in name[1..])
  {
    var d := LastIndexOf(name, '.');
    if d <= 0 || name == ".." then
      assert d == 0 ==> name[1..] == name[d + 1..];
      ""
    else
      assert name == name[..d] + name[d..];
      assert name[d..][1..] == name[d + 1..];
      name[d..]
  }

  /** A fingerprinted name yields a non-empty key. */
  lemma KeyPresent(car: string)
    requires Fingerprinted(car)
    ensures StripKey(car).1.Some? && StripKey(car).1.value != ""
  {
    if HashKeySuffix(car) {
      assert |car[|car| - 32..]| == 32;
    } else {
      assert |car[|car| - 13..]| == 13;
    }
  }

  /**
   * The mimetype the interceptor goes on to consult: the filename has a
   * non-empty extension, `path.extname` of it is non-empty, and the
   * (injected) mimetype table gives a non-empty type for that.
   */
  function MimeOf(filename: string, lookup: string -> string): Option<string>
  {
    var (_, extension) := SplitFilename(filename);
    if extension.Some? && extension.value != "" && ExtName(filename) != "" && lookup(ExtName(filename)) != "" then
      Some(lookup(ExtName(filename)))
    else None
  }

  /** Mimetypes cached for a year: css, any image, javascript. */
  predicate LongLived(mimetype: string)
  {
    mimetype == "text/css" || Contains(mimetype, "image/") ||
    mimetype == "text/javascript" || mimetype == "application/javascript"
  }

  /**
   * The Cache-Control value the mimetype interceptor sends for a filename: thirty days for a
   * fingerprinted name, else an hour for html, a year for css, images and javascript, and
   * no-cache for everything else.
   */
  function CacheControlFor(filename: string, lookup: string -> string): (r: string)
    ensures r != ""
  {
    var (car, _) := SplitFilename(filename);
    var (_, key) := StripKey(car);
    var cacheControl :=
      if key.Some? && key.value != "" then FINGERPRINT_CACHE_CONTROL
      else if MimeOf(filename, lookup).Some? then MimeCacheControl(MimeOf(filename, lookup).value)
      else "";
    if cacheControl == "" then "no-cache" else cacheControl
  }

  /** The header is one of four values. */
  lemma CacheControlChoices(filename: string, lookup: string -> string)
    ensures var r := CacheControlFor(filename, lookup);
      r == FINGERPRINT_CACHE_CONTROL || r == "public, max-age=3600" || r == "public, max-age=31536000"
      || r == "no-cache"
  {
    var m := MimeOf(filename, lookup);
    if m.Some? {
      MimeCacheControlChoices(m.value);
    }
  }

  /** A mimetype asks for an hour, a year or nothing. */
  lemma MimeCacheControlChoices(mimetype: string)
    ensures var r := MimeCacheControl(mimetype);
      r == "public, max-age=3600" || r == "public, max-age=31536000" || r == ""
  {
    if LongLived(mimetype) {
      LongLivedCacheControl(mimetype);
    } else if mimetype == "text/html" {
      MaxAgeLiterals();
    }
  }

  /** The Cache-Control a mimetype asks for, "" when none: html first, then css, images and javascript override it. */
  function MimeCacheControl(mimetype: string): string
  {
    var html := if mimetype == "text/html" then "public, max-age=" + NatToString(MAXAGE_ONE_HOUR_SECONDS) else "";
    if LongLived(mimetype) then "public, max-age=" + NatToString(MAXAGE_ONE_YEAR_SECONDS) else html
  }

  lemma HtmlIsShortLived()
    ensures !LongLived("text/html")
  {
    NotContains("text/html", "image/");
  }

  lemma LongLivedCacheControl(mimetype: string)
    requires LongLived(mimetype)
    ensures MimeCacheControl(mimetype) == "public, max-age=31536000"
  {
    MaxAgeLiterals();
  }

  lemma HtmlCacheControl()
    ensures MimeCacheControl("text/html") == "public, max-age=3600"
  {
    MaxAgeLiterals();
    HtmlIsShortLived();
  }

  /**
   * The cache decision: thirty days for a fingerprinted name, a year for css,
   * images and javascript, an hour for html, no-cache for anything else.
   */
  lemma CacheControlTable(filename: string, lookup: string -> string)
    ensures Fingerprinted(SplitFilename(filename).0) ==>
      CacheControlFor(filename, lookup) == "public, max-age=2592000"
    ensures !Fingerprinted(SplitFilename(filename).0) && MimeOf(filename, lookup).Some? && LongLived(MimeOf(filename, lookup).value) ==>
      CacheControlFor(filename, lookup) == "public, max-age=31536000"
    ensures !Fingerprinted(SplitFilename(filename).0) && MimeOf(filename, lookup) == Some("text/html") ==>
      CacheControlFor(filename, lookup) == "public, max-age=3600"
    ensures !Fingerprinted(SplitFilename(filename).0) &&
            (MimeOf(filename, lookup).None? ||
             (!LongLived(MimeOf(filename, lookup).value) && MimeOf(filename, lookup).value != "text/html")) ==>
      CacheControlFor(filename, lookup) == "no-cache"
  {
    FingerprintedCase(filename, lookup);
    LongLivedCase(filename, lookup);
    HtmlCase(filename, lookup);
    OtherCase(filename, lookup);
  }

  lemma FingerprintedCase(filename: string, lookup: string -> string)
    ensures Fingerprinted(SplitFilename(filename).0) ==> CacheControlFor(filename, lookup) == FINGERPRINT_CACHE_CONTROL
  {
    var car := SplitFilename(filename).0;
    if Fingerprinted(car) {
      KeyPresent(car);
    }
  }

  lemma LongLivedCase(filename: string, lookup: string -> string)
    ensures !Fingerprinted(SplitFilename(filename).0) && MimeOf(filename, lookup).Some? && LongLived(MimeOf(filename, lookup).value) ==>
      CacheControlFor(filename, lookup) == "public, max-age=31536000"
  {
    if !Fingerprinted(SplitFilename(filename).0) {
      PlainCacheControl(filename, lookup);
      var mimetype := MimeOf(filename, lookup);
      if mimetype.Some? && LongLived(mimetype.value) {
        LongLivedCacheControl(mimetype.value);
      }
    }
  }

  lemma HtmlCase(filename: string, lookup: string -> string)
    ensures !Fingerprinted(SplitFilename(filename).0) && MimeOf(filename, lookup) == Some("text/html") ==>
      CacheControlFor(filename, lookup) == "public, max-age=3600"
  {
    if !Fingerprinted(SplitFilename(filename).0) {
      PlainCacheControl(filename, lookup);
      if MimeOf(filename, lookup) == Some("text/html") {
        HtmlCacheControl();
      }
    }
  }

  lemma OtherCase(filename: string, lookup: string -> string)
    ensures !Fingerprinted(SplitFilename(filename).0) &&
            (MimeOf(filename, lookup).None? ||
             (!LongLived(MimeOf(filename, lookup).value) && MimeOf(filename, lookup).value != "text/html")) ==>
      CacheControlFor(filename, lookup) == "no-cache"
  {
    if !Fingerprinted(SplitFilename(filename).0) {
      PlainCacheControl(filename, lookup);
    }
  }

  /** Without a fingerprint the mimetype decides, and no-cache stands in for no decision. */
  lemma PlainCacheControl(filename: string, lookup: string -> string)
    requires !Fingerprinted(SplitFilename(filename).0)
    ensures var mimetype := MimeOf(filename, lookup);
      var cacheControl := if mimetype.Some? then MimeCacheControl(mimetype.value) else "";
      CacheControlFor(filename, lookup) == if cacheControl == "" then "no-cache" else cacheControl
  {
  }

  // ---------------------------------------------------------------------------
  // Url rewriting
  // ---------------------------------------------------------------------------

  /** The text after the first "?" of the url, if there is one. */
  function QueryOf(url: string): (q: Option<string>)
    ensures q.None? <==> '?' !in url
    ensures q.Some? ==> exists i :: 0 <= i < |url| && url[i] == '?' && '?' !in url[..i] && q.value == url[i + 1..]
  {
    var i := IndexOf(url, '?');
    if i > -1 then Some(url[i + 1..]) else None
  }

  /** An absolute path from its segments. */
  function RenderPath(segments: seq<string>): string
  {
    "/" + Join(segments, "/")
  }

  /** `path.join` of a directory and a name: an empty name adds nothing. */
  function JoinPath(dir: seq<string>, name: string): string
  {
    if name == "" then RenderPath(dir) else RenderPath(dir + [name])
  }

  /** The query is kept only when it is non-empty. */
  function WithQuery(path: string, query: Option<string>): string
  {
    if query.Some? && query.value != "" then path + "?" + query.value else path
  }

  function ExtensionSuffix(extension: Option<string>): string
  {
    if extension.Some? then "." + extension.value else ""
  }

  /** `"." + extension` when the extension is non-empty, nothing otherwise. */
  function DotExtension(extension: Option<string>): string
  {
    if extension.Some? && extension.value != "" then "." + extension.value else ""
  }

  /**
   * The rewritten request path as the interceptor computes it: the
   * directory joined with the name before the key, then "." and the
   * extension when the extension is non-empty. It is the corrected
   * RewrittenPath unless the name before the key is empty or the
   * extension is.
   */
  function RewrittenPathAsWritten(dir: seq<string>, filename: string): (r: string)
    ensures var (car, extension) := SplitFilename(filename);
      StripKey(car).0 != "" && extension != Some("") ==> r == RewrittenPath(dir, filename)
  {
    var (car, extension) := SplitFilename(filename);
    var (originalFilename, _) := StripKey(car);
    if originalFilename != "" && extension != Some("") then
      JoinAgrees(dir, originalFilename, extension);
      JoinPath(dir, originalFilename) + DotExtension(extension)
    else
      JoinPath(dir, originalFilename) + DotExtension(extension)
  }

  /** Joining a non-empty name and then appending a non-empty extension gives one more segment. */
  lemma JoinAgrees(dir: seq<string>, name: string, extension: Option<string>)
    requires name != "" && extension != Some("")
    ensures JoinPath(dir, name) + DotExtension(extension) == RenderPath(dir + [name + ExtensionSuffix(extension)])
  {
    RenderPathSnoc(dir, name);
    RenderPathSnoc(dir, name + ExtensionSuffix(extension));
    if extension.None? {
      assert name + ExtensionSuffix(extension) == name;
    }
  }

  /** The last segment of an absolute path follows the rendered directory and a "/". */
  lemma RenderPathSnoc(dir: seq<string>, name: string)
    ensures RenderPath(dir + [name]) == (if dir == [] then "/" else RenderPath(dir) + "/") + name
  {
    if dir != [] {
      JoinSnoc(dir, name, "/");
    }
  }

  /** A name that starts with "." is rewritten without the "/" before it. */
  lemma DotfileRewriteAsWritten(dir: seq<string>, rest: string)
    requires dir != [] && rest != ""
    ensures RewrittenPathAsWritten(dir, "." + rest) == RenderPath(dir) + "." + rest
    ensures RewrittenPathAsWritten(dir, "." + rest) != RenderPath(dir + ["." + rest])
  {
    DotfileRewritten(dir, rest);
    RenderPathSnoc(dir, "." + rest);
    assert |RenderPath(dir + ["." + rest])| == |RenderPath(dir) + "." + rest| + 1;
  }

  lemma DotfileRewritten(dir: seq<string>, rest: string)
    requires dir != [] && rest != ""
    ensures RewrittenPathAsWritten(dir, "." + rest) == RenderPath(dir) + "." + rest
  {
    DotfileSplit(rest);
    EmptyHasNoKey();
  }

  lemma EmptyHasNoKey()
    ensures StripKey("") == ("", None)
  {
  }

  lemma DotfileSplit(rest: string)
    ensures SplitFilename("." + rest) == ("", Some(rest))
  {
    assert IndexOf("." + rest, '.') == 0;
    assert ("." + rest)[1..] == rest;
  }

  /** A name that ends in "." is rewritten without that dot. */
  lemma TrailingDotRewriteAsWritten(dir: seq<string>, name: string)
    requires name != "" && '.' !in name && !Fingerprinted(name)
    ensures RewrittenPathAsWritten(dir, name + ".") == RenderPath(dir + [name])
    ensures RewrittenPathAsWritten(dir, name + ".") != RenderPath(dir + [name + "."])
  {
    var filename := name + ".";
    assert IndexOf(filename, '.') == |name| by {
      assert filename[..|name|] == name;
    }
    assert filename[|name| + 1..] == "";
    assert SplitFilename(filename) == (name, Some(""));
    RenderPathSnoc(dir, name);
    RenderPathSnoc(dir, filename);
  }

  /**
   * The corrected rewrite of a file name: the name before the key with the
   * full extension (dot included) as the last segment of the same
   * directory, so that a name without a fingerprint is requested unchanged.
   */
  function RewrittenPath(dir: seq<string>, filename: string): (r: string)
    ensures !Fingerprinted(SplitFilename(filename).0) ==> r == RenderPath(dir + [filename])
  {
    var (car, extension) := SplitFilename(filename);
    var (originalFilename, _) := StripKey(car);
    assert !Fingerprinted(car) ==> originalFilename + ExtensionSuffix(extension) == filename;
    RenderPath(dir + [originalFilename + ExtensionSuffix(extension)])
  }

  /**
   * The segments `path.dirname` and `path.basename` look at: Node ignores
   * trailing slashes, so trailing empty segments are dropped.
   */
  function WithoutTrailingSlashes(path: seq<string>): (segs: seq<string>)
    ensures |segs| <= |path| && segs == path[..|segs|]
    ensures segs == [] || segs[|segs| - 1] != ""
    ensures forall i :: |segs| <= i < |path| ==> path[i] == ""
  {
    if path == [] || path[|path| - 1] != "" then path else WithoutTrailingSlashes(path[..|path| - 1])
  }

  /**
   * The path of the url the interceptor sets for a request path: the
   * as-written rewrite of the basename in its directory, None when the
   * basename is empty and the url is left alone.
   */
  function RequestedPathAsWritten(path: seq<string>): (r: Option<string>)
    ensures r.None? <==> WithoutTrailingSlashes(path) == []
  {
    var segs := WithoutTrailingSlashes(path);
    if segs == [] then None else Some(RewrittenPathAsWritten(segs[..|segs| - 1], segs[|segs| - 1]))
  }

  /**
   * The corrected rewrite of a request path: a request for a directory
   * (a trailing slash) is left alone, and a file keeps its directory and
   * extension, so that only a fingerprint is ever removed.
   */
  function RequestedPath(path: seq<string>): (r: Option<string>)
    ensures path == [] || path[|path| - 1] == "" ==> r.None?
    ensures path != [] && path[|path| - 1] != "" && !Fingerprinted(SplitFilename(path[|path| - 1]).0) ==>
      r == Some(RenderPath(path))
  {
    if path == [] || path[|path| - 1] == "" then None
    else
      assert path[..|path| - 1] + [path[|path| - 1]] == path;
      Some(RewrittenPath(path[..|path| - 1], path[|path| - 1]))
  }

  /** A request for a directory is rewritten, as written, to the bare directory name. */
  lemma TrailingSlashRewriteAsWritten(dir: seq<string>, name: string)
    requires name != "" && '.' !in name && !Fingerprinted(name)
    ensures RequestedPathAsWritten(dir + [name, ""]) == Some(RenderPath(dir + [name]))
    ensures RenderPath(dir + [name]) != RenderPath(dir + [name, ""])
    ensures RequestedPath(dir + [name, ""]).None?
  {
    var path := dir + [name, ""];
    assert path[..|dir| + 1] == dir + [name];
    assert WithoutTrailingSlashes(path) == dir + [name];
    assert (dir + [name])[..|dir|] == dir;
    PlainNameRewrite(dir, name);
    assert (dir + [name]) + [""] == path;
    SlashChangesPath(dir + [name]);
  }

  /** A plain name without a dot is requested unchanged by the as-written rewrite. */
  lemma PlainNameRewrite(dir: seq<string>, name: string)
    requires name != "" && '.' !in name && !Fingerprinted(name)
    ensures RewrittenPathAsWritten(dir, name) == RenderPath(dir + [name])
  {
    SplitJoined(name, None);
    assert name + ExtensionSuffix(None) == name;
  }

  /** Below the root, a trailing slash changes the rendered path. */
  lemma SlashChangesPath(segments: seq<string>)
    requires segments != []
    ensures RenderPath(segments) != RenderPath(segments + [""])
  {
    JoinSnoc(segments, "", "/");
    assert |RenderPath(segments + [""])| == |RenderPath(segments)| + 1;
  }

  /** Splitting a name joined with its extension gives both back. */
  lemma SplitJoined(car: string, extension: Option<string>)
    requires '.' !in car
    ensures SplitFilename(car + ExtensionSuffix(extension)) == (car, extension)
  {
    if extension.Some? {
      SplitDotted(car, extension.value);
    } else {
      assert car + ExtensionSuffix(extension) == car;
      SplitUndotted(car);
    }
  }

  /** A name without a dot, a dot and an extension splits at that dot. */
  lemma SplitDotted(car: string, extension: string)
    requires '.' !in car
    ensures SplitFilename(car + "." + extension) == (car, Some(extension))
  {
    var filename := car + "." + extension;
    SeparatorAfter(car, extension, '.');
    var r := SplitFilename(filename);
    assert filename == r.0 + "." + r.1.value;
    SplitAtFirst(car, extension, r.0, r.1.value, '.');
  }

  /** A name without a dot has no extension. */
  lemma SplitUndotted(car: string)
    requires '.' !in car
    ensures SplitFilename(car) == (car, None)
  {
    var r := SplitFilename(car);
    assert r.1.None?;
    assert r.0 + ExtensionSuffix(r.1) == r.0;
  }

  /** Stripping the key from `<name>-<key>` gives back the name and the key. */
  lemma StripKeyed(name: string, key: string)
    requires (|key| == 32 && forall i :: 0 <= i < |key| ==> IsHexDigit(key[i])) ||
             (|key| == 13 && forall i :: 0 <= i < |key| ==> IsDecimalDigit(key[i]))
    ensures StripKey(name + "-" + key) == (name, Some(key))
  {
    var car := name + "-" + key;
    assert car[..|name|] == name;
    assert car[|name| + 1..] == key;
    if |key| == 32 {
      assert HashKeySuffix(car) by {
        assert forall i :: |car| - 32 <= i < |car| ==> car[i] == key[i - |name| - 1];
      }
    } else {
      assert car[|car| - 14] == '-';
      assert !HashKeySuffix(car);
      assert StampKeySuffix(car) by {
        assert forall i :: |car| - 13 <= i < |car| ==> car[i] == key[i - |name| - 1];
      }
    }
  }

  /**
   * `<name>-<key><ext>` is cached for thirty days and, as written, requested
   * as the directory joined with `<name>` and then the non-empty extension:
   * the key and its dash are all that go. That is `<name><ext>` in the same
   * directory unless the name or the extension is empty.
   */
  lemma FingerprintedRewrite(dir: seq<string>, name: string, key: string, extension: Option<string>, lookup: string -> string)
    requires '.' !in name
    requires (|key| == 32 && forall i :: 0 <= i < |key| ==> IsHexDigit(key[i])) ||
             (|key| == 13 && forall i :: 0 <= i < |key| ==> IsDecimalDigit(key[i]))
    ensures RewrittenPathAsWritten(dir, name + "-" + key + ExtensionSuffix(extension)) == JoinPath(dir, name) + DotExtension(extension)
    ensures name != "" && extension != Some("") ==>
      RewrittenPathAsWritten(dir, name + "-" + key + ExtensionSuffix(extension)) == RenderPath(dir + [name + ExtensionSuffix(extension)])
    ensures RewrittenPath(dir, name + "-" + key + ExtensionSuffix(extension)) == RenderPath(dir + [name + ExtensionSuffix(extension)])
    ensures CacheControlFor(name + "-" + key + ExtensionSuffix(extension), lookup) == "public, max-age=2592000"
  {
    var car := name + "-" + key;
    assert '.' !in car by {
      assert forall i :: 0 <= i < |key| ==> key[i] != '.';
      assert forall i :: |name| < i < |car| ==> car[i] == key[i - |name| - 1];
    }
    SplitJoined(car, extension);
    StripKeyed(name, key);
  }

  // ---------------------------------------------------------------------------
  // The mimetype interceptor
  // ---------------------------------------------------------------------------

  /** The incoming request: its path as segments, and its url, which the interceptor rewrites. */
  class Request {
    const path: seq<string>
    var url: string

    constructor (path: seq<string>, url: string)
      ensures this.path == path && this.url == url
    {
      this.path := path;
      this.url := url;
    }
  }

  /**
   * mimeTypePerformanceInterceptor. `lookup` is the mimetype table; the call
   * to `next` that always follows is not modelled.
   */
  method MimeTypePerformanceInterceptor(production: bool, req: Request, res: Response, lookup: string -> string)
    modifies req, res
    ensures !production || RequestedPathAsWritten(req.path).None? ==>
      req.url == old(req.url) && res.headers == old(res.headers)
    ensures production && RequestedPathAsWritten(req.path).Some? ==>
      var segs := WithoutTrailingSlashes(req.path);
      res.headers == old(res.headers)["Cache-Control" := CacheControlFor(segs[|segs| - 1], lookup)] &&
      req.url == WithQuery(RequestedPathAsWritten(req.path).value, QueryOf(old(req.url)))
  {
    if production {
      var queryString := QueryOf(req.url);
      var segs := WithoutTrailingSlashes(req.path);
      if segs != [] {
        var dir := segs[..|segs| - 1];
        var filename := segs[|segs| - 1];
        var cacheControl := CacheControlFor(filename, lookup);
        res.SetHeader("Cache-Control", cacheControl);
        req.url := WithQuery(RewrittenPathAsWritten(dir, filename), queryString);
        assert RequestedPathAsWritten(req.path) == Some(RewrittenPathAsWritten(dir, filename));
      }
    }
  }
}
