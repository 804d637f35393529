/** `ScrapingFailureDetector`: decides whether a response that the transport
    reports as successful is really a soft failure (an error status, an
    anti-bot challenge, a wrong or truncated document, a JavaScript shell).
    Every check is a function of the response facts and the configuration;
    the pipeline runs them in a fixed order and stops at the first failure. */
module ScrapingFailureDetection {
  import opened Basics
  import opened Text

  // ---------------------------------------------------------------------
  // Data model
  // ---------------------------------------------------------------------

  /** One entry of the redirect history. */
  datatype Hop = Hop(url: string, status: int)

  /** The facts about one fetched response the detector reads. Header names
      are lower-case keys; the body is the already decoded text. */
  datatype Snapshot = Snapshot(
    status: int,
    headers: map<string, string>,
    history: seq<Hop>,
    body: string)

  /** What the detector's regular expressions report about the body:
      - `emptyRootBeforeScripts`: `<body…>`, one empty `<div…></div>`, then
        `<script` (the single-empty-div SPA pattern);
      - `densityTextLength`: the length of the text left after removing
        script and style elements and all tags, collapsing whitespace runs
        and stripping;
      - `visibleTextLength`: the length of the text left after removing
        script elements and all tags, and stripping. */
  datatype RegexFacts = RegexFacts(
    emptyRootBeforeScripts: bool,
    densityTextLength: nat,
    visibleTextLength: nat)

  /** The detector's constructor arguments, fixed for its lifetime. A
      missing `required_markers` is the empty list; `max_content_length`
      bounds the body only when it is present and non-zero. */
  datatype Config = Config(
    minContentLength: int,
    maxContentLength: Option<int>,
    expectedContentType: string,
    requiredMarkers: seq<string>,
    checkJsRendering: bool,
    minTextRatio: real)

  const DefaultConfig := Config(500, None, "text/html", [], false, 0.05)

  /** Why a response was judged a failure: one constructor per diagnostic
      message, carrying every value the message shows. */
  datatype Reason =
    | HttpError(status: int)
    | SuspiciousStatus(status: int)
    | ProtectionDetected(system: string)
    | ProtectionHeader(header: string, vendor: string)
    | WrongContentType(expected: string, got: string)
    | RedirectLoop
    | SuspiciousRedirect(url: string)
    | BlockingRedirectStatus(status: int)
    | TooManyRedirects(count: nat)
    | ContentTooSmall(length: nat, min: int)
    | ContentTooLarge(length: nat, max: int)
    | EmptyBody
    | BotIndicator(indicator: string, context: string)
    | MissingMarkers(markers: seq<string>)
    | JsPlaceholders(descriptions: seq<string>)
    | EmptyHtml
    | LowContentDensity(textLength: nat, totalLength: nat, scripts: nat)
    | HeavyJsUsage(scripts: nat, textLength: nat, totalLength: nat)
    | EmbeddedData(descriptions: seq<string>)

  // ---------------------------------------------------------------------
  // Status
  // ---------------------------------------------------------------------

  /** `status.is_success()`: the 2xx class. */
  predicate IsSuccess(status: int)
  {
    200 <= status <= 299
  }

  /** `status.is_success()` passes; any other status is reported with its code. */
  function CheckStatus(status: int): (r: Verdict<Reason>)
    ensures r.Valid? <==> 200 <= status < 300
    ensures r.Invalid? ==> r.reason == HttpError(status)
  {
    if IsSuccess(status) then Valid else Invalid(HttpError(status))
  }

  /** 203 (Non-Authoritative) and 204 (No Content) are soft-block signals. */
  function CheckSuspiciousStatus(status: int): (r: Verdict<Reason>)
    ensures r.Invalid? <==> status in {203, 204}
    ensures r.Invalid? ==> r.reason == SuspiciousStatus(status)
  {
    if status == 203 || status == 204 then Invalid(SuspiciousStatus(status)) else Valid
  }

  // ---------------------------------------------------------------------
  // Headers
  // ---------------------------------------------------------------------

  /** One entry of the suspicious-header table: a header whose mere
      presence names a protection system, or a header whose value is
      searched for vendor names. */
  datatype HeaderRule =
    | AnyValue(name: string, system: string)
    | VendorValue(name: string, vendors: seq<string>)

  const ServerVendors: seq<string> := ["akamai", "cloudflare", "imperva"]

  /** The table in its declared (and iteration) order. */
  const SuspiciousHeaders: seq<HeaderRule> := [
    AnyValue("cf-ray", "Cloudflare protection"),
    AnyValue("cf-mitigated", "Cloudflare mitigation"),
    AnyValue("x-datadome-cid", "DataDome protection"),
    AnyValue("x-distil-cs", "Distil Networks"),
    VendorValue("server", ServerVendors)
  ]

  /** `headers.get(name)`, where an absent header reads as the (equally
      false) empty value. */
  function Header(headers: map<string, string>, name: string): string
  {
    if name in headers then headers[name] else ""
  }

  /** The `server` entry's scan: the first vendor named by the lower-cased
      header value. */
  function VendorHit(value: string, vendors: seq<string>): Option<nat>
  {
    FirstWhere(vendors, (v: string) => Contains(Lower(value), Lower(v)))
  }

  /** The reason one table entry reports, if it fires. */
  function RuleHit(rule: HeaderRule, headers: map<string, string>): Option<Reason>
  {
    var value := Header(headers, rule.name);
    if value == "" then None
    else
      match rule
      case AnyValue(_, system) => Some(ProtectionDetected(system))
      case VendorValue(name, vendors) =>
        match VendorHit(value, vendors)
        case None => None
        case Some(k) => Some(ProtectionHeader(name, vendors[k]))
  }

  /** `_check_headers`: the first table entry that fires decides. */
  function CheckHeaders(headers: map<string, string>): (r: Verdict<Reason>)
    ensures r.Valid? <==> forall k :: 0 <= k < |SuspiciousHeaders| ==> RuleHit(SuspiciousHeaders[k], headers).None?
    ensures r.Invalid? ==>
      exists k :: 0 <= k < |SuspiciousHeaders| && RuleHit(SuspiciousHeaders[k], headers) == Some(r.reason) &&
        forall j :: 0 <= j < k ==> RuleHit(SuspiciousHeaders[j], headers).None?
  {
    match FirstWhere(SuspiciousHeaders, (rule: HeaderRule) => RuleHit(rule, headers).Some?)
    case None => Valid
    case Some(k) => Invalid(RuleHit(SuspiciousHeaders[k], headers).value)
  }

  /** A single-string entry fires on any non-empty value, whatever it is. */
  lemma SingleStringEntryFires(headers: map<string, string>, k: nat)
    requires k < 4
    ensures RuleHit(SuspiciousHeaders[k], headers).Some? <==> Header(headers, SuspiciousHeaders[k].name) != ""
    ensures RuleHit(SuspiciousHeaders[k], headers).Some? ==>
      RuleHit(SuspiciousHeaders[k], headers).value == ProtectionDetected(SuspiciousHeaders[k].system)
  {
    assert SuspiciousHeaders[k].AnyValue?;
  }

  /** The `server` entry fires exactly when its lower-cased value mentions a
      vendor, and then names the first vendor of the list it mentions; an
      absent or empty header never fires. */
  lemma {:induction false} ServerEntryFires(headers: map<string, string>)
    ensures RuleHit(SuspiciousHeaders[4], headers).Some? <==>
      exists k :: 0 <= k < |ServerVendors| && IsSubstring(ServerVendors[k], Lower(Header(headers, "server")))
    ensures forall k ::
      (0 <= k < |ServerVendors| && IsSubstring(ServerVendors[k], Lower(Header(headers, "server"))) &&
       forall j :: 0 <= j < k ==> !IsSubstring(ServerVendors[j], Lower(Header(headers, "server")))) ==>
      RuleHit(SuspiciousHeaders[4], headers) == Some(ProtectionHeader("server", ServerVendors[k]))
  {
    var value := Header(headers, "server");
    LowercaseVendors();
    assert SuspiciousHeaders[4] == VendorValue("server", ServerVendors);
    var hit := VendorHit(value, ServerVendors);
    assert forall k :: 0 <= k < |ServerVendors| ==>
      (Contains(Lower(value), Lower(ServerVendors[k])) <==> IsSubstring(ServerVendors[k], Lower(value)));
  }

  lemma LowercaseVendors()
    ensures forall k :: 0 <= k < |ServerVendors| ==> Lower(ServerVendors[k]) == ServerVendors[k]
  {
    assert Lower("akamai") == "akamai";
    assert Lower("cloudflare") == "cloudflare";
    assert Lower("imperva") == "imperva";
  }

  /** A non-empty value of one of the four single-string headers fails the
      whole check, and the earliest such header is reported. */
  lemma SingleStringHeaderFails(headers: map<string, string>, k: nat)
    requires k < 4 && Header(headers, SuspiciousHeaders[k].name) != ""
    requires forall j :: 0 <= j < k ==> Header(headers, SuspiciousHeaders[j].name) == ""
    ensures CheckHeaders(headers) == Invalid(ProtectionDetected(SuspiciousHeaders[k].system))
  {
    SingleStringEntryFires(headers, k);
    forall j | 0 <= j < k ensures RuleHit(SuspiciousHeaders[j], headers).None? {
      SingleStringEntryFires(headers, j);
    }
    var r := CheckHeaders(headers);
    assert r.Invalid?;
    var k' :| 0 <= k' < |SuspiciousHeaders| && RuleHit(SuspiciousHeaders[k'], headers) == Some(r.reason) &&
      forall j :: 0 <= j < k' ==> RuleHit(SuspiciousHeaders[j], headers).None?;
    assert !(k < k') && !(k' < k);
  }

  /** With the four single-string headers empty, the check fails exactly
      when the `server` value mentions a vendor. */
  lemma ServerHeaderDecides(headers: map<string, string>)
    requires forall j :: 0 <= j < 4 ==> Header(headers, SuspiciousHeaders[j].name) == ""
    ensures CheckHeaders(headers).Invalid? <==>
      exists k :: 0 <= k < |ServerVendors| && IsSubstring(ServerVendors[k], Lower(Header(headers, "server")))
    ensures CheckHeaders(headers).Invalid? ==> CheckHeaders(headers) == Invalid(RuleHit(SuspiciousHeaders[4], headers).value)
  {
    forall j | 0 <= j < 4 ensures RuleHit(SuspiciousHeaders[j], headers).None? {
      SingleStringEntryFires(headers, j);
    }
    ServerEntryFires(headers);
    if CheckHeaders(headers).Invalid? {
      var r := CheckHeaders(headers);
      var k' :| 0 <= k' < |SuspiciousHeaders| && RuleHit(SuspiciousHeaders[k'], headers) == Some(r.reason) &&
        forall j :: 0 <= j < k' ==> RuleHit(SuspiciousHeaders[j], headers).None?;
      assert k' == 4;
    }
  }

  // ---------------------------------------------------------------------
  // Content type
  // ---------------------------------------------------------------------

  /** `_check_content_type`: a case-sensitive substring test against the
      `content-type` header, skipped when no type is expected. */
  function CheckContentType(cfg: Config, headers: map<string, string>): (r: Verdict<Reason>)
    ensures r.Valid? <==>
      cfg.expectedContentType == "" || IsSubstring(cfg.expectedContentType, Header(headers, "content-type"))
    ensures r.Invalid? ==> r.reason == WrongContentType(cfg.expectedContentType, Header(headers, "content-type"))
  {
    var contentType := Header(headers, "content-type");
    if cfg.expectedContentType != "" && !Contains(contentType, cfg.expectedContentType) then
      Invalid(WrongContentType(cfg.expectedContentType, contentType))
    else
      Valid
  }

  // ---------------------------------------------------------------------
  // Redirects
  // ---------------------------------------------------------------------

  const RedirectKeywords: seq<string> := ["captcha", "challenge", "verify", "blocked"]
  const BlockingStatuses: seq<int> := [503, 403, 429]
  const MaxRedirects := 5

  /** `set(urls)`. */
  function UrlSet(history: seq<Hop>): set<string>
  {
    set h | h in history :: h.url
  }

  /** Some URL appears twice in the history. */
  predicate RepeatsUrl(history: seq<Hop>)
  {
    exists i, j :: 0 <= i < j < |history| && history[i].url == history[j].url
  }

  lemma UrlSetCons(history: seq<Hop>)
    requires history != []
    ensures UrlSet(history) == {history[0].url} + UrlSet(history[1..])
  {
    assert history == [history[0]] + history[1..];
  }

  lemma RepeatsUrlCons(history: seq<Hop>)
    requires history != []
    ensures RepeatsUrl(history) <==> history[0].url in UrlSet(history[1..]) || RepeatsUrl(history[1..])
  {
    var rest := history[1..];
    if RepeatsUrl(history) {
      var i, j :| 0 <= i < j < |history| && history[i].url == history[j].url;
      if i == 0 {
        assert history[j] == rest[j - 1];
        assert rest[j - 1] in rest;
      } else {
        assert rest[i - 1].url == rest[j - 1].url;
      }
    }
    if history[0].url in UrlSet(rest) {
      var h :| h in rest && h.url == history[0].url;
      var j :| 0 <= j < |rest| && rest[j] == h;
      assert history[0].url == history[j + 1].url;
    }
    if RepeatsUrl(rest) {
      var i, j :| 0 <= i < j < |rest| && rest[i].url == rest[j].url;
      assert history[i + 1].url == history[j + 1].url;
    }
  }

  /** `len(urls) != len(set(urls))` is exactly "some URL repeats". */
  lemma {:induction false} DistinctUrlCount(history: seq<Hop>)
    ensures |UrlSet(history)| <= |history|
    ensures |UrlSet(history)| == |history| <==> !RepeatsUrl(history)
    decreases |history|
  {
    if history != [] {
      DistinctUrlCount(history[1..]);
      UrlSetCons(history);
      RepeatsUrlCons(history);
    }
  }

  /** What one hop reports: a challenge keyword in its lower-cased URL is
      checked before a blocking status. */
  function HopProblem(hop: Hop): (r: Option<Reason>)
    ensures r.None? <==>
      (forall w :: w in RedirectKeywords ==> !IsSubstring(w, Lower(hop.url))) && hop.status !in BlockingStatuses
    ensures (exists w :: w in RedirectKeywords && IsSubstring(w, Lower(hop.url))) ==>
      r == Some(SuspiciousRedirect(hop.url))
    ensures (forall w :: w in RedirectKeywords ==> !IsSubstring(w, Lower(hop.url))) && hop.status in BlockingStatuses ==>
      r == Some(BlockingRedirectStatus(hop.status))
  {
    if exists w :: w in RedirectKeywords && Contains(Lower(hop.url), w) then Some(SuspiciousRedirect(hop.url))
    else if hop.status in BlockingStatuses then Some(BlockingRedirectStatus(hop.status))
    else None
  }

  /** `_check_redirects`: loop, then hop by hop, then the hop count. */
  function CheckRedirects(history: seq<Hop>): (r: Verdict<Reason>)
    ensures RepeatsUrl(history) ==> r == Invalid(RedirectLoop)
    ensures r.Valid? <==>
      !RepeatsUrl(history) && (forall k :: 0 <= k < |history| ==> HopProblem(history[k]).None?) &&
      |history| <= MaxRedirects
    ensures forall k ::
      (0 <= k < |history| && !RepeatsUrl(history) && HopProblem(history[k]).Some? &&
       forall j :: 0 <= j < k ==> HopProblem(history[j]).None?) ==>
      r == Invalid(HopProblem(history[k]).value)
    ensures r == Invalid(TooManyRedirects(|history|)) <==>
      !RepeatsUrl(history) && (forall k :: 0 <= k < |history| ==> HopProblem(history[k]).None?) &&
      |history| > MaxRedirects
  {
    DistinctUrlCount(history);
    if history == [] then Valid
    else if |UrlSet(history)| != |history| then Invalid(RedirectLoop)
    else
      match FirstWhere(history, (h: Hop) => HopProblem(h).Some?)
      case Some(k) => Invalid(HopProblem(history[k]).value)
      case None => if |history| > MaxRedirects then Invalid(TooManyRedirects(|history|)) else Valid
  }

  // ---------------------------------------------------------------------
  // Content length
  // ---------------------------------------------------------------------

  /** `if self.max_content_length`: present and non-zero. */
  predicate HasMaxBound(cfg: Config)
  {
    cfg.maxContentLength.Some? && cfg.maxContentLength.value != 0
  }

  /** `_check_content_length`: minimum, then optional maximum, then empty. */
  function CheckContentLength(cfg: Config, body: string): (r: Verdict<Reason>)
    ensures |body| == 0 ==> r.Invalid?
    ensures |body| > 0 ==>
      (r.Valid? <==> cfg.minContentLength <= |body| && (HasMaxBound(cfg) ==> |body| <= cfg.maxContentLength.value))
    ensures |body| < cfg.minContentLength ==> r == Invalid(ContentTooSmall(|body|, cfg.minContentLength))
    ensures cfg.minContentLength <= |body| && HasMaxBound(cfg) && |body| > cfg.maxContentLength.value ==>
      r == Invalid(ContentTooLarge(|body|, cfg.maxContentLength.value))
    ensures |body| == 0 && cfg.minContentLength <= 0 && !(HasMaxBound(cfg) && cfg.maxContentLength.value < 0) ==>
      r == Invalid(EmptyBody)
  {
    var n := |body|;
    if n < cfg.minContentLength then Invalid(ContentTooSmall(n, cfg.minContentLength))
    else if HasMaxBound(cfg) && n > cfg.maxContentLength.value then Invalid(ContentTooLarge(n, cfg.maxContentLength.value))
    else if n == 0 then Invalid(EmptyBody)
    else Valid
  }

  // ---------------------------------------------------------------------
  // Anti-bot keywords
  // ---------------------------------------------------------------------

  const BotIndicators: seq<string> := [
    "captcha", "recaptcha", "hcaptcha", "cloudflare", "cf-browser-verification",
    "challenge-platform", "access denied", "blocked", "security check", "ray id:",
    "enable javascript", "datadome", "imperva", "perimeter x", "distil networks",
    "akamai", "incapsula", "please verify you are human", "are you a robot",
    "automated access", "unusual traffic", "__cf_chl_jschl_tk__", "cf_clearance",
    "bot detection"
  ]

  /** A slice of `body` around a case-insensitive occurrence still holds it. */
  lemma SliceKeepsOccurrence(body: string, lo: nat, hi: nat, p: string, i: nat)
    requires lo <= i && i + |p| <= hi <= |body| && OccursAt(p, Lower(body), i)
    ensures OccursAt(p, Lower(body[lo..hi]), i - lo)
  {
    assert Lower(body[lo..hi])[i - lo..i - lo + |p|] == Lower(body)[i..i + |p|];
  }

  /** Where the excerpt starts: 50 characters before the first occurrence,
      or the start of the body. */
  function ContextStart(body: string, indicator: string): (lo: nat)
    requires IsSubstring(indicator, Lower(body))
    ensures IndexOf(Lower(body), indicator) - 50 <= lo <= IndexOf(Lower(body), indicator)
  {
    var i := IndexOf(Lower(body), indicator);
    if i < 50 then 0 else i - 50
  }

  /** Where the excerpt ends: 50 characters past the occurrence, or the end
      of the body. */
  function ContextEnd(body: string, indicator: string): (hi: nat)
    requires IsSubstring(indicator, Lower(body))
    ensures IndexOf(Lower(body), indicator) + |indicator| <= hi <= |body|
    ensures hi <= IndexOf(Lower(body), indicator) + |indicator| + 50
  {
    var i := IndexOf(Lower(body), indicator);
    if i + |indicator| + 50 > |body| then |body| else i + |indicator| + 50
  }

  /** The up-to-50-characters-each-side excerpt of the original body around
      the first case-insensitive occurrence of `indicator`. */
  function Context(body: string, indicator: string): (r: string)
    requires IsSubstring(indicator, Lower(body))
    ensures |r| <= |indicator| + 100
    ensures IsSubstring(indicator, Lower(r))
    ensures r == body[ContextStart(body, indicator)..ContextEnd(body, indicator)]
  {
    var i := IndexOf(Lower(body), indicator);
    var lo := ContextStart(body, indicator);
    var hi := ContextEnd(body, indicator);
    var r := body[lo..hi];
    SliceKeepsOccurrence(body, lo, hi, indicator, i);
    r
  }

  /** `_check_bot_indicators`: the first indicator of the list found in the
      lower-cased body decides. */
  function CheckBotIndicators(body: string): (r: Verdict<Reason>)
    ensures r.Valid? <==> forall k :: 0 <= k < |BotIndicators| ==> !IsSubstring(BotIndicators[k], Lower(body))
    ensures r.Invalid? ==>
      exists k :: 0 <= k < |BotIndicators| && IsSubstring(BotIndicators[k], Lower(body)) &&
        (forall j :: 0 <= j < k ==> !IsSubstring(BotIndicators[j], Lower(body))) &&
        r.reason == BotIndicator(BotIndicators[k], Context(body, BotIndicators[k]))
  {
    FirstIndicator(BotIndicators, body)
  }

  /** The scan behind `_check_bot_indicators`, for any indicator list. */
  function FirstIndicator(indicators: seq<string>, body: string): (r: Verdict<Reason>)
    ensures r.Valid? <==> forall k :: 0 <= k < |indicators| ==> !IsSubstring(indicators[k], Lower(body))
    ensures r.Invalid? ==>
      exists k :: 0 <= k < |indicators| && IsSubstring(indicators[k], Lower(body)) &&
        (forall j :: 0 <= j < k ==> !IsSubstring(indicators[j], Lower(body))) &&
        r.reason == BotIndicator(indicators[k], Context(body, indicators[k]))
  {
    var lower := Lower(body);
    match FirstWhere(indicators, (ind: string) => Contains(lower, ind))
    case None => Valid
    case Some(k) => Invalid(BotIndicator(indicators[k], Context(body, indicators[k])))
  }

  /** A body mentioning "captcha" in any letter case fails, naming it. */
  lemma CaptchaAlwaysReported(body: string)
    requires IsSubstring("captcha", Lower(body))
    ensures CheckBotIndicators(body) == Invalid(BotIndicator("captcha", Context(body, "captcha")))
  {
    var r := CheckBotIndicators(body);
    var k :| 0 <= k < |BotIndicators| && IsSubstring(BotIndicators[k], Lower(body)) &&
      (forall j :: 0 <= j < k ==> !IsSubstring(BotIndicators[j], Lower(body))) &&
      r.reason == BotIndicator(BotIndicators[k], Context(body, BotIndicators[k]));
    assert k == 0;
  }

  // ---------------------------------------------------------------------
  // Required markers
  // ---------------------------------------------------------------------

  /** The markers absent from the body, in configured order. */
  function Missing(markers: seq<string>, body: string): seq<string>
    decreases |markers|
  {
    if markers == [] then []
    else
      var last := markers[|markers| - 1];
      Missing(markers[..|markers| - 1], body) + (if Contains(body, last) then [] else [last])
  }

  /** A marker is reported exactly when it is configured and absent, so no
      missing marker is omitted and no present one is listed. */
  lemma {:induction false} MissingIsExactlyTheAbsentMarkers(markers: seq<string>, body: string)
    ensures |Missing(markers, body)| <= |markers|
    ensures forall m :: m in Missing(markers, body) <==> m in markers && !IsSubstring(m, body)
    decreases |markers|
  {
    if markers != [] {
      var init := markers[..|markers| - 1];
      MissingIsExactlyTheAbsentMarkers(init, body);
      assert markers == init + [markers[|markers| - 1]];
    }
  }

  function RequiredMarkersVerdict(markers: seq<string>, body: string): (r: Verdict<Reason>)
    ensures r.Valid? <==> forall k :: 0 <= k < |markers| ==> IsSubstring(markers[k], body)
    ensures r.Invalid? ==> r.reason == MissingMarkers(Missing(markers, body))
  {
    MissingIsExactlyTheAbsentMarkers(markers, body);
    assert Missing(markers, body) != [] <==> exists k :: 0 <= k < |markers| && !IsSubstring(markers[k], body) by {
      if Missing(markers, body) != [] {
        var m := Missing(markers, body)[0];
        assert m in Missing(markers, body);
        var k :| 0 <= k < |markers| && markers[k] == m;
      }
      if exists k :: 0 <= k < |markers| && !IsSubstring(markers[k], body) {
        var k :| 0 <= k < |markers| && !IsSubstring(markers[k], body);
        assert markers[k] in markers;
      }
    }
    if Missing(markers, body) == [] then Valid else Invalid(MissingMarkers(Missing(markers, body)))
  }

  /** `_check_required_markers`: collects every missing marker. */
  method CheckRequiredMarkers(markers: seq<string>, body: string) returns (v: Verdict<Reason>)
    ensures v == RequiredMarkersVerdict(markers, body)
  {
    if markers == [] {
      return Valid;
    }
    var missing: seq<string> := [];
    var i := 0;
    while i < |markers|
      invariant 0 <= i <= |markers|
      invariant missing == Missing(markers[..i], body)
    {
      assert markers[..i + 1][..i] == markers[..i];
      if !Contains(body, markers[i]) {
        missing := missing + [markers[i]];
      }
      i := i + 1;
    }
    assert markers[..i] == markers;
    if missing != [] {
      return Invalid(MissingMarkers(missing));
    }
    return Valid;
  }

  // ---------------------------------------------------------------------
  // Signature tables: JS placeholders and embedded data
  // ---------------------------------------------------------------------

  /** A literal pattern searched for case-insensitively, with the
      description reported when it is found. */
  datatype Signature = Signature(pattern: string, description: string)

  const JsPlaceholderSignatures: seq<Signature> := [
    Signature("data-reactroot", "React root"),
    Signature("id=\"root\"", "React/Vue root element"),
    Signature("id=\"app\"", "Vue/SPA app element"),
    Signature("data-vue-app", "Vue app"),
    Signature("ng-app", "Angular app"),
    Signature("ng-version", "Angular framework"),
    Signature("<div id=\"root\"></div>", "Empty React root"),
    Signature("<div id=\"app\"></div>", "Empty app container"),
    Signature("<main></main>", "Empty main element"),
    Signature("skeleton-loader", "Skeleton loading state"),
    Signature("placeholder-glow", "Placeholder animation"),
    Signature("spinner", "Loading spinner")
  ]

  const EmptyRootDescription := "Single empty div with scripts (SPA pattern)"

  const DataEmbeddingSignatures: seq<Signature> := [
    Signature("type=\"application/json\"", "JSON script tag"),
    Signature("type=\"application/ld+json\"", "JSON-LD structured data"),
    Signature("__initial_state__", "Initial state data"),
    Signature("__preloaded_state__", "Preloaded state"),
    Signature("window.__data__", "Window data object"),
    Signature("id=\"__next_data__\"", "Next.js data"),
    Signature("__next_data__", "Next.js SSR data"),
    Signature("window.__initial_data__", "Initial data")
  ]

  /** The descriptions of the table entries whose lower-cased pattern occurs
      in `lowerBody`, in table order. */
  function Matched(table: seq<Signature>, lowerBody: string): seq<string>
    decreases |table|
  {
    if table == [] then []
    else
      var last := table[|table| - 1];
      Matched(table[..|table| - 1], lowerBody) +
        (if Contains(lowerBody, Lower(last.pattern)) then [last.description] else [])
  }

  /** Nothing is matched exactly when no pattern occurs, and every matching
      entry contributes its description. */
  lemma {:induction false} MatchedIsTheOccurringEntries(table: seq<Signature>, lowerBody: string)
    ensures Matched(table, lowerBody) == [] <==>
      forall k :: 0 <= k < |table| ==> !IsSubstring(Lower(table[k].pattern), lowerBody)
    ensures forall k :: 0 <= k < |table| && IsSubstring(Lower(table[k].pattern), lowerBody) ==>
      table[k].description in Matched(table, lowerBody)
    ensures forall d :: d in Matched(table, lowerBody) ==>
      exists k :: 0 <= k < |table| && IsSubstring(Lower(table[k].pattern), lowerBody) && table[k].description == d
  {
    forall d
      ensures d in Matched(table, lowerBody) <==>
        exists k :: 0 <= k < |table| && IsSubstring(Lower(table[k].pattern), lowerBody) && table[k].description == d
    {
      MatchedMember(table, lowerBody, d);
    }
    assert forall k :: 0 <= k < |table| && IsSubstring(Lower(table[k].pattern), lowerBody) ==>
      table[k].description in Matched(table, lowerBody);
    if Matched(table, lowerBody) != [] {
      assert Matched(table, lowerBody)[0] in Matched(table, lowerBody);
    }
  }

  /** One description is collected exactly when some occurring entry has it. */
  lemma {:induction false} MatchedMember(table: seq<Signature>, lowerBody: string, d: string)
    ensures d in Matched(table, lowerBody) <==>
      exists k :: 0 <= k < |table| && IsSubstring(Lower(table[k].pattern), lowerBody) && table[k].description == d
    decreases |table|
  {
    if table != [] {
      var init := table[..|table| - 1];
      MatchedMember(init, lowerBody, d);
      assert forall k :: 0 <= k < |init| ==> table[k] == init[k];
    }
  }

  /** The accumulating loop shared by `_check_js_placeholders` and
      `_check_embedded_data`. */
  method CollectDescriptions(table: seq<Signature>, lowerBody: string) returns (found: seq<string>)
    ensures found == Matched(table, lowerBody)
  {
    found := [];
    var i := 0;
    while i < |table|
      invariant 0 <= i <= |table|
      invariant found == Matched(table[..i], lowerBody)
    {
      assert table[..i + 1][..i] == table[..i];
      if Contains(lowerBody, Lower(table[i].pattern)) {
        found := found + [table[i].description];
      }
      i := i + 1;
    }
    assert table[..i] == table;
  }

  function PlaceholderFindings(body: string, emptyRoot: bool): seq<string>
  {
    Matched(JsPlaceholderSignatures, Lower(body)) + (if emptyRoot then [EmptyRootDescription] else [])
  }

  /** `_check_js_placeholders`: any framework or skeleton marker, or the
      empty-root SPA pattern, fails; at most three findings are reported,
      the earliest in table order. */
  function JsPlaceholdersVerdict(body: string, emptyRoot: bool): (r: Verdict<Reason>)
    ensures r.Valid? <==>
      !emptyRoot &&
      forall k :: 0 <= k < |JsPlaceholderSignatures| ==>
        !IsSubstring(Lower(JsPlaceholderSignatures[k].pattern), Lower(body))
    ensures r.Invalid? ==>
      r.reason.JsPlaceholders? && 0 < |r.reason.descriptions| <= 3 &&
      r.reason.descriptions <= PlaceholderFindings(body, emptyRoot)
    ensures r.Invalid? ==> r.reason == JsPlaceholders(Take(PlaceholderFindings(body, emptyRoot), 3))
  {
    MatchedIsTheOccurringEntries(JsPlaceholderSignatures, Lower(body));
    var detected := PlaceholderFindings(body, emptyRoot);
    if detected != [] then Invalid(JsPlaceholders(Take(detected, 3))) else Valid
  }

  method CheckJsPlaceholders(body: string, emptyRoot: bool) returns (v: Verdict<Reason>)
    ensures v == JsPlaceholdersVerdict(body, emptyRoot)
  {
    var detected := CollectDescriptions(JsPlaceholderSignatures, Lower(body));
    if emptyRoot {
      detected := detected + [EmptyRootDescription];
    }
    assert detected == PlaceholderFindings(body, emptyRoot);
    if detected != [] {
      return Invalid(JsPlaceholders(Take(detected, 3)));
    }
    return Valid;
  }

  /** `_check_embedded_data`: hydration data is present but under 500
      characters of it were rendered as visible text. */
  function EmbeddedDataVerdict(body: string, visibleLength: nat): (r: Verdict<Reason>)
    ensures r.Invalid? <==>
      visibleLength < 500 &&
      exists k :: 0 <= k < |DataEmbeddingSignatures| && IsSubstring(Lower(DataEmbeddingSignatures[k].pattern), Lower(body))
    ensures r.Invalid? ==> r.reason == EmbeddedData(Take(Matched(DataEmbeddingSignatures, Lower(body)), 2))
  {
    MatchedIsTheOccurringEntries(DataEmbeddingSignatures, Lower(body));
    var found := Matched(DataEmbeddingSignatures, Lower(body));
    if found != [] && visibleLength < 500 then Invalid(EmbeddedData(Take(found, 2))) else Valid
  }

  method CheckEmbeddedData(body: string, visibleLength: nat) returns (v: Verdict<Reason>)
    ensures v == EmbeddedDataVerdict(body, visibleLength)
  {
    var found := CollectDescriptions(DataEmbeddingSignatures, Lower(body));
    if found != [] && visibleLength < 500 {
      return Invalid(EmbeddedData(Take(found, 2)));
    }
    return Valid;
  }

  // ---------------------------------------------------------------------
  // Content density
  // ---------------------------------------------------------------------

  /** `html.lower().count('<script')`. */
  function ScriptCount(body: string): nat
  {
    Count(Lower(body), "<script")
  }

  /** The first density rule: a page over 1000 characters whose text share
      is below the configured minimum. */
  predicate SparseText(minRatio: real, textLength: nat, total: nat)
  {
    textLength as real < minRatio * total as real && total > 1000
  }

  /** The second density rule: over 15 scripts and under 15% text. */
  predicate ScriptHeavy(scripts: nat, textLength: nat, total: nat)
  {
    scripts > 15 && 20 * textLength < 3 * total
  }

  /** `_check_content_density`: text ratio against the configured minimum
      for large pages, then many scripts with under 15% text. The ratio is
      compared as an exact fraction. */
  function CheckContentDensity(cfg: Config, body: string, textLength: nat): (r: Verdict<Reason>)
    ensures |body| == 0 ==> r == Invalid(EmptyHtml)
    ensures |body| > 0 ==>
      (r.Valid? <==> !SparseText(cfg.minTextRatio, textLength, |body|) && !ScriptHeavy(ScriptCount(body), textLength, |body|))
    ensures |body| > 0 && SparseText(cfg.minTextRatio, textLength, |body|) ==>
      r == Invalid(LowContentDensity(textLength, |body|, ScriptCount(body)))
    ensures (|body| > 0 && !SparseText(cfg.minTextRatio, textLength, |body|) &&
      ScriptHeavy(ScriptCount(body), textLength, |body|)) ==>
      r == Invalid(HeavyJsUsage(ScriptCount(body), textLength, |body|))
  {
    if |body| == 0 then Invalid(EmptyHtml)
    else DensityVerdict(cfg.minTextRatio, textLength, |body|, ScriptCount(body))
  }

  /** The two density rules on a non-empty page, the first one winning. */
  function DensityVerdict(minRatio: real, textLength: nat, total: nat, scripts: nat): (r: Verdict<Reason>)
    requires total > 0
    ensures r.Valid? <==> !SparseText(minRatio, textLength, total) && !ScriptHeavy(scripts, textLength, total)
    ensures SparseText(minRatio, textLength, total) ==> r == Invalid(LowContentDensity(textLength, total, scripts))
    ensures !SparseText(minRatio, textLength, total) && ScriptHeavy(scripts, textLength, total) ==>
      r == Invalid(HeavyJsUsage(scripts, textLength, total))
  {
    var ratio := textLength as real / total as real;
    RatioBelow(textLength, total, minRatio);
    RatioBelow(textLength, total, 0.15);
    if ratio < minRatio && total > 1000 then Invalid(LowContentDensity(textLength, total, scripts))
    else if scripts > 15 && ratio < 0.15 then Invalid(HeavyJsUsage(scripts, textLength, total))
    else Valid
  }

  lemma RatioBelow(text: nat, total: nat, bound: real)
    requires total > 0
    ensures text as real / total as real < bound <==> text as real < bound * total as real
  {
    var q := text as real / total as real;
    assert q * total as real == text as real;
  }

  /** A page over 1000 characters whose visible text is under 5% of it fails
      the density check under the default ratio. */
  lemma SparsePageFailsDensity(body: string, textLength: nat)
    requires |body| > 1000 && 20 * textLength < |body|
    ensures CheckContentDensity(DefaultConfig.(checkJsRendering := true), body, textLength).Invalid?
  {
  }

  // ---------------------------------------------------------------------
  // The pipeline
  // ---------------------------------------------------------------------

  /** The checks `check_response` runs whatever the configuration, in their
      fixed order. */
  function BaseStages(cfg: Config, snap: Snapshot): seq<Verdict<Reason>>
  {
    [ CheckStatus(snap.status),
      CheckSuspiciousStatus(snap.status),
      CheckHeaders(snap.headers),
      CheckContentType(cfg, snap.headers),
      CheckRedirects(snap.history),
      CheckContentLength(cfg, snap.body),
      CheckBotIndicators(snap.body),
      RequiredMarkersVerdict(cfg.requiredMarkers, snap.body) ]
  }

  /** The three rendering checks, run only when `check_js_rendering` is set. */
  function RenderingStages(cfg: Config, snap: Snapshot, facts: RegexFacts): seq<Verdict<Reason>>
  {
    if cfg.checkJsRendering then
      [ JsPlaceholdersVerdict(snap.body, facts.emptyRootBeforeScripts),
        CheckContentDensity(cfg, snap.body, facts.densityTextLength),
        EmbeddedDataVerdict(snap.body, facts.visibleTextLength) ]
    else []
  }

  /** The checks of `check_response` in their fixed order. */
  function Stages(cfg: Config, snap: Snapshot, facts: RegexFacts): seq<Verdict<Reason>>
  {
    BaseStages(cfg, snap) + RenderingStages(cfg, snap, facts)
  }

  /** The verdict of `check_response`: the first failing stage's reason. */
  function Evaluate(cfg: Config, snap: Snapshot, facts: RegexFacts): Verdict<Reason>
  {
    FirstFailure(Stages(cfg, snap, facts))
  }

  /** `Evaluate` written out as the chain of early returns. */
  lemma EvaluateUnfolds(cfg: Config, snap: Snapshot, facts: RegexFacts)
    ensures Evaluate(cfg, snap, facts) ==
      Then(CheckStatus(snap.status),
      Then(CheckSuspiciousStatus(snap.status),
      Then(CheckHeaders(snap.headers),
      Then(CheckContentType(cfg, snap.headers),
      Then(CheckRedirects(snap.history),
      Then(CheckContentLength(cfg, snap.body),
      Then(CheckBotIndicators(snap.body),
      Then(RequiredMarkersVerdict(cfg.requiredMarkers, snap.body),
      if !cfg.checkJsRendering then Valid else
      Then(JsPlaceholdersVerdict(snap.body, facts.emptyRootBeforeScripts),
      Then(CheckContentDensity(cfg, snap.body, facts.densityTextLength),
      EmbeddedDataVerdict(snap.body, facts.visibleTextLength)))))))))))
  {
    FirstFailureOfEight(
      CheckStatus(snap.status),
      CheckSuspiciousStatus(snap.status),
      CheckHeaders(snap.headers),
      CheckContentType(cfg, snap.headers),
      CheckRedirects(snap.history),
      CheckContentLength(cfg, snap.body),
      CheckBotIndicators(snap.body),
      RequiredMarkersVerdict(cfg.requiredMarkers, snap.body),
      RenderingStages(cfg, snap, facts));
    FirstFailureOfThree(
      JsPlaceholdersVerdict(snap.body, facts.emptyRootBeforeScripts),
      CheckContentDensity(cfg, snap.body, facts.densityTextLength),
      EmbeddedDataVerdict(snap.body, facts.visibleTextLength));
  }

  /** `check_response`: the early-return sequence of checks. */
  method CheckResponse(cfg: Config, snap: Snapshot, facts: RegexFacts) returns (v: Verdict<Reason>)
    ensures v == Evaluate(cfg, snap, facts)
  {
    EvaluateUnfolds(cfg, snap, facts);
    v := CheckStatus(snap.status);
    if v.Invalid? { return; }
    v := CheckSuspiciousStatus(snap.status);
    if v.Invalid? { return; }
    v := CheckHeaders(snap.headers);
    if v.Invalid? { return; }
    v := CheckContentType(cfg, snap.headers);
    if v.Invalid? { return; }
    v := CheckRedirects(snap.history);
    if v.Invalid? { return; }
    v := CheckContentLength(cfg, snap.body);
    if v.Invalid? { return; }
    v := CheckBotIndicators(snap.body);
    if v.Invalid? { return; }
    v := CheckRequiredMarkers(cfg.requiredMarkers, snap.body);
    if v.Invalid? { return; }
    if cfg.checkJsRendering {
      v := CheckJsPlaceholders(snap.body, facts.emptyRootBeforeScripts);
      if v.Invalid? { return; }
      v := CheckContentDensity(cfg, snap.body, facts.densityTextLength);
      if v.Invalid? { return; }
      v := CheckEmbeddedData(snap.body, facts.visibleTextLength);
      if v.Invalid? { return; }
    }
    return Valid;
  }


  // ---------------------------------------------------------------------
  // Properties of the whole pipeline
  // ---------------------------------------------------------------------

  /** The response passes exactly when every stage that runs passes, and a
      failure is the reason of the earliest failing stage. */
  lemma PipelineReportsEarliestFailure(cfg: Config, snap: Snapshot, facts: RegexFacts)
    ensures Evaluate(cfg, snap, facts).Valid? <==>
      forall i :: 0 <= i < |Stages(cfg, snap, facts)| ==> Stages(cfg, snap, facts)[i].Valid?
    ensures Evaluate(cfg, snap, facts).Invalid? ==>
      exists k :: 0 <= k < |Stages(cfg, snap, facts)| &&
        Stages(cfg, snap, facts)[k] == Evaluate(cfg, snap, facts) &&
        forall i :: 0 <= i < k ==> Stages(cfg, snap, facts)[i].Valid?
  {
    FirstFailureIsEarliest(Stages(cfg, snap, facts));
  }

  /** The status gate: a non-2xx status is reported as an HTTP error and a
      2xx 203 or 204 as suspicious, before any other check; a passing
      response has a 2xx status other than those two. */
  lemma StatusGate(cfg: Config, snap: Snapshot, facts: RegexFacts)
    ensures !(200 <= snap.status <= 299) ==> Evaluate(cfg, snap, facts) == Invalid(HttpError(snap.status))
    ensures snap.status == 203 || snap.status == 204 ==>
      Evaluate(cfg, snap, facts) == Invalid(SuspiciousStatus(snap.status))
    ensures Evaluate(cfg, snap, facts).Valid? ==>
      200 <= snap.status <= 299 && snap.status != 203 && snap.status != 204
  {
    EvaluateUnfolds(cfg, snap, facts);
  }

  /** With `check_js_rendering` off, the rendering facts never influence the
      verdict, and a response passing the base checks passes. */
  lemma RenderingChecksGated(cfg: Config, snap: Snapshot, facts: RegexFacts, other: RegexFacts)
    requires !cfg.checkJsRendering
    ensures Evaluate(cfg, snap, facts) == Evaluate(cfg, snap, other)
    ensures Evaluate(cfg, snap, facts) == FirstFailure(BaseStages(cfg, snap))
  {
    EvaluateUnfolds(cfg, snap, facts);
    EvaluateUnfolds(cfg, snap, other);
    assert Stages(cfg, snap, facts) == BaseStages(cfg, snap);
  }

  /** An empty body never passes, whatever the configuration. */
  lemma EmptyBodyFails(cfg: Config, snap: Snapshot, facts: RegexFacts)
    requires snap.body == ""
    ensures Evaluate(cfg, snap, facts).Invalid?
  {
    EvaluateUnfolds(cfg, snap, facts);
  }

  /** A history that revisits a URL is a loop even when its hops also carry
      challenge keywords or blocking statuses. */
  lemma RevisitIsLoop()
    ensures CheckRedirects([Hop("https://a/captcha", 302), Hop("https://b", 403), Hop("https://a/captcha", 302)])
      == Invalid(RedirectLoop)
  {
    var h := [Hop("https://a/captcha", 302), Hop("https://b", 403), Hop("https://a/captcha", 302)];
    assert h[0].url == h[2].url;
  }

  /** Six clean, distinct hops are too many. */
  lemma SixHopsAreTooMany()
    ensures CheckRedirects([Hop("a", 301), Hop("b", 301), Hop("c", 301), Hop("d", 301), Hop("e", 301), Hop("f", 301)])
      == Invalid(TooManyRedirects(6))
  {
    var h := [Hop("a", 301), Hop("b", 301), Hop("c", 301), Hop("d", 301), Hop("e", 301), Hop("f", 301)];
    assert !RepeatsUrl(h);
    forall k | 0 <= k < |h| ensures HopProblem(h[k]).None? {
      CleanUrl(h[k].url);
    }
  }

  /** A one-character URL contains none of the challenge keywords. */
  lemma CleanUrl(url: string)
    requires |url| == 1
    ensures forall w :: w in RedirectKeywords ==> !IsSubstring(w, Lower(url))
  {
    forall w, i | w in RedirectKeywords ensures !OccursAt(w, Lower(url), i) {
    }
  }
}
