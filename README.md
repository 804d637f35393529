# Response-validity heuristics for scraped pages

This project models the two heuristic detectors that decide whether a fetched
page that looks successful is really a soft failure, and proves what each
check and each pipeline promises.

- `ScrapingFailureDetector` (`scraping_failure_detection.dfy`, module
  `ScrapingFailureDetection`) looks at a response snapshot. The snapshot holds
  the status, the headers, the redirect history and the decoded body. The
  detector runs these checks in a fixed order, and the first failure wins:
  1. the status gate, including the 203/204 soft-block rule;
  2. the protection-header table;
  3. the content type;
  4. the redirect chain: loops, challenge keywords, blocking statuses, hop count;
  5. the content length;
  6. anti-bot keywords, reported with a context excerpt;
  7. the required markers;
  8. only when `check_js_rendering` is set: framework placeholders, text
     density, and embedded hydration data.
- `DynamicContentDetector` (`detect_missing_dynamic_content.dfy`, module
  `DynamicContentDetection`) looks for content a browser would have loaded
  with JavaScript. Its checks, in order:
  1. recurring lazy-load placeholders;
  2. pagination left unloaded;
  3. too few list items;
  4. expected patterns that are missing or uniform (placeholder values);
  5. noscript fallbacks;
  6. incomplete JSON-LD records.

Each check returns a `Verdict`: `Valid`, or `Invalid(reason)` where the
reason is a structured value. The structured value has one constructor per
diagnostic message and carries the values that message shows.

Shared modules:
- `Basics` holds `Option`, `Verdict`, `Take` (Python's `s[:n]`), the
  first-match scan `FirstWhere`, and the first-failure combinator
  `FirstFailure`.
- `Text` holds ASCII lower-casing and substring search, specified against
  the reference predicate `IsSubstring`. It also models `str.find`,
  non-overlapping `str.count` and `str.join`.
- `JsonValues` holds the values `json.loads` produces, with Python
  truthiness and a `Malformed` payload for decode errors.

Each accumulating loop of the source is a method proved equal to a
specification function. These loops are the missing-marker, placeholder,
embedded-data and lazy-loading loops, and the running maximum of the item
count. Each early-return scan is a function. Each pipeline is a method whose
result is proved equal to `FirstFailure` of its list of enabled stages.

Two behaviours of the source worth knowing:
- A single-string header entry fires on any non-empty value of that header.
  Its table string is only the name it reports
  (examples/scraping_failure_detection.py:157-165).
- The two detectors are separate pipelines, each with its own order of
  checks.

## Model

| member | source | states |
|---|---|---|
| ScrapingFailureDetection.StatusGate | examples/scraping_failure_detection.py:95-101 | a non-2xx status is reported as an HTTP error before any other check, 203 and 204 as suspicious, and a passing response has a 2xx status other than 203/204 |
| ScrapingFailureDetection.CheckHeaders | examples/scraping_failure_detection.py:155-167 | the header check passes iff no table entry fires, and otherwise reports the reason of the first entry, in table order, that fires |
| ScrapingFailureDetection.SingleStringEntryFires | examples/scraping_failure_detection.py:157-165 | each of cf-ray, cf-mitigated, x-datadome-cid, x-distil-cs fires iff its value is non-empty, whatever the value, and names its protection system |
| ScrapingFailureDetection.ServerEntryFires | examples/scraping_failure_detection.py:158-163 | the server entry fires iff its lower-cased value contains akamai, cloudflare or imperva, and reports the first of them in list order |
| ScrapingFailureDetection.SingleStringHeaderFails | examples/scraping_failure_detection.py:157-165 | a non-empty single-string header fails the whole header check, the earliest such header in table order being reported |
| ScrapingFailureDetection.ServerHeaderDecides | examples/scraping_failure_detection.py:157-167 | with the four single-string headers empty, the check fails iff the server value names a vendor, and an absent or empty server header passes |
| ScrapingFailureDetection.CheckContentType | examples/scraping_failure_detection.py:169-176 | fails iff a content type is expected and is not a case-sensitive substring of the content-type header (a missing header reads as empty), reporting both values |
| ScrapingFailureDetection.DistinctUrlCount | examples/scraping_failure_detection.py:184-186 | the set of hop URLs is smaller than the history exactly when some URL repeats, so the length comparison detects loops |
| ScrapingFailureDetection.HopProblem | examples/scraping_failure_detection.py:189-197 | a hop is clean iff its lower-cased URL has no challenge keyword and its status is not 503/403/429; a keyword reports the hop's URL as a suspicious redirect, before the status is looked at; a keyword-free hop with a blocking status reports that status |
| ScrapingFailureDetection.CheckRedirects | examples/scraping_failure_detection.py:178-203 | a repeated URL is a loop whatever the hops carry; otherwise the first problem hop is reported; more than 5 hops fails only when nothing earlier fired; passes iff none of these |
| ScrapingFailureDetection.RevisitIsLoop | examples/scraping_failure_detection.py:183-186 | a history revisiting a URL whose hops also carry a keyword and a blocking status is reported as a loop |
| ScrapingFailureDetection.SixHopsAreTooMany | examples/scraping_failure_detection.py:199-201 | six clean, distinct hops fail as too many redirects, counting 6 |
| ScrapingFailureDetection.CheckContentLength | examples/scraping_failure_detection.py:205-219 | an empty body always fails; a non-empty body passes iff it reaches the minimum and, when a non-zero maximum is set, stays within it; a short body reports its length and the minimum, a long one (reaching the minimum) its length and the maximum, and an empty body that breaks neither bound reports an empty body |
| ScrapingFailureDetection.Context | examples/scraping_failure_detection.py:227-230 | the excerpt is the original body from 50 characters before the first case-insensitive occurrence to 50 characters after its end, clipped to the body; so it spans at most 50 characters either side and still contains the indicator case-insensitively |
| ScrapingFailureDetection.CheckBotIndicators | examples/scraping_failure_detection.py:221-235 | fails iff some indicator occurs in the lower-cased body, reporting the first indicator in list order with its context excerpt |
| ScrapingFailureDetection.CaptchaAlwaysReported | examples/scraping_failure_detection.py:225-233 | a body mentioning "captcha" in any letter case fails naming "captcha" |
| ScrapingFailureDetection.MissingIsExactlyTheAbsentMarkers | examples/scraping_failure_detection.py:241-245 | a marker is in the missing list iff it is configured and not a case-sensitive substring of the body |
| ScrapingFailureDetection.RequiredMarkersVerdict | examples/scraping_failure_detection.py:237-250 | passes iff every configured marker occurs in the body, and otherwise reports the missing markers |
| ScrapingFailureDetection.CheckRequiredMarkers | examples/scraping_failure_detection.py:237-250 | the appending loop computes exactly the required-markers verdict |
| ScrapingFailureDetection.MatchedIsTheOccurringEntries | examples/scraping_failure_detection.py:273-275 | nothing is collected iff no lower-cased pattern occurs; every occurring entry contributes its description, and every collected description belongs to an occurring entry |
| ScrapingFailureDetection.CollectDescriptions | examples/scraping_failure_detection.py:273-275 | the appending loop collects exactly the descriptions of the occurring entries in table order |
| ScrapingFailureDetection.JsPlaceholdersVerdict | examples/scraping_failure_detection.py:252-286 | fails iff a framework or skeleton marker occurs or the empty-root pattern matched, reporting exactly the first three findings (table order, then the empty root) |
| ScrapingFailureDetection.CheckJsPlaceholders | examples/scraping_failure_detection.py:252-286 | the loop-and-append implementation computes exactly the placeholder verdict |
| ScrapingFailureDetection.EmbeddedDataVerdict | examples/scraping_failure_detection.py:318-348 | fails iff some hydration-data marker occurs and the visible text is under 500 characters, reporting the first two markers found |
| ScrapingFailureDetection.CheckEmbeddedData | examples/scraping_failure_detection.py:318-348 | the loop-and-append implementation computes exactly the embedded-data verdict |
| ScrapingFailureDetection.CheckContentDensity | examples/scraping_failure_detection.py:288-316 | an empty body fails; otherwise it passes iff neither (ratio below the minimum and over 1000 characters) nor (over 15 scripts and under 15% text); the first rule reports text, total and scripts, and the second, when the first does not fire, reports scripts, text and total |
| ScrapingFailureDetection.SparsePageFailsDensity | examples/scraping_failure_detection.py:309-310 | under the default 5% ratio, a page over 1000 characters with under 5% text fails |
| ScrapingFailureDetection.EvaluateUnfolds | examples/scraping_failure_detection.py:84-153 | the first failure of the stage list is the chain of early returns of check_response in its fixed order |
| ScrapingFailureDetection.CheckResponse | examples/scraping_failure_detection.py:84-153 | the early-return orchestrator returns exactly the first failing stage's verdict, or Valid |
| ScrapingFailureDetection.PipelineReportsEarliestFailure | examples/scraping_failure_detection.py:84-153 | a response passes iff every enabled stage passes, and a failure is the earliest failing stage's reason |
| ScrapingFailureDetection.RenderingChecksGated | examples/scraping_failure_detection.py:139-153 | with check_js_rendering off, the rendering facts cannot change the verdict, which is that of the base stages |
| ScrapingFailureDetection.EmptyBodyFails | examples/scraping_failure_detection.py:124-127 | an empty body never passes, whatever the configuration |
| DynamicContentDetection.OffendersAreTheRecurringIndicators | examples/detect_missing_dynamic_content.py:108-115 | an indicator is reported iff it occurs more than three times, with its count, and earlier table entries come first |
| DynamicContentDetection.LazyLoadingVerdict | examples/detect_missing_dynamic_content.py:90-120 | fails iff some indicator's count exceeds 3 (so exactly 3 is tolerated), reporting exactly the first three offenders in table order |
| DynamicContentDetection.CheckLazyLoading | examples/detect_missing_dynamic_content.py:90-120 | the counting loop computes exactly the lazy-loading verdict |
| DynamicContentDetection.SingleOffender | examples/detect_missing_dynamic_content.py:111-115 | when one indicator alone recurs, it is the whole report |
| DynamicContentDetection.TwoOffenders | examples/detect_missing_dynamic_content.py:111-118 | when exactly two indicators recur, both are reported, in table order |
| DynamicContentDetection.LazyImageExampleReported | examples/detect_missing_dynamic_content.py:359-366 | a page on which `data-src` and `placeholder.` each occur four times and no other indicator recurs (as on the example page) reports both the lazy images and the placeholder images, four times each; the example's printed result names only the first |
| DynamicContentDetection.MaxOf | examples/detect_missing_dynamic_content.py:145 | the maximum page number is one of the numbers and bounds all of them |
| DynamicContentDetection.LoadMoreVerdict | examples/detect_missing_dynamic_content.py:137-139 | fails iff some load-more pattern matches, reporting the first match of the first such pattern cut to 50 characters |
| DynamicContentDetection.PageNumberVerdict | examples/detect_missing_dynamic_content.py:142-150 | fails iff page numbers exist, the largest is 1, and a next-page affordance is present |
| DynamicContentDetection.ScrollVerdict | examples/detect_missing_dynamic_content.py:152-162 | fails iff a scroll trigger occurs case-insensitively, reporting the first in list order |
| DynamicContentDetection.PaginationVerdict | examples/detect_missing_dynamic_content.py:122-164 | passes iff no load-more match, not only-first-page, and no scroll trigger; "only first page" is reported iff no load-more matched and page 1 of several is shown |
| DynamicContentDetection.BestEstimate | examples/detect_missing_dynamic_content.py:179-186 | the estimate bounds every pattern's count, carries no name iff it is 0, and names the first pattern reaching the maximum |
| DynamicContentDetection.ItemCountVerdict | examples/detect_missing_dynamic_content.py:166-191 | fails iff the minimum is positive and every pattern counts fewer items, reporting the best estimate |
| DynamicContentDetection.CheckItemCount | examples/detect_missing_dynamic_content.py:166-191 | the running-maximum loop computes exactly the item-count verdict |
| DynamicContentDetection.OneDistinctValueIffAllSame | examples/detect_missing_dynamic_content.py:212-213 | a single distinct value among the matches is the same as all matches being equal |
| DynamicContentDetection.MostCommonCount | examples/detect_missing_dynamic_content.py:218-219 | the most common count bounds every value's multiplicity and is attained by some match |
| DynamicContentDetection.RatioAbove | examples/detect_missing_dynamic_content.py:220 | a share above 0.8 is exactly 5c > 4n |
| DynamicContentDetection.PatternProblem | examples/detect_missing_dynamic_content.py:203-221 | passes iff the count reaches the minimum and, from 5 matches on, the values are not all equal and no value exceeds 80%; each failure reports the documented reason |
| DynamicContentDetection.EntryProblem | examples/detect_missing_dynamic_content.py:196-203 | an entry with no or an empty pattern is skipped; otherwise its matches are judged |
| DynamicContentDetection.PatternsVerdict | examples/detect_missing_dynamic_content.py:193-223 | passes iff every entry passes, and otherwise reports the first failing entry in configured order |
| DynamicContentDetection.RepeatedValueFails | examples/detect_missing_dynamic_content.py:211-214 | five or more copies of one value, enough of them, fail as identical placeholders |
| DynamicContentDetection.TenZeroPricesFail | examples/detect_missing_dynamic_content.py:334-344 | ten captured "0.00" prices against a minimum of 10 fail as identical values |
| DynamicContentDetection.DistinctValuesPass | examples/detect_missing_dynamic_content.py:207-221 | enough pairwise distinct values (such as 25 different prices, or none at all when no minimum applies) pass |
| DynamicContentDetection.NoscriptVerdict | examples/detect_missing_dynamic_content.py:225-255 | over 1000 noscript characters fail first; otherwise it fails iff some message is in the lower body but not in the joined noscript text, reporting the first |
| DynamicContentDetection.MessageInsideNoscriptNeverFlagged | examples/detect_missing_dynamic_content.py:240-253 | a message found in any noscript section is never flagged, even when it also appears outside |
| DynamicContentDetection.PayloadDefect | examples/detect_missing_dynamic_content.py:263-288 | a payload is malformed iff it failed to parse; non-object payloads pass; a Product fails for its name iff the name is falsy, and for its price iff it is named and its offers (an empty object when absent) is an object with neither a truthy price nor a truthy lowPrice; an ItemList fails iff itemListElement is falsy; any other @type passes |
| DynamicContentDetection.StructuredDataVerdict | examples/detect_missing_dynamic_content.py:257-290 | passes iff every payload passes, and otherwise reports the first defective payload with its 1-based index |
| DynamicContentDetection.MalformedPayloadReported | examples/detect_missing_dynamic_content.py:287-288 | a malformed payload after acceptable ones is reported at index i+1 |
| DynamicContentDetection.NonObjectOffersUnchecked | examples/detect_missing_dynamic_content.py:276-279 | a named product whose offers is not an object is never checked for a price |
| DynamicContentDetection.ProductExamples | examples/detect_missing_dynamic_content.py:407-430 | the product whose offers carry a price passes, the one whose offers carry only a currency fails for the price |
| DynamicContentDetection.EvaluateUnfolds | examples/detect_missing_dynamic_content.py:46-88 | the first failure of the enabled stages is the chain of early returns of check_response in its fixed order |
| DynamicContentDetection.CheckResponse | examples/detect_missing_dynamic_content.py:46-88 | the early-return orchestrator returns exactly the first failing enabled stage's verdict, or Valid |
| DynamicContentDetection.PipelineReportsEarliestFailure | examples/detect_missing_dynamic_content.py:46-88 | a page passes iff every enabled stage passes, and a failure is the earliest failing stage's reason |
| DynamicContentDetection.DisabledStagesIgnored | examples/detect_missing_dynamic_content.py:52-88 | with both flags off, no item minimum and no patterns, only noscript then structured data decide |
| DynamicContentDetection.LazyLoadingDecidesFirst | examples/detect_missing_dynamic_content.py:52-56 | with lazy loading enabled, a recurring placeholder fails the page with the lazy-loading reason |
| DynamicContentDetection.DefaultsReportLazyLoadingFirst | examples/detect_missing_dynamic_content.py:25-31 | under the constructor's defaults (no item minimum, no patterns, both flags on), a recurring placeholder decides the page with the lazy-loading reason |
| Text.IndexOf | examples/scraping_failure_detection.py:229-230 | find returns -1 iff the pattern does not occur, and otherwise the first occurrence |
| Text.CountMeaning | examples/detect_missing_dynamic_content.py:112 | for a non-empty pattern the count is the number of non-overlapping occurrences: no left-to-right chain of non-overlapping occurrences is longer, and one has exactly that length; the count is positive iff the pattern occurs, an empty pattern counts len + 1, and counted occurrences fit inside the string |
| Text.Lower | examples/detect_missing_dynamic_content.py:108 | lower-casing keeps the length and maps each character on its own, changing only ASCII capitals |
| Text.Join | examples/detect_missing_dynamic_content.py:240 | the join starts with the first part and is as long as the parts plus one separator per gap; joining nothing gives the empty string |
| JsonValues.Truthy | examples/detect_missing_dynamic_content.py:273 | a parsed value is false exactly when it is null, false, zero, an empty string, an empty list or an empty object |
| JsonValues.TruthyAt | examples/detect_missing_dynamic_content.py:278 | a key is truthy in an object iff `get` (null when absent) returns a true value |
| ScrapingFailureDetection.CheckStatus | examples/scraping_failure_detection.py:95-96 | passes iff the status is 2xx, and otherwise reports the status as an HTTP error |
| ScrapingFailureDetection.CheckSuspiciousStatus | examples/scraping_failure_detection.py:98-101 | fails iff the status is 203 or 204, reporting it as suspicious |
| Text.SubstringOfJoin | examples/detect_missing_dynamic_content.py:240 | whatever occurs in one joined part occurs in the join |
| Basics.FirstFailureIsEarliest | examples/scraping_failure_detection.py:103-151 | a sequence of checks passes iff each passes, and otherwise yields the earliest failure |

## Left out

- The HTTP client and `await response.text()`, including the decode-failure branch of the scraping pipeline: the body is taken as already decoded text.
- The regular-expression engine. The scraping model takes three facts as inputs: whether the single-empty-div SPA pattern matched, and the two stripped-text lengths. The dynamic model takes `findall`, the list `re.findall` returns for each pattern; the captured page numbers, already converted by `int`; and the parsed JSON-LD payloads.
- Regular-expression flags: `findall` is a function of the pattern alone, while the source passes `re.DOTALL | re.IGNORECASE` with the noscript pattern and `re.IGNORECASE` with configured patterns. A configured pattern textually equal to the noscript pattern is therefore given the same match list here.
- `json.loads` itself: each payload is given as a parsed `Json` value or `Malformed`.
- Rendering of the diagnostic strings (f-strings, `{:.1%}` percentages, list repr): the reasons carry the interpolated values instead.
- IEEE floating point: the text ratio and the 80% share are exact rationals, stated in contracts cross-multiplied (`20 * text < 3 * total`, `5 * c > 4 * n`).
- Unicode case mapping: lower-casing is ASCII only, so `lower()` never changes a string's length here.
- Header lookup: headers are a map keyed by lower-case name, and an absent header reads as the empty value.
- Counter tie-breaking in `most_common`: only the count is modelled, because the message shows only the count.
- `example_*` functions and `main` of both files: they only print and build clients.
- DynamicContentDetection.PaginationVerdict: its contract states only the pass condition and the "only first page" case. Which load-more match and which scroll trigger are reported is stated on `LoadMoreVerdict` and `ScrollVerdict`, which it chains.
