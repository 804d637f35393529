/** `DynamicContentDetector`: decides whether a page that looks complete
    (a good size, real markup) is missing the content a browser would have
    loaded with JavaScript: lazy images and prices, further pages, list
    items, varied values, or complete JSON-LD records. Every check is a
    function of the body, of what the detector's regular expressions find in
    it, and of the configuration; the pipeline runs the enabled checks in a
    fixed order and stops at the first failure. */
module DynamicContentDetection {
  import opened Basics
  import opened Text
  import opened JsonValues

  // ---------------------------------------------------------------------
  // Data model
  // ---------------------------------------------------------------------

  /** One named entry of `expected_patterns`. `pattern` is `None` when the
      entry has no `pattern` key, and `minCount` is `None` when it has no
      `min_count` key. */
  datatype PatternSpec = PatternSpec(name: string, pattern: Option<string>, minCount: Option<int>)

  /** The detector's constructor arguments, fixed for its lifetime; the
      entries of `expected_patterns` are kept in the dictionary's order. */
  datatype DynamicConfig = DynamicConfig(
    minItemCount: Option<int>,
    expectedPatterns: seq<PatternSpec>,
    checkLazyLoading: bool,
    checkPagination: bool)

  const DefaultDynamicConfig := DynamicConfig(None, [], true, true)

  /** What the regular expressions and the JSON parser report about one body:
      - `findall(p)`: the list `re.findall(p, body, flags)` returns for the
        pattern `p`, under the flags the detector passes with `p`;
      - `pageNumbers`: the integers captured by `page[=\s]+(\d+)`;
      - `jsonLd`: `json.loads` of each stripped JSON-LD script content, in
        page order. */
  datatype PageFacts = PageFacts(
    findall: string -> seq<string>,
    pageNumbers: seq<nat>,
    jsonLd: seq<Payload>)

  /** A lazy-loading indicator found more than three times, with its count. */
  datatype Offender = Offender(description: string, count: nat)

  /** What is wrong with one JSON-LD payload. */
  datatype Defect = MalformedJsonLd | ProductMissingName | ProductMissingPrice | ItemListEmpty

  /** Why a page was judged incomplete: one constructor per diagnostic
      message, carrying every value the message shows. */
  datatype Reason =
    | UnloadedContent(offenders: seq<Offender>)
    | UnpaginatedContent(excerpt: string)
    | OnlyFirstPage
    | InfiniteScroll(pattern: string)
    | TooFewItems(found: nat, itemName: Option<string>, expected: int)
    | TooFewMatches(name: string, found: nat, expected: int)
    | IdenticalValues(name: string, value: string)
    | DominantValue(name: string, count: nat, total: nat)
    | LargeNoscript(total: nat)
    | JsRequiredMessage(message: string)
    | IncompleteStructuredData(index: nat, defect: Defect)

  // ---------------------------------------------------------------------
  // Lazy loading
  // ---------------------------------------------------------------------

  /** A literal indicator, searched for case-insensitively, with the
      description reported when it recurs. */
  datatype Indicator = Indicator(pattern: string, description: string)

  const LazyIndicators: seq<Indicator> := [
    Indicator("data-src", "Lazy-load images not loaded"),
    Indicator("data-lazy", "Lazy content pending"),
    Indicator("loading=\"lazy\"", "Native lazy loading"),
    Indicator("class=\"lazy", "Lazy load class"),
    Indicator("placeholder.", "Placeholder images"),
    Indicator("data:image/svg+xml", "SVG placeholder"),
    Indicator("blur-up", "Progressive image placeholder"),
    Indicator("skeleton", "Skeleton loading state"),
    Indicator("$0.00", "Unloaded price"),
    Indicator("$-.--", "Empty price placeholder"),
    Indicator("N/A", "Missing data placeholder"),
    Indicator("TBD", "To-be-determined placeholder")
  ]

  /** More occurrences than this suggest a systematic failure. */
  const LazyThreshold := 3

  /** `html_lower.count(indicator.lower())`. */
  function Occurrences(ind: Indicator, lowerBody: string): nat
  {
    Count(lowerBody, Lower(ind.pattern))
  }

  /** The indicators counted more than `LazyThreshold` times, in table order. */
  function Offenders(table: seq<Indicator>, lowerBody: string): seq<Offender>
    decreases |table|
  {
    if table == [] then []
    else
      var last := table[|table| - 1];
      var n := Occurrences(last, lowerBody);
      Offenders(table[..|table| - 1], lowerBody) +
        (if n > LazyThreshold then [Offender(last.description, n)] else [])
  }

  /** An indicator is an offender exactly when it occurs more than three
      times, with its count; offenders of earlier entries come first. */
  lemma {:induction false} OffendersAreTheRecurringIndicators(table: seq<Indicator>, lowerBody: string)
    ensures Offenders(table, lowerBody) == [] <==>
      forall k :: 0 <= k < |table| ==> Occurrences(table[k], lowerBody) <= LazyThreshold
    ensures forall o :: o in Offenders(table, lowerBody) <==>
      exists k :: 0 <= k < |table| && Occurrences(table[k], lowerBody) > LazyThreshold &&
        o == Offender(table[k].description, Occurrences(table[k], lowerBody))
    ensures forall i :: 0 <= i <= |table| ==> Offenders(table[..i], lowerBody) <= Offenders(table, lowerBody)
  {
    OffendersOfPrefix(table, lowerBody);
    forall o
      ensures o in Offenders(table, lowerBody) <==>
        exists k :: 0 <= k < |table| && Occurrences(table[k], lowerBody) > LazyThreshold &&
          o == Offender(table[k].description, Occurrences(table[k], lowerBody))
    {
      OffenderMember(table, lowerBody, o);
    }
    assert forall k :: 0 <= k < |table| && Occurrences(table[k], lowerBody) > LazyThreshold ==>
      Offender(table[k].description, Occurrences(table[k], lowerBody)) in Offenders(table, lowerBody);
    if Offenders(table, lowerBody) != [] {
      assert Offenders(table, lowerBody)[0] in Offenders(table, lowerBody);
    }
  }

  /** One offender is reported exactly when some entry recurs with it. */
  lemma {:induction false} OffenderMember(table: seq<Indicator>, lowerBody: string, o: Offender)
    ensures o in Offenders(table, lowerBody) <==>
      exists k :: 0 <= k < |table| && Occurrences(table[k], lowerBody) > LazyThreshold &&
        o == Offender(table[k].description, Occurrences(table[k], lowerBody))
    decreases |table|
  {
    if table != [] {
      var init := table[..|table| - 1];
      var last := table[|table| - 1];
      var n := Occurrences(last, lowerBody);
      OffenderMember(init, lowerBody, o);
      assert Offenders(table, lowerBody) ==
        Offenders(init, lowerBody) + (if n > LazyThreshold then [Offender(last.description, n)] else []);
      assert forall k :: 0 <= k < |init| ==> table[k] == init[k];
    }
  }

  /** The offenders of a prefix of the table are a prefix of its offenders. */
  lemma {:induction false} OffendersOfPrefix(table: seq<Indicator>, lowerBody: string)
    ensures forall i :: 0 <= i <= |table| ==> Offenders(table[..i], lowerBody) <= Offenders(table, lowerBody)
    decreases |table|
  {
    if table != [] {
      var init := table[..|table| - 1];
      OffendersOfPrefix(init, lowerBody);
      forall i | 0 <= i <= |table|
        ensures Offenders(table[..i], lowerBody) <= Offenders(table, lowerBody)
      {
        if i < |table| {
          assert table[..i] == init[..i];
        } else {
          assert table[..i] == table;
        }
      }
    }
  }

  /** `_check_lazy_loading`: fails exactly when some indicator occurs more
      than three times, reporting at most the first three offenders. */
  function LazyLoadingVerdict(body: string): (r: Verdict<Reason>)
    ensures r.Valid? <==>
      forall k :: 0 <= k < |LazyIndicators| ==> Occurrences(LazyIndicators[k], Lower(body)) <= LazyThreshold
    ensures r.Invalid? ==>
      r.reason.UnloadedContent? && 0 < |r.reason.offenders| <= 3 &&
      r.reason.offenders <= Offenders(LazyIndicators, Lower(body))
    ensures r.Invalid? ==> r.reason == UnloadedContent(Take(Offenders(LazyIndicators, Lower(body)), 3))
  {
    OffendersAreTheRecurringIndicators(LazyIndicators, Lower(body));
    var found := Offenders(LazyIndicators, Lower(body));
    if found != [] then Invalid(UnloadedContent(Take(found, 3))) else Valid
  }

  method CheckLazyLoading(body: string) returns (v: Verdict<Reason>)
    ensures v == LazyLoadingVerdict(body)
  {
    var lowerBody := Lower(body);
    var found: seq<Offender> := [];
    var i := 0;
    while i < |LazyIndicators|
      invariant 0 <= i <= |LazyIndicators|
      invariant found == Offenders(LazyIndicators[..i], lowerBody)
    {
      assert LazyIndicators[..i + 1][..i] == LazyIndicators[..i];
      var count := Count(lowerBody, Lower(LazyIndicators[i].pattern));
      if count > LazyThreshold {
        found := found + [Offender(LazyIndicators[i].description, count)];
      }
      i := i + 1;
    }
    assert LazyIndicators[..i] == LazyIndicators;
    if found != [] {
      return Invalid(UnloadedContent(Take(found, 3)));
    }
    return Valid;
  }

  /** When a single indicator recurs, it is the whole report. */
  lemma {:induction false} SingleOffender(table: seq<Indicator>, lowerBody: string, k: nat)
    requires k < |table| && Occurrences(table[k], lowerBody) > LazyThreshold
    requires forall j :: 0 <= j < |table| && j != k ==> Occurrences(table[j], lowerBody) <= LazyThreshold
    ensures Offenders(table, lowerBody) == [Offender(table[k].description, Occurrences(table[k], lowerBody))]
    decreases |table|
  {
    var init := table[..|table| - 1];
    assert forall j :: 0 <= j < |init| ==> table[j] == init[j];
    if k == |table| - 1 {
      OffendersAreTheRecurringIndicators(init, lowerBody);
    } else {
      SingleOffender(init, lowerBody, k);
    }
  }

  /** When exactly two indicators recur, the report is both, in table
      order. */
  lemma {:induction false} TwoOffenders(table: seq<Indicator>, lowerBody: string, k: nat, m: nat)
    requires k < m < |table|
    requires Occurrences(table[k], lowerBody) > LazyThreshold && Occurrences(table[m], lowerBody) > LazyThreshold
    requires forall j :: 0 <= j < |table| && j != k && j != m ==> Occurrences(table[j], lowerBody) <= LazyThreshold
    ensures Offenders(table, lowerBody) ==
      [Offender(table[k].description, Occurrences(table[k], lowerBody)),
       Offender(table[m].description, Occurrences(table[m], lowerBody))]
    decreases |table|
  {
    var init := table[..|table| - 1];
    assert forall j :: 0 <= j < |init| ==> table[j] == init[j];
    if m == |table| - 1 {
      SingleOffender(init, lowerBody, k);
    } else {
      TwoOffenders(init, lowerBody, k, m);
    }
  }

  /** The lazy-image example page: four `data-src` images, each with a
      `placeholder.jpg` source, and nothing else recurring. Both indicators
      are reported, four times each. */
  lemma LazyImageExampleReported(body: string)
    requires Occurrences(LazyIndicators[0], Lower(body)) == 4 && Occurrences(LazyIndicators[4], Lower(body)) == 4
    requires forall k :: 0 <= k < |LazyIndicators| && k != 0 && k != 4 ==>
      Occurrences(LazyIndicators[k], Lower(body)) <= LazyThreshold
    ensures LazyLoadingVerdict(body) == Invalid(UnloadedContent([
      Offender("Lazy-load images not loaded", 4), Offender("Placeholder images", 4)]))
  {
    TwoOffenders(LazyIndicators, Lower(body), 0, 4);
  }

  // ---------------------------------------------------------------------
  // Pagination
  // ---------------------------------------------------------------------

  /** The "load more" patterns, tried in order; each is passed to
      `re.findall` with `re.IGNORECASE`. */
  const LoadMorePatterns: seq<string> := [
    "class=\"[^\"]*load-more[^\"]*\"",
    "id=\"load-more\"",
    ">load more<",
    ">show more<",
    ">view more<",
    "load additional",
    "see all \\d+ items",
    "showing \\d+ of \\d+"
  ]

  /** The next-page affordance searched for when only page 1 is mentioned. */
  const NextPagePattern := "next page|page 2|→|»"

  const ScrollPatterns: seq<string> := [
    "data-infinite-scroll",
    "infinite-scroll-container",
    "scroll-to-load",
    "data-next-page"
  ]

  /** Some "load more" pattern matches. */
  predicate LoadMoreFound(facts: PageFacts)
  {
    exists k :: 0 <= k < |LoadMorePatterns| && facts.findall(LoadMorePatterns[k]) != []
  }

  /** Page numbers are mentioned, the largest is 1, and a way to the next
      page is offered. */
  predicate OnlyFirstPageLoaded(facts: PageFacts)
  {
    (exists i :: 0 <= i < |facts.pageNumbers| && facts.pageNumbers[i] == 1) &&
    (forall i :: 0 <= i < |facts.pageNumbers| ==> facts.pageNumbers[i] <= 1) &&
    facts.findall(NextPagePattern) != []
  }

  /** `max(...)` of a non-empty list. */
  function MaxOf(xs: seq<nat>): (m: nat)
    requires xs != []
    ensures exists i :: 0 <= i < |xs| && xs[i] == m
    ensures forall i :: 0 <= i < |xs| ==> xs[i] <= m
    decreases |xs|
  {
    if |xs| == 1 then xs[0]
    else
      var m := MaxOf(xs[1..]);
      assert forall i :: 1 <= i < |xs| ==> xs[i] == xs[1..][i - 1];
      if xs[0] > m then xs[0] else m
  }

  lemma LowercaseScrollPatterns()
    ensures forall k :: 0 <= k < |ScrollPatterns| ==> Lower(ScrollPatterns[k]) == ScrollPatterns[k]
  {
    assert Lower("data-infinite-scroll") == "data-infinite-scroll";
    assert Lower("infinite-scroll-container") == "infinite-scroll-container";
    assert Lower("scroll-to-load") == "scroll-to-load";
    assert Lower("data-next-page") == "data-next-page";
  }

  /** The first block of `_check_pagination`: the first "load more"
      pattern with matches reports its first match, cut to 50 characters. */
  function LoadMoreVerdict(facts: PageFacts): (r: Verdict<Reason>)
    ensures r.Valid? <==> !LoadMoreFound(facts)
    ensures r.Invalid? ==>
      exists k :: 0 <= k < |LoadMorePatterns| && facts.findall(LoadMorePatterns[k]) != [] &&
        (forall j :: 0 <= j < k ==> facts.findall(LoadMorePatterns[j]) == []) &&
        r == Invalid(UnpaginatedContent(Take(facts.findall(LoadMorePatterns[k])[0], 50)))
  {
    match FirstWhere(LoadMorePatterns, (p: string) => facts.findall(p) != [])
    case Some(k) => Invalid(UnpaginatedContent(Take(facts.findall(LoadMorePatterns[k])[0], 50)))
    case None => Valid
  }

  /** The second block: page numbers whose maximum is 1, with a next-page
      affordance. */
  function PageNumberVerdict(facts: PageFacts): (r: Verdict<Reason>)
    ensures r.Valid? <==> !OnlyFirstPageLoaded(facts)
    ensures r.Invalid? ==> r == Invalid(OnlyFirstPage)
  {
    if facts.pageNumbers != [] && MaxOf(facts.pageNumbers) == 1 && facts.findall(NextPagePattern) != [] then
      Invalid(OnlyFirstPage)
    else
      Valid
  }

  /** The third block: the first scroll trigger present in the body. */
  function ScrollVerdict(body: string): (r: Verdict<Reason>)
    ensures r.Valid? <==> forall k :: 0 <= k < |ScrollPatterns| ==> !IsSubstring(ScrollPatterns[k], Lower(body))
    ensures r.Invalid? ==>
      exists k :: 0 <= k < |ScrollPatterns| && IsSubstring(ScrollPatterns[k], Lower(body)) &&
        (forall j :: 0 <= j < k ==> !IsSubstring(ScrollPatterns[j], Lower(body))) &&
        r == Invalid(InfiniteScroll(ScrollPatterns[k]))
  {
    LowercaseScrollPatterns();
    FirstTrigger(ScrollPatterns, body)
  }

  /** The scan behind the third block, for any list of lower-case triggers. */
  function FirstTrigger(triggers: seq<string>, body: string): (r: Verdict<Reason>)
    requires forall k :: 0 <= k < |triggers| ==> Lower(triggers[k]) == triggers[k]
    ensures r.Valid? <==> forall k :: 0 <= k < |triggers| ==> !IsSubstring(triggers[k], Lower(body))
    ensures r.Invalid? ==>
      exists k :: 0 <= k < |triggers| && IsSubstring(triggers[k], Lower(body)) &&
        (forall j :: 0 <= j < k ==> !IsSubstring(triggers[j], Lower(body))) &&
        r == Invalid(InfiniteScroll(triggers[k]))
  {
    match FirstWhere(triggers, (p: string) => Contains(Lower(body), Lower(p)))
    case Some(k) => Invalid(InfiniteScroll(triggers[k]))
    case None => Valid
  }

  /** `_check_pagination`: the three blocks in order, the first failure
      deciding. */
  function PaginationVerdict(body: string, facts: PageFacts): (r: Verdict<Reason>)
    ensures r.Valid? <==>
      !LoadMoreFound(facts) && !OnlyFirstPageLoaded(facts) &&
      forall k :: 0 <= k < |ScrollPatterns| ==> !IsSubstring(ScrollPatterns[k], Lower(body))
    ensures r == Invalid(OnlyFirstPage) <==> !LoadMoreFound(facts) && OnlyFirstPageLoaded(facts)
  {
    Then(LoadMoreVerdict(facts), Then(PageNumberVerdict(facts), ScrollVerdict(body)))
  }

  // ---------------------------------------------------------------------
  // Item count
  // ---------------------------------------------------------------------

  /** An item-container pattern and the itemName reported for it. */
  datatype ItemPattern = ItemPattern(regex: string, itemName: string)

  const ItemPatterns: seq<ItemPattern> := [
    ItemPattern("data-product-id=\"[^\"]*\"", "products"),
    ItemPattern("class=\"[^\"]*product-card[^\"]*\"", "product cards"),
    ItemPattern("class=\"[^\"]*item[^\"]*\"", "items"),
    ItemPattern("<article[^>]*>", "articles"),
    ItemPattern("data-item-id=\"[^\"]*\"", "items"),
    ItemPattern("class=\"[^\"]*post[^\"]*\"", "posts")
  ]

  /** `len(re.findall(pattern, html, re.IGNORECASE))`. */
  function Hits(p: ItemPattern, facts: PageFacts): nat
  {
    |facts.findall(p.regex)|
  }

  /** The best item count and the itemName of the pattern that produced it. */
  datatype Estimate = Estimate(count: nat, itemName: Option<string>)

  /** The estimate after scanning `table`: the largest count, and the itemName
      of the first pattern reaching it; no itemName while every count is 0. */
  function BestEstimate(table: seq<ItemPattern>, facts: PageFacts): (e: Estimate)
    ensures forall k :: 0 <= k < |table| ==> Hits(table[k], facts) <= e.count
    ensures e.itemName.None? <==> e.count == 0
    ensures e.itemName.Some? ==>
      exists k :: 0 <= k < |table| && Hits(table[k], facts) == e.count && e.itemName.value == table[k].itemName &&
        forall j :: 0 <= j < k ==> Hits(table[j], facts) < e.count
    decreases |table|
  {
    if table == [] then Estimate(0, None)
    else
      var init := table[..|table| - 1];
      var e := BestEstimate(init, facts);
      var n := Hits(table[|table| - 1], facts);
      assert forall k :: 0 <= k < |init| ==> table[k] == init[k];
      if n > e.count then Estimate(n, Some(table[|table| - 1].itemName)) else e
  }

  /** `_check_item_count`: fails exactly when the minimum is positive and
      no pattern reaches it; the message carries the best estimate. */
  function ItemCountVerdict(facts: PageFacts, minExpected: int): (r: Verdict<Reason>)
    ensures r.Invalid? <==>
      0 < minExpected && forall k :: 0 <= k < |ItemPatterns| ==> Hits(ItemPatterns[k], facts) < minExpected
    ensures r.Invalid? ==>
      r.reason == TooFewItems(BestEstimate(ItemPatterns, facts).count, BestEstimate(ItemPatterns, facts).itemName, minExpected)
  {
    var e := BestEstimate(ItemPatterns, facts);
    if e.count < minExpected then Invalid(TooFewItems(e.count, e.itemName, minExpected)) else Valid
  }

  method CheckItemCount(facts: PageFacts, minExpected: int) returns (v: Verdict<Reason>)
    ensures v == ItemCountVerdict(facts, minExpected)
  {
    var maxCount := 0;
    var patternUsed: Option<string> := None;
    var i := 0;
    while i < |ItemPatterns|
      invariant 0 <= i <= |ItemPatterns|
      invariant Estimate(maxCount, patternUsed) == BestEstimate(ItemPatterns[..i], facts)
    {
      assert ItemPatterns[..i + 1][..i] == ItemPatterns[..i];
      var count := |facts.findall(ItemPatterns[i].regex)|;
      if count > maxCount {
        maxCount := count;
        patternUsed := Some(ItemPatterns[i].itemName);
      }
      i := i + 1;
    }
    assert ItemPatterns[..i] == ItemPatterns;
    if maxCount < minExpected {
      return Invalid(TooFewItems(maxCount, patternUsed, minExpected));
    }
    return Valid;
  }

  // ---------------------------------------------------------------------
  // Expected patterns
  // ---------------------------------------------------------------------

  /** `config.get('min_count', 1)`. */
  function MinCount(spec: PatternSpec): int
  {
    if spec.minCount.Some? then spec.minCount.value else 1
  }

  /** `set(matches)`. */
  function DistinctValues(xs: seq<string>): set<string>
  {
    set x | x in xs
  }

  /** Every match equals the first. */
  predicate AllSame(xs: seq<string>)
  {
    forall i :: 0 <= i < |xs| ==> xs[i] == xs[0]
  }

  /** `len(set(xs)) == 1` is "all matches are the same value". */
  lemma OneDistinctValueIffAllSame(xs: seq<string>)
    requires xs != []
    ensures |DistinctValues(xs)| == 1 <==> AllSame(xs)
  {
    var d := DistinctValues(xs);
    assert xs[0] in d;
    if AllSame(xs) {
      assert d == {xs[0]};
    }
    if |d| == 1 {
      forall i | 0 <= i < |xs| ensures xs[i] == xs[0] {
        assert xs[i] in d;
        if xs[i] != xs[0] {
          assert {xs[0], xs[i]} <= d;
          assert |{xs[0], xs[i]}| == 2;
          SubsetCardinality({xs[0], xs[i]}, d);
        }
      }
    }
  }

  lemma SubsetCardinality(a: set<string>, b: set<string>)
    requires a <= b
    ensures |a| <= |b|
  {
    assert b == a + (b - a);
  }

  /** The largest multiplicity in `xs` of a value drawn from `ys`. */
  function TopCount(xs: seq<string>, ys: seq<string>): (c: nat)
    ensures forall i :: 0 <= i < |ys| ==> multiset(xs)[ys[i]] <= c
    ensures ys != [] ==> exists i :: 0 <= i < |ys| && multiset(xs)[ys[i]] == c
    ensures ys == [] ==> c == 0
    decreases |ys|
  {
    if ys == [] then 0
    else
      var c := TopCount(xs, ys[1..]);
      var m := multiset(xs)[ys[0]];
      assert forall i :: 1 <= i < |ys| ==> ys[i] == ys[1..][i - 1];
      if m > c then m else c
  }

  /** `Counter(xs).most_common(1)[0][1]`: how often the most common value
      occurs. */
  function MostCommonCount(xs: seq<string>): (c: nat)
    ensures forall x :: multiset(xs)[x] <= c
    ensures xs != [] ==> exists i :: 0 <= i < |xs| && multiset(xs)[xs[i]] == c
  {
    var c := TopCount(xs, xs);
    assert forall x :: x !in xs ==> multiset(xs)[x] == 0;
    c
  }

  lemma QuotientAbove(count: nat, total: nat, bound: real)
    requires total > 0
    ensures count as real / total as real > bound <==> count as real > bound * total as real
  {
    var q := count as real / total as real;
    assert q * total as real == count as real;
  }

  /** A share above 0.8 is, in integers, `5 * count > 4 * total`. */
  lemma RatioAbove(count: nat, total: nat)
    requires total > 0
    ensures count as real / total as real > 0.8 <==> 5 * count > 4 * total
  {
    QuotientAbove(count, total, 0.8);
  }

  /** What one expected pattern reports about its matches: too few first;
      then, from five matches on, a single repeated value, or one value
      making up more than 80% of them (compared exactly, as 5c > 4n). */
  function PatternProblem(spec: PatternSpec, matches: seq<string>): (r: Option<Reason>)
    ensures r.None? <==>
      |matches| >= MinCount(spec) &&
      (|matches| < 5 || (!AllSame(matches) && 5 * MostCommonCount(matches) <= 4 * |matches|))
    ensures |matches| < MinCount(spec) ==> r == Some(TooFewMatches(spec.name, |matches|, MinCount(spec)))
    ensures |matches| >= MinCount(spec) && |matches| >= 5 && AllSame(matches) ==>
      r == Some(IdenticalValues(spec.name, Take(matches[0], 30)))
    ensures (|matches| >= MinCount(spec) && |matches| >= 5 && !AllSame(matches) &&
      5 * MostCommonCount(matches) > 4 * |matches|) ==>
      r == Some(DominantValue(spec.name, MostCommonCount(matches), |matches|))
  {
    var n := |matches|;
    var min := MinCount(spec);
    if n < min then Some(TooFewMatches(spec.name, n, min))
    else if matches != [] && n >= 5 then
      OneDistinctValueIffAllSame(matches);
      if |DistinctValues(matches)| == 1 then Some(IdenticalValues(spec.name, Take(matches[0], 30)))
      else
        var c := MostCommonCount(matches);
        RatioAbove(c, n);
        if c as real / n as real > 0.8 then Some(DominantValue(spec.name, c, n)) else None
    else None
  }

  /** An entry without a pattern, or with an empty one, is skipped. */
  function EntryProblem(spec: PatternSpec, facts: PageFacts): (r: Option<Reason>)
    ensures spec.pattern.None? || spec.pattern.value == "" ==> r.None?
    ensures spec.pattern.Some? && spec.pattern.value != "" ==> r == PatternProblem(spec, facts.findall(spec.pattern.value))
  {
    match spec.pattern
    case None => None
    case Some(p) => if p == "" then None else PatternProblem(spec, facts.findall(p))
  }

  /** `_validate_patterns`: the first entry, in configured order, that
      reports a problem decides. */
  function PatternsVerdict(specs: seq<PatternSpec>, facts: PageFacts): (r: Verdict<Reason>)
    ensures r.Valid? <==> forall k :: 0 <= k < |specs| ==> EntryProblem(specs[k], facts).None?
    ensures r.Invalid? ==>
      exists k :: 0 <= k < |specs| && EntryProblem(specs[k], facts) == Some(r.reason) &&
        forall j :: 0 <= j < k ==> EntryProblem(specs[j], facts).None?
  {
    match FirstWhere(specs, (s: PatternSpec) => EntryProblem(s, facts).Some?)
    case None => Valid
    case Some(k) => Invalid(EntryProblem(specs[k], facts).value)
  }

  /** At least five copies of one value, enough of them, always fail as a
      placeholder. */
  lemma RepeatedValueFails(spec: PatternSpec, value: string, n: nat)
    requires n >= 5 && n >= MinCount(spec)
    ensures PatternProblem(spec, seq(n, _ => value)) == Some(IdenticalValues(spec.name, Take(value, 30)))
  {
    var xs := seq(n, _ => value);
    assert AllSame(xs);
    assert xs[0] == value;
  }

  /** The price example: ten captured "0.00" amounts against a minimum of
      ten fail as identical values. */
  lemma TenZeroPricesFail()
    ensures PatternProblem(PatternSpec("prices", Some("\\$(\\d+\\.\\d{2})"), Some(10)), seq(10, _ => "0.00"))
      == Some(IdenticalValues("prices", "0.00"))
  {
    RepeatedValueFails(PatternSpec("prices", Some("\\$(\\d+\\.\\d{2})"), Some(10)), "0.00", 10);
  }

  /** No value repeats: every multiplicity is at most one. */
  lemma {:induction false} DistinctMultiplicity(xs: seq<string>)
    requires forall i, j :: 0 <= i < j < |xs| ==> xs[i] != xs[j]
    ensures forall x :: multiset(xs)[x] <= 1
    decreases |xs|
  {
    if xs != [] {
      var init := xs[..|xs| - 1];
      DistinctMultiplicity(init);
      assert xs == init + [xs[|xs| - 1]];
      assert xs[|xs| - 1] !in init;
    }
  }

  /** Enough pairwise distinct values always pass: 25 different prices are
      not a placeholder. */
  lemma DistinctValuesPass(spec: PatternSpec, matches: seq<string>)
    requires |matches| >= MinCount(spec)
    requires forall i, j :: 0 <= i < j < |matches| ==> matches[i] != matches[j]
    ensures PatternProblem(spec, matches).None?
  {
    if |matches| >= 5 {
      DistinctMultiplicity(matches);
      assert matches[1] != matches[0];
      var c := MostCommonCount(matches);
      var i :| 0 <= i < |matches| && multiset(matches)[matches[i]] == c;
    }
  }

  // ---------------------------------------------------------------------
  // Noscript
  // ---------------------------------------------------------------------

  /** Passed to `re.findall` with `re.DOTALL | re.IGNORECASE`. */
  const NoscriptPattern := "<noscript>(.*?)</noscript>"

  const JsRequiredMessages: seq<string> := [
    "please enable javascript",
    "requires javascript",
    "javascript is disabled",
    "javascript must be enabled",
    "turn on javascript"
  ]

  /** A JS-required message shown outside every noscript section. */
  ghost predicate FlaggedMessage(m: string, body: string, segments: seq<string>)
  {
    IsSubstring(m, Lower(body)) && !IsSubstring(m, Lower(Join(" ", segments)))
  }

  /** `_check_noscript`: a large noscript fallback first, then the first
      JS-required message that occurs in the body but in no noscript
      section. */
  function NoscriptVerdict(body: string, segments: seq<string>): (r: Verdict<Reason>)
    ensures TotalLength(segments) > 1000 ==> r == Invalid(LargeNoscript(TotalLength(segments)))
    ensures r.Valid? <==>
      TotalLength(segments) <= 1000 &&
      forall k :: 0 <= k < |JsRequiredMessages| ==> !FlaggedMessage(JsRequiredMessages[k], body, segments)
    ensures r.Invalid? && TotalLength(segments) <= 1000 ==>
      exists k :: 0 <= k < |JsRequiredMessages| && FlaggedMessage(JsRequiredMessages[k], body, segments) &&
        (forall j :: 0 <= j < k ==> !FlaggedMessage(JsRequiredMessages[j], body, segments)) &&
        r.reason == JsRequiredMessage(JsRequiredMessages[k])
  {
    var total := TotalLength(segments);
    if segments != [] && total > 1000 then Invalid(LargeNoscript(total))
    else FirstFlagged(JsRequiredMessages, body, segments)
  }

  /** The message scan of `_check_noscript`, for any message list. */
  function FirstFlagged(messages: seq<string>, body: string, segments: seq<string>): (r: Verdict<Reason>)
    ensures r.Valid? <==> forall k :: 0 <= k < |messages| ==> !FlaggedMessage(messages[k], body, segments)
    ensures r.Invalid? ==>
      exists k :: 0 <= k < |messages| && FlaggedMessage(messages[k], body, segments) &&
        (forall j :: 0 <= j < k ==> !FlaggedMessage(messages[j], body, segments)) &&
        r.reason == JsRequiredMessage(messages[k])
  {
    var inside := Lower(Join(" ", segments));
    var lowerBody := Lower(body);
    match FirstWhere(messages, (m: string) => Contains(lowerBody, m) && !Contains(inside, m))
    case None => Valid
    case Some(k) => Invalid(JsRequiredMessage(messages[k]))
  }

  /** A message found in any noscript section, in any letter case, is never
      flagged, even when it also appears outside. */
  lemma MessageInsideNoscriptNeverFlagged(body: string, segments: seq<string>, k: nat, m: string)
    requires k < |segments| && IsSubstring(m, Lower(segments[k]))
    ensures NoscriptVerdict(body, segments) != Invalid(JsRequiredMessage(m))
  {
    assert OccursAt(segments[k], segments[k], 0);
    SubstringOfJoin(segments[k], " ", segments, k);
    LowerKeepsSubstring(segments[k], Join(" ", segments));
    SubstringTransitive(m, Lower(segments[k]), Lower(Join(" ", segments)));
    assert !FlaggedMessage(m, body, segments);
  }

  // ---------------------------------------------------------------------
  // Structured data
  // ---------------------------------------------------------------------

  /** The payload parsed to an object whose `@type` is the string `t`. */
  predicate IsObjectOfType(p: Payload, t: string)
  {
    p.Parsed? && p.json.JObject? && GetOr(p.json.members, "@type", JString("")) == JString(t)
  }

  /** The test one JSON-LD payload must pass. A `Product` needs a truthy
      `name`, and, when `offers` (an empty object if absent) is an object, a
      truthy `price` or `lowPrice` in it; an `ItemList` needs a truthy
      `itemListElement`; anything else is accepted. */
  function PayloadDefect(p: Payload): (r: Option<Defect>)
    ensures p.Malformed? <==> r == Some(MalformedJsonLd)
    ensures p.Parsed? && !p.json.JObject? ==> r.None?
    ensures r == Some(ProductMissingName) <==>
      IsObjectOfType(p, "Product") && !TruthyAt(p.json.members, "name")
    ensures r == Some(ProductMissingPrice) <==>
      IsObjectOfType(p, "Product") && TruthyAt(p.json.members, "name") &&
      GetOr(p.json.members, "offers", JObject(map[])).JObject? &&
      !TruthyAt(GetOr(p.json.members, "offers", JObject(map[])).members, "price") &&
      !TruthyAt(GetOr(p.json.members, "offers", JObject(map[])).members, "lowPrice")
    ensures r == Some(ItemListEmpty) <==>
      IsObjectOfType(p, "ItemList") && !TruthyAt(p.json.members, "itemListElement")
    ensures p.Parsed? && p.json.JObject? && !IsObjectOfType(p, "Product") && !IsObjectOfType(p, "ItemList") ==>
      r.None?
  {
    match p
    case Malformed => Some(MalformedJsonLd)
    case Parsed(JObject(data)) =>
      var schemaType := GetOr(data, "@type", JString(""));
      if schemaType == JString("Product") then
        if !TruthyAt(data, "name") then Some(ProductMissingName)
        else
          var offers := GetOr(data, "offers", JObject(map[]));
          if offers.JObject? && !TruthyAt(offers.members, "price") && !TruthyAt(offers.members, "lowPrice") then
            Some(ProductMissingPrice)
          else None
      else if schemaType == JString("ItemList") then
        if !Truthy(GetOr(data, "itemListElement", JArray([]))) then Some(ItemListEmpty) else None
      else None
    case Parsed(_) => None
  }

  /** `_check_structured_data`: the first defective payload decides, and is
      reported by its 1-based position. */
  function StructuredDataVerdict(payloads: seq<Payload>): (r: Verdict<Reason>)
    ensures r.Valid? <==> forall i :: 0 <= i < |payloads| ==> PayloadDefect(payloads[i]).None?
    ensures r.Invalid? ==>
      exists i :: 0 <= i < |payloads| && PayloadDefect(payloads[i]).Some? &&
        (forall j :: 0 <= j < i ==> PayloadDefect(payloads[j]).None?) &&
        r.reason == IncompleteStructuredData(i + 1, PayloadDefect(payloads[i]).value)
  {
    match FirstWhere(payloads, (p: Payload) => PayloadDefect(p).Some?)
    case None => Valid
    case Some(i) => Invalid(IncompleteStructuredData(i + 1, PayloadDefect(payloads[i]).value))
  }

  /** A malformed payload preceded by acceptable ones is reported at its
      1-based index. */
  lemma MalformedPayloadReported(payloads: seq<Payload>, i: nat)
    requires i < |payloads| && payloads[i].Malformed?
    requires forall j :: 0 <= j < i ==> PayloadDefect(payloads[j]).None?
    ensures StructuredDataVerdict(payloads) == Invalid(IncompleteStructuredData(i + 1, MalformedJsonLd))
  {
    var r := StructuredDataVerdict(payloads);
    var k :| 0 <= k < |payloads| && PayloadDefect(payloads[k]).Some? &&
      (forall j :: 0 <= j < k ==> PayloadDefect(payloads[j]).None?) &&
      r.reason == IncompleteStructuredData(k + 1, PayloadDefect(payloads[k]).value);
    assert k == i;
  }

  /** A named product whose `offers` is not an object is never checked for
      a price. */
  lemma NonObjectOffersUnchecked(data: map<string, Json>)
    requires GetOr(data, "@type", JString("")) == JString("Product") && TruthyAt(data, "name")
    requires "offers" in data && !data["offers"].JObject?
    ensures PayloadDefect(Parsed(JObject(data))).None?
  {
  }

  /** The product with a price passes, the one whose offers carry only a
      currency fails for the price. */
  lemma ProductExamples()
    ensures PayloadDefect(Parsed(JObject(map[
      "@type" := JString("Product"), "name" := JString("Example Product"),
      "offers" := JObject(map["price" := JString("29.99"), "priceCurrency" := JString("USD")])]))).None?
    ensures PayloadDefect(Parsed(JObject(map[
      "@type" := JString("Product"), "name" := JString("Example Product"),
      "offers" := JObject(map["priceCurrency" := JString("USD")])]))) == Some(ProductMissingPrice)
  {
  }

  // ---------------------------------------------------------------------
  // The pipeline
  // ---------------------------------------------------------------------

  /** A stage that runs only when `run` holds. */
  function Optional(run: bool, v: Verdict<Reason>): seq<Verdict<Reason>>
  {
    if run then [v] else []
  }

  /** `if self.min_item_count:`: present and non-zero. */
  predicate CountsItems(cfg: DynamicConfig)
  {
    cfg.minItemCount.Some? && cfg.minItemCount.value != 0
  }

  function MinItems(cfg: DynamicConfig): int
  {
    if cfg.minItemCount.Some? then cfg.minItemCount.value else 0
  }

  /** The checks of `check_response` that run under `cfg`, in their fixed
      order. */
  function Stages(cfg: DynamicConfig, body: string, facts: PageFacts): seq<Verdict<Reason>>
  {
    Optional(cfg.checkLazyLoading, LazyLoadingVerdict(body)) +
    (Optional(cfg.checkPagination, PaginationVerdict(body, facts)) +
    (Optional(CountsItems(cfg), ItemCountVerdict(facts, MinItems(cfg))) +
    (Optional(cfg.expectedPatterns != [], PatternsVerdict(cfg.expectedPatterns, facts)) +
    [NoscriptVerdict(body, facts.findall(NoscriptPattern)), StructuredDataVerdict(facts.jsonLd)])))
  }

  /** The verdict of `check_response`: the first failing stage's reason. */
  function Evaluate(cfg: DynamicConfig, body: string, facts: PageFacts): Verdict<Reason>
  {
    FirstFailure(Stages(cfg, body, facts))
  }

  /** A verdict that counts only when its stage runs. */
  function Gate(run: bool, v: Verdict<Reason>): Verdict<Reason>
  {
    if run then v else Valid
  }

  lemma OptionalStage(run: bool, v: Verdict<Reason>)
    ensures FirstFailure(Optional(run, v)) == Gate(run, v)
  {
    if run {
      FirstFailureCons(v, []);
      assert [v] + [] == [v];
    }
  }

  /** Four optional stages followed by two that always run, as a chain of
      early returns. */
  lemma GatedChain(a: bool, va: Verdict<Reason>, b: bool, vb: Verdict<Reason>,
                   c: bool, vc: Verdict<Reason>, d: bool, vd: Verdict<Reason>,
                   ve: Verdict<Reason>, vf: Verdict<Reason>)
    ensures FirstFailure(Optional(a, va) + (Optional(b, vb) + (Optional(c, vc) + (Optional(d, vd) + [ve, vf])))) ==
      Then(Gate(a, va), Then(Gate(b, vb), Then(Gate(c, vc), Then(Gate(d, vd), Then(ve, Then(vf, Valid))))))
  {
    var tail := [ve, vf];
    FirstFailureAppend(Optional(d, vd), tail);
    FirstFailureAppend(Optional(c, vc), Optional(d, vd) + tail);
    FirstFailureAppend(Optional(b, vb), Optional(c, vc) + (Optional(d, vd) + tail));
    FirstFailureAppend(Optional(a, va), Optional(b, vb) + (Optional(c, vc) + (Optional(d, vd) + tail)));
    OptionalStage(a, va);
    OptionalStage(b, vb);
    OptionalStage(c, vc);
    OptionalStage(d, vd);
    FirstFailureOfTwo(ve, vf, []);
    assert tail == [ve, vf] + [];
  }

  /** `Evaluate` written out as the chain of early returns. */
  lemma EvaluateUnfolds(cfg: DynamicConfig, body: string, facts: PageFacts)
    ensures Evaluate(cfg, body, facts) ==
      Then(Gate(cfg.checkLazyLoading, LazyLoadingVerdict(body)),
      Then(Gate(cfg.checkPagination, PaginationVerdict(body, facts)),
      Then(Gate(CountsItems(cfg), ItemCountVerdict(facts, MinItems(cfg))),
      Then(Gate(cfg.expectedPatterns != [], PatternsVerdict(cfg.expectedPatterns, facts)),
      Then(NoscriptVerdict(body, facts.findall(NoscriptPattern)),
      Then(StructuredDataVerdict(facts.jsonLd), Valid))))))
  {
    GatedChain(
      cfg.checkLazyLoading, LazyLoadingVerdict(body),
      cfg.checkPagination, PaginationVerdict(body, facts),
      CountsItems(cfg), ItemCountVerdict(facts, MinItems(cfg)),
      cfg.expectedPatterns != [], PatternsVerdict(cfg.expectedPatterns, facts),
      NoscriptVerdict(body, facts.findall(NoscriptPattern)),
      StructuredDataVerdict(facts.jsonLd));
  }

  /** `check_response`: the early-return sequence of enabled checks. */
  method CheckResponse(cfg: DynamicConfig, body: string, facts: PageFacts) returns (v: Verdict<Reason>)
    ensures v == Evaluate(cfg, body, facts)
  {
    EvaluateUnfolds(cfg, body, facts);
    if cfg.checkLazyLoading {
      v := CheckLazyLoading(body);
      if v.Invalid? { return; }
    }
    if cfg.checkPagination {
      v := PaginationVerdict(body, facts);
      if v.Invalid? { return; }
    }
    if CountsItems(cfg) {
      v := CheckItemCount(facts, cfg.minItemCount.value);
      if v.Invalid? { return; }
    }
    if cfg.expectedPatterns != [] {
      v := PatternsVerdict(cfg.expectedPatterns, facts);
      if v.Invalid? { return; }
    }
    v := NoscriptVerdict(body, facts.findall(NoscriptPattern));
    if v.Invalid? { return; }
    v := StructuredDataVerdict(facts.jsonLd);
    if v.Invalid? { return; }
    return Valid;
  }

  // ---------------------------------------------------------------------
  // Properties of the whole pipeline
  // ---------------------------------------------------------------------

  /** The page passes exactly when every enabled stage passes, and a
      failure is the reason of the earliest failing stage. */
  lemma PipelineReportsEarliestFailure(cfg: DynamicConfig, body: string, facts: PageFacts)
    ensures Evaluate(cfg, body, facts).Valid? <==>
      forall i :: 0 <= i < |Stages(cfg, body, facts)| ==> Stages(cfg, body, facts)[i].Valid?
    ensures Evaluate(cfg, body, facts).Invalid? ==>
      exists k :: 0 <= k < |Stages(cfg, body, facts)| &&
        Stages(cfg, body, facts)[k] == Evaluate(cfg, body, facts) &&
        forall i :: 0 <= i < k ==> Stages(cfg, body, facts)[i].Valid?
  {
    FirstFailureIsEarliest(Stages(cfg, body, facts));
  }

  /** Disabled stages never decide: with both flags off, no item minimum
      and no expected patterns, only the noscript and structured-data
      checks remain, in that order. */
  lemma DisabledStagesIgnored(cfg: DynamicConfig, body: string, facts: PageFacts)
    requires !cfg.checkLazyLoading && !cfg.checkPagination && !CountsItems(cfg) && cfg.expectedPatterns == []
    ensures Evaluate(cfg, body, facts) ==
      Then(NoscriptVerdict(body, facts.findall(NoscriptPattern)), StructuredDataVerdict(facts.jsonLd))
  {
    EvaluateUnfolds(cfg, body, facts);
  }

  /** With lazy loading enabled, a recurring placeholder fails the page
      before any later check is consulted. */
  lemma LazyLoadingDecidesFirst(cfg: DynamicConfig, body: string, facts: PageFacts)
    requires cfg.checkLazyLoading
    requires exists k :: 0 <= k < |LazyIndicators| && Occurrences(LazyIndicators[k], Lower(body)) > LazyThreshold
    ensures Evaluate(cfg, body, facts) == LazyLoadingVerdict(body)
    ensures Evaluate(cfg, body, facts).Invalid?
  {
    EvaluateUnfolds(cfg, body, facts);
  }

  /** Under the constructor's defaults, a recurring placeholder decides the
      page, whatever the regular expressions report. */
  lemma DefaultsReportLazyLoadingFirst(body: string, facts: PageFacts)
    requires exists k :: 0 <= k < |LazyIndicators| && Occurrences(LazyIndicators[k], Lower(body)) > LazyThreshold
    ensures Evaluate(DefaultDynamicConfig, body, facts) == LazyLoadingVerdict(body)
    ensures Evaluate(DefaultDynamicConfig, body, facts).Invalid?
  {
    LazyLoadingDecidesFirst(DefaultDynamicConfig, body, facts);
  }
}
