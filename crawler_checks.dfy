/**
 * The decisions `MultiSiteCrawler` takes without touching its state: which
 * links to follow (`is_valid_url`), which site a URL belongs to
 * (`get_site_config`), which pages are articles (`is_article_page`), the file
 * name and the date of a saved article (`clean_filename`, `extract_date`), and
 * the ordered rejections of `parse_article`.
 */
module CrawlerChecks {
  import opened Wrappers
  import opened Text
  import opened Regex
  import opened Calendar
  import opened ArticleExtractor
  import CaijingArticle
  import RobotsParser

  /** `SiteConfig`, without `exclude_patterns`, which the crawler never reads. */
  datatype SiteConfig = SiteConfig(
    name: string,
    startUrl: string,
    domain: string,
    domains: seq<string>,
    articlePattern: string,
    contentSelectors: seq<string>,
    dateSelectors: seq<string>,
    titleSelectors: seq<string>,
    maxArticlesPerDay: int,
    enabled: bool)

  /** A `SiteConfig` as the extractor sees it: an object with selector lists and no `selectors` table. */
  function ExtractorView(c: SiteConfig): Config
  {
    Attrs(None, Some(c.titleSelectors), Some(c.contentSelectors), Some(c.dateSelectors))
  }

  /** The two parts of `urlparse(url)` the crawler reads. */
  datatype UrlParts = UrlParts(scheme: string, netloc: string)

  // ----- is_valid_url -----

  const JqkaHosts: seq<string> := ["news.10jqka.com.cn", "stock.10jqka.com.cn"]
  const CaijingHosts: seq<string> := ["finance.caijing.com.cn", "economy.caijing.com.cn"]
  const CaixinHosts: seq<string> := ["economy.caixin.com", "finance.caixin.com"]
  const ThepaperHosts: seq<string> := ["www.thepaper.cn"]
  const Schemes: seq<string> := ["http", "https"]
  const Extensions: seq<string> := [".jpg", ".png", ".pdf", ".zip"]

  // `.*/\d{8}/c\d+\.s?html$`, used with `re.match`.
  const JqkaArticle: seq<Atom> :=
    [Run(AnyButNewline, 0, Unbounded, false), One(['/']), Run(Digit, 8, UpTo(8), false), One(['/']), One(['c']),
     Run(Digit, 1, Unbounded, false), One(['.']), Opt(['s'])] + Literal("html") + [EndAnchor]

  /** `newsDetail_forward_\d+`, used with `re.search`. */
  const NewsDetail: seq<Atom> := Literal("newsDetail_forward_") + [Run(Digit, 1, Unbounded, false)]

  /** The checks particular to a site, in the order `is_valid_url` makes them: a verdict,
    * or `None` when the generic checks decide. */
  function SiteRule(url: string, netloc: string, current: string): Option<bool>
  {
    if Contains(current, "10jqka.com.cn") then Some(netloc in JqkaHosts && Match(JqkaArticle, 0, url, 0).Some?)
    else if Contains(current, "caijing.com.cn") && netloc !in CaijingHosts then Some(false)
    else if Contains(current, "caixin.com") && (netloc !in CaixinHosts || '?' in url || Contains(url, "100923808")) then Some(false)
    else if Contains(current, "thepaper.cn") then
      if netloc !in ThepaperHosts then Some(false)
      else if Contains(url, "newsDetail_forward_") then (if Search(NewsDetail, url).None? then Some(false) else None)
      else if !Contains(url, "channel_25951") then Some(false)
      else None
    else if !Contains(netloc, current) then Some(false)
    else None
  }

  /** The date in a URL as `is_valid_url` reads it: `/YYYYMMDD/`, else `/YYYY-MM-DD/`;
    * the first pattern found decides. */
  function UrlDay(url: string): (r: UrlDate)
    ensures r.UrlDated? ==> Valid(r.date)
    ensures r == NoUrlDate <==> Search(UrlPatterns[0], url).None? && Search(UrlPatterns[1], url).None?
  {
    match Search(UrlPatterns[0], url)
    case Some(g) => UrlGroupsDate(url, g)
    case None =>
      match Search(UrlPatterns[1], url)
      case Some(g) => UrlGroupsDate(url, g)
      case None => NoUrlDate
  }

  /** Where both read a date, `is_valid_url` and `_extract_date_from_url` read the same one. */
  lemma UrlDayAgrees(url: string)
    requires Search(UrlPatterns[0], url).Some? || Search(UrlPatterns[1], url).Some?
    ensures UrlDay(url) == DateFromUrl(url)
  {
    if Search(UrlPatterns[0], url).Some? {
      FirstUrlPatternDecides(url, 0);
    } else {
      FirstUrlPatternDecides(url, 1);
    }
  }

  /** The date `is_valid_url` reads from a `/YYYYMMDD/` URL is `datetime(int(y), int(m), int(d))`,
    * or the error `datetime` raises. */
  lemma UrlDayDigits(url: string, pre: string, y: string, m: string, d: string, post: string)
    requires EightDigitUrl(url, pre, y, m, d, post)
    ensures var date := Date(DigitsValue(y), DigitsValue(m), DigitsValue(d));
      UrlDay(url) == if Valid(date) then UrlDated(date) else NoSuchDate
  {
    EightDigitSearch(url, pre, y, m, d, post);
  }

  /** The generic checks: an http(s) URL, not an image or archive, and, when it carries a
    * date, one that exists and is at most 90 days old (`delta.days > 90` rejects). */
  function GenericRule(url: string, scheme: string, now: Instant): bool
  {
    scheme in Schemes
    && (forall e :: e in Extensions ==> !Contains(url, e))
    && (match UrlDay(url)
        case NoUrlDate => true
        case NoSuchDate => false
        case UrlDated(d) => DaysElapsed(now, Midnight(d)) <= 90)
  }

  /** `is_valid_url`. A `urlparse` that raises, like the `ValueError` of `datetime`
    * for a date that does not exist, ends in the `except` branch: `False`. */
  function IsValidUrl(robots: RobotsParser.Robots, urlparse: string -> Option<UrlParts>, url: string, current: string, now: Instant): (r: bool)
    reads robots
    ensures r ==> urlparse(url).Some? && robots.IsUrlAllowed(url, urlparse(url).value.netloc)
    ensures Contains(current, "10jqka.com.cn") ==>
      (r <==> (urlparse(url).Some? && robots.IsUrlAllowed(url, urlparse(url).value.netloc)
              && urlparse(url).value.netloc in JqkaHosts && Match(JqkaArticle, 0, url, 0).Some?))
    ensures r && !Contains(current, "10jqka.com.cn") ==>
      urlparse(url).value.scheme in Schemes && forall e :: e in Extensions ==> !Contains(url, e)
    ensures r && !Contains(current, "10jqka.com.cn") ==>
      UrlDay(url) != NoSuchDate && (UrlDay(url).UrlDated? ==> Ordinal(now.date) - Ordinal(UrlDay(url).date) <= 90)
    ensures r && Contains(current, "caixin.com") && !Contains(current, "10jqka.com.cn") ==> '?' !in url
  {
    match urlparse(url)
    case None => false
    case Some(parts) =>
      if !robots.IsUrlAllowed(url, parts.netloc) then false
      else
        match SiteRule(url, parts.netloc, current)
        case Some(verdict) => verdict
        case None =>
          var ok := GenericRule(url, parts.scheme, now);
          if ok && UrlDay(url).UrlDated? then DaysElapsedSinceMidnight(now, UrlDay(url).date); ok else ok
  }

  // ----- get_site_config -----

  /** `get_site_config`: the first configuration whose domain occurs in the URL. */
  function SiteConfigFor(configs: seq<SiteConfig>, url: string): (r: Option<SiteConfig>)
    ensures r.None? <==> forall k :: 0 <= k < |configs| ==> !Contains(url, configs[k].domain)
    ensures r.Some? ==> exists k :: (0 <= k < |configs| && configs[k] == r.value
      && Contains(url, r.value.domain) && forall j :: 0 <= j < k ==> !Contains(url, configs[j].domain))
  {
    if configs == [] then None
    else if Contains(url, configs[0].domain) then Some(configs[0])
    else
      var r := SiteConfigFor(configs[1..], url);
      if r.Some? then
        var k :| 0 <= k < |configs| - 1 && configs[1..][k] == r.value
          && Contains(url, r.value.domain) && forall j :: 0 <= j < k ==> !Contains(url, configs[1..][j].domain);
        assert configs[k + 1] == r.value;
        r
      else r
  }

  // ----- is_article_page -----

  /** The pattern `is_article_page` matches with: `.*` in front unless it starts with `^`,
    * `.*` behind unless it ends with `$`. */
  function ArticlePattern(pattern: string): (r: string)
    ensures StartsWith(r, "^") || StartsWith(r, ".*")
    ensures EndsWith(r, "$") || EndsWith(r, ".*")
    ensures StartsWith(pattern, "^") ==> StartsWith(r, pattern)
    ensures !StartsWith(pattern, "^") ==> StartsWith(r, ".*" + pattern)
    ensures EndsWith(pattern, "$") ==> EndsWith(r, pattern)
    ensures !EndsWith(pattern, "$") ==> EndsWith(r, pattern + ".*")
    ensures |r| == |pattern| + (if StartsWith(pattern, "^") then 0 else 2) + (if EndsWith(pattern, "$") then 0 else 2)
  {
    var front := if StartsWith(pattern, "^") then pattern else ".*" + pattern;
    var both := if EndsWith(front, "$") then front else front + ".*";
    assert both[..|front|] == front;
    both
  }

  /** `is_article_page`, with `re.match` given as `matches`, which is `None` where the
    * pattern does not compile; a missing configuration raises as well. Both give `False`. */
  function IsArticlePage(url: string, config: Option<SiteConfig>, matches: (string, string) -> Option<bool>): (r: bool)
    ensures r <==> config.Some? && matches(ArticlePattern(config.value.articlePattern), url) == Some(true)
  {
    match config
    case None => false
    case Some(c) =>
      match matches(ArticlePattern(c.articlePattern), url)
      case None => false
      case Some(b) => b
  }

  // ----- clean_filename -----

  const FilenameChars: set<char> := {'\\', '/', '*', '?', ':', '"', '<', '>', '|'}

  /** `clean_filename`: the characters of `FilenameChars` are removed; every other
    * character is kept, as often as it occurs. */
  function CleanFilename(title: string): (r: string)
    ensures forall k :: 0 <= k < |r| ==> r[k] !in FilenameChars
    ensures forall c :: c !in FilenameChars ==> multiset(r)[c] == multiset(title)[c]
    ensures |r| <= |title|
  {
    if title == [] then []
    else
      var rest := CleanFilename(title[1..]);
      assert title == [title[0]] + title[1..];
      if title[0] in FilenameChars then rest else [title[0]] + rest
  }

  /** Cleaning a cleaned name changes nothing. */
  lemma {:induction false} CleanFilenameIdempotent(title: string)
    ensures CleanFilename(CleanFilename(title)) == CleanFilename(title)
  {
    if title != [] {
      CleanFilenameIdempotent(title[1..]);
      var rest := CleanFilename(title[1..]);
      if title[0] !in FilenameChars {
        assert ([title[0]] + rest)[1..] == rest;
      }
    }
  }

  /** Cleaning works character by character: the kept characters stay in their order. */
  lemma {:induction false} CleanFilenameAppend(a: string, b: string)
    ensures CleanFilename(a + b) == CleanFilename(a) + CleanFilename(b)
    decreases |a|
  {
    if a == [] {
      assert a + b == b;
    } else {
      var t := a + b;
      assert t[0] == a[0] && t[1..] == a[1..] + b;
      CleanFilenameAppend(a[1..], b);
      var x, y := CleanFilename(a[1..]), CleanFilename(b);
      if a[0] !in FilenameChars {
        assert [a[0]] + (x + y) == ([a[0]] + x) + y;
      }
    }
  }

  // ----- extract_date -----

  /** The year, month and day of a date `extract_date` accepts: digits, with the year in
    * 1900..2100, the month in 1..12 and the day in 1..31. */
  predicate InRange(y: string, m: string, d: string)
  {
    y != [] && m != [] && d != [] && AllDigits(y) && AllDigits(m) && AllDigits(d)
    && 1900 <= DigitsValue(y) <= 2100 && 1 <= DigitsValue(m) <= 12 && 1 <= DigitsValue(d) <= 31
  }

  /** The three groups of a hit, when they pass the range check. */
  function Ymd(text: string, g: Groups): (r: Option<(string, string, string)>)
    requires GroupsIn(text, g)
    ensures r.Some? ==> InRange(r.value.0, r.value.1, r.value.2)
    ensures r.Some? <==> DigitTriple(text, g) && InRange(Nth(text, g, 0).s, Nth(text, g, 1).s, Nth(text, g, 2).s)
    ensures r.Some? ==> Count(g) >= 3 && r.value == (Nth(text, g, 0).s, Nth(text, g, 1).s, Nth(text, g, 2).s)
  {
    if Count(g) < 3 then None
    else
      var (y, m, d) := (Nth(text, g, 0), Nth(text, g, 1), Nth(text, g, 2));
      match (DateExtractor.IntOf(y), DateExtractor.IntOf(m), DateExtractor.IntOf(d))
      case (Some(yv), Some(mv), Some(dv)) =>
        if 1900 <= yv <= 2100 && 1 <= mv <= 12 && 1 <= dv <= 31 then Some((y.s, m.s, d.s)) else None
      case _ => None
  }

  /** `(\d{4})[-年/](\d{1,2})[-月/](\d{1,2})`. */
  const TextDate: seq<Atom> := [Digits(4, 4), One(['-', '年', '/']), Digits(1, 2), One(['-', '月', '/']), Digits(1, 2)]

  /** The date in range that `(\d{4})[-年/](\d{1,2})[-月/](\d{1,2})` finds first in an element's text. */
  function HitIn(e: Option<Element>): (r: Option<(string, string, string)>)
    ensures r.Some? ==> InRange(r.value.0, r.value.1, r.value.2)
    ensures r.Some? <==> (e.Some? && Search(TextDate, e.value.text).Some?
      && DigitTriple(e.value.text, Search(TextDate, e.value.text).value)
      && InRange(Nth(e.value.text, Search(TextDate, e.value.text).value, 0).s,
                 Nth(e.value.text, Search(TextDate, e.value.text).value, 1).s,
                 Nth(e.value.text, Search(TextDate, e.value.text).value, 2).s))
    ensures r.Some? ==> var t, g := e.value.text, Search(TextDate, e.value.text).value;
      Count(g) >= 3 && r.value == (Nth(t, g, 0).s, Nth(t, g, 1).s, Nth(t, g, 2).s)
  {
    if e.None? then None
    else
      match Search(TextDate, e.value.text)
      case None => None
      case Some(g) => Ymd(e.value.text, g)
  }

  /** A date as `extract_date` writes it: year, month and day in range, joined by '-'. */
  ghost predicate IsDateText(r: string)
  {
    exists y, m, d :: InRange(y, m, d) && r == y + "-" + m + "-" + d
  }

  /** `f"{year}-{int(month):02d}-{int(day):02d}"`. */
  function Written(y: string, m: string, d: string): (r: string)
    requires InRange(y, m, d)
    ensures IsDateText(r)
  {
    DigitsValueSmall(m);
    DigitsValueSmall(d);
    var pm, pd := Padded(DigitsValue(m), 2), Padded(DigitsValue(d), 2);
    assert InRange(y, pm, pd);
    y + "-" + pm + "-" + pd
  }

  /** The second step of `extract_date`: the first selector whose first element holds a
    * date in range, written with a two-digit month and day. */
  function PageDateText(page: Page, selectors: seq<string>): (r: string)
    ensures r == [] <==> forall k :: 0 <= k < |selectors| ==> HitIn(CssFirst(page, selectors[k])).None?
    ensures r != [] ==> IsDateText(r)
    decreases |selectors|
  {
    if selectors == [] then ""
    else
      var hit := HitIn(CssFirst(page, selectors[0]));
      match hit
      case Some((y, m, d)) => Written(y, m, d)
      case None =>
        var r := PageDateText(page, selectors[1..]);
        assert forall k :: 1 <= k < |selectors| ==> selectors[k] == selectors[1..][k - 1];
        r
  }

  /** The first selector whose element holds a date in range decides the page date. */
  lemma {:induction false} FirstSelectorDecides(page: Page, selectors: seq<string>, k: nat)
    requires k < |selectors| && HitIn(CssFirst(page, selectors[k])).Some?
    requires forall j :: 0 <= j < k ==> HitIn(CssFirst(page, selectors[j])).None?
    ensures var hit := HitIn(CssFirst(page, selectors[k])).value;
      PageDateText(page, selectors) == Written(hit.0, hit.1, hit.2)
    decreases k
  {
    if k > 0 {
      var rest := selectors[1..];
      assert rest[k - 1] == selectors[k];
      assert forall j :: 0 <= j < k - 1 ==> rest[j] == selectors[j + 1];
      FirstSelectorDecides(page, rest, k - 1);
    }
  }

  /** The in-range `/YYYYMMDD/` date of a URL, as its three digit strings. */
  function UrlYmd(url: string): Option<(string, string, string)>
  {
    match Search(UrlPatterns[0], url)
    case Some(g) => Ymd(url, g)
    case None => None
  }

  /** `extract_date`: the `/YYYYMMDD/` of the URL when it is in range, written as it
    * stands; otherwise the date of the page; otherwise "". */
  function ExtractDateText(url: string, page: Page, config: SiteConfig): (r: string)
    ensures r != [] ==> IsDateText(r)
    ensures UrlYmd(url).Some? ==>
      (InRange(UrlYmd(url).value.0, UrlYmd(url).value.1, UrlYmd(url).value.2)
       && r == UrlYmd(url).value.0 + "-" + UrlYmd(url).value.1 + "-" + UrlYmd(url).value.2)
    ensures UrlYmd(url).None? ==> r == PageDateText(page, config.dateSelectors)
  {
    match UrlYmd(url)
    case Some((y, m, d)) => y + "-" + m + "-" + d
    case None => PageDateText(page, config.dateSelectors)
  }

  /** A `/YYYYMMDD/` URL whose numbers are in range gives its own digits, even when
    * they make no calendar date. */
  lemma ExtractDateUrlDigits(url: string, pre: string, y: string, m: string, d: string, post: string,
                             page: Page, config: SiteConfig)
    requires EightDigitUrl(url, pre, y, m, d, post) && InRange(y, m, d)
    ensures ExtractDateText(url, page, config) == y + "-" + m + "-" + d
  {
    EightDigitSearch(url, pre, y, m, d, post);
  }

  /** Otherwise the page decides: the first selector with a date in range. */
  lemma ExtractDateFromPage(url: string, page: Page, config: SiteConfig, k: nat)
    requires UrlYmd(url).None?
    requires k < |config.dateSelectors| && HitIn(CssFirst(page, config.dateSelectors[k])).Some?
    requires forall j :: 0 <= j < k ==> HitIn(CssFirst(page, config.dateSelectors[j])).None?
    ensures var hit := HitIn(CssFirst(page, config.dateSelectors[k])).value;
      ExtractDateText(url, page, config) == Written(hit.0, hit.1, hit.2)
  {
    FirstSelectorDecides(page, config.dateSelectors, k);
  }

  // ----- parse_article -----

  /** What `parse_article` makes of an article, in the order it checks. */
  datatype Verdict = AlreadyCached | NotParsed | OutOfRetention | TooShort | OverLimit | DailyLimit | Accepted

  /** The checks of `parse_article`, given whether the URL is cached, what `ArticleParser`
    * returned, the counters and today's number of files; the first failing one decides.
    * (An article without a date never gets here: `from_html` drops it.) */
  function Review(cached: bool, parsed: Option<CaijingArticle.Fields>, retentionDays: int, now: Instant,
                  siteCount: int, total: int, maxPerSite: int, maxArticles: int, todayCount: int, dailyCap: int): (v: Verdict)
    ensures v == Accepted <==> (!cached && parsed.Some? && parsed.value.publishDate.Some?
      && IsWithinRetention(parsed.value.publishDate.value, retentionDays, now) && |parsed.value.summary| >= 50
      && siteCount < maxPerSite && total < maxArticles && todayCount < dailyCap)
    ensures cached ==> v == AlreadyCached
    ensures v == TooShort ==> !cached && parsed.Some? && parsed.value.publishDate.Some? && IsWithinRetention(parsed.value.publishDate.value, retentionDays, now)
    ensures v == OverLimit ==> !cached && parsed.Some? && |parsed.value.summary| >= 50
    ensures v == DailyLimit ==> !cached && parsed.Some? && siteCount < maxPerSite && total < maxArticles
    ensures v == AlreadyCached <==> cached
    ensures v == NotParsed <==> !cached && (parsed.None? || parsed.value.publishDate.None?)
    ensures v == OutOfRetention <==> (!cached && parsed.Some? && parsed.value.publishDate.Some?
      && !IsWithinRetention(parsed.value.publishDate.value, retentionDays, now))
    ensures v == TooShort <==> (!cached && parsed.Some? && parsed.value.publishDate.Some?
      && IsWithinRetention(parsed.value.publishDate.value, retentionDays, now) && |parsed.value.summary| < 50)
    ensures v == OverLimit <==> (!cached && parsed.Some? && parsed.value.publishDate.Some?
      && IsWithinRetention(parsed.value.publishDate.value, retentionDays, now) && |parsed.value.summary| >= 50
      && (siteCount >= maxPerSite || total >= maxArticles))
    ensures v == DailyLimit <==> (!cached && parsed.Some? && parsed.value.publishDate.Some?
      && IsWithinRetention(parsed.value.publishDate.value, retentionDays, now) && |parsed.value.summary| >= 50
      && siteCount < maxPerSite && total < maxArticles && todayCount >= dailyCap)
  {
    if cached then AlreadyCached
    else if parsed.None? || parsed.value.publishDate.None? then NotParsed
    else if !IsWithinRetention(parsed.value.publishDate.value, retentionDays, now) then OutOfRetention
    else if |parsed.value.summary| < 50 then TooShort
    else if siteCount >= maxPerSite || total >= maxArticles then OverLimit
    else if todayCount >= dailyCap then DailyLimit
    else Accepted
  }
}
