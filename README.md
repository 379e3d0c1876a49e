# Crawler core, modelled in Dafny

This project models the decision logic of a two-part web crawler. The first
part crawls Chinese financial news sites (`crawler/caijing`). The second part
collects machine-learning papers from huggingface.co and paperswithcode.com
(`crawler/paper`). Both parts share a set of common modules (`crawler/common`).

Each module of the model mirrors one source file:

- `DateExtractor`: turns free text into a date. Relative expressions such as
  "3天前" (three days ago) and "昨天" (yesterday) are tried first. After them
  comes an ordered table of absolute patterns, with month names, two-digit
  years and range checks. The whole module is a first-match search, written
  as recursive functions that take the clock as a parameter.
  `DateExtractorExamples` proves on the model 25 of the 27 inputs of the
  repository's date-extractor tests (all but "7 Dec Y" and "7 December Y"),
  with the year 2024 standing in for the current year where a test builds
  the text from it.
- `ArticleExtractor`, `ArticleContent`: handle one HTML page. They clean the
  title, pick the publication date through a chain of fallbacks (ending with a
  date embedded in the URL), and collect body text from CSS selectors, skipping
  unwanted elements. The paragraph filter loop of `_clean_content` is a method
  proved against a recursive specification.
- `CaijingArticle`, `PaperArticle`: the article classes. Their fields are set
  by parsing, a completeness gate decides which articles are kept, and
  `to_text` lays out the labelled text file.
- `ArticleParser`: the argument and selector checks in front of article
  parsing.
- `CrawlerChecks`, `Crawler`: the multi-site crawler. It filters links
  (`is_valid_url`), maps a URL to its site configuration, and runs the
  article rejection chain and the save bookkeeping. Its per-domain frontier
  loop is a sequential state machine: one task completes per step.
- `UrlStore`, `CacheManager`, `UrlCacheManager`: the two dedup caches. Each
  maps a domain to a set of URLs and persists to a JSON-like stored file.
- `RobotsParser`: the robots.txt gate. It keeps a failed-domain list with a
  seven-day time-to-live, allows by default, and otherwise defers to an
  uninterpreted `can_fetch`.
- `ArticleManager`: retention housekeeping over a directory map from name to
  (is directory, file count).
- `PaperCrawler`: the paper crawler's page counter, its crawl loop guard, and
  the save decision and file name rule of `crawl_paper`.
- `Downloader`: URL validation, the DNS memo, and the retry/backoff loop of
  `get`, with each attempt's outcome given as a function of the attempt index.

The support modules `Wrappers`, `Text`, `Regex` and `Calendar` supply the
`Option` type, string helpers (`str.split`, `' '.join`, `strip`), a small
backtracking matcher for the regular-expression fragment the source uses, and
a proleptic Gregorian calendar with the `%Y-%m-%d` and `%d %b %Y` formats.

Nothing here touches the network, the disk or the clock. Each of these is a
parameter: HTML pages are values of type `Page` with abstract CSS selection
(`Css`, `CssFirst`), the clock is an `Instant`, and directories and files are
maps. `urlparse`, `urljoin`, `re.match` on configured patterns, `strptime` with
configured formats, DNS resolution, robots matching and the boilerplate regex
pre-pass of `_clean_content` are all function parameters.

## Model

| member | source | states |
|---|---|---|
| DateExtractor.ExtractDate | crawler/common/date_extractor.py:50-123 | empty text gives no date; any date returned is a valid calendar date and time; its value is given by RelativeFirst, AbsoluteFirst and NothingFound |
| DateExtractor.EmptyIsNoDate | crawler/common/date_extractor.py:61-62 | the empty string yields no date |
| DateExtractor.StripLabel | crawler/common/date_extractor.py:66 | removing the leading label never lengthens the text |
| DateExtractor.StripLabelFrom | crawler/common/date_extractor.py:66 | trying the labels from a given position never lengthens the text |
| DateExtractor.NoLabel | crawler/common/date_extractor.py:66 | text whose first characters cannot begin any label (compared case-insensitively) is left as it is |
| DateExtractor.FirstLabel | crawler/common/date_extractor.py:66 | when the text starts with a label in any mix of ASCII cases, that label and the whitespace after it are removed |
| DateExtractor.LabelsBefore | crawler/common/date_extractor.py:66 | labels that do not match (case-insensitively) are passed over in order |
| DateExtractor.LabelDropped | crawler/common/date_extractor.py:65-66 | cleaning "label + space + s", with the label in any ASCII case, gives the whitespace-collapsed s, for each of the five labels |
| DateExtractor.LabelledSqueeze | crawler/common/date_extractor.py:65 | collapsing whitespace keeps a leading label, in any ASCII case, and a single space in front of the collapsed rest |
| DateExtractor.TwoWordLabel | crawler/common/date_extractor.py:65 | a two-word label such as "published ON" survives the collapse with its one inner space |
| DateExtractor.LabelIgnored | crawler/common/date_extractor.py:65-66 | a text after a label, in any ASCII case, parses exactly as the text alone does, when that text does not itself start with a label |
| DateExtractor.IntOf | crawler/common/date_extractor.py:92-104 | a captured group converts to a number only when it is all digits, and then to its decimal value |
| DateExtractor.MonthOf | crawler/common/date_extractor.py:87-98 | a month name resolves to a month in 1..12 or to nothing; which one is given by MonthByPrefix, MonthCaseBlind and MonthOfAbbreviation |
| DateExtractor.MonthByPrefix | crawler/common/date_extractor.py:88 | only the first three letters of a name count, so "December" resolves as "Dec" |
| DateExtractor.MonthCaseBlind | crawler/common/date_extractor.py:88 | the case of a month name does not matter (`.title()`) |
| DateExtractor.MonthOfAbbreviation | crawler/common/date_extractor.py:11-15 | each of the twelve abbreviations resolves to its month number |
| DateExtractor.Interpret | crawler/common/date_extractor.py:84-114 | a hit yields only valid calendar dates; its value is given by the four lemmas below |
| DateExtractor.InterpretDigits | crawler/common/date_extractor.py:101-114 | three digit groups y, m, d give a date exactly when (y, m, d) is a valid date, two-digit years put in the 2000s, and then that date; an out-of-range month or day falls through |
| DateExtractor.InterpretMonthFirst | crawler/common/date_extractor.py:87-93 | a month name, a day and a year (the current year when the pattern has no third group) give a date exactly when it is valid, and then that date |
| DateExtractor.InterpretMonthSecond | crawler/common/date_extractor.py:94-100 | a day, a month name and a year (the current year when absent) give a date exactly when it is valid, and then that date |
| DateExtractor.InterpretUnknownMonth | crawler/common/date_extractor.py:89-90 | a word that is no month name makes the pattern fall through |
| DateExtractor.TryPatterns | crawler/common/date_extractor.py:81-119 | the absolute-pattern search yields only valid calendar dates; its order is given by the three lemmas below |
| DateExtractor.FirstPatternDecides | crawler/common/date_extractor.py:81-119 | the first pattern whose hit yields a date decides, whatever later patterns would give |
| DateExtractor.NoPatternDecides | crawler/common/date_extractor.py:81-119 | when no pattern's hit yields a date, the search gives none |
| DateExtractor.PatternsResult | crawler/common/date_extractor.py:81-119 | any date found is the date of some pattern before which every pattern gave none |
| DateExtractor.TryRelative | crawler/common/date_extractor.py:71-77 | a relative hit is never "no date", and a dated hit is never later than now |
| DateExtractor.Back | crawler/common/date_extractor.py:40-45 | going back s seconds from now is never "no date": it is the instant exactly s seconds earlier when that lies at least a day after the calendar's origin, and an overflow otherwise |
| DateExtractor.RelativeFirst | crawler/common/date_extractor.py:71-80 | when the k-th relative pattern is the first to match, the absolute patterns are not consulted: the result is now minus the fixed offset (昨天, 前天, 刚刚), or now minus N units for N分钟前, N小时前 and N天前, N being the captured number |
| DateExtractor.RelativeFrom | crawler/common/date_extractor.py:71-77 | the relative search returns the outcome of the first pattern that occurs, read from its hit |
| DateExtractor.NoRelativeFrom | crawler/common/date_extractor.py:71-77 | when no relative pattern occurs, the relative pass gives nothing |
| DateExtractor.NoRelativeMatch | crawler/common/date_extractor.py:71-77 | text without any relative word falls through to the absolute patterns |
| DateExtractor.AbsoluteFirst | crawler/common/date_extractor.py:79-119 | when no relative pattern occurs and the k-th absolute pattern is the first to yield a date, the result is midnight of that date |
| DateExtractor.NothingFound | crawler/common/date_extractor.py:61-123 | when no relative pattern occurs and no absolute pattern yields a date, there is no date |
| DateExtractor.TextFormRoundTrip | crawler/common/date_extractor.py:121-122 | the string form exists exactly when a date is found, and parsing it back as %Y-%m-%d gives that date |
| DateExtractorExamples.IsoDashes | tests/common/test_date_extractor.py:12 | "2024-03-22" is 22 March 2024 |
| DateExtractorExamples.IsoSlashes | tests/common/test_date_extractor.py:13 | "2024/03/22" is 22 March 2024 |
| DateExtractorExamples.ChineseDate | tests/common/test_date_extractor.py:14 | "2024年3月22日" is 22 March 2024 |
| DateExtractorExamples.Dotted | tests/common/test_date_extractor.py:15 | "2024.3.22" is 22 March 2024 |
| DateExtractorExamples.ShortYearDashes | tests/common/test_date_extractor.py:16 | "24-03-22" is 22 March 2024: a two-digit year is put in the 2000s |
| DateExtractorExamples.ShortYearSlashes | tests/common/test_date_extractor.py:17 | "24/03/22" is 22 March 2024 |
| DateExtractorExamples.MonthNameFirst | tests/common/test_date_extractor.py:28 | "Dec 7, 2024" is 7 December 2024 |
| DateExtractorExamples.FullMonthNameFirst | tests/common/test_date_extractor.py:29 | "December 7, 2024" is 7 December 2024 |
| DateExtractorExamples.MonthDay | tests/common/test_date_extractor.py:32 | "Dec 7" is 7 December of the current year |
| DateExtractorExamples.DayMonth | tests/common/test_date_extractor.py:33 | "7 Dec" is 7 December of the current year |
| DateExtractorExamples.MinutesAgo | tests/common/test_date_extractor.py:45 | "5分钟前" is exactly five minutes before now |
| DateExtractorExamples.HoursAgo | tests/common/test_date_extractor.py:46 | "2小时前" is exactly two hours before now |
| DateExtractorExamples.DaysAgo | tests/common/test_date_extractor.py:47 | "3天前" is exactly three days before now |
| DateExtractorExamples.Yesterday | tests/common/test_date_extractor.py:48 | "昨天" is exactly one day before now |
| DateExtractorExamples.DayBeforeYesterday | tests/common/test_date_extractor.py:49 | "前天" is exactly two days before now |
| DateExtractorExamples.JustNow | tests/common/test_date_extractor.py:50 | "刚刚" is now |
| DateExtractorExamples.NoDigits | tests/common/test_date_extractor.py:63 | "invalid date" is no date |
| DateExtractorExamples.MonthThirteen | tests/common/test_date_extractor.py:64 | "2024-13-01" is no date: month 13 makes each hit fall through |
| DateExtractorExamples.DayThirtyTwo | tests/common/test_date_extractor.py:65 | "2024-12-32" is no date: day 32 makes each hit fall through |
| DateExtractorExamples.UnknownMonth | tests/common/test_date_extractor.py:66 | "Foo 7" is no date: an unknown month name skips the pattern |
| DateExtractorExamples.UnknownMonthSecond | tests/common/test_date_extractor.py:67 | "7 Foo" is no date |
| DateExtractorExamples.PublishedAt | tests/common/test_date_extractor.py:78 | "发布于 2024-03-22" is 22 March 2024: the label is dropped |
| DateExtractorExamples.PublishedOn | tests/common/test_date_extractor.py:79 | "Published on Dec 7, 2024" is 7 December 2024 |
| DateExtractorExamples.DateLabel | tests/common/test_date_extractor.py:80 | "Date: 2024/03/22" is 22 March 2024 |
| DateExtractorExamples.RelativeBeforeAbsolute | crawler/common/date_extractor.py:71-80 | in "3天前 2024-03-22" the relative expression wins over the absolute date: the result is three days before now |
| Calendar.SubSeconds | crawler/caijing/core/article_manager.py:24 | subtracting a time span gives the instant that many seconds earlier, or nothing below the calendar's range |
| Calendar.IsoFormat | crawler/common/date_extractor.py:122 | `strftime('%Y-%m-%d')` gives ten characters: four digits, '-', two digits, '-', two digits |
| Calendar.ParseIsoFormat | crawler/caijing/core/article_manager.py:30 | parsing a formatted date with `%Y-%m-%d` gives the date back |
| Calendar.ParseIsoDate | crawler/caijing/core/article_manager.py:30 | `strptime(name, '%Y-%m-%d')` succeeds only with a valid calendar date |
| Calendar.ParseDayMonthYear | crawler/paper/core/article_paper.py:82-85 | `strptime` with '%d %b %Y' or '%d %B %Y' succeeds only with a valid calendar date |
| ArticleExtractor.FromSelectors | crawler/common/article.py:186-193 | the text found is stripped, and empty when no selector hits an element with text |
| ArticleExtractor.FirstUsableText | crawler/common/article.py:186-193 | the first selector that hits an element with text decides the result |
| ArticleExtractor.FromMeta | crawler/common/article.py:85-92 | the meta content found is stripped, and empty when no meta selector has content |
| ArticleExtractor.FirstUsableMeta | crawler/common/article.py:85-92 | the first meta selector with content decides the result |
| ArticleExtractor.RemoveSuffixes | crawler/common/article.py:213-225 | removing site-name suffixes leaves a prefix of the title |
| ArticleExtractor.ReplaceIllegal | crawler/common/article.py:228 | each of `< > : " / \ \| ? *` becomes '-' and every other character stays in place |
| ArticleExtractor.CleanTitle | crawler/common/article.py:196-234 | empty in, empty out; the result has no \n, \r, \t or illegal character, no outer whitespace, and at most 200 characters; a body (collapsed, suffix removed, illegal characters replaced) of at most 200 characters comes back stripped; a longer one becomes its first 197 characters plus "..." |
| ArticleExtractor.TitleBodyShape | crawler/common/article.py:206-228 | after collapsing, suffix removal and replacement the title has only legal characters and no leading space |
| ArticleExtractor.FirstTitle | crawler/common/article.py:106-110 | a title chosen is the non-empty, shaped cleaned form of one of the candidates; none means every candidate cleans to "" |
| ArticleExtractor.FirstTitleIsFirst | crawler/common/article.py:106-110 | the title chosen is the cleaned form of the first candidate whose cleaned form is non-empty: every candidate before it cleans to "" |
| ArticleExtractor.ExtractTitle | crawler/common/article.py:95-121 | every title returned is clean in the sense of `_clean_title` |
| ArticleExtractor.Normalized | crawler/common/article.py:128-132 | empty selector text leaves the date undecided, so the next fallback is tried |
| ArticleExtractor.CommonSelectorsFirst | crawler/common/article.py:128-132 | a date found through the common date selectors is the result, whatever follows |
| ArticleExtractor.DateSelectorsFinal | crawler/common/article.py:155-158 | when `date_selectors` yield text, the date extractor's answer is final, even "no date", and the URL is never consulted |
| ArticleExtractor.MetaSecond | crawler/common/article.py:134-139 | when the common selectors give no date, a date from the meta tags is the result, whatever the configuration and the URL hold |
| ArticleExtractor.ConfiguredDate | crawler/common/article.py:141-151 | without a `date` entry the configuration's table leaves the date undecided; with both `date` and `date_format` it always decides |
| ArticleExtractor.ConfiguredThird | crawler/common/article.py:141-149 | when neither the common selectors nor the meta tags decide, a date read under the table's `date` selector is the result |
| ArticleExtractor.ConfiguredFormat | crawler/common/article.py:141-151 | when that selector's text gives no date, even when there is none, `strptime` of the stripped text with the table's `date_format` is the result, and neither `date_selectors` nor the URL is consulted |
| ArticleExtractor.PageDate | crawler/common/article.py:126-158 | the page leaves the date undecided only when neither the common selectors nor the meta tags give a date |
| ArticleExtractor.ExtractPublishDate | crawler/common/article.py:124-169 | a decision of the page steps is final; only when none decides is the URL read, and then there is a date iff the URL names one that exists |
| ArticleExtractor.UrlLast | crawler/common/article.py:160-169 | when every selector step finds nothing, the date is the one embedded in the URL, or none |
| ArticleExtractor.DateFromUrl | crawler/common/article.py:237-249 | a date taken from the URL is a valid calendar date; there is no date iff none of the three patterns occurs |
| ArticleExtractor.EightDigitSearch | crawler/common/article.py:240 | in a URL pre + "/" + y + m + d + "/" + post with no digit in pre, `/(\d{4})(\d{2})(\d{2})/` captures exactly y, m and d |
| ArticleExtractor.DateFromUrlDigits | crawler/common/article.py:237-249 | such a URL gives the date (int(y), int(m), int(d)) when it exists and the `datetime` error otherwise |
| ArticleExtractor.UrlDateFrom | crawler/common/article.py:245-249 | no URL date exactly when none of the three patterns occurs |
| ArticleExtractor.UrlGroupsDate | crawler/common/article.py:247-248 | a pattern hit gives either a date or an error from `datetime`, never "no date" (no range check precedes it); a date exactly when the three groups are digit strings whose values (int(y), int(m), int(d)) make a valid date, and then that date |
| ArticleExtractor.FirstUrlPatternDecides | crawler/common/article.py:245-248 | the first URL pattern that occurs decides the result |
| ArticleExtractor.ShouldSkipElementIsSetTest | crawler/common/article.py:326-338 | an element is skipped iff its class words meet `SKIP_CLASSES` or its tag is in `SKIP_TAGS` |
| ArticleExtractor.SkipClassMeets | crawler/common/article.py:329-332 | the class scan is the set-intersection test |
| ArticleExtractor.DateText | crawler/caijing/core/article_caijing.py:32 | no date is written "未知"; a date is written so that `%Y-%m-%d` parses it back |
| ArticleExtractor.AuthorList | crawler/caijing/core/article_caijing.py:19-20 | at most one author, and none exactly when the author text is empty |
| ArticleExtractor.IsWithinRetention | crawler/common/article.py:573-586 | within retention iff less than retention_days + 1 whole days have elapsed |
| ArticleExtractor.RetentionInDays | crawler/common/article.py:573-586 | for a date at midnight, within retention iff the calendar days elapsed are at most retention_days |
| ArticleContent.ElementText | crawler/common/article.py:314-315 | an element contributes its stripped text, and only when that is non-empty |
| ArticleContent.SelectorTexts | crawler/common/article.py:310-317 | the collected texts, in selector and element order, are all non-empty |
| ArticleContent.DedupMembers | crawler/common/article.py:315-317 | keeping first occurrences keeps every text once and nothing else |
| ArticleContent.CollectedParts | crawler/common/article.py:306-317 | a text is among the parts iff some selector hits a non-skipped element with that stripped text; the parts are pairwise distinct |
| ArticleContent.AddElementTexts | crawler/common/article.py:312-317 | the inner loop appends the first-seen texts of the elements and keeps the seen set equal to the parts |
| ArticleContent.ExtractContent | crawler/common/article.py:294-323 | the nested loops produce the specified content: the cleaned join of the first-seen texts |
| ArticleContent.Paragraphs | crawler/common/article.py:426-430 | at most `MAX_LINES_DOWNLOADED` (150) lines are looked at |
| ArticleContent.Scan | crawler/common/article.py:436-477 | kept lines are a prefix-extension of the earlier ones, pairwise distinct, non-noise, collapsed, and each comes from an input line |
| ArticleContent.CleanLines | crawler/common/article.py:426-477 | every output line is collapsed, at least two characters long, not code-like, has CJK text when shorter than 10, is no navigation item, and is not repeated |
| ArticleContent.CleanContent | crawler/common/article.py:341-489 | the filter loop with its seen set, blank counter and CJK flag computes the specified cleaned content |
| ArticleContent.CleanedIsKeptLines | crawler/common/article.py:479-489 | the cleaned content is the kept lines joined by newlines, and the final newline collapse changes nothing |
| ArticleContent.ThreeBlanksEnd | crawler/common/article.py:436-443 | after a CJK line was kept, three blank lines in a row end the scan |
| ArticleContent.NoChineseKeepsAll | crawler/common/article.py:436-477 | while no CJK paragraph has been kept, if no paragraph from position i on has CJK text, the scan from i keeps every good paragraph j after i (blank lines never end it) |
| ArticleContent.BlanksIrrelevantBeforeChinese | crawler/common/article.py:436-443 | before a CJK line is kept, the blank counter has no effect on the result |
| CaijingArticle.KeptWhenComplete | crawler/common/article.py:544-556 | `from_html` keeps the parsed fields exactly when title, date and summary are all present |
| CaijingArticle.Article.Parse | crawler/caijing/core/article_caijing.py:9-26 | parsing sets title, date, source (the URL), authors and summary from the extractors |
| CaijingArticle.Article.FromHtml | crawler/common/article.py:536-560 | an article is returned iff the parsed fields are complete, and then it carries them |
| CaijingArticle.Site | crawler/caijing/core/article_caijing.py:34 | the site is the third '/'-separated part of the URL, which contains no '/'; absent when the URL has fewer parts |
| CaijingArticle.TextLines | crawler/caijing/core/article_caijing.py:28-42 | lines "标题：" + title, "发布日期：" + date, "来源：" + source, "网站：" + site, then "作者：" + the joined authors when there are any, then an empty line, "正文：" and the body: seven or eight lines |
| CaijingArticle.AuthorLine | crawler/caijing/core/article_caijing.py:37-40 | the 作者 line is there iff there are authors, joined by ", ", and an empty line and "正文：" precede the body |
| CaijingArticle.Article.ToText | crawler/caijing/core/article_caijing.py:28-42 | the text exists iff the URL has a third part, and it contains "来源：" + source |
| CaijingArticle.TextNamesUrl | crawler/caijing/core/article_caijing.py:17-33 | a parsed article's text contains "来源：<url>", the marker the duplicate check of `save_article` looks for |
| PaperArticle.AbstractFrom | crawler/paper/core/article_paper.py:41-52 | the abstract is empty iff no abstract selector yields text |
| PaperArticle.AbstractFromFirst | crawler/paper/core/article_paper.py:47-52 | the first abstract selector with text decides |
| PaperArticle.FindAbstract | crawler/paper/core/article_paper.py:47-52 | the selector loop returns the specified abstract |
| PaperArticle.Defaults | crawler/paper/core/article_paper.py:59-69 | after a failure, empty title and summary get defaults, the source falls back to the URL, and fields already set are kept |
| PaperArticle.HuggingfaceFallback | crawler/paper/core/article_paper.py:57-69 | when the arxiv lookup raises, the fields get defaults: a title, a summary, the URL as source and no arxiv id |
| PaperArticle.PapersWithCodeDate | crawler/paper/core/article_paper.py:78-87 | a date exists iff the author span is there and its text parses as '%d %b %Y' or '%d %B %Y' |
| PaperArticle.PapersWithCodeNoHeading | crawler/paper/core/article_paper.py:74-75 | with no title and no h1 the paperswithcode parse raises and leaves every field blank |
| PaperArticle.LastSegment | crawler/paper/core/article_paper.py:124 | the last '/'-segment ends the URL and contains no '/' |
| PaperArticle.GenericArxivId | crawler/paper/core/article_paper.py:104-124 | the generic parse sets source to the URL and an arxiv id iff the URL contains "arxiv.org", taken from its last segment |
| PaperArticle.Article.Parse | crawler/paper/core/article_paper.py:15-22 | parsing dispatches on huggingface.co, then paperswithcode.com, then the generic parse |
| PaperArticle.Article.ParseHuggingface | crawler/paper/core/article_paper.py:24-69 | the huggingface parse sets the specified fields, defaults included |
| PaperArticle.Article.ParsePapersWithCode | crawler/paper/core/article_paper.py:71-102 | the paperswithcode parse sets the specified fields |
| PaperArticle.Article.ParseGeneric | crawler/paper/core/article_paper.py:104-124 | the generic parse sets the specified fields |
| PaperArticle.DownloadLines | crawler/paper/core/article_paper.py:135-136 | the 下载地址 line is there iff an arxiv id is set, and reads https://arxiv.org/abs/<id> |
| PaperArticle.TextLines | crawler/paper/core/article_paper.py:126-139 | 标题, 发布日期 (YYYY-MM-DD or 未知), an always-present 作者 line, the optional 下载地址 line, then 摘要 last |
| PaperArticle.Article.ToText | crawler/paper/core/article_paper.py:126-139 | the text contains the author line and, when an arxiv id is set, its download line |
| ArticleParser.Check | crawler/caijing/core/parser.py:39-53 | the checks pass iff html, config and url are usable and both selector lists are present; a missing html is reported first |
| ArticleParser.ParseArticle | crawler/caijing/core/parser.py:22-75 | an article is returned iff the checks pass and `from_html` keeps it, and it always has a title, a date and a summary |
| ArticleParser.EntriesRejected | crawler/caijing/core/parser.py:49-53 | a plain dictionary config, which has no selector attributes, is always rejected |
| CrawlerChecks.UrlDay | crawler/caijing/core/crawler.py:225-244 | a URL date, when present, is a valid calendar date; none iff neither date pattern occurs |
| CrawlerChecks.UrlDayAgrees | crawler/caijing/core/crawler.py:229-244 | when one of its two patterns occurs, `is_valid_url` reads the same date as `_extract_date_from_url` (crawler/common/article.py:237-249) |
| CrawlerChecks.UrlDayDigits | crawler/caijing/core/crawler.py:229-238 | a URL pre + "/" + y + m + d + "/" + post with no digit in pre gives the date (int(y), int(m), int(d)), or the `datetime` error when that is no date |
| CrawlerChecks.IsValidUrl | crawler/caijing/core/crawler.py:158-249 | robots permission is checked first; for 10jqka it is valid iff allowed, on news/stock hosts and shaped /<8 digits>/c<digits>.s?html; otherwise, after the caijing, caixin and thepaper host rules, a valid URL has an http(s) scheme, no banned extension and no embedded date older than 90 days |
| CrawlerChecks.SiteConfigFor | crawler/caijing/core/crawler.py:251-256 | the first configuration whose domain occurs in the URL, or none iff no domain occurs |
| CrawlerChecks.ArticlePattern | crawler/caijing/core/crawler.py:369-373 | the configured pattern is kept whole: preceded by ".*" unless it starts with "^", followed by ".*" unless it ends with "$", and nothing else is added |
| CrawlerChecks.IsArticlePage | crawler/caijing/core/crawler.py:365-378 | a page is an article iff there is a configuration and `re.match` of its completed pattern succeeds; a missing configuration or a pattern that does not compile gives False |
| CrawlerChecks.CleanFilename | crawler/caijing/core/crawler.py:258-260 | no `\ / * ? : " < > \|` is left, and every other character keeps its count |
| CrawlerChecks.CleanFilenameIdempotent | crawler/caijing/core/crawler.py:258-260 | cleaning twice is cleaning once |
| CrawlerChecks.CleanFilenameAppend | crawler/caijing/core/crawler.py:258-260 | cleaning a concatenation is concatenating the cleaned parts: the kept characters stay in their order |
| CrawlerChecks.Ymd | crawler/caijing/core/crawler.py:386-389 | a hit is accepted iff its three groups are digit strings with year 1900..2100, month 1..12 and day 1..31, and then the three strings are returned as captured |
| CrawlerChecks.HitIn | crawler/caijing/core/crawler.py:393-400 | an element gives a date iff it exists and the leftmost hit of the date pattern in its text is in range; the date is that hit's three strings |
| CrawlerChecks.PageDateText | crawler/caijing/core/crawler.py:392-402 | the page date is empty iff no selector's first element holds a date in range; otherwise it is a year, month and day in range joined by "-" |
| CrawlerChecks.Written | crawler/caijing/core/crawler.py:400 | year, month and day in range written with a two-digit month and day stay in range |
| CrawlerChecks.FirstSelectorDecides | crawler/caijing/core/crawler.py:392-400 | the first selector whose element holds a date in range gives the page date, written year-MM-DD |
| CrawlerChecks.ExtractDateText | crawler/caijing/core/crawler.py:380-406 | a non-empty result is a year, month and day in range joined by "-"; an in-range /YYYYMMDD/ of the URL wins, written as it stands; otherwise the page date decides |
| CrawlerChecks.ExtractDateUrlDigits | crawler/caijing/core/crawler.py:383-389 | a URL pre + "/" + y + m + d + "/" + post with no digit in pre and y, m, d in range gives y + "-" + m + "-" + d, even when that is no calendar date |
| CrawlerChecks.ExtractDateFromPage | crawler/caijing/core/crawler.py:391-402 | without an in-range URL date, the first selector with a date in range decides |
| CrawlerChecks.Review | crawler/caijing/core/crawler.py:262-305 | each verdict holds iff its check fails and every earlier check passes, in the order cached, not parsed or undated, out of retention, summary under 50 characters, a cap reached, the daily cap reached; accepted iff every check passes |
| Crawler.Enabled | crawler/caijing/core/crawler.py:41 | exactly the enabled configurations are kept |
| Crawler.Seeded | crawler/caijing/core/crawler.py:50-52 | one queue per enabled domain |
| Crawler.SeededLast | crawler/caijing/core/crawler.py:50-52 | each domain's queue holds exactly its (last) configuration's start URL |
| Crawler.SeededStart | crawler/caijing/core/crawler.py:50-52 | every queue is seeded with the start URL of a configuration for that domain |
| Crawler.NoUrls | crawler/caijing/core/crawler.py:53-55 | every enabled domain starts with an empty set |
| Crawler.Zeros | crawler/caijing/core/crawler.py:56-58 | every enabled domain's counter starts at zero |
| Crawler.RegisterDomains | crawler/caijing/core/crawler.py:24-59 | the domains are added to the dedup cache with empty sets, and existing entries are kept |
| Crawler.MultiSiteCrawler.constructor | crawler/caijing/core/crawler.py:24-59 | enabled configs only; each queue holds its start URL; visited and error sets empty; counters zero |
| Crawler.SavePath | crawler/caijing/core/crawler.py:313-330 | a save path exists iff there is a date; it is the ISO date, the domain, and the cleaned title + ".txt", or "article_<hash>.txt" when nothing is left of the title |
| Crawler.MultiSiteCrawler.ParseArticle | crawler/caijing/core/crawler.py:262-305 | an article is returned iff the rejection chain accepts it; then both caps are unreached |
| Crawler.MultiSiteCrawler.SaveArticle | crawler/caijing/core/crawler.py:307-363 | either nothing changes, or the text is stored and, when no same-named file names the URL, both counters rise by exactly one and the URL is cached |
| Crawler.MultiSiteCrawler.StoreText | crawler/caijing/core/crawler.py:333-351 | a file naming the same URL is left alone and counts nothing; otherwise the text is written and counted |
| Crawler.MultiSiteCrawler.RecordSave | crawler/caijing/core/crawler.py:353-358 | site and total counters rise by exactly one, then the URL is added to the cache |
| Crawler.Target | crawler/caijing/core/crawler.py:481-487 | a link target is the stripped href, non-empty and not a fragment, javascript: or mailto: link |
| Crawler.MultiSiteCrawler.LinkOf | crawler/caijing/core/crawler.py:481-492 | a link is kept iff it has a target and its absolute form passes `is_valid_url` |
| Crawler.MultiSiteCrawler.Links | crawler/caijing/core/crawler.py:474-501 | every link returned is valid and comes from an anchor of the page |
| Crawler.MultiSiteCrawler.ExtractLinks | crawler/caijing/core/crawler.py:474-501 | the anchor loop returns the specified links |
| Crawler.MultiSiteCrawler.ProcessArticle | crawler/caijing/core/crawler.py:463-472 | a non-article page changes nothing; the total rises by at most one and only below its cap |
| Crawler.MultiSiteCrawler.FetchUrl | crawler/caijing/core/crawler.py:419-461 | a failed download records the URL as an error and yields no links; otherwise the links are those of the page |
| Crawler.MultiSiteCrawler.Refill | crawler/caijing/core/crawler.py:528-534 | URLs are dispatched at most once each, are marked visited first, and no more than `concurrent_tasks` run |
| Crawler.MultiSiteCrawler.Complete | crawler/caijing/core/crawler.py:546-561 | one completion stops the crawl iff a cap is reached; on a stop every queue is as before, otherwise exactly the page's links (none for a failed download) are appended to the domain's queue and the other queues are unchanged |
| Crawler.MultiSiteCrawler.CompleteTask | crawler/caijing/core/crawler.py:538-561 | one URL in flight completes: it moves to the URLs fetched, every URL still held once and the visited set unchanged; the crawl stops iff a cap is reached, and the counters stay within their caps |
| Crawler.MultiSiteCrawler.CrawlSite | crawler/caijing/core/crawler.py:516-563 | every URL is fetched at most once per domain, in-flight tasks stay within `concurrent_tasks`, counters stay within their caps, nothing is dispatched once a cap is reached, and the loop ends only with an empty queue or a cap reached |
| Crawler.Dispatch | crawler/caijing/core/crawler.py:528-534 | the dispatch loop takes queue entries in order, skips visited ones, and stops once `limit` URLs are in flight or an empty queue |
| Crawler.UnseenExactly | crawler/caijing/core/crawler.py:530-534 | the URLs dispatched from a queue prefix are exactly its unvisited ones, each once |
| UrlStore.Loaded | crawler/common/cache_manager.py:26-34 | the cache has the stored domains, and each domain's set holds exactly the URLs of its stored list; a missing or unreadable file gives the empty cache |
| UrlStore.Insert | crawler/common/cache_manager.py:59-63 | the URL is added to its domain's set, created if absent; other domains are unchanged |
| UrlStore.TotalInsert | crawler/common/cache_manager.py:66 | the total URL count rises by one iff the URL is new |
| UrlStore.InsertIdempotent | crawler/common/url_cache_manager.py:58-60 | adding the same URL twice changes nothing the second time |
| UrlStore.Dump | crawler/common/cache_manager.py:36-45 | saving then loading gives the cache back |
| CacheManager.WithDomain | crawler/common/cache_manager.py:50-53 | an empty set is created only for an absent domain; existing entries are kept |
| CacheManager.InitDomainKeeps | crawler/common/cache_manager.py:50-53 | initialising is idempotent and never changes which URLs are cached |
| CacheManager.Cache.constructor | crawler/common/cache_manager.py:8-34 | the cache is what the stored file loads to |
| CacheManager.Cache.InitDomain | crawler/common/cache_manager.py:50-53 | the cache becomes `WithDomain` of the old one |
| CacheManager.Cache.IsCached | crawler/common/cache_manager.py:55-57 | cached iff the domain is present and the URL is in its set |
| CacheManager.Cache.AddToCache | crawler/common/cache_manager.py:59-67 | the URL is inserted, and the file is rewritten exactly when the total is a multiple of 100 |
| CacheManager.Cache.CacheSize | crawler/common/cache_manager.py:69-72 | one domain's set size (0 if absent), or the total over all domains |
| CacheManager.AddThenCached | crawler/common/cache_manager.py:55-67 | after adding, the URL is cached, the total rises by one iff it was new, and other domains are unchanged |
| CacheManager.UnknownDomainNotCached | crawler/common/cache_manager.py:57 | nothing is cached for a domain never initialised or added to |
| UrlCacheManager.UrlCache.constructor | crawler/common/url_cache_manager.py:9-34 | the cache is what the stored file loads to, empty when missing or unreadable |
| UrlCacheManager.UrlCache.HasUrl | crawler/common/url_cache_manager.py:63-72 | true iff the domain is a key and the URL is in its set |
| UrlCacheManager.UrlCache.AddUrl | crawler/common/url_cache_manager.py:51-61 | the URL is inserted and the file always rewritten to match |
| UrlCacheManager.AddThenHas | crawler/common/url_cache_manager.py:51-61 | after adding, the URL is present and no other (domain, URL) pair changes |
| UrlCacheManager.NothingWithoutFile | crawler/common/url_cache_manager.py:21-34 | without a readable file no URL is cached |
| RobotsParser.Readable | crawler/common/robots_parser.py:36-42 | loading stops at the first unreadable timestamp |
| RobotsParser.Robots.constructor | crawler/common/robots_parser.py:15-27 | only domains recorded less than seven days ago are failed; no rules yet |
| RobotsParser.Robots.LoadFailedDomains | crawler/common/robots_parser.py:29-42 | the failed set is exactly the fresh records, each under seven days old |
| RobotsParser.Robots.IsUrlAllowed | crawler/common/robots_parser.py:90-98 | denied iff the domain has not failed, has stored rules, and the rules refuse the URL |
| RobotsParser.Robots.FetchRobots | crawler/common/robots_parser.py:71-88 | status 200 stores the rules; anything else only adds the domain to the failed set |
| RobotsParser.Robots.SaveFailedDomains | crawler/common/robots_parser.py:44-55 | the file names exactly the failed domains, each once, every one stamped with the current time |
| RobotsParser.Robots.InitRobotsRules | crawler/common/robots_parser.py:57-69 | exactly the listed domains not already failed are fetched; the failed set grows by exactly the fetches that did not answer 200; rules are stored exactly for those that did; the saved file names exactly the failed domains, each stamped with the current time |
| RobotsParser.LoadedFrom | crawler/common/robots_parser.py:36-39 | a record survives loading iff it is strictly less than seven days old |
| RobotsParser.SavedAsWritten | crawler/common/robots_parser.py:47-50 | saving as written stamps every failed domain with the current time |
| RobotsParser.SavedKeeping | crawler/common/robots_parser.py:47-50 | the corrected save (a definition beside the class, which saves as written) keeps a domain's first failure time |
| RobotsParser.RestampedForever | crawler/common/robots_parser.py:36-50 | as written, runs less than seven days apart keep a failed domain recorded with the latest run's time, so it never expires |
| RobotsParser.SkippedAfterTtl | crawler/common/robots_parser.py:36-50 | as written, a domain that failed 10 days ago is still skipped |
| RobotsParser.KeptStampsStay | crawler/common/robots_parser.py:47-50 | with the corrected save, stored times never move |
| RobotsParser.RetriedAfterTtl | crawler/common/robots_parser.py:21-39 | with the corrected save, a domain that failed seven or more days ago is fetched again |
| ArticleManager.Manager.CleanupOldArticles | crawler/caijing/core/article_manager.py:15-50 | removes exactly the date-named directories older than the cutoff and returns their file total; 0 and no change when the directory cannot be listed |
| ArticleManager.PrunedFiles | crawler/caijing/core/article_manager.py:35-37 | files before = files kept + files counted as removed |
| ArticleManager.PrunedDates | crawler/caijing/core/article_manager.py:24-42 | after cleanup the dates are the old dates not before the cutoff; plain files and non-date names are untouched |
| ArticleManager.PrunedTwice | crawler/caijing/core/article_manager.py:15-50 | cleaning up twice is cleaning up once |
| ArticleManager.Manager.GetArticleDates | crawler/caijing/core/article_manager.py:52-66 | exactly the directory names that parse as dates; empty when the directory cannot be listed |
| ArticleManager.Manager.CleanupInvalidDirectories | crawler/caijing/core/article_manager.py:68-80 | removes exactly the directories whose name is not a date |
| ArticleManager.CleanDates | crawler/caijing/core/article_manager.py:68-80 | invalid-directory cleanup keeps the dates and plain files, and leaves only date directories |
| PaperCrawler.PageCount.constructor | crawler/paper/paper_crawler.py:23-24 | the count starts at 0 |
| PaperCrawler.PageCount.Add | crawler/paper/paper_crawler.py:26-27 | the count rises by exactly one |
| PaperCrawler.PageCount.NeedMore | crawler/paper/paper_crawler.py:29-30 | more pages are needed iff the count is below 150 |
| PaperCrawler.KeptChars | crawler/paper/paper_crawler.py:386 | only alphanumerics, ' ', '-' and '_' remain, every such character of the title is kept, and nothing is added |
| PaperCrawler.KeptCharsAppend | crawler/paper/paper_crawler.py:386 | keeping distributes over concatenation: the kept characters stay in order, each as often as it occurs |
| PaperCrawler.KeptWhole | crawler/paper/paper_crawler.py:386 | a title of allowed characters is kept whole |
| PaperCrawler.SafeTitle | crawler/paper/paper_crawler.py:386-388 | a non-empty name of at most 100 characters: "untitled" when nothing is kept, else the kept characters truncated to 100 |
| PaperCrawler.SafeTitleStable | crawler/paper/paper_crawler.py:386-388 | the file name rule is idempotent |
| PaperCrawler.SavedOnlyWhenNew | crawler/paper/paper_crawler.py:304-405 | a paper is saved iff not cached, parsed with date and title, a date format is configured, and its file does not exist; the name is at most 100 characters + ".txt" |
| PaperCrawler.CachedSkipped | crawler/paper/paper_crawler.py:307-309 | a URL already in the URL cache is skipped |
| PaperCrawler.NothingSavedAsConfigured | crawler/paper/paper_crawler.py:377 | with the storage settings as shipped nothing is ever saved |
| PaperCrawler.SavedWithDateFormat | crawler/paper/paper_crawler.py:377-398 | with a `date_format` setting a new dated, titled paper is saved at its path |
| PaperCrawler.Crawler.constructor | crawler/paper/paper_crawler.py:38-48 | the page count starts at 0 and the URL cache is loaded from its file |
| PaperCrawler.Crawler.CrawlPaper | crawler/paper/paper_crawler.py:304-405 | the outcome is the save decision; only a save writes the file, counts the page and caches the URL |
| PaperCrawler.Crawler.SaveParsed | crawler/paper/paper_crawler.py:367-398 | a parsed article is saved by the same decision with the same effects |
| PaperCrawler.Crawler.CrawlPage | crawler/paper/paper_crawler.py:138-143 | the page count never passes 150 and only grows; nothing is saved on unknown sources or without a date format |
| PaperCrawler.Crawler.Crawl | crawler/paper/paper_crawler.py:121-136 | `_crawl_page` is called while more pages are needed and the start URL is set; as shipped the loop never ends by itself |
| Downloader.ValidateUrl | crawler/common/downloader.py:94-100 | valid iff the parsed scheme and netloc are both non-empty |
| Downloader.FailureOf | crawler/common/downloader.py:148-176 | classified failures are network errors; anything else is a `DownloaderError` |
| Downloader.FirstSuccess | crawler/common/downloader.py:125-146 | the first successful attempt, with every earlier one failed, or none when all failed |
| Downloader.FirstAt | crawler/common/downloader.py:125-146 | the first success is the attempt before which all failed |
| Downloader.Backoffs | crawler/common/downloader.py:183-185 | the k-th backoff is `retry_interval * 2^k` |
| Downloader.BackoffsDouble | crawler/common/downloader.py:183-185 | each backoff doubles the one before |
| Downloader.BackoffsTotal | crawler/common/downloader.py:183-185 | n backoffs sleep `retry_interval * (2^n - 1)` in total |
| Downloader.Expected | crawler/common/downloader.py:102-191 | zero retries return nothing; a response is the first success; a raise follows `retry_times` failures with the last attempt's error |
| Downloader.ReturnsIffSucceeded | crawler/common/downloader.py:125-191 | nothing is returned iff `retry_times <= 0`; a raise happens iff every attempt failed |
| Downloader.Memoised | crawler/common/downloader.py:55-67 | a resolved address is remembered and reused; a failure is not remembered |
| Downloader.Downloader.constructor | crawler/common/downloader.py:24-53 | empty DNS memo, no session, no sleeps, no requests |
| Downloader.Downloader.GetIpFromDomain | crawler/common/downloader.py:55-67 | the address comes from the memo or the resolver, and only successes are memoised |
| Downloader.Downloader.Get | crawler/common/downloader.py:102-191 | an invalid URL raises before any lookup; a DNS failure raises with no request; otherwise the result and request count are those specified, with the backoffs slept between attempts and the session closed after each |
| Downloader.Downloader.Retry | crawler/common/downloader.py:125-191 | the attempt loop yields the specified result, makes the specified number of requests and sleeps the backoffs only between attempts |

## Left out

- Network, disk and clock: HTTP sessions, robots.txt fetching, file writes, directory listings and JSON files are parameters or maps. Their failures appear only where the source branches on them.
- Concurrency: `asyncio` tasks, semaphores, `wait(FIRST_COMPLETED)` and `gather` are not modelled. `crawl_site` is a sequential machine in which one chosen task completes per step, and the robots fetches of `init_robots_rules` run one after another.
- `crawl` of the multi-site crawler, `_print_site_stats`, the `stats` dictionaries, `time.time()` stamps and all logging are left out: they carry no decision.
- Crawler.MultiSiteCrawler.CrawlSite: the URLs still in flight when the queue runs empty are returned, not modelled as running on after the method returns; their links are dropped, as in the source.
- Crawler.MultiSiteCrawler.CrawlSite: termination is proved for a page universe that is closed under links (the ghost `universe`); an unbounded web is not modelled.
- Crawler.MultiSiteCrawler.ProcessArticle, Crawler.MultiSiteCrawler.FetchUrl and Crawler.MultiSiteCrawler.Complete give the counters only as bounds (unchanged, or one more below the cap) and do not give the new file map; their queue and error effects are stated exactly.
- `get_today_article_count` is derived from the crawler's file map by the `.txt` files under today's date and the domain; a listing error is not modelled.
- Selenium, Chrome and process handling in the paper crawler, and the driver branch of `crawl_paper`, are left out. The fetched page is a parameter.
- Random delays and jitter in the downloader and the paper crawler, request headers and keyword arguments are left out.
- PaperCrawler.Crawler.Crawl: the source loop has no bound; the model takes a finite sequence of rounds and stops after it.
- `str.isalnum` is the parameter `alnum`, since Unicode character classes are not modelled.
- Case-insensitive matching (`re.IGNORECASE` on the date labels and the title suffixes) folds ASCII letters only; the extra Unicode case pairs Python also folds, such as 'ſ' with 's' or 'K' (the Kelvin sign) with 'k', are not modelled.
- `\d` in the regular expressions is the ASCII digits only; the other Unicode decimal digits Python's `\d` accepts are not modelled. `\s` is the full `str.isspace` set (`Text.IsSpace`), as in Python.
- Downloader.Downloader.Get: `raise_for_status` is taken as "any non-2xx status is a failure"; redirects and the specific exception classes of httpx are collapsed into the `Attempt` kinds.
- The boilerplate regular expressions of `_clean_content` are the uninterpreted pre-pass `prepass`.
- `extract_author` and `extract_arxiv_id` are supplied values in the environment; their HTML searches are not modelled.
- The configured `date_format` branch of `extract_publish_date` uses the `strptime` parameter `parse`.
- Time zones and sub-second precision are not modelled; instants are whole seconds in a proleptic Gregorian calendar from year 1.
- `retention_days` is a natural number in `ArticleManager`.
- ArticleManager.Manager.CleanupOldArticles: a failing `rmtree` on one directory is not modelled, and the `os.walk` file count is the entry's `files` number.
- `SiteConfig.exclude_patterns` is not modelled: the crawler never reads it. The configuration files are constants or parameters.
- The crawler constructor's `ArticleManager` calls and its `Downloader` and `RobotsParser` creation are not part of the constructor model; those objects are passed in.
- RobotsParser.Robots.SaveFailedDomains: the class saves as the source is written (every failed domain stamped with the current time); the corrected save of the finding below is the separate definition `SavedKeeping`, used only by `RunsKeeping` and `RetriedAfterTtl`.
- DateExtractor.ExtractDate, DateExtractor.MonthOf, DateExtractor.Interpret and DateExtractor.TryPatterns: each one's own ensures gives only bounds (validity, 1..12); the values and the first-match order are stated by the lemmas named in their rows.
- DateExtractorExamples: "7 Dec Y" and "7 December Y" are not evaluated as examples; `InterpretMonthSecond` covers their reading. Texts that the tests build from the current year use 2024. The relative examples give the exact instant, where the tests compare only the date.
- Calendar.IsoFormat: the year is always padded to four digits; `strftime('%Y')` on some C libraries prints a year below 1000 without padding.
- The entry points (`main.py`, `spider.py`) and the static configuration files are not part of this model.

## Findings

| source | as written | input that shows it | evidently intended | confidence | as-written member | corrected member |
|---|---|---|---|---|---|---|
| crawler/common/robots_parser.py:47-50 | saving writes every failed domain with the current time, including domains loaded from the file and never retried | a domain fails once, then the crawler runs every 5 days: each run loads it (under 7 days old) and saves it again with a new time, so it is never fetched again | a failed domain is skipped for seven days after its failure and then tried again | high, not executed | RobotsParser.RestampedForever | RobotsParser.RetriedAfterTtl |
| crawler/paper/paper_crawler.py:377 | the save path reads `STORAGE_CONFIG['date_format']`, but the shipped storage settings hold only `base_dir`, so every save raises and is skipped | any uncached paper page with a date and a title | the date directory is named with a `%Y-%m-%d` date format | high, not executed | PaperCrawler.NothingSavedAsConfigured | PaperCrawler.SavedWithDateFormat |
