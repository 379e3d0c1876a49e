/**
 * `ArticleExtractor` and the `Article` base class: reading a title, a
 * publication date and the like out of a parsed page, with fixed fallback
 * orders, and the checks an article must pass before it is kept.
 *
 * The page is abstract: a CSS selector stands for the elements it selects,
 * in document order, and an element for its tag, its attributes and its text.
 */
module ArticleExtractor {
  import opened Wrappers
  import opened Text
  import opened Regex
  import opened Calendar
  import DateExtractor

  // ----- the page -----

  datatype Element = Element(tag: string, attributes: map<string, string>, text: string)

  /** What each selector selects on the page; a selector not listed selects nothing. */
  datatype Page = Page(selects: map<string, seq<Element>>)

  /** `html.css(selector)`. */
  function Css(page: Page, selector: string): seq<Element>
  {
    if selector in page.selects then page.selects[selector] else []
  }

  /** `html.css_first(selector)`: the first element `css` would give. */
  function CssFirst(page: Page, selector: string): Option<Element>
  {
    var all := Css(page, selector);
    if all == [] then None else Some(all[0])
  }

  /** `elem.attributes.get(name, '')`. */
  function Attribute(e: Element, name: string): string
  {
    if name in e.attributes then e.attributes[name] else ""
  }

  // ----- the selector tables -----

  const MetaTitleSelectors: seq<string> :=
    ["meta[property=\"og:title\"]", "meta[name=\"title\"]", "title"]

  const MetaDateSelectors: seq<string> :=
    ["meta[name=\"weibo:article:create_at\"]", "meta[name=\"article:published_time\"]",
     "meta[property=\"article:published_time\"]", "meta[name=\"publishdate\"]",
     "meta[name=\"pubdate\"]", "time[datetime]"]

  const CommonTitleSelectors: seq<string> :=
    ["h1", ".article-title", ".title", "#title", "article h1", ".main-title"]

  const CommonDateSelectors: seq<string> :=
    [".headerContent .ant-space-item span", ".time", ".date", ".article-time", ".publish-time",
     ".article-date", ".news-date", ".post-date", ".entry-date", ".meta-date", "div.mb-6 div:first-child"]

  const SkipClasses: set<string> := {"copyright", "related", "advertisement", "share", "comment"}
  const SkipTags: set<string> := {"script", "style", "iframe", "form"}

  // ----- the site configuration, as far as the extractor reads it -----

  /** A value of the `selectors` dictionary: one selector, or a list of them. */
  datatype SelectorValue = Single(selector: string) | Several(selectors: seq<string>)

  /** A site configuration as the extractor sees it: an object whose attributes
    * are looked up with `hasattr` (`None` where it has no such attribute), or a
    * plain dictionary, which has none of those attributes and is read with `get`. */
  datatype Config =
    | Attrs(selectors: Option<map<string, SelectorValue>>,
            titleSelectors: Option<seq<string>>,
            contentSelectors: Option<seq<string>>,
            dateSelectors: Option<seq<string>>)
    | Entries(entries: map<string, SelectorValue>)

  /** The `selectors` attribute, when there is one. */
  function SelectorTable(config: Config): Option<map<string, SelectorValue>>
  {
    if config.Attrs? then config.selectors else None
  }

  /** The `date_selectors` attribute, when there is one. */
  function DateSelectors(config: Config): Option<seq<string>>
  {
    if config.Attrs? then config.dateSelectors else None
  }

  /** Iterating over a selector value: a single string is iterated character by character. */
  function AsSelectors(v: SelectorValue): seq<string>
  {
    match v
    case Single(s) => seq(|s|, k requires 0 <= k < |s| => [s[k]])
    case Several(l) => l
  }

  // ----- first hits -----

  /** `_extract_from_selectors`: the stripped text of the first selected element
    * whose text is not empty, trying the selectors in order; "" if none has one. */
  function FromSelectors(page: Page, selectors: seq<string>): (r: string)
    ensures r == [] || (!IsSpace(r[0]) && !IsSpace(r[|r| - 1]))
    ensures (forall k :: 0 <= k < |selectors| ==> !UsableText(page, selectors[k])) ==> r == []
  {
    if selectors == [] then ""
    else if UsableText(page, selectors[0]) then Strip(CssFirst(page, selectors[0]).value.text)
    else FromSelectors(page, selectors[1..])
  }

  predicate UsableText(page: Page, selector: string)
  {
    CssFirst(page, selector).Some? && CssFirst(page, selector).value.text != []
  }

  /** The content a meta element offers: its `content` attribute, or else its text. */
  function MetaContent(e: Element): string
  {
    if Attribute(e, "content") != [] then Attribute(e, "content") else e.text
  }

  predicate UsableMeta(page: Page, selector: string)
  {
    CssFirst(page, selector).Some? && MetaContent(CssFirst(page, selector).value) != []
  }

  /** `_extract_from_meta` over one field's selectors. */
  function FromMeta(page: Page, selectors: seq<string>): (r: string)
    ensures r == [] || (!IsSpace(r[0]) && !IsSpace(r[|r| - 1]))
    ensures (forall k :: 0 <= k < |selectors| ==> !UsableMeta(page, selectors[k])) ==> r == []
  {
    if selectors == [] then ""
    else if UsableMeta(page, selectors[0]) then Strip(MetaContent(CssFirst(page, selectors[0]).value))
    else FromMeta(page, selectors[1..])
  }

  /** The first selector that offers text decides, even when its text strips to "". */
  lemma {:induction false} FirstUsableText(page: Page, selectors: seq<string>, k: nat)
    requires k < |selectors| && UsableText(page, selectors[k])
    requires forall j :: 0 <= j < k ==> !UsableText(page, selectors[j])
    ensures FromSelectors(page, selectors) == Strip(CssFirst(page, selectors[k]).value.text)
  {
    if k > 0 {
      FirstUsableText(page, selectors[1..], k - 1);
    }
  }

  lemma {:induction false} FirstUsableMeta(page: Page, selectors: seq<string>, k: nat)
    requires k < |selectors| && UsableMeta(page, selectors[k])
    requires forall j :: 0 <= j < k ==> !UsableMeta(page, selectors[j])
    ensures FromMeta(page, selectors) == Strip(MetaContent(CssFirst(page, selectors[k]).value))
  {
    if k > 0 {
      FirstUsableMeta(page, selectors[1..], k - 1);
    }
  }

  // ----- titles -----

  /** The characters a file name may not hold; `_clean_title` turns each into '-'. */
  const IllegalChars: set<char> := {'<', '>', ':', '"', '/', '\\', '|', '?', '*'}

  /** A word matched case-insensitively (`re.IGNORECASE`, ASCII letters). */
  function Caseless(w: string): (atoms: seq<Atom>)
    ensures |atoms| == |w|
  {
    if w == [] then [] else [One([AsciiLowerChar(w[0]), AsciiUpperChar(w[0])])] + Caseless(w[1..])
  }

  const LeadingSpaces: Atom := Run(Space, 0, Unbounded, true)
  const AnySpaces: Atom := Run(Space, 0, Unbounded, false)
  const SomeSpaces: Atom := Run(Space, 1, Unbounded, false)
  const Dash: Atom := One(['-', '_'])
  const DashOrBar: Atom := One(['-', '_', '|'])
  const Bar: Atom := One(['|'])
  const AnyText: Atom := Run(AnyButNewline, 0, Unbounded, false)

  const PapersWithCode: seq<Atom> :=
    Caseless("Papers") + [SomeSpaces] + Caseless("with") + [SomeSpaces] + Caseless("Code")

  /** The site-name suffixes removed from a title, in order. Each starts with a
    * captured `\s*`, so the first group's start is where the match starts. The
    * lazy `.*?` of the source is a greedy run here: the match ends at the end of
    * the text either way, so the text removed is the same. */
  const SuffixPatterns: seq<seq<Atom>> := [
    [LeadingSpaces, Dash, AnySpaces] + PapersWithCode + [AnySpaces, EndAnchor],
    [LeadingSpaces, Dash, AnySpaces, Bar, AnySpaces] + PapersWithCode + [AnySpaces, EndAnchor],
    [LeadingSpaces, Bar, AnySpaces] + PapersWithCode + [AnySpaces, EndAnchor],
    [LeadingSpaces, Dash, AnySpaces] + Caseless("arXiv") + [AnySpaces, EndAnchor],
    [LeadingSpaces, Dash, AnySpaces] + Caseless("GitHub") + [AnySpaces, EndAnchor],
    [LeadingSpaces, DashOrBar, AnySpaces, AnyText, One(['.'])] + Caseless("com") + [AnySpaces, EndAnchor],
    [LeadingSpaces, DashOrBar, AnySpaces, AnyText, One(['.'])] + Caseless("org") + [AnySpaces, EndAnchor]
  ]

  /** `re.sub(pattern, '', t)` for a suffix pattern: everything from the leftmost
    * match on is removed. */
  function RemoveSuffix(t: string, pattern: seq<Atom>): (r: string)
    ensures |r| <= |t| && r == t[..|r|]
  {
    match Search(pattern, t)
    case Some(Group(_, start, _, _)) => t[..start]
    case _ => t
  }

  function RemoveSuffixes(t: string, k: nat): (r: string)
    requires k <= |SuffixPatterns|
    ensures |r| <= |t| && r == t[..|r|]
    decreases |SuffixPatterns| - k
  {
    if k == |SuffixPatterns| then t else RemoveSuffixes(RemoveSuffix(t, SuffixPatterns[k]), k + 1)
  }

  function ReplaceIllegal(s: string): (r: string)
    ensures |r| == |s|
    ensures forall k :: 0 <= k < |s| ==> r[k] == if s[k] in IllegalChars then '-' else s[k]
  {
    seq(|s|, k requires 0 <= k < |s| => if s[k] in IllegalChars then '-' else s[k])
  }

  /** The title before the length limit: collapsed, without a site suffix, and
    * with the illegal characters replaced. */
  function TitleBody(title: string): string
  {
    ReplaceIllegal(RemoveSuffixes(Squeeze(title), 0))
  }

  /** No newline, carriage return, tab or file-name-illegal character. */
  predicate CleanChars(s: string)
  {
    forall k :: 0 <= k < |s| ==> s[k] !in IllegalChars && s[k] != '\n' && s[k] != '\r' && s[k] != '\t'
  }

  /** What a cleaned title looks like: usable as a file name, at most 200
    * characters, no surrounding whitespace. */
  predicate TitleShaped(r: string)
  {
    CleanChars(r) && |r| <= 200 && (r == [] || (!IsSpace(r[0]) && !IsSpace(r[|r| - 1])))
  }

  /** `_clean_title`. The tab, newline and carriage-return replacement is part of
    * the collapse: `split()` treats them as whitespace already. */
  function CleanTitle(title: string): (r: string)
    ensures title == [] ==> r == []
    ensures TitleShaped(r)
    ensures |TitleBody(title)| > 200 ==> r == TitleBody(title)[..197] + "..."
    ensures title != [] && |TitleBody(title)| <= 200 ==> r == Strip(TitleBody(title))
  {
    if title == [] then ""
    else
      var body := TitleBody(title);
      TitleBodyShape(title);
      var limited := if |body| > 200 then body[..197] + "..." else body;
      LimitShaped(body, limited);
      Strip(limited)
  }

  /** Cutting a cleaned body to 200 characters and stripping it gives a shaped title;
    * a cut body is already stripped. */
  lemma LimitShaped(body: string, limited: string)
    requires CleanChars(body) && (body == [] || !IsSpace(body[0]))
    requires limited == if |body| > 200 then body[..197] + "..." else body
    ensures TitleShaped(Strip(limited))
    ensures |body| > 200 ==> Strip(limited) == limited
  {
    LimitedClean(body, limited);
    StripClean(limited);
    if |body| > 200 {
      StripOfStripped(limited);
    }
  }

  lemma LimitedClean(body: string, limited: string)
    requires CleanChars(body) && (body == [] || !IsSpace(body[0]))
    requires limited == if |body| > 200 then body[..197] + "..." else body
    ensures CleanChars(limited) && (|body| > 200 ==> !IsSpace(limited[0]) && !IsSpace(limited[|limited| - 1]))
  {
    if |body| > 200 {
      assert forall k :: 0 <= k < 197 ==> limited[k] == body[k];
      assert forall k :: 197 <= k < 200 ==> limited[k] == '.';
    }
  }

  lemma StripClean(s: string)
    requires CleanChars(s)
    ensures CleanChars(Strip(s)) && |Strip(s)| <= |s|
  {
    var r := Strip(s);
    forall k | 0 <= k < |r|
      ensures r[k] !in IllegalChars && r[k] != '\n' && r[k] != '\r' && r[k] != '\t'
    {
      assert r[k] in s;
    }
  }

  lemma TitleBodyShape(title: string)
    ensures CleanChars(TitleBody(title))
    ensures TitleBody(title) == [] || !IsSpace(TitleBody(title)[0])
  {
    var q := Squeeze(title);
    SqueezeShape(title);
    var p := RemoveSuffixes(q, 0);
    SqueezedPrefix(q, p);
    ReplaceIllegalClean(p);
  }

  /** A prefix of a collapsed text holds no tab, newline or carriage return and
    * does not start with whitespace. */
  lemma SqueezedPrefix(q: string, p: string)
    requires Squeezed(q) && |p| <= |q| && p == q[..|p|]
    ensures forall k :: 0 <= k < |p| ==> p[k] != '\n' && p[k] != '\r' && p[k] != '\t'
    ensures p == [] || !IsSpace(p[0])
  {
    forall k | 0 <= k < |p|
      ensures p[k] != '\n' && p[k] != '\r' && p[k] != '\t'
    {
      assert p[k] == q[k];
    }
    if p != [] {
      assert p[0] == q[0];
    }
  }

  lemma ReplaceIllegalClean(p: string)
    requires forall k :: 0 <= k < |p| ==> p[k] != '\n' && p[k] != '\r' && p[k] != '\t'
    requires p == [] || !IsSpace(p[0])
    ensures CleanChars(ReplaceIllegal(p))
    ensures ReplaceIllegal(p) == [] || !IsSpace(ReplaceIllegal(p)[0])
  {
    var b := ReplaceIllegal(p);
    if p != [] && p[0] in IllegalChars {
      assert b[0] == '-';
      assert !IsSpace('-');
    }
  }

  /** `extract_title`'s candidates, in the order they are tried. */
  function TitleCandidates(page: Page, config: Config): seq<string>
  {
    [FromMeta(page, MetaTitleSelectors),
     FromSelectors(page, match SelectorTable(config)
       case Some(table) => if "title" in table then AsSelectors(table["title"]) else []
       case None => []),
     FromSelectors(page, if config.Attrs? then config.titleSelectors.GetOr([]) else []),
     FromSelectors(page, CommonTitleSelectors)]
  }

  /** The first candidate whose cleaned form is not empty, from `k` on. */
  function FirstTitle(candidates: seq<string>, k: nat): (r: Option<string>)
    requires k <= |candidates|
    ensures r.Some? ==> r.value != [] && exists j :: k <= j < |candidates| && r.value == CleanTitle(candidates[j])
    ensures r.Some? ==> TitleShaped(r.value)
    ensures r.None? ==> forall j :: k <= j < |candidates| ==> CleanTitle(candidates[j]) == []
    decreases |candidates| - k
  {
    if k == |candidates| then None
    else if candidates[k] != [] && CleanTitle(candidates[k]) != [] then Some(CleanTitle(candidates[k]))
    else FirstTitle(candidates, k + 1)
  }

  /** The title chosen is the first candidate whose cleaned form is not empty: every
    * candidate before it cleans to "". */
  lemma {:induction false} FirstTitleIsFirst(candidates: seq<string>, k: nat)
    requires k <= |candidates| && FirstTitle(candidates, k).Some?
    ensures exists j :: k <= j < |candidates| && FirstTitle(candidates, k).value == CleanTitle(candidates[j])
                        && forall i :: k <= i < j ==> CleanTitle(candidates[i]) == []
    decreases |candidates| - k
  {
    if candidates[k] != [] && CleanTitle(candidates[k]) != [] {
      assert FirstTitle(candidates, k).value == CleanTitle(candidates[k]);
    } else {
      assert CleanTitle(candidates[k]) == [];
      assert FirstTitle(candidates, k) == FirstTitle(candidates, k + 1);
      FirstTitleIsFirst(candidates, k + 1);
      BlankBefore(candidates, k, FirstTitle(candidates, k + 1).value);
    }
  }

  /** A candidate that cleans to "" extends the blank stretch before a title. */
  lemma BlankBefore(candidates: seq<string>, k: nat, t: string)
    requires k < |candidates| && CleanTitle(candidates[k]) == []
    requires exists j :: k + 1 <= j < |candidates| && t == CleanTitle(candidates[j])
                         && forall i :: k + 1 <= i < j ==> CleanTitle(candidates[i]) == []
    ensures exists j :: k <= j < |candidates| && t == CleanTitle(candidates[j])
                        && forall i :: k <= i < j ==> CleanTitle(candidates[i]) == []
  {
    var j :| k + 1 <= j < |candidates| && t == CleanTitle(candidates[j])
             && forall i :: k + 1 <= i < j ==> CleanTitle(candidates[i]) == [];
    assert forall i :: k <= i < j ==> CleanTitle(candidates[i]) == [];
  }

  /** `extract_title`: the first candidate that survives cleaning, else the cleaned
    * `og:title` content, else "". */
  function ExtractTitle(page: Page, config: Config): (r: string)
    ensures TitleShaped(r)
  {
    match FirstTitle(TitleCandidates(page, config), 0)
    case Some(t) => t
    case None =>
      match CssFirst(page, MetaTitleSelectors[0])
      case Some(og) => if Attribute(og, "content") != [] then CleanTitle(Attribute(og, "content")) else ""
      case None => ""
  }

  // ----- publication dates -----

  /** A `strptime` for the formats a configuration names; not interpreted here. */
  type FormatParser = (string, string) -> Option<Instant>

  /** The outcome of one step of `extract_publish_date`. */
  datatype Step = Decided(date: Option<Instant>) | Undecided

  /** Steps 1 to 3: a date read by `DateExtractor` is taken only when it is a date;
    * an `OverflowError` ends the whole search with `None`. */
  function Normalized(text: string, now: Instant): (r: Step)
    ensures text == [] ==> r == Undecided
  {
    if text == [] then Undecided
    else
      match DateExtractor.ExtractDate(text, now)
      case Dated(t) => Decided(Some(t))
      case Overflow => Decided(None)
      case NoDate => Undecided
  }

  /** Step 3, the configuration's `selectors` table: its `date` selector, then its
    * `date_format`, which decides even when no text was found. A list where one
    * selector is expected raises, and the search ends with `None`. */
  function ConfiguredDate(page: Page, table: map<string, SelectorValue>, now: Instant, parse: FormatParser): (r: Step)
    ensures "date" !in table ==> r == Undecided
    ensures "date" in table && "date_format" in table ==> r.Decided?
  {
    if "date" !in table then Undecided
    else
      match table["date"]
      case Several(_) => Decided(None)
      case Single(selector) =>
        var text := FromSelectors(page, [selector]);
        var found := Normalized(text, now);
        if found.Decided? then found
        else if "date_format" !in table then Undecided
        else
          match table["date_format"]
          case Single(format) => Decided(parse(Strip(text), format))
          case Several(_) => Decided(None)
  }

  /** Steps 1 to 4 of `extract_publish_date`, which do not look at the URL. */
  function PageDate(page: Page, config: Config, now: Instant, parse: FormatParser): (r: Step)
    ensures r == Undecided ==> !DateExtractor.ExtractDate(FromSelectors(page, CommonDateSelectors), now).Dated?
    ensures r == Undecided ==> !DateExtractor.ExtractDate(FromMeta(page, MetaDateSelectors), now).Dated?
  {
    var common := Normalized(FromSelectors(page, CommonDateSelectors), now);
    if common.Decided? then common
    else
      var meta := Normalized(FromMeta(page, MetaDateSelectors), now);
      if meta.Decided? then meta
      else
        var table := SelectorTable(config);
        var configured := if table.Some? then ConfiguredDate(page, table.value, now, parse) else Undecided;
        if configured.Decided? then configured
        else LegacyDate(page, config, now)
  }

  /** Step 4, the legacy `date_selectors`: any text found there decides, with what
    * `DateExtractor` makes of it. */
  function LegacyDate(page: Page, config: Config, now: Instant): Step
  {
    if DateSelectors(config).None? then Undecided
    else
      var text := FromSelectors(page, DateSelectors(config).value);
      if text == [] then Undecided
      else
        match DateExtractor.ExtractDate(text, now)
        case Dated(t) => Decided(Some(t))
        case _ => Decided(None)
  }

  /** `extract_publish_date`: the page's date, else the URL's; `None` on total
    * failure or when a date the URL names does not exist. */
  function ExtractPublishDate(page: Page, config: Config, url: string, now: Instant, parse: FormatParser): (r: Option<Instant>)
    ensures PageDate(page, config, now, parse).Decided? ==> r == PageDate(page, config, now, parse).date
    ensures PageDate(page, config, now, parse) == Undecided ==> (r.Some? <==> DateFromUrl(url).UrlDated?)
  {
    match PageDate(page, config, now, parse)
    case Decided(d) => d
    case Undecided =>
      match DateFromUrl(url)
      case UrlDated(d) => var t: Instant := Midnight(d); Some(t)
      case _ => None
  }

  /** Text under the legacy `date_selectors` is final: what `DateExtractor` makes of
    * it is the answer, and the URL is not consulted. */
  lemma DateSelectorsFinal(page: Page, config: Config, url1: string, url2: string, now: Instant, parse: FormatParser)
    requires Normalized(FromSelectors(page, CommonDateSelectors), now) == Undecided
    requires Normalized(FromMeta(page, MetaDateSelectors), now) == Undecided
    requires SelectorTable(config).None?
    requires DateSelectors(config).Some? && FromSelectors(page, DateSelectors(config).value) != []
    ensures ExtractPublishDate(page, config, url1, now, parse) == ExtractPublishDate(page, config, url2, now, parse)
    ensures var text := FromSelectors(page, DateSelectors(config).value);
      ExtractPublishDate(page, config, url1, now, parse).Some? <==> DateExtractor.ExtractDate(text, now).Dated?
  {
    LegacyReached(page, config, now, parse);
    LegacyDecides(page, config, now);
  }

  /** With no date from the common selectors, the meta tags or a `selectors` table,
    * the page's date is step 4's. */
  lemma LegacyReached(page: Page, config: Config, now: Instant, parse: FormatParser)
    requires Normalized(FromSelectors(page, CommonDateSelectors), now) == Undecided
    requires Normalized(FromMeta(page, MetaDateSelectors), now) == Undecided
    requires SelectorTable(config).None?
    ensures PageDate(page, config, now, parse) == LegacyDate(page, config, now)
  {
  }

  /** Step 4 decides as soon as `date_selectors` yield text. */
  lemma LegacyDecides(page: Page, config: Config, now: Instant)
    requires DateSelectors(config).Some? && FromSelectors(page, DateSelectors(config).value) != []
    ensures var found := DateExtractor.ExtractDate(FromSelectors(page, DateSelectors(config).value), now);
      var step := LegacyDate(page, config, now);
      step.Decided? && (step.date.Some? <==> found.Dated?) && (found.Dated? ==> step.date.value == found.when)
  {
  }

  /** When the page offers no date text anywhere, the URL decides. */
  lemma UrlLast(page: Page, config: Config, url: string, now: Instant, parse: FormatParser)
    requires FromSelectors(page, CommonDateSelectors) == [] && FromMeta(page, MetaDateSelectors) == []
    requires SelectorTable(config).None?
    requires DateSelectors(config).None? || FromSelectors(page, DateSelectors(config).value) == []
    ensures var r := ExtractPublishDate(page, config, url, now, parse);
      match DateFromUrl(url) case UrlDated(d) => r.Some? && r.value == Midnight(d) case _ => r.None?
  {
  }

  /** A date found by the common selectors is taken before anything else is looked at. */
  lemma CommonSelectorsFirst(page: Page, config: Config, url: string, now: Instant, parse: FormatParser)
    requires DateExtractor.ExtractDate(FromSelectors(page, CommonDateSelectors), now).Dated?
    ensures var r := ExtractPublishDate(page, config, url, now, parse);
      r.Some? && r.value == DateExtractor.ExtractDate(FromSelectors(page, CommonDateSelectors), now).when
  {
  }

  /** Step 2: when the common selectors give no date, a date in the meta tags is taken,
    * before the configuration and the URL are looked at. */
  lemma MetaSecond(page: Page, config: Config, url: string, now: Instant, parse: FormatParser)
    requires Normalized(FromSelectors(page, CommonDateSelectors), now) == Undecided
    requires DateExtractor.ExtractDate(FromMeta(page, MetaDateSelectors), now).Dated?
    ensures var r := ExtractPublishDate(page, config, url, now, parse);
      r.Some? && r.value == DateExtractor.ExtractDate(FromMeta(page, MetaDateSelectors), now).when
  {
  }

  /** Step 3: when neither the common selectors nor the meta tags decide, a date read
    * under the configuration's `date` selector is taken. */
  lemma ConfiguredThird(page: Page, config: Config, table: map<string, SelectorValue>, selector: string,
                        url: string, now: Instant, parse: FormatParser)
    requires Normalized(FromSelectors(page, CommonDateSelectors), now) == Undecided
    requires Normalized(FromMeta(page, MetaDateSelectors), now) == Undecided
    requires SelectorTable(config) == Some(table) && "date" in table && table["date"] == Single(selector)
    requires DateExtractor.ExtractDate(FromSelectors(page, [selector]), now).Dated?
    ensures var r := ExtractPublishDate(page, config, url, now, parse);
      r.Some? && r.value == DateExtractor.ExtractDate(FromSelectors(page, [selector]), now).when
  {
  }

  /** Step 3 with a `date_format`: when the `date` selector's text gives no date, even
    * when there is no text, the format decides, and neither `date_selectors` nor the URL
    * is consulted. */
  lemma ConfiguredFormat(page: Page, config: Config, table: map<string, SelectorValue>, selector: string,
                         format: string, url: string, now: Instant, parse: FormatParser)
    requires Normalized(FromSelectors(page, CommonDateSelectors), now) == Undecided
    requires Normalized(FromMeta(page, MetaDateSelectors), now) == Undecided
    requires SelectorTable(config) == Some(table) && "date" in table && table["date"] == Single(selector)
    requires Normalized(FromSelectors(page, [selector]), now) == Undecided
    requires "date_format" in table && table["date_format"] == Single(format)
    ensures ExtractPublishDate(page, config, url, now, parse) == parse(Strip(FromSelectors(page, [selector])), format)
  {
  }

  // ----- dates in URLs -----

  function Digits(lo: nat, hi: nat): Atom { Run(Digit, lo, UpTo(hi), true) }

  /** The URL date patterns, in order: /20240322/, /2024-03-22/, 2024/3/22. */
  const UrlPatterns: seq<seq<Atom>> := [
    [One(['/']), Digits(4, 4), Digits(2, 2), Digits(2, 2), One(['/'])],
    [One(['/']), Digits(4, 4), One(['-']), Digits(2, 2), One(['-']), Digits(2, 2), One(['/'])],
    [Digits(4, 4), One(['/']), Digits(1, 2), One(['/']), Digits(1, 2)]
  ]

  /** No date in the URL, a date, or numbers that `datetime` refuses (`ValueError`). */
  datatype UrlDate = NoUrlDate | UrlDated(date: Date) | NoSuchDate

  /** `_extract_date_from_url`: the first pattern found decides, and its numbers are
    * taken as they are: no range check but `datetime`'s own. */
  function DateFromUrl(url: string): (r: UrlDate)
    ensures r.UrlDated? ==> Valid(r.date)
    ensures r == NoUrlDate <==> forall j :: 0 <= j < |UrlPatterns| ==> Search(UrlPatterns[j], url) == None
  {
    UrlDateFrom(url, 0)
  }

  function UrlDateFrom(url: string, k: nat): (r: UrlDate)
    requires k <= |UrlPatterns|
    ensures r.UrlDated? ==> Valid(r.date)
    ensures r == NoUrlDate <==> forall j :: k <= j < |UrlPatterns| ==> Search(UrlPatterns[j], url) == None
    decreases |UrlPatterns| - k
  {
    if k == |UrlPatterns| then NoUrlDate
    else
      match Search(UrlPatterns[k], url)
      case None => UrlDateFrom(url, k + 1)
      case Some(g) => UrlGroupsDate(url, g)
  }

  /** A hit whose first three groups are non-empty runs of digits. */
  predicate DigitTriple(text: string, g: Groups)
  {
    GroupsIn(text, g) && Count(g) >= 3
    && Nth(text, g, 0).s != [] && AllDigits(Nth(text, g, 0).s)
    && Nth(text, g, 1).s != [] && AllDigits(Nth(text, g, 1).s)
    && Nth(text, g, 2).s != [] && AllDigits(Nth(text, g, 2).s)
  }

  /** `(int(year), int(month), int(day))` of such a hit. */
  function TripleDate(text: string, g: Groups): Date
    requires DigitTriple(text, g)
  {
    Date(DigitsValue(Nth(text, g, 0).s), DigitsValue(Nth(text, g, 1).s), DigitsValue(Nth(text, g, 2).s))
  }

  /** `datetime(int(year), int(month), int(day))` of a hit's three groups. */
  function UrlGroupsDate(url: string, g: Groups): (r: UrlDate)
    requires GroupsIn(url, g)
    ensures r != NoUrlDate
    ensures r.UrlDated? ==> Valid(r.date)
    ensures r.UrlDated? <==> DigitTriple(url, g) && Valid(TripleDate(url, g))
    ensures r.UrlDated? ==> r.date == TripleDate(url, g)
  {
    if Count(g) < 3 then NoSuchDate
    else
      match (DateExtractor.IntOf(Nth(url, g, 0)), DateExtractor.IntOf(Nth(url, g, 1)), DateExtractor.IntOf(Nth(url, g, 2)))
      case (Some(y), Some(m), Some(d)) => if Valid(Date(y, m, d)) then UrlDated(Date(y, m, d)) else NoSuchDate
      case _ => NoSuchDate
  }

  /** The first pattern found decides, even when its date does not exist and a
    * later pattern would have given one. */
  lemma {:induction false} FirstUrlPatternDecides(url: string, k: nat)
    requires k < |UrlPatterns| && Search(UrlPatterns[k], url).Some?
    requires forall j :: 0 <= j < k ==> Search(UrlPatterns[j], url) == None
    ensures DateFromUrl(url) == UrlGroupsDate(url, Search(UrlPatterns[k], url).value)
  {
    FirstUrlPatternFrom(url, 0, k);
  }

  lemma {:induction false} FirstUrlPatternFrom(url: string, i: nat, k: nat)
    requires i <= k < |UrlPatterns| && Search(UrlPatterns[k], url).Some?
    requires forall j :: i <= j < k ==> Search(UrlPatterns[j], url) == None
    ensures UrlDateFrom(url, i) == UrlGroupsDate(url, Search(UrlPatterns[k], url).value)
    decreases k - i
  {
    if i < k {
      FirstUrlPatternFrom(url, i + 1, k);
    }
  }

  /** A URL that holds `/YYYYMMDD/` with no digit before it: `url` is
    * `pre + "/" + y + m + d + "/" + post`. */
  predicate EightDigitUrl(url: string, pre: string, y: string, m: string, d: string, post: string)
  {
    url == pre + "/" + y + m + d + "/" + post
    && |y| == 4 && |m| == 2 && |d| == 2 && AllDigits(y) && AllDigits(m) && AllDigits(d)
    && forall k :: 0 <= k < |pre| ==> !IsDigit(pre[k])
  }

  /** The groups `/(\d{4})(\d{2})(\d{2})/` captures at position `a`. */
  function EightDigitGroups(a: nat): Groups
  {
    Group(Digit, a + 1, a + 5, Group(Digit, a + 5, a + 7, Group(Digit, a + 7, a + 9, NoMore)))
  }

  /** The three groups are the year, month and day digits after the slash at `a`. */
  lemma EightDigitCaptures(url: string, a: nat)
    requires a + 10 <= |url| && forall k :: a < k < a + 9 ==> IsDigit(url[k])
    ensures GroupsIn(url, EightDigitGroups(a)) && Count(EightDigitGroups(a)) == 3
    ensures Nth(url, EightDigitGroups(a), 0).s == url[a + 1..a + 5]
    ensures Nth(url, EightDigitGroups(a), 1).s == url[a + 5..a + 7]
    ensures Nth(url, EightDigitGroups(a), 2).s == url[a + 7..a + 9]
  {
    var g := EightDigitGroups(a);
    assert GroupsIn(url, g.rest.rest) && GroupsIn(url, g.rest);
    assert Count(g.rest.rest.rest) == 0;
    assert Count(g.rest.rest) == 1;
    assert Count(g.rest) == 2;
    assert Nth(url, g, 2) == Nth(url, g.rest, 1) == Nth(url, g.rest.rest, 0);
  }

  /** `/YYYYMMDD/` at position `a` matches there. */
  lemma EightDigitMatch(url: string, a: nat)
    requires a + 10 <= |url| && url[a] == '/' && url[a + 9] == '/'
    requires forall k :: a < k < a + 9 ==> IsDigit(url[k])
    ensures Match(UrlPatterns[0], 0, url, a) == Some(EightDigitGroups(a))
  {
    var p := UrlPatterns[0];
    var g := EightDigitGroups(a);
    MatchOne(p, 4, url, a + 9);
    RunExactly(Digit, url, a + 7, 2);
    MatchRunWhole(p, 3, url, a + 7, 2, NoMore);
    RunExactly(Digit, url, a + 5, 4);
    MatchRunWhole(p, 2, url, a + 5, 2, g.rest.rest);
    RunExactly(Digit, url, a + 1, 8);
    MatchRunWhole(p, 1, url, a + 1, 4, g.rest);
    MatchOne(p, 0, url, a);
  }

  /** Before the first digit, `/(\d{4})(\d{2})(\d{2})/` cannot match. */
  lemma NoDigitNoMatch(url: string, q: nat, a: nat)
    requires q < a < |url| && forall k :: 0 <= k < a ==> !IsDigit(url[k])
    requires !IsDigit(url[a])
    ensures Match(UrlPatterns[0], 0, url, q) == None
  {
    var p := UrlPatterns[0];
    if url[q] == '/' {
      assert !IsDigit(url[q + 1]);
      RunExactly(Digit, url, q + 1, 0);
      MatchRunFails(p, 1, 2, url, q + 1);
      MatchOne(p, 0, url, q);
    }
  }

  /** The leftmost `/YYYYMMDD/` after a part without digits is the hit. */
  lemma EightDigitFirst(url: string, a: nat)
    requires a + 10 <= |url| && url[a] == '/' && url[a + 9] == '/'
    requires forall k :: a < k < a + 9 ==> IsDigit(url[k])
    requires forall k :: 0 <= k < a ==> !IsDigit(url[k])
    ensures Search(UrlPatterns[0], url) == Some(EightDigitGroups(a))
  {
    EightDigitMatch(url, a);
    forall q | 0 <= q < a
      ensures Match(UrlPatterns[0], 0, url, q) == None
    {
      NoDigitNoMatch(url, q, a);
    }
    SearchAt(UrlPatterns[0], url, 0, a);
  }

  /** Where the parts of such a URL sit. */
  lemma EightDigitParts(url: string, pre: string, y: string, m: string, d: string, post: string)
    requires url == pre + "/" + y + m + d + "/" + post && |y| == 4 && |m| == 2 && |d| == 2
    ensures |pre| + 10 <= |url| && url[..|pre|] == pre && url[|pre|] == '/' && url[|pre| + 9] == '/'
    ensures url[|pre| + 1..|pre| + 5] == y && url[|pre| + 5..|pre| + 7] == m && url[|pre| + 7..|pre| + 9] == d
  {
    var a := |pre|;
    var u2 := pre + "/" + y;
    var u3 := u2 + m;
    var u4 := u3 + d;
    assert url == u4 + "/" + post && url[..a + 9] == u4;
    assert u4[..a + 7] == u3 && u3[..a + 5] == u2;
    assert url[a + 7..a + 9] == u4[a + 7..] == d;
    assert url[a + 5..a + 7] == u4[a + 5..a + 7] == u3[a + 5..] == m;
    assert url[a + 1..a + 5] == u4[a + 1..a + 5] == u3[a + 1..a + 5] == u2[a + 1..] == y;
    assert url[..a] == u2[..a] == pre;
  }

  /** In such a URL, `/(\d{4})(\d{2})(\d{2})/` finds the three digit groups y, m and d. */
  lemma EightDigitSearch(url: string, pre: string, y: string, m: string, d: string, post: string)
    requires EightDigitUrl(url, pre, y, m, d, post)
    ensures Search(UrlPatterns[0], url) == Some(EightDigitGroups(|pre|))
    ensures var g := EightDigitGroups(|pre|);
      Count(g) == 3 && Nth(url, g, 0).s == y && Nth(url, g, 1).s == m && Nth(url, g, 2).s == d
  {
    var a := |pre|;
    EightDigitParts(url, pre, y, m, d, post);
    assert forall k :: 0 <= k < a ==> url[k] == url[..a][k];
    assert forall k :: a < k < a + 5 ==> url[k] == url[a + 1..a + 5][k - a - 1];
    assert forall k :: a + 5 <= k < a + 7 ==> url[k] == url[a + 5..a + 7][k - a - 5];
    assert forall k :: a + 7 <= k < a + 9 ==> url[k] == url[a + 7..a + 9][k - a - 7];
    EightDigitFirst(url, a);
    EightDigitCaptures(url, a);
  }

  /** The date `_extract_date_from_url` reads from such a URL is `datetime(int(y), int(m), int(d))`,
    * or the error `datetime` raises for numbers that make no date. */
  lemma DateFromUrlDigits(url: string, pre: string, y: string, m: string, d: string, post: string)
    requires EightDigitUrl(url, pre, y, m, d, post)
    ensures var date := Date(DigitsValue(y), DigitsValue(m), DigitsValue(d));
      DateFromUrl(url) == if Valid(date) then UrlDated(date) else NoSuchDate
  {
    EightDigitSearch(url, pre, y, m, d, post);
    FirstUrlPatternDecides(url, 0);
  }

  // ----- elements to skip -----

  /** One of the class names is a class whose elements are skipped. */
  function AnySkipClass(classes: seq<string>): bool
  {
    classes != [] && (classes[0] in SkipClasses || AnySkipClass(classes[1..]))
  }

  /** `_should_skip_element`. */
  function ShouldSkipElement(e: Element): bool
  {
    AnySkipClass(Words(Attribute(e, "class"))) || e.tag in SkipTags
  }

  /** The element is skipped exactly when the set of its class names meets the
    * skipped classes, or its tag is a skipped tag. */
  lemma ShouldSkipElementIsSetTest(e: Element)
    ensures ShouldSkipElement(e) <==>
      (set w | w in Words(Attribute(e, "class"))) * SkipClasses != {} || e.tag in SkipTags
  {
    SkipClassMeets(Words(Attribute(e, "class")));
  }

  lemma {:induction false} SkipClassMeets(classes: seq<string>)
    ensures AnySkipClass(classes) <==> (set w | w in classes) * SkipClasses != {}
  {
    if classes != [] {
      SkipClassMeets(classes[1..]);
      var all, rest := set w | w in classes, set w | w in classes[1..];
      assert all == {classes[0]} + rest;
      if classes[0] in SkipClasses {
        assert classes[0] in all * SkipClasses;
      } else {
        assert all * SkipClasses == rest * SkipClasses;
      }
    }
  }

  // ----- the Article base class -----

  /** `publish_date.strftime('%Y-%m-%d') if publish_date else '未知'`. */
  function DateText(d: Option<Instant>): (r: string)
    ensures d.None? ==> r == "未知"
    ensures d.Some? ==> ParseIsoDate(r) == Some(d.value.date)
  {
    match d
    case None => "未知"
    case Some(t) => ParseIsoFormat(t.date); IsoFormat(t.date)
  }

  /** `[author] if author else []`. */
  function AuthorList(author: string): (r: seq<string>)
    ensures |r| <= 1 && (r == [] <==> author == [])
  {
    if author == [] then [] else [author]
  }

  /** What an article's `_parse` needs beyond the page and the configuration: the clock,
    * the `strptime` of configured formats, the boilerplate pre-pass of
    * `_clean_content`, and the author `extract_author` finds ("" for none). */
  datatype Environment = Environment(now: Instant, parse: FormatParser, prepass: string -> string, author: string)

  /** The check `Article.from_html` makes after parsing: a title, a publication
    * date and a summary. */
  predicate Complete(title: string, publishDate: Option<Instant>, summary: string)
  {
    title != [] && publishDate.Some? && summary != []
  }

  /** `Article.is_within_retention_period`: the whole days since `date`
    * (`timedelta.days`, rounded down) are at most `retentionDays`. */
  function IsWithinRetention(date: Instant, retentionDays: int, now: Instant): (r: bool)
    ensures r <==> Seconds(now) - Seconds(date) < (retentionDays + 1) * 86400
  {
    DaysElapsed(now, date) <= retentionDays
  }

  /** For a date at midnight, retention counts calendar days. */
  lemma RetentionInDays(d: Date, retentionDays: int, now: Instant)
    requires Valid(d)
    ensures IsWithinRetention(Midnight(d), retentionDays, now) <==> Ordinal(now.date) - Ordinal(d) <= retentionDays
  {
    DaysElapsedSinceMidnight(now, d);
  }
}
