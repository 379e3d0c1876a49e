/**
 * `ArticlePaper`: a paper page from huggingface.co, paperswithcode.com or
 * elsewhere (arxiv.org). `_parse` picks a site-specific reader by a substring
 * of the URL; each reader sets the fields of a freshly initialised article.
 * An exception a reader raises ends it: `Article.__init__` catches it and the
 * fields keep what was set before it, except that the huggingface reader first
 * fills the empty ones with defaults.
 */
module PaperArticle {
  import opened Wrappers
  import opened Text
  import opened Calendar
  import opened ArticleExtractor
  import ArticleContent

  /** What `extract_arxiv_id` gives for the page: an id, `None`, or the exception it
    * raises when the arxiv link has an `href` without a value. */
  datatype ArxivLookup = ArxivFound(id: string) | ArxivMissing | ArxivRaises

  /** The fields of a paper article; `arxivId` is `_arxiv_id`. */
  datatype Fields = Fields(title: string, publishDate: Option<Instant>, source: string, authors: seq<string>,
                           summary: string, arxivId: Option<string>)

  /** The fields as `__init__` leaves them before `_parse` runs. */
  const Blank: Fields := Fields("", None, "", [], "", None)

  // ----- huggingface.co -----

  /** The selectors tried for an abstract when `extract_content` finds nothing. */
  const AbstractSelectors: seq<string> := ["p.text-gray-700", "div.pb-8.pr-4.md\\:pr-16 p", "div.pb-8 p"]

  /** The stripped text of the first element a selector selects; "" when there is none. */
  function AbstractAt(page: Page, selector: string): string
  {
    match CssFirst(page, selector)
    case None => ""
    case Some(e) => Strip(e.text)
  }

  /** The first non-empty abstract the selectors give, or "". */
  function AbstractFrom(page: Page, selectors: seq<string>): (r: string)
    ensures r == [] <==> forall j :: 0 <= j < |selectors| ==> AbstractAt(page, selectors[j]) == []
  {
    if selectors == [] then ""
    else
      var text := AbstractAt(page, selectors[0]);
      if text != [] then text else AbstractFrom(page, selectors[1..])
  }

  /** A non-empty abstract is that of a selector all of whose predecessors give none. */
  lemma {:induction false} AbstractFromFirst(page: Page, selectors: seq<string>)
    requires AbstractFrom(page, selectors) != []
    ensures exists j :: (0 <= j < |selectors| && AbstractFrom(page, selectors) == AbstractAt(page, selectors[j])
      && forall i :: 0 <= i < j ==> AbstractAt(page, selectors[i]) == [])
  {
    if AbstractAt(page, selectors[0]) == [] {
      var rest := selectors[1..];
      AbstractFromFirst(page, rest);
      var j :| 0 <= j < |rest| && AbstractFrom(page, rest) == AbstractAt(page, rest[j])
        && forall i :: 0 <= i < j ==> AbstractAt(page, rest[i]) == [];
      assert selectors[j + 1] == rest[j];
      forall i | 0 <= i < j + 1
        ensures AbstractAt(page, selectors[i]) == []
      {
        if i > 0 {
          assert selectors[i] == rest[i - 1];
        }
      }
    }
  }

  /** The loop over the abstract selectors, which stops at the first non-empty text. */
  method FindAbstract(page: Page) returns (text: string)
    ensures text == AbstractFrom(page, AbstractSelectors)
  {
    text := "";
    var k := 0;
    while k < |AbstractSelectors|
      invariant k <= |AbstractSelectors|
      invariant text == [] && AbstractFrom(page, AbstractSelectors) == AbstractFrom(page, AbstractSelectors[k..])
    {
      var found := CssFirst(page, AbstractSelectors[k]);
      if found.Some? {
        var t := Strip(found.value.text);
        if t != [] {
          text := t;
          break;
        }
      }
      assert AbstractSelectors[k..][1..] == AbstractSelectors[k + 1..];
      k := k + 1;
    }
  }

  /** The `except` branch of `_parse_huggingface`: empty fields get defaults. */
  function Defaults(f: Fields, url: string): (r: Fields)
    ensures r.title != [] && r.summary != [] && (r.source == [] ==> url == [])
    ensures r.authors == f.authors && r.publishDate == f.publishDate && r.arxivId == f.arxivId
    ensures f.title != [] ==> r.title == f.title
    ensures f.summary != [] ==> r.summary == f.summary
  {
    f.(title := if f.title == [] then "未知标题" else f.title,
       summary := if f.summary == [] then "摘要提取失败" else f.summary,
       source := if f.source == [] then url else f.source)
  }

  /** `_parse_huggingface`: the title, then inside the `try` the date, the author,
    * the content or else an abstract, the source and the arxiv id. Only
    * `extract_arxiv_id` can raise there; the other extractors catch their own errors. */
  function HuggingfaceFields(page: Page, config: Config, url: string, env: Environment, arxiv: ArxivLookup): Fields
  {
    var content := ArticleContent.Content(page, config, env.prepass);
    var parsed := Fields(ExtractTitle(page, config), ExtractPublishDate(page, config, url, env.now, env.parse),
                         url, AuthorList(env.author), if content != [] then content else AbstractFrom(page, AbstractSelectors), None);
    match arxiv
    case ArxivFound(id) => parsed.(arxivId := Some(id))
    case ArxivMissing => parsed
    case ArxivRaises => Defaults(parsed, url)
  }

  // ----- paperswithcode.com -----

  /** The paperswithcode date: the stripped text of `span.author-span` read as
    * `%d %b %Y`, else as `%d %B %Y`, at midnight; `None` when both fail. */
  function PapersWithCodeDate(page: Page): (r: Option<Instant>)
    ensures r.Some? ==> CssFirst(page, "span.author-span").Some? && r.value.second == 0
    ensures r.Some? <==> (CssFirst(page, "span.author-span").Some? &&
      var text := Strip(CssFirst(page, "span.author-span").value.text);
      (ParseDayMonthYear(text, MonthAbbreviations).Some? || ParseDayMonthYear(text, MonthNames).Some?))
  {
    match CssFirst(page, "span.author-span")
    case None => None
    case Some(e) =>
      var text := Strip(e.text);
      match ParseDayMonthYear(text, MonthAbbreviations)
      case Some(d) => var t: Instant := Midnight(d); Some(t)
      case None =>
        match ParseDayMonthYear(text, MonthNames)
        case Some(d) => var t: Instant := Midnight(d); Some(t)
        case None => None
  }

  /** `_parse_paperswithcode`. When the title extractor finds nothing and the page
    * has no `h1`, or the content extractor finds nothing and the page has no
    * `div.paper-abstract`, the `.text()` on `None` raises and the reader stops
    * there. An exception from `extract_arxiv_id` leaves the id unset. */
  function PapersWithCodeFields(page: Page, config: Config, url: string, env: Environment, arxiv: ArxivLookup): Fields
  {
    var extracted := ExtractTitle(page, config);
    var heading := CssFirst(page, "h1");
    if extracted == [] && heading.None? then Blank
    else
      var title := if extracted != [] then extracted else Strip(heading.value.text);
      var date := PapersWithCodeDate(page);
      var authors := AuthorList(env.author);
      var content := ArticleContent.Content(page, config, env.prepass);
      var paperAbstract := CssFirst(page, "div.paper-abstract");
      if content == [] && paperAbstract.None? then Blank.(title := title, publishDate := date, authors := authors)
      else
        var parsed := Fields(title, date, url, authors, if content != [] then content else Strip(paperAbstract.value.text), None);
        match arxiv
        case ArxivFound(id) => parsed.(arxivId := Some(id))
        case _ => parsed
  }

  // ----- any other site -----

  /** `self.url.split('/')[-1]`. */
  function LastSegment(url: string): (r: string)
    ensures '/' !in r && EndsWith(url, r)
    ensures |r| == |url| || url[|url| - |r| - 1] == '/'
  {
    var parts := Split(url, '/');
    SplitLastPart(url, '/');
    LastPartSuffix(url, '/');
    SplitPartsFree(url, '/');
    parts[|parts| - 1]
  }

  /** `_parse_generic`: the common extractors, and for an arxiv.org URL the id is
    * the URL's last path segment. */
  function GenericFields(page: Page, config: Config, url: string, env: Environment): Fields
  {
    Fields(ExtractTitle(page, config), ExtractPublishDate(page, config, url, env.now, env.parse), url,
           AuthorList(env.author), ArticleContent.Content(page, config, env.prepass),
           if Contains(url, "arxiv.org") then Some(LastSegment(url)) else None)
  }

  /** `_parse`: the reader is chosen by the URL, huggingface.co first. */
  function Expected(page: Page, config: Config, url: string, env: Environment, arxiv: ArxivLookup): Fields
  {
    if Contains(url, "huggingface.co") then HuggingfaceFields(page, config, url, env, arxiv)
    else if Contains(url, "paperswithcode.com") then PapersWithCodeFields(page, config, url, env, arxiv)
    else GenericFields(page, config, url, env)
  }

  // ----- to_text -----

  /** The line `to_text` writes for an arxiv id, only when the id is non-empty. */
  function DownloadLines(arxivId: Option<string>): (lines: seq<string>)
    ensures |lines| <= 1
    ensures lines != [] <==> arxivId.Some? && arxivId.value != []
    ensures lines != [] ==> lines[0] == "下载地址：https://arxiv.org/abs/" + arxivId.value
  {
    if arxivId.Some? && arxivId.value != [] then ["下载地址：https://arxiv.org/abs/" + arxivId.value] else []
  }

  /** The lines of `to_text`: title, date, the authors (always, possibly empty), the
    * download address when there is an id, and the abstract. */
  function TextLines(f: Fields): (lines: seq<string>)
    ensures |lines| == 4 || |lines| == 5
    ensures |lines| == 5 <==> f.arxivId.Some? && f.arxivId.value != []
    ensures lines[0] == "标题：" + f.title && lines[1] == "发布日期：" + DateText(f.publishDate)
    ensures lines[2] == "作者：" + Join(f.authors, ", ")
    ensures |lines| == 5 ==> lines[3] == "下载地址：https://arxiv.org/abs/" + f.arxivId.value
    ensures lines[|lines| - 1] == "摘要：" + f.summary
  {
    ["标题：" + f.title, "发布日期：" + DateText(f.publishDate), "作者：" + Join(f.authors, ", ")]
    + DownloadLines(f.arxivId) + ["摘要：" + f.summary]
  }

  class Article {
    const url: string
    const page: Page
    const config: Config
    var title: string
    var publishDate: Option<Instant>
    var source: string
    var authors: seq<string>
    var summary: string
    var arxivId: Option<string>

    function Current(): Fields
      reads this
    {
      Fields(title, publishDate, source, authors, summary, arxivId)
    }

    /** The fields are what the reader for the URL makes of the page. */
    ghost predicate Parsed(env: Environment, arxiv: ArxivLookup)
      reads this
    {
      Current() == Expected(page, config, url, env, arxiv)
    }

    /** `ArticlePaper.__init__`: no arxiv id, the base fields empty, then `_parse`. */
    constructor (url: string, page: Page, config: Config, env: Environment, arxiv: ArxivLookup)
      ensures this.url == url && this.page == page && this.config == config
      ensures Parsed(env, arxiv)
    {
      this.url := url;
      this.page := page;
      this.config := config;
      arxivId := None;
      title := "";
      publishDate := None;
      source := "";
      authors := [];
      summary := "";
      new;
      Parse(env, arxiv);
    }

    /** Sets all the fields at once. */
    method Update(f: Fields)
      modifies this
      ensures Current() == f
    {
      title, publishDate, source, authors, summary, arxivId := f.title, f.publishDate, f.source, f.authors, f.summary, f.arxivId;
    }

    /** `ArticlePaper._parse`, on the fields `__init__` has just reset. */
    method Parse(env: Environment, arxiv: ArxivLookup)
      requires Current() == Blank
      modifies this
      ensures Parsed(env, arxiv)
    {
      if Contains(url, "huggingface.co") {
        ParseHuggingface(env, arxiv);
      } else if Contains(url, "paperswithcode.com") {
        ParsePapersWithCode(env, arxiv);
      } else {
        ParseGeneric(env);
      }
    }

    /** `_parse_huggingface`. */
    method ParseHuggingface(env: Environment, arxiv: ArxivLookup)
      modifies this
      ensures Current() == HuggingfaceFields(page, config, url, env, arxiv)
    {
      var summary := ArticleContent.ExtractContent(page, config, env.prepass);
      if summary == [] {
        summary := FindAbstract(page);
      }
      var parsed := Fields(ExtractTitle(page, config), ExtractPublishDate(page, config, url, env.now, env.parse),
                           url, AuthorList(env.author), summary, None);
      match arxiv
      case ArxivFound(id) => Update(parsed.(arxivId := Some(id)));
      case ArxivMissing => Update(parsed);
      case ArxivRaises => Update(Defaults(parsed, url));
    }

    /** `_parse_paperswithcode`, stopping where it raises. */
    method ParsePapersWithCode(env: Environment, arxiv: ArxivLookup)
      requires Current() == Blank
      modifies this
      ensures Current() == PapersWithCodeFields(page, config, url, env, arxiv)
    {
      var title := ExtractTitle(page, config);
      if title == [] {
        var heading := CssFirst(page, "h1");
        if heading.None? {
          return;
        }
        title := Strip(heading.value.text);
      }
      var date := PapersWithCodeDate(page);
      var summary := ArticleContent.ExtractContent(page, config, env.prepass);
      if summary == [] {
        var paperAbstract := CssFirst(page, "div.paper-abstract");
        if paperAbstract.None? {
          Update(Blank.(title := title, publishDate := date, authors := AuthorList(env.author)));
          return;
        }
        summary := Strip(paperAbstract.value.text);
      }
      Update(Fields(title, date, url, AuthorList(env.author), summary, if arxiv.ArxivFound? then Some(arxiv.id) else None));
    }

    /** `_parse_generic`. */
    method ParseGeneric(env: Environment)
      modifies this
      ensures Current() == GenericFields(page, config, url, env)
    {
      var summary := ArticleContent.ExtractContent(page, config, env.prepass);
      Update(Fields(ExtractTitle(page, config), ExtractPublishDate(page, config, url, env.now, env.parse), url,
                    AuthorList(env.author), summary, if Contains(url, "arxiv.org") then Some(LastSegment(url)) else None));
    }

    /** `to_text`. */
    function ToText(): (r: string)
      reads this
      ensures Contains(r, "作者：" + Join(authors, ", "))
      ensures arxivId.Some? && arxivId.value != [] ==> Contains(r, "下载地址：https://arxiv.org/abs/" + arxivId.value)
    {
      var lines := TextLines(Current());
      JoinContainsPart(lines, "\n", 2);
      if |lines| == 5 then JoinContainsPart(lines, "\n", 3); Join(lines, "\n")
      else Join(lines, "\n")
    }
  }

  // ----- properties -----

  /** When `extract_arxiv_id` raises on a huggingface page, the article still has a
    * title, a summary and the URL as its source. */
  lemma HuggingfaceFallback(page: Page, config: Config, url: string, env: Environment)
    requires url != []
    ensures var f := HuggingfaceFields(page, config, url, env, ArxivRaises);
      f.title != [] && f.summary != [] && f.source == url && f.arxivId.None?
      && (ExtractTitle(page, config) != [] ==> f.title == ExtractTitle(page, config))
  {
  }

  /** A paperswithcode page whose title no extractor finds and that has no `h1` leaves
    * the article as `__init__` made it. */
  lemma PapersWithCodeNoHeading(page: Page, config: Config, url: string, env: Environment, arxiv: ArxivLookup)
    requires ExtractTitle(page, config) == [] && CssFirst(page, "h1").None?
    ensures PapersWithCodeFields(page, config, url, env, arxiv) == Blank
  {
  }

  /** The generic reader's source is the URL, and it has an arxiv id exactly for an
    * arxiv.org URL: the text after the URL's last slash. */
  lemma GenericArxivId(page: Page, config: Config, url: string, env: Environment)
    ensures var f := GenericFields(page, config, url, env);
      f.source == url && (f.arxivId.Some? <==> Contains(url, "arxiv.org"))
      && (f.arxivId.Some? ==> '/' !in f.arxivId.value && EndsWith(url, f.arxivId.value))
  {
  }
}
