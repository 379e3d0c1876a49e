/**
 * `ArticleCaijing`: a news article built by `Article.__init__` and
 * `ArticleCaijing._parse`, admitted by `Article.from_html`, and written out by
 * `to_text` as a labelled plain-text layout.
 */
module CaijingArticle {
  import opened Wrappers
  import opened Text
  import opened Calendar
  import opened ArticleExtractor
  import ArticleContent

  /** The fields `_parse` sets. */
  datatype Fields = Fields(title: string, publishDate: Option<Instant>, source: string, authors: seq<string>, summary: string)

  /** What `_parse` reads from the page: the fields of a parsed article. */
  function Extracted(page: Page, config: Config, url: string, env: Environment): Fields
  {
    Fields(ExtractTitle(page, config), ExtractPublishDate(page, config, url, env.now, env.parse), url,
           AuthorList(env.author), ArticleContent.Content(page, config, env.prepass))
  }

  /** What `from_html` returns: the parsed fields, when they make a complete article. */
  function Kept(page: Page, config: Config, url: string, env: Environment): Option<Fields>
  {
    var f := Extracted(page, config, url, env);
    if Complete(f.title, f.publishDate, f.summary) then Some(f) else None
  }

  lemma KeptWhenComplete(f: Fields, page: Page, config: Config, url: string, env: Environment)
    requires f == Extracted(page, config, url, env)
    ensures Kept(page, config, url, env) == if Complete(f.title, f.publishDate, f.summary) then Some(f) else None
  {
  }

  /** `url.split('/')[2]`, which raises `IndexError` for a URL with fewer than two slashes. */
  function Site(url: string): (r: Option<string>)
    ensures r.Some? <==> |Split(url, '/')| >= 3
    ensures r.Some? ==> '/' !in r.value
  {
    var parts := Split(url, '/');
    SplitPartsFree(url, '/');
    if |parts| >= 3 then Some(parts[2]) else None
  }

  /** The lines of `to_text`: title, date, source and site, the authors when there
    * are any, then an empty line, the body heading and the body. */
  function TextLines(title: string, date: string, source: string, site: string, authors: seq<string>, summary: string): (lines: seq<string>)
    ensures |lines| == (if authors == [] then 7 else 8)
    ensures lines[0] == "标题：" + title && lines[1] == "发布日期：" + date
    ensures lines[2] == "来源：" + source && lines[3] == "网站：" + site
    ensures authors != [] ==> lines[4] == "作者：" + Join(authors, ", ")
    ensures lines[|lines| - 3] == "" && lines[|lines| - 2] == "正文：" && lines[|lines| - 1] == summary
  {
    ["标题：" + title, "发布日期：" + date, "来源：" + source, "网站：" + site]
    + (if authors == [] then [] else ["作者：" + Join(authors, ", ")])
    + ["", "正文：", summary]
  }

  class Article {
    const url: string
    const page: Page
    const config: Config
    var title: string
    var publishDate: Option<Instant>
    var source: string
    var authors: seq<string>
    var summary: string

    function Current(): Fields
      reads this
    {
      Fields(title, publishDate, source, authors, summary)
    }

    /** The fields are what the extractor reads from the page. */
    ghost predicate Parsed(env: Environment)
      reads this
    {
      Current() == Extracted(page, config, url, env)
    }

    /** `Article.__init__`: the fields start empty and `_parse` fills them. */
    constructor (url: string, page: Page, config: Config, env: Environment)
      ensures this.url == url && this.page == page && this.config == config
      ensures Parsed(env)
    {
      this.url := url;
      this.page := page;
      this.config := config;
      title := "";
      publishDate := None;
      source := "";
      authors := [];
      summary := "";
      new;
      Parse(env);
    }

    /** Sets the five fields at once. */
    method Update(f: Fields)
      modifies this
      ensures Current() == f
    {
      title, publishDate, source, authors, summary := f.title, f.publishDate, f.source, f.authors, f.summary;
    }

    /** `ArticleCaijing._parse`. */
    method Parse(env: Environment)
      modifies this
      ensures Parsed(env)
    {
      var content := ArticleContent.ExtractContent(page, config, env.prepass);
      Update(Fields(ExtractTitle(page, config), ExtractPublishDate(page, config, url, env.now, env.parse),
                    url, AuthorList(env.author), content));
    }

    /** `to_text`; `None` where `url.split('/')[2]` raises. */
    function ToText(): (r: Option<string>)
      reads this
      ensures r.Some? <==> |Split(url, '/')| >= 3
      ensures r.Some? ==> Contains(r.value, "来源：" + source)
    {
      match Site(url)
      case None => None
      case Some(site) =>
        var lines := TextLines(title, DateText(publishDate), source, site, authors, summary);
        JoinContainsPart(lines, "\n", 2);
        Some(Join(lines, "\n"))
    }

    /** `Article.from_html` for this class: the article is built and kept only
      * when it has a title, a publication date and a summary. */
    static method FromHtml(page: Page, config: Config, url: string, env: Environment) returns (a: Option<Article>)
      ensures a.Some? <==> Kept(page, config, url, env).Some?
      ensures a.Some? ==> fresh(a.value) && a.value.url == url && a.value.Parsed(env)
      ensures a.Some? ==> a.value.Current() == Kept(page, config, url, env).value
      ensures a.Some? ==> a.value.title != [] && a.value.publishDate.Some? && a.value.summary != []
    {
      var article := new Article(url, page, config, env);
      KeptWhenComplete(article.Current(), page, config, url, env);
      if article.title == [] || article.publishDate.None? || article.summary == [] {
        return None;
      }
      return Some(article);
    }
  }

  /** An article's text names its own URL as the source, the line the duplicate
    * check of `save_article` looks for. */
  lemma TextNamesUrl(a: Article, env: Environment)
    requires a.Parsed(env)
    ensures a.ToText().Some? ==> Contains(a.ToText().value, "来源：" + a.url)
  {
  }

  /** The author line is there exactly when the article has an author, and it
    * comes right after the site line. */
  lemma AuthorLine(title: string, date: string, source: string, site: string, authors: seq<string>, summary: string)
    ensures var lines := TextLines(title, date, source, site, authors, summary);
      (authors != [] <==> |lines| == 8) && (authors != [] ==> lines[4] == "作者：" + Join(authors, ", "))
      && lines[|lines| - 3] == "" && lines[|lines| - 2] == "正文："
  {
  }
}
