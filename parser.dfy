/**
 * `ArticleParser.parse_article`: the argument and selector checks in front of
 * `ArticleCaijing.from_html`. Every failure is reported as `None`; nothing escapes.
 */
module ArticleParser {
  import opened Wrappers
  import opened ArticleExtractor
  import ArticleContent
  import CaijingArticle

  /** Why `parse_article` gives up before parsing, in the order it checks. */
  datatype Rejection = InvalidHtml | EmptyConfig | EmptyUrl | MissingSelectors(name: string)

  /** Python truth of the configuration argument: `None` and an empty dictionary are false,
    * a configuration object is true. */
  predicate Truthy(config: Option<Config>)
  {
    config.Some? && !(config.value.Entries? && config.value.entries == map[])
  }

  /** `hasattr(config, name) and getattr(config, name)`: the attribute is there and the list is not empty. */
  predicate Present(selectors: Option<seq<string>>)
  {
    selectors.Some? && selectors.value != []
  }

  /** What the arguments must satisfy for `from_html` to be called: an HTML document,
    * a configuration object with title and content selectors, and a URL. */
  predicate Admissible(html: Option<Page>, config: Option<Config>, url: string)
  {
    html.Some? && url != [] && config.Some? && config.value.Attrs?
    && Present(config.value.titleSelectors) && Present(config.value.contentSelectors)
  }

  /** The checks of `parse_article` one after the other: the first one that fails. */
  function Check(html: Option<Page>, config: Option<Config>, url: string): (r: Option<Rejection>)
    ensures r.None? <==> Admissible(html, config, url)
    ensures html.None? ==> r == Some(InvalidHtml)
    ensures r == Some(EmptyUrl) ==> html.Some? && Truthy(config)
    ensures r.Some? && r.value.MissingSelectors? ==> html.Some? && url != [] && Truthy(config)
    ensures r == Some(MissingSelectors("content_selectors")) ==> config.value.Attrs? && Present(config.value.titleSelectors)
  {
    if html.None? then Some(InvalidHtml)
    else if !Truthy(config) then Some(EmptyConfig)
    else if url == [] then Some(EmptyUrl)
    else if !config.value.Attrs? || !Present(config.value.titleSelectors) then Some(MissingSelectors("title_selectors"))
    else if !Present(config.value.contentSelectors) then Some(MissingSelectors("content_selectors"))
    else None
  }

  /** The fields of the article `parse_article` returns, if it returns one. */
  function Outcome(html: Option<Page>, config: Option<Config>, url: string, env: Environment): Option<CaijingArticle.Fields>
  {
    if Admissible(html, config, url) then CaijingArticle.Kept(html.value, config.value, url, env) else None
  }

  /** `parse_article`. The title and summary check it makes on the result of
    * `from_html` always passes, since `from_html` keeps only complete articles. */
  method ParseArticle(html: Option<Page>, config: Option<Config>, url: string, env: Environment)
    returns (a: Option<CaijingArticle.Article>)
    ensures a.Some? <==> Outcome(html, config, url, env).Some?
    ensures a.Some? ==> fresh(a.value) && a.value.url == url && a.value.Parsed(env)
    ensures a.Some? ==> a.value.Current() == Outcome(html, config, url, env).value
    ensures a.Some? ==> a.value.title != [] && a.value.publishDate.Some? && a.value.summary != []
  {
    var rejection := Check(html, config, url);
    if rejection.Some? {
      return None;
    }
    a := CaijingArticle.Article.FromHtml(html.value, config.value, url, env);
  }

  /** A configuration given as a plain dictionary never gets past the selector check. */
  lemma EntriesRejected(html: Option<Page>, entries: map<string, SelectorValue>, url: string)
    ensures Check(html, Some(Entries(entries)), url).Some?
  {
  }
}
