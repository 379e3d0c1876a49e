/**
 * `PaperCrawler`: the bookkeeping of the paper crawler. `PageCount` counts the
 * papers saved from one source; `crawl` keeps crawling the start page while
 * more are wanted; `crawl_paper` skips cached URLs, parses the page into an
 * `ArticlePaper`, and writes its text under `<base_dir>/<day>/<domain>/<title>.txt`
 * unless that file exists, counting and caching the URL only when it writes.
 * Browsing (Selenium) and downloading are abstracted: each paper a list page
 * yields comes with the page the crawler obtained for it, or `None` when
 * obtaining it failed.
 */
module PaperCrawler {
  import opened Wrappers
  import opened Text
  import opened Calendar
  import opened UrlStore
  import opened UrlCacheManager
  import opened ArticleExtractor
  import opened PaperArticle

  /** `CRAWL_LIMITS['max_pages_per_source']`. */
  const MaxPagesPerSource: int := 150

  /** `STORAGE_CONFIG` as the settings define it: a base directory and no `date_format`. */
  const StorageConfig: map<string, string> := map["base_dir" := "data/papers"]

  /** The day-directory format of the news crawler's storage. */
  const DayFormat: string := "%Y-%m-%d"

  /** `STORAGE_CONFIG` with the `date_format` entry `crawl_paper` looks up. */
  const CorrectedStorageConfig: map<string, string> := StorageConfig["date_format" := DayFormat]

  /** The storage settings this model can format: no `date_format`, or the day format. */
  predicate KnownFormat(storage: map<string, string>)
  {
    "date_format" in storage ==> storage["date_format"] == DayFormat
  }

  class PageCount {
    /** `count`. */
    var count: int

    /** `PageCount.__init__`. */
    constructor ()
      ensures count == 0
    {
      count := 0;
    }

    /** `add`. */
    method Add()
      modifies this
      ensures count == old(count) + 1
    {
      count := count + 1;
    }

    /** `need_more`: fewer papers than the per-source limit so far. */
    function NeedMore(): (r: bool)
      reads this
      ensures r <==> count < MaxPagesPerSource
    {
      count < MaxPagesPerSource
    }
  }

  // ----- the file name -----

  /** The characters a file name keeps: `str.isalnum` (the Unicode test, given as
    * `alnum`), a space, '-' or '_'. */
  predicate Allowed(c: char, alnum: char -> bool)
  {
    alnum(c) || c == ' ' || c == '-' || c == '_'
  }

  /** The allowed characters of a title, in order. */
  function KeptChars(title: string, alnum: char -> bool): (r: string)
    ensures |r| <= |title|
    ensures forall k :: 0 <= k < |r| ==> Allowed(r[k], alnum)
    ensures forall k :: 0 <= k < |title| && Allowed(title[k], alnum) ==> title[k] in r
    ensures forall c :: c in r ==> c in title
  {
    if title == [] then []
    else if Allowed(title[0], alnum) then [title[0]] + KeptChars(title[1..], alnum)
    else KeptChars(title[1..], alnum)
  }

  /** Keeping works character by character: the kept characters stay in their order,
    * each as often as it occurs. */
  lemma {:induction false} KeptCharsAppend(a: string, b: string, alnum: char -> bool)
    ensures KeptChars(a + b, alnum) == KeptChars(a, alnum) + KeptChars(b, alnum)
    decreases |a|
  {
    if a == [] {
      assert a + b == b;
    } else {
      var t := a + b;
      assert t[0] == a[0] && t[1..] == a[1..] + b;
      KeptCharsAppend(a[1..], b, alnum);
      var x, y := KeptChars(a[1..], alnum), KeptChars(b, alnum);
      if Allowed(a[0], alnum) {
        assert [a[0]] + (x + y) == ([a[0]] + x) + y;
      }
    }
  }

  /** A string of allowed characters is kept whole. */
  lemma {:induction false} KeptWhole(s: string, alnum: char -> bool)
    requires forall k :: 0 <= k < |s| ==> Allowed(s[k], alnum)
    ensures KeptChars(s, alnum) == s
  {
    if s != [] {
      KeptWhole(s[1..], alnum);
    }
  }

  /** The safe title of `crawl_paper`: the kept characters, cut to 100, or
    * "untitled" when none is kept. */
  function SafeTitle(title: string, alnum: char -> bool): (r: string)
    ensures 0 < |r| <= 100
    ensures KeptChars(title, alnum) == [] ==> r == "untitled"
    ensures KeptChars(title, alnum) != [] ==>
              |r| <= |KeptChars(title, alnum)| && r == KeptChars(title, alnum)[..|r|]
              && (|r| == 100 || r == KeptChars(title, alnum))
  {
    var kept := KeptChars(title, alnum);
    if kept == [] then "untitled" else if |kept| <= 100 then kept else kept[..100]
  }

  /** A safe title made safe again stays as it is, when the letters of "untitled" are alphanumeric. */
  lemma SafeTitleStable(title: string, alnum: char -> bool)
    requires forall c :: c in "untitled" ==> alnum(c)
    ensures SafeTitle(SafeTitle(title, alnum), alnum) == SafeTitle(title, alnum)
  {
    var r := SafeTitle(title, alnum);
    if KeptChars(title, alnum) == [] {
      assert forall k :: 0 <= k < |r| ==> r[k] in "untitled";
    }
    KeptWhole(r, alnum);
  }

  // ----- the save decision -----

  /** A saved paper's file: the day directory, the domain and the file name. */
  datatype Path = Path(day: string, domain: string, name: string)

  /** How `crawl_paper` ends. `NotStored` is the `KeyError` of a storage
    * configuration without `date_format`, caught and logged. */
  datatype Outcome =
    | Cached
    | NotFetched
    | Undated
    | Untitled
    | NotStored
    | Existing(path: Path)
    | Saved(path: Path)

  /** The fields of the article parsed from the page obtained, if one was. */
  function ParsedFields(url: string, page: Option<Page>, config: Config, env: Environment, arxiv: ArxivLookup): Option<Fields>
  {
    if page.None? then None else Some(Expected(page.value, config, url, env, arxiv))
  }

  /** The file a dated article goes to. */
  function PathOf(f: Fields, domain: string, alnum: char -> bool): Path
    requires f.publishDate.Some?
  {
    Path(IsoFormat(f.publishDate.value.date), domain, SafeTitle(f.title, alnum) + ".txt")
  }

  /** `crawl_paper`'s checks, in order: the cache, the page, the date, the title,
    * the storage settings, and whether the file exists. */
  function Decide(storage: map<string, string>, cached: bool, fields: Option<Fields>, domain: string,
                  alnum: char -> bool, files: set<Path>): Outcome
  {
    if cached then Cached
    else if fields.None? then NotFetched
    else if fields.value.publishDate.None? then Undated
    else if fields.value.title == [] then Untitled
    else if "date_format" !in storage then NotStored
    else if PathOf(fields.value, domain, alnum) in files then Existing(PathOf(fields.value, domain, alnum))
    else Saved(PathOf(fields.value, domain, alnum))
  }

  /** A paper is saved only when its URL is new, it has a date and a title, and
    * its file does not exist; the file is then named after the date and title. */
  lemma SavedOnlyWhenNew(storage: map<string, string>, cached: bool, fields: Option<Fields>, domain: string,
                         alnum: char -> bool, files: set<Path>)
    ensures Decide(storage, cached, fields, domain, alnum, files).Saved? <==>
              !cached && fields.Some? && fields.value.publishDate.Some? && fields.value.title != []
              && "date_format" in storage && PathOf(fields.value, domain, alnum) !in files
    ensures Decide(storage, cached, fields, domain, alnum, files).Saved? ==>
              var p := Decide(storage, cached, fields, domain, alnum, files).path;
              p.domain == domain && 0 < |p.name| - 4 <= 100 && p.name[|p.name| - 4..] == ".txt"
  {
  }

  /** A URL the cache holds is skipped whatever its page. */
  lemma CachedSkipped(storage: map<string, string>, m: map<string, set<string>>, domain: string, url: string,
                      fields: Option<Fields>, alnum: char -> bool, files: set<Path>)
    ensures Decide(storage, Has(Insert(m, domain, url), domain, url), fields, domain, alnum, files) == Cached
  {
    AddThenHas(m, domain, url, domain, url);
  }

  /** As configured, `STORAGE_CONFIG` has no `date_format`: every paper with a
    * date and a title ends in the `KeyError`, and none is ever saved. */
  lemma NothingSavedAsConfigured(cached: bool, fields: Option<Fields>, domain: string, alnum: char -> bool, files: set<Path>)
    ensures !Decide(StorageConfig, cached, fields, domain, alnum, files).Saved?
    ensures !cached && fields.Some? && fields.value.publishDate.Some? && fields.value.title != [] ==>
              Decide(StorageConfig, cached, fields, domain, alnum, files) == NotStored
  {
    assert "date_format" !in StorageConfig;
  }

  /** With the `date_format` entry, a new dated and titled paper whose file does not exist is saved. */
  lemma SavedWithDateFormat(fields: Fields, domain: string, alnum: char -> bool, files: set<Path>)
    requires fields.publishDate.Some? && fields.title != []
    requires PathOf(fields, domain, alnum) !in files
    ensures Decide(CorrectedStorageConfig, false, Some(fields), domain, alnum, files) == Saved(PathOf(fields, domain, alnum))
    ensures KnownFormat(CorrectedStorageConfig)
  {
    assert "date_format" in CorrectedStorageConfig;
  }

  /** A paper of one list page: its URL, the page obtained for it (`None` when
    * the browser or the downloader failed), and what its arxiv link gives. */
  datatype Visit = Visit(url: string, page: Option<Page>, arxiv: ArxivLookup)

  class Crawler {
    /** `config['domain']`. */
    const domain: string
    /** The site configuration, a dictionary. */
    const config: Config
    /** `STORAGE_CONFIG`. */
    const storage: map<string, string>
    /** `str.isalnum`. */
    const alnum: char -> bool
    /** `page_count`. */
    const pageCount: PageCount
    /** `url_cache`. */
    const urlCache: UrlCache
    /** The files under `STORAGE_CONFIG['base_dir']` and their text. */
    var files: map<Path, string>

    /** `PaperCrawler.__init__`: a zero count and the URL cache loaded from its file. */
    constructor (domain: string, config: Config, storage: map<string, string>, alnum: char -> bool,
                 cacheFile: StoredFile, files: map<Path, string>)
      requires KnownFormat(storage)
      ensures this.domain == domain && this.config == config && this.storage == storage && this.alnum == alnum
      ensures fresh(pageCount) && pageCount.count == 0
      ensures fresh(urlCache) && urlCache.cache == Loaded(cacheFile) && this.files == files
    {
      this.domain := domain;
      this.config := config;
      this.storage := storage;
      this.alnum := alnum;
      pageCount := new PageCount();
      urlCache := new UrlCache(cacheFile);
      this.files := files;
    }

    /** `crawl_paper`: the outcome is `Decide` on the cache, the parsed page and the
      * files; only a save writes the article's text, adds one to the count and
      * caches the URL. */
    method CrawlPaper(url: string, page: Option<Page>, env: Environment, arxiv: ArxivLookup) returns (outcome: Outcome)
      modifies this, pageCount, urlCache
      ensures outcome == Decide(storage, Has(old(urlCache.cache), domain, url),
                                ParsedFields(url, page, config, env, arxiv), domain, alnum, old(files).Keys)
      ensures outcome.Saved? ==>
                files == old(files)[outcome.path := Join(TextLines(ParsedFields(url, page, config, env, arxiv).value), "\n")]
                && pageCount.count == old(pageCount.count) + 1
                && urlCache.cache == Insert(old(urlCache.cache), domain, url)
      ensures !outcome.Saved? ==> files == old(files) && unchanged(pageCount, urlCache)
    {
      if urlCache.HasUrl(domain, url) {
        return Cached;
      }
      if page.None? {
        return NotFetched;
      }
      var article := new Article(url, page.value, config, env, arxiv);
      outcome := SaveParsed(url, article);
    }

    /** The rest of `crawl_paper`, once the URL is known to be new and its page parsed. */
    method SaveParsed(url: string, article: Article) returns (outcome: Outcome)
      modifies this, pageCount, urlCache
      ensures outcome == Decide(storage, false, Some(article.Current()), domain, alnum, old(files).Keys)
      ensures outcome.Saved? ==>
                files == old(files)[outcome.path := Join(TextLines(article.Current()), "\n")]
                && pageCount.count == old(pageCount.count) + 1
                && urlCache.cache == Insert(old(urlCache.cache), domain, url)
      ensures !outcome.Saved? ==> files == old(files) && unchanged(pageCount, urlCache)
    {
      if article.publishDate.None? {
        return Undated;
      }
      if article.title == [] {
        return Untitled;
      }
      if "date_format" !in storage {
        return NotStored;
      }
      var path := Path(IsoFormat(article.publishDate.value.date), domain, SafeTitle(article.title, alnum) + ".txt");
      if path in files {
        return Existing(path);
      }
      files := files[path := article.ToText()];
      pageCount.Add();
      urlCache.AddUrl(domain, url);
      return Saved(path);
    }

    /** `_crawl_page`: on huggingface.co and paperswithcode.com, each paper of the
      * list in turn, stopping as soon as no more are needed; other domains have
      * no list reader. */
    method CrawlPage(visits: seq<Visit>, env: Environment)
      modifies this, pageCount, urlCache
      ensures old(pageCount.count) < MaxPagesPerSource ==> pageCount.count <= MaxPagesPerSource
      ensures old(pageCount.count) <= pageCount.count
      ensures "date_format" !in storage || (domain != "huggingface.co" && domain != "paperswithcode.com") ==>
                files == old(files) && pageCount.count == old(pageCount.count)
    {
      if domain != "huggingface.co" && domain != "paperswithcode.com" {
        return;
      }
      var i := 0;
      while i < |visits|
        invariant 0 <= i <= |visits|
        invariant old(pageCount.count) < MaxPagesPerSource ==> pageCount.count < MaxPagesPerSource
        invariant old(pageCount.count) <= pageCount.count
        invariant "date_format" !in storage ==> files == old(files) && pageCount.count == old(pageCount.count)
      {
        var outcome := CrawlPaper(visits[i].url, visits[i].page, env, visits[i].arxiv);
        if !pageCount.NeedMore() {
          return;
        }
        i := i + 1;
      }
    }

    /** `crawl`: crawls the start page again and again while it is set and more
      * papers are needed. `rounds` holds what each successive crawl of the list
      * page yields; `calls` is how many were made. */
    method Crawl(startUrl: string, rounds: seq<seq<Visit>>, env: Environment) returns (calls: nat)
      modifies this, pageCount, urlCache
      ensures calls <= |rounds|
      ensures startUrl == "" ==> calls == 0
      ensures calls < |rounds| ==> startUrl == "" || pageCount.count >= MaxPagesPerSource
      ensures old(pageCount.count) <= MaxPagesPerSource ==> pageCount.count <= MaxPagesPerSource
      ensures "date_format" !in storage && startUrl != "" && old(pageCount.count) < MaxPagesPerSource ==>
                calls == |rounds| && files == old(files) && pageCount.count == old(pageCount.count)
    {
      calls := 0;
      while startUrl != "" && pageCount.NeedMore() && calls < |rounds|
        invariant calls <= |rounds|
        invariant startUrl == "" ==> calls == 0
        invariant old(pageCount.count) <= pageCount.count
        invariant old(pageCount.count) <= MaxPagesPerSource ==> pageCount.count <= MaxPagesPerSource
        invariant "date_format" !in storage ==> files == old(files) && pageCount.count == old(pageCount.count)
      {
        CrawlPage(rounds[calls], env);
        calls := calls + 1;
      }
    }
  }
}
