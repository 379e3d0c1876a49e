/**
 * `MultiSiteCrawler`: the per-domain frontier (URL queues, visited sets and
 * article counters), the handling of one fetched page (`fetch_url`,
 * `_extract_links`, `_process_article`, `parse_article`) and the save of an
 * accepted article (`save_article`). The crawl runs sequentially: downloading
 * is a function from URL to page, and one in-flight task completes per step.
 */
module Crawler {
  import opened Wrappers
  import opened Text
  import opened Calendar
  import opened ArticleExtractor
  import CaijingArticle
  import ArticleParser
  import RobotsParser
  import CacheManager
  import UrlStore
  import opened CrawlerChecks

  /** `ARTICLE_RETENTION_DAYS`. */
  const RetentionDays: int := 7

  /** A saved file: `save_dir/<date>/<domain>/<name>`. */
  datatype Path = Path(date: string, domain: string, name: string)

  /** Every URL occurs at most once. */
  ghost predicate Once(s: seq<string>)
  {
    forall u :: multiset(s)[u] <= 1
  }

  /** The line of an article's text that `save_article` takes as "same URL". */
  function Marker(url: string): string
  {
    "来源：" + url
  }

  // ----- __init__ -----

  /** `[config for config in site_configs.values() if config.enabled]`. */
  function Enabled(configs: seq<SiteConfig>): (r: seq<SiteConfig>)
    ensures forall c :: c in r <==> c in configs && c.enabled
    ensures |r| <= |configs|
  {
    if configs == [] then []
    else (if configs[0].enabled then [configs[0]] else []) + Enabled(configs[1..])
  }

  function Domains(configs: seq<SiteConfig>): set<string>
  {
    set c | c in configs :: c.domain
  }

  /** `{config.domain: deque([config.start_url]) for config in site_configs}`: a later
    * config of the same domain replaces an earlier one. */
  function Seeded(configs: seq<SiteConfig>): (r: map<string, seq<string>>)
    ensures r.Keys == Domains(configs)
  {
    if configs == [] then map[]
    else
      var last := configs[|configs| - 1];
      var before := configs[..|configs| - 1];
      assert configs == before + [last];
      Seeded(before)[last.domain := [last.startUrl]]
  }

  /** A domain's queue starts with the start URL of the last config of that domain. */
  lemma {:induction false} SeededLast(configs: seq<SiteConfig>, k: int)
    requires 0 <= k < |configs|
    requires forall j :: k < j < |configs| ==> configs[j].domain != configs[k].domain
    ensures configs[k].domain in Seeded(configs) && Seeded(configs)[configs[k].domain] == [configs[k].startUrl]
  {
    var before := configs[..|configs| - 1];
    if k < |configs| - 1 {
      SeededLast(before, k);
    }
  }

  /** Every seeded queue holds exactly one URL: the start URL of a config of that domain. */
  lemma {:induction false} SeededStart(configs: seq<SiteConfig>, d: string)
    requires d in Seeded(configs)
    ensures exists c :: c in configs && c.domain == d && Seeded(configs)[d] == [c.startUrl]
  {
    var last := configs[|configs| - 1];
    var before := configs[..|configs| - 1];
    if d != last.domain {
      SeededStart(before, d);
      var c :| c in before && c.domain == d && Seeded(before)[d] == [c.startUrl];
      assert c in configs;
    }
  }

  /** The file an article is saved to: the date directory, the domain directory and the
    * cleaned title, or `article_<hash>` when nothing is left of it; `None` for an article
    * without a date, where `strftime` raises. */
  function SavePath(title: string, date: Option<Instant>, domain: string, hash: string): (r: Option<Path>)
    ensures r.Some? <==> date.Some?
    ensures r.Some? ==> r.value.date == IsoFormat(date.value.date) && r.value.domain == domain && EndsWith(r.value.name, ".txt")
    ensures r.Some? && CleanFilename(title) != [] ==> r.value.name == CleanFilename(title) + ".txt"
  {
    if date.None? then None
    else
      var stem := if CleanFilename(title) == [] then "article_" + hash else CleanFilename(title);
      assert (stem + ".txt")[|stem + ".txt"| - 4..] == ".txt";
      Some(Path(IsoFormat(date.value.date), domain, stem + ".txt"))
  }

  /** An empty URL set for every domain. */
  function NoUrls(domains: set<string>): (m: map<string, set<string>>)
    ensures m.Keys == domains && forall d :: d in m ==> m[d] == {}
  {
    map d | d in domains :: {}
  }

  /** A zero counter for every domain. */
  function Zeros(domains: set<string>): (m: map<string, int>)
    ensures m.Keys == domains && forall d :: d in m ==> m[d] == 0
  {
    map d | d in domains :: 0
  }

  /** The `init_domain` calls of `__init__`, one per config, in order. */
  method RegisterDomains(cache: CacheManager.Cache, configs: seq<SiteConfig>)
    modifies cache
    ensures cache.urlCache.Keys == old(cache.urlCache).Keys + Domains(configs)
    ensures forall d :: d in old(cache.urlCache) ==> cache.urlCache[d] == old(cache.urlCache)[d]
    ensures forall d :: d in cache.urlCache && d !in old(cache.urlCache) ==> cache.urlCache[d] == {}
    ensures cache.file == old(cache.file)
  {
    var i := 0;
    while i < |configs|
      invariant 0 <= i <= |configs|
      invariant cache.urlCache.Keys == old(cache.urlCache).Keys + Domains(configs[..i])
      invariant forall d :: d in old(cache.urlCache) ==> cache.urlCache[d] == old(cache.urlCache)[d]
      invariant forall d :: d in cache.urlCache && d !in old(cache.urlCache) ==> cache.urlCache[d] == {}
      invariant cache.file == old(cache.file)
    {
      cache.InitDomain(configs[i].domain);
      assert configs[..i + 1] == configs[..i] + [configs[i]];
      assert Domains(configs[..i + 1]) == Domains(configs[..i]) + {configs[i].domain};
      i := i + 1;
    }
    assert configs[..i] == configs;
  }

  // ----- _extract_links -----

  /** The stripped `href` of a link element, when `_extract_links` follows it: present,
    * not blank, and not a fragment, `javascript:` or `mailto:` link. */
  function Target(e: Element): (r: Option<string>)
    ensures r.Some? ==> r.value != [] && !StartsWith(r.value, "#") && !StartsWith(r.value, "javascript:") && !StartsWith(r.value, "mailto:")
    ensures r.Some? ==> "href" in e.attributes && r.value == Strip(e.attributes["href"])
  {
    if "href" !in e.attributes || e.attributes["href"] == [] then None
    else
      var href := Strip(e.attributes["href"]);
      if href == [] || StartsWith(href, "#") || StartsWith(href, "javascript:") || StartsWith(href, "mailto:") then None
      else Some(href)
  }

  /** Each of the crawler's per-domain dictionaries has exactly the given domains as keys. */
  ghost predicate Keyed(domains: set<string>, queues: map<string, seq<string>>, visited: map<string, set<string>>,
                        counts: map<string, int>, errors: map<string, set<string>>)
  {
    queues.Keys == domains && visited.Keys == domains && counts.Keys == domains && errors.Keys == domains
  }

  /** Replacing a domain's queue and visited set keeps the dictionaries keyed by the domains. */
  lemma Rekeyed(domains: set<string>, queues: map<string, seq<string>>, visited: map<string, set<string>>,
                counts: map<string, int>, errors: map<string, set<string>>, d: string, queue: seq<string>, seen: set<string>)
    requires Keyed(domains, queues, visited, counts, errors) && d in domains
    ensures Keyed(domains, queues[d := queue], visited[d := seen], counts, errors)
  {
  }

  class MultiSiteCrawler {
    const siteConfigs: seq<SiteConfig>
    const maxArticles: int
    const maxPerSite: int
    const concurrentTasks: int
    const robots: RobotsParser.Robots
    const cache: CacheManager.Cache
    /** `urlparse`, `urljoin` and `re.match`, which the model does not interpret. */
    const urlparse: string -> Option<UrlParts>
    const urljoin: (string, string) -> string
    const matches: (string, string) -> Option<bool>
    var urlQueues: map<string, seq<string>>
    var visitedUrls: map<string, set<string>>
    var savedArticlesCount: map<string, int>
    var totalArticles: int
    var errorUrls: map<string, set<string>>
    /** The files under `save_dir` and their text. */
    var files: map<Path, string>

    /** Every enabled domain has a queue, a visited set, a counter and an error set. */
    ghost predicate Valid()
      reads this
    {
      Keyed(Domains(siteConfigs), urlQueues, visitedUrls, savedArticlesCount, errorUrls)
    }

    /** `MultiSiteCrawler.__init__`: keeps the enabled configs, seeds each domain's queue
      * with its start URL, starts every visited set, error set and counter empty, and
      * registers every domain with the cache. */
    constructor (configs: seq<SiteConfig>, maxArticles: int, maxPerSite: int, concurrentTasks: int,
                 robots: RobotsParser.Robots, cache: CacheManager.Cache, urlparse: string -> Option<UrlParts>,
                 urljoin: (string, string) -> string, matches: (string, string) -> Option<bool>, files: map<Path, string>)
      modifies cache
      ensures siteConfigs == Enabled(configs) && this.files == files
      ensures this.maxArticles == maxArticles && this.maxPerSite == maxPerSite && this.concurrentTasks == concurrentTasks
      ensures this.robots == robots && this.cache == cache
      ensures this.urlparse == urlparse && this.urljoin == urljoin && this.matches == matches
      ensures urlQueues == Seeded(siteConfigs)
      ensures visitedUrls == NoUrls(Domains(siteConfigs)) && errorUrls == NoUrls(Domains(siteConfigs))
      ensures savedArticlesCount == Zeros(Domains(siteConfigs)) && totalArticles == 0
      ensures cache.urlCache.Keys == old(cache.urlCache).Keys + Domains(siteConfigs)
      ensures forall d :: d in old(cache.urlCache) ==> cache.urlCache[d] == old(cache.urlCache)[d]
      ensures forall d :: d in cache.urlCache && d !in old(cache.urlCache) ==> cache.urlCache[d] == {}
      ensures cache.file == old(cache.file)
      ensures Valid()
    {
      var enabled := Enabled(configs);
      siteConfigs := enabled;
      this.maxArticles := maxArticles;
      this.maxPerSite := maxPerSite;
      this.concurrentTasks := concurrentTasks;
      this.robots := robots;
      this.cache := cache;
      this.urlparse := urlparse;
      this.urljoin := urljoin;
      this.matches := matches;
      urlQueues := Seeded(enabled);
      visitedUrls := NoUrls(Domains(enabled));
      errorUrls := NoUrls(Domains(enabled));
      savedArticlesCount := Zeros(Domains(enabled));
      totalArticles := 0;
      this.files := files;
      new;
      RegisterDomains(cache, enabled);
    }

    /** `get_today_article_count`: the `.txt` files in today's directory of the domain. */
    function TodayCount(domain: string, today: string): nat
      reads this
    {
      |set p | p in files && p.date == today && p.domain == domain && EndsWith(p.name, ".txt")|
    }

    /** `parse_article`: `None` unless the URL is not cached, `ArticleParser` builds an
      * article, the article is within the retention window and long enough, neither cap
      * is reached and today's count is below the site's daily cap. */
    method ParseArticle(page: Page, config: SiteConfig, url: string, env: Environment) returns (a: Option<CaijingArticle.Article>)
      requires Valid() && config in siteConfigs
      ensures a.Some? <==> Review(cache.IsCached(url, config.domain),
                                  ArticleParser.Outcome(Some(page), Some(ExtractorView(config)), url, env),
                                  RetentionDays, env.now, savedArticlesCount[config.domain], totalArticles,
                                  maxPerSite, maxArticles, TodayCount(config.domain, IsoFormat(env.now.date)),
                                  config.maxArticlesPerDay) == Accepted
      ensures a.Some? ==> fresh(a.value) && a.value.url == url && a.value.Parsed(env)
      ensures a.Some? ==> savedArticlesCount[config.domain] < maxPerSite && totalArticles < maxArticles
    {
      if cache.IsCached(url, config.domain) {
        return None;
      }
      var parsed := ArticleParser.ParseArticle(Some(page), Some(ExtractorView(config)), url, env);
      if parsed.None? {
        return None;
      }
      var article := parsed.value;
      if !IsWithinRetention(article.publishDate.value, RetentionDays, env.now) {
        return None;
      }
      if |article.summary| < 50 {
        return None;
      }
      if savedArticlesCount[config.domain] >= maxPerSite || totalArticles >= maxArticles {
        return None;
      }
      if TodayCount(config.domain, IsoFormat(env.now.date)) >= config.maxArticlesPerDay {
        return None;
      }
      return Some(article);
    }

    /** `save_article`, with `hash` standing for `str(hash(article.url))`. An article
      * without a date is not saved; otherwise it goes to the file `SavePath` names, as
      * `StoreText` describes. */
    method SaveArticle(article: CaijingArticle.Article, config: SiteConfig, hash: string)
      requires Valid() && config in siteConfigs
      modifies this, cache
      ensures Valid()
      ensures urlQueues == old(urlQueues) && visitedUrls == old(visitedUrls) && errorUrls == old(errorUrls)
      ensures var p := SavePath(article.title, article.publishDate, config.domain, hash);
        if p.None? then
          files == old(files) && savedArticlesCount == old(savedArticlesCount) && totalArticles == old(totalArticles)
          && cache.urlCache == old(cache.urlCache) && cache.file == old(cache.file)
        else Stored(p.value, article.ToText(), article.url, config.domain)
      ensures totalArticles == old(totalArticles) || totalArticles == old(totalArticles) + 1
      ensures old(savedArticlesCount)[config.domain] < maxPerSite ==>
        Bumped(old(savedArticlesCount), savedArticlesCount, maxPerSite)
    {
      var p := SavePath(article.title, article.publishDate, config.domain, hash);
      if p.None? {
        BumpedNone(savedArticlesCount, maxPerSite);
        return;
      }
      StoreText(p.value, article.ToText(), article.url, config.domain);
      if old(savedArticlesCount)[config.domain] < maxPerSite {
        if totalArticles == old(totalArticles) {
          BumpedNone(old(savedArticlesCount), maxPerSite);
        } else {
          BumpedOne(old(savedArticlesCount), config.domain, maxPerSite);
        }
      }
    }

    /** What the writing part of `save_article` leaves behind for a file `path`, the text
      * `to_text` builds (`None` where it raises) and the article's URL: a file that already
      * names the URL is left alone; otherwise the file is opened for writing, which empties
      * it, and when there is a text it is written, the domain's counter and the total go up
      * by one and the URL joins the cache. */
    twostate predicate Stored(path: Path, text: Option<string>, url: string, domain: string)
      reads this, cache
    {
      if path in old(files) && Contains(old(files)[path], Marker(url)) then
        files == old(files) && savedArticlesCount == old(savedArticlesCount) && totalArticles == old(totalArticles)
        && cache.urlCache == old(cache.urlCache) && cache.file == old(cache.file)
      else if text.None? then
        files == old(files)[path := ""] && savedArticlesCount == old(savedArticlesCount)
        && totalArticles == old(totalArticles) && cache.urlCache == old(cache.urlCache) && cache.file == old(cache.file)
      else
        files == old(files)[path := text.value]
        && domain in old(savedArticlesCount)
        && savedArticlesCount == old(savedArticlesCount)[domain := old(savedArticlesCount)[domain] + 1]
        && totalArticles == old(totalArticles) + 1
        && cache.urlCache == UrlStore.Insert(old(cache.urlCache), domain, url)
    }

    /** The writing part of `save_article`. Once the text naming the URL is in the file,
      * saving the same article again changes nothing. */
    method StoreText(path: Path, text: Option<string>, url: string, domain: string)
      requires domain in savedArticlesCount
      modifies this, cache
      ensures urlQueues == old(urlQueues) && visitedUrls == old(visitedUrls) && errorUrls == old(errorUrls)
      ensures Stored(path, text, url, domain)
      ensures text.Some? && Contains(text.value, Marker(url)) ==> path in files && Contains(files[path], Marker(url))
    {
      if path in files && Contains(files[path], Marker(url)) {
        return;
      }
      if text.None? {
        files := files[path := ""];
        return;
      }
      files := files[path := text.value];
      RecordSave(url, domain);
    }

    /** The bookkeeping of a written article: its domain's counter and the total go up by
      * one, and the URL joins the cache. */
    method RecordSave(url: string, domain: string)
      requires domain in savedArticlesCount
      modifies this, cache
      ensures savedArticlesCount == old(savedArticlesCount)[domain := old(savedArticlesCount)[domain] + 1]
      ensures totalArticles == old(totalArticles) + 1
      ensures cache.urlCache == UrlStore.Insert(old(cache.urlCache), domain, url)
      ensures unchanged(this`urlQueues, this`visitedUrls, this`errorUrls, this`files)
    {
      savedArticlesCount := savedArticlesCount[domain := savedArticlesCount[domain] + 1];
      totalArticles := totalArticles + 1;
      cache.AddToCache(url, domain);
    }

    /** What `_extract_links` keeps of one element: its usable `href` joined to the page
      * URL, when `is_valid_url` accepts the result. */
    function LinkOf(e: Element, base: string, domain: string, now: Instant): (r: Option<string>)
      reads robots
      ensures r.Some? <==> Target(e).Some? && IsValidUrl(robots, urlparse, urljoin(base, Target(e).value), domain, now)
      ensures r.Some? ==> r.value == urljoin(base, Target(e).value)
    {
      match Target(e)
      case None => None
      case Some(href) =>
        var url := urljoin(base, href);
        if IsValidUrl(robots, urlparse, url, domain, now) then Some(url) else None
    }

    /** The links `_extract_links` keeps from the elements matching `a[href]`, in page order. */
    function Links(elements: seq<Element>, base: string, domain: string, now: Instant): (r: seq<string>)
      reads robots
      ensures forall k :: 0 <= k < |r| ==> IsValidUrl(robots, urlparse, r[k], domain, now)
      ensures forall k :: 0 <= k < |r| ==> exists j :: 0 <= j < |elements| && LinkOf(elements[j], base, domain, now) == Some(r[k])
    {
      if elements == [] then []
      else
        var before := Links(elements[..|elements| - 1], base, domain, now);
        var last := LinkOf(elements[|elements| - 1], base, domain, now);
        if last.Some? then before + [last.value] else before
    }

    /** `_extract_links`. */
    method ExtractLinks(page: Page, base: string, domain: string, now: Instant) returns (links: seq<string>)
      ensures links == Links(Css(page, "a[href]"), base, domain, now)
    {
      var elements := Css(page, "a[href]");
      links := [];
      var i := 0;
      while i < |elements|
        invariant 0 <= i <= |elements|
        invariant links == Links(elements[..i], base, domain, now)
      {
        var e := elements[i];
        assert elements[..i + 1][..i] == elements[..i];
        var href := Target(e);
        if href.Some? {
          var url := urljoin(base, href.value);
          if IsValidUrl(robots, urlparse, url, domain, now) {
            links := links + [url];
          }
        }
        i := i + 1;
      }
      assert elements[..i] == elements;
    }

    /** `_process_article`: when the page is an article page of a known site, the article
      * is parsed under that site's config and, if accepted, saved. A save happens only below
      * both caps, so the total and each site's counter go up by at most one, and only from
      * below their caps. */
    method ProcessArticle(page: Page, url: string, env: Environment, hash: string)
      requires Valid()
      modifies this, cache
      ensures Valid()
      ensures unchanged(this`urlQueues, this`visitedUrls, this`errorUrls)
      ensures !IsArticlePage(url, SiteConfigFor(siteConfigs, url), matches) ==>
        unchanged(this`files, this`savedArticlesCount, this`totalArticles) && unchanged(cache)
      ensures totalArticles == old(totalArticles) || (totalArticles == old(totalArticles) + 1 && old(totalArticles) < maxArticles)
      ensures Bumped(old(savedArticlesCount), savedArticlesCount, maxPerSite)
    {
      var config := SiteConfigFor(siteConfigs, url);
      if IsArticlePage(url, config, matches) {
        var article := ParseArticle(page, config.value, url, env);
        if article.Some? {
          SaveArticle(article.value, config.value, hash);
          return;
        }
      }
      BumpedNone(savedArticlesCount, maxPerSite);
    }

    /** The links `fetch_url` returns for `url`: none when the page cannot be downloaded. */
    function PageLinks(url: string, domain: string, download: string -> Option<Page>, now: Instant): seq<string>
      reads robots
    {
      if download(url).None? then [] else Links(Css(download(url).value, "a[href]"), url, domain, now)
    }

    /** `fetch_url` for a URL of the crawled `domain`: a page that cannot be downloaded is
      * an error of the domain and yields no links; otherwise the page's links are extracted
      * and the page is processed as a possible article. */
    method FetchUrl(url: string, domain: string, download: string -> Option<Page>, env: Environment, hash: string,
                    ghost universe: set<string>)
      returns (links: seq<string>)
      requires Valid() && domain in errorUrls
      requires Closed(download, universe)
      modifies this, cache
      ensures Valid()
      ensures unchanged(this`urlQueues, this`visitedUrls)
      ensures download(url).None? ==>
        links == [] && errorUrls == old(errorUrls)[domain := old(errorUrls)[domain] + {url}]
        && unchanged(this`files, this`savedArticlesCount, this`totalArticles) && unchanged(cache)
      ensures download(url).Some? ==>
        links == Links(Css(download(url).value, "a[href]"), url, domain, env.now) && errorUrls == old(errorUrls)
      ensures forall l :: l in links ==> l in universe
      ensures totalArticles == old(totalArticles) || (totalArticles == old(totalArticles) + 1 && old(totalArticles) < maxArticles)
      ensures Bumped(old(savedArticlesCount), savedArticlesCount, maxPerSite)
    {
      var page := download(url);
      if page.None? {
        errorUrls := errorUrls[domain := errorUrls[domain] + {url}];
        return [];
      }
      links := ExtractLinks(page.value, url, domain, env.now);
      var elements := Css(page.value, "a[href]");
      forall l | l in links
        ensures l in universe
      {
        var k :| 0 <= k < |links| && links[k] == l;
        var j :| 0 <= j < |elements| && LinkOf(elements[j], url, domain, env.now) == Some(l);
        assert elements[j] in elements;
      }
      ProcessArticle(page.value, url, env, hash);
    }

    /** Every followable link of every page the site serves, joined to the page's URL, lies
      * in `universe`. */
    ghost predicate Closed(download: string -> Option<Page>, universe: set<string>)
    {
      forall u, e :: download(u).Some? && e in Css(download(u).value, "a[href]") && Target(e).Some? ==>
        urljoin(u, Target(e).value) in universe
    }

    /** The dispatch loop of `crawl_site` on the crawler's own queue and visited set of
      * `domain` (see `Dispatch`). */
    method Refill(domain: string, tasks: seq<string>, ghost fetched: seq<string>, ghost base: set<string>,
                  ghost universe: set<string>)
      returns (dispatched: seq<string>)
      requires Valid() && domain in urlQueues
      requires forall u :: u in urlQueues[domain] ==> u in universe
      requires Once(fetched + tasks) && visitedUrls[domain] == base + UrlStore.Elements(fetched + tasks)
      requires forall u :: u in fetched + tasks ==> u !in base
      modifies this
      ensures Valid()
      ensures Once(fetched + dispatched) && visitedUrls[domain] == base + UrlStore.Elements(fetched + dispatched)
      ensures forall u :: u in fetched + dispatched ==> u !in base
      ensures forall d :: d in visitedUrls && d != domain ==> visitedUrls[d] == old(visitedUrls)[d]
      ensures |dispatched| <= concurrentTasks || dispatched == tasks
      ensures |dispatched| >= concurrentTasks || urlQueues[domain] == []
      ensures forall u :: u in urlQueues[domain] ==> u in universe
      ensures forall d :: d in urlQueues && d != domain ==> urlQueues[d] == old(urlQueues)[d]
      ensures unchanged(this`savedArticlesCount, this`totalArticles, this`errorUrls, this`files)
      ensures Unvisited(universe, visitedUrls[domain]) + |dispatched| == Unvisited(universe, old(visitedUrls)[domain]) + |tasks|
    {
      var rest, seen;
      rest, seen, dispatched := Dispatch(urlQueues[domain], visitedUrls[domain], tasks, concurrentTasks, fetched, base, universe);
      Rekeyed(Domains(siteConfigs), urlQueues, visitedUrls, savedArticlesCount, errorUrls, domain, rest, seen);
      urlQueues, visitedUrls := urlQueues[domain := rest], visitedUrls[domain := seen];
    }

    /** The handling of one completed task of `crawl_site`: the URL is fetched; if a cap is
      * then reached the crawl must stop (`stop`), otherwise the page's links join the back
      * of the domain's queue. */
    method Complete(url: string, domain: string, download: string -> Option<Page>, env: Environment, hash: string,
                    ghost universe: set<string>)
      returns (stop: bool)
      requires Valid() && domain in urlQueues
      requires Closed(download, universe)
      requires forall u :: u in urlQueues[domain] ==> u in universe
      modifies this, cache
      ensures Valid()
      ensures stop <==> totalArticles >= maxArticles || savedArticlesCount[domain] >= maxPerSite
      ensures unchanged(this`visitedUrls)
      ensures forall u :: u in urlQueues[domain] ==> u in universe
      ensures forall d :: d in urlQueues && d != domain ==> urlQueues[d] == old(urlQueues)[d]
      ensures old(urlQueues)[domain] <= urlQueues[domain]
      ensures !stop ==> urlQueues == old(urlQueues)[domain := old(urlQueues)[domain] + PageLinks(url, domain, download, env.now)]
      ensures stop ==> urlQueues == old(urlQueues)
      ensures totalArticles == old(totalArticles) || (totalArticles == old(totalArticles) + 1 && old(totalArticles) < maxArticles)
      ensures Bumped(old(savedArticlesCount), savedArticlesCount, maxPerSite)
    {
      var links := FetchUrl(url, domain, download, env, hash, universe);
      stop := totalArticles >= maxArticles || savedArticlesCount[domain] >= maxPerSite;
      if !stop {
        urlQueues := urlQueues[domain := urlQueues[domain] + links];
      }
    }

    /** One turn of `crawl_site`'s loop: the URL at `i` moves from the URLs in flight to
      * the URLs fetched, and its completion is handled (`Complete`). */
    method CompleteTask(domain: string, fetched: seq<string>, tasks: seq<string>, i: int,
                        download: string -> Option<Page>, env: Environment, hash: string -> string,
                        ghost universe: set<string>, ghost start: map<string, int>)
      returns (done: seq<string>, rest: seq<string>, stop: bool)
      requires Valid() && domain in urlQueues && 0 <= i < |tasks|
      requires Capped(start, savedArticlesCount, maxPerSite)
      requires Closed(download, universe)
      requires forall u :: u in urlQueues[domain] ==> u in universe
      modifies this, cache
      ensures done == fetched + [tasks[i]] && rest == tasks[..i] + tasks[i + 1..]
      ensures UrlStore.Elements(done + rest) == UrlStore.Elements(fetched + tasks)
      ensures forall u :: u in done + rest <==> u in fetched + tasks
      ensures Once(fetched + tasks) ==> Once(done + rest)
      ensures Valid()
      ensures stop <==> totalArticles >= maxArticles || savedArticlesCount[domain] >= maxPerSite
      ensures unchanged(this`visitedUrls)
      ensures forall u :: u in urlQueues[domain] ==> u in universe
      ensures forall d :: d in urlQueues && d != domain ==> urlQueues[d] == old(urlQueues)[d]
      ensures totalArticles == old(totalArticles) || (totalArticles == old(totalArticles) + 1 && old(totalArticles) < maxArticles)
      ensures Capped(start, savedArticlesCount, maxPerSite)
    {
      var url := tasks[i];
      Completed(fetched, tasks, i);
      done, rest := fetched + [url], tasks[..i] + tasks[i + 1..];
      stop := Complete(url, domain, download, env, hash(url), universe);
      CappedStep(start, old(savedArticlesCount), savedArticlesCount, maxPerSite);
    }

    /** `crawl_site`, one completed task per step: while the domain's queue is not empty and
      * neither cap is reached, tasks are dispatched (`Refill`), then one task in flight,
      * chosen freely, completes (`Complete`); if a cap is now reached the crawl stops.
      * Returns the URLs fetched, in completion order, and those still in flight when the
      * crawl ends (marked visited but never completed). `hash` gives each URL's
      * `str(hash(url))`; `universe` bounds the URLs the site can lead to, which makes the
      * loop terminate. */
    method CrawlSite(config: SiteConfig, download: string -> Option<Page>, env: Environment, hash: string -> string,
                     ghost universe: set<string>)
      returns (fetched: seq<string>, unfinished: seq<string>)
      requires Valid() && config in siteConfigs
      requires Closed(download, universe)
      requires forall u :: u in urlQueues[config.domain] ==> u in universe
      modifies this, cache
      ensures Valid()
      ensures Once(fetched + unfinished)
      ensures forall u :: u in fetched + unfinished ==> u !in old(visitedUrls)[config.domain]
      ensures visitedUrls[config.domain] == old(visitedUrls)[config.domain] + UrlStore.Elements(fetched + unfinished)
      ensures forall d :: d in visitedUrls && d != config.domain ==> visitedUrls[d] == old(visitedUrls)[d]
      ensures |unfinished| <= concurrentTasks || unfinished == []
      ensures forall d :: d in urlQueues && d != config.domain ==> urlQueues[d] == old(urlQueues)[d]
      ensures totalArticles <= maxArticles || totalArticles == old(totalArticles)
      ensures Capped(old(savedArticlesCount), savedArticlesCount, maxPerSite)
      ensures old(totalArticles) >= maxArticles || old(savedArticlesCount)[config.domain] >= maxPerSite ==>
        fetched == [] && unfinished == []
      ensures urlQueues[config.domain] == [] || concurrentTasks <= 0
        || totalArticles >= maxArticles || savedArticlesCount[config.domain] >= maxPerSite
    {
      var domain := config.domain;
      assert domain in Domains(siteConfigs);
      fetched := [];
      var tasks: seq<string> := [];
      while urlQueues[domain] != [] && totalArticles < maxArticles && savedArticlesCount[domain] < maxPerSite
        invariant Valid()
        invariant forall u :: u in urlQueues[domain] ==> u in universe
        invariant visitedUrls[domain] == old(visitedUrls)[domain] + UrlStore.Elements(fetched + tasks)
        invariant forall d :: d in visitedUrls && d != domain ==> visitedUrls[d] == old(visitedUrls)[d]
        invariant Once(fetched + tasks)
        invariant forall u :: u in fetched + tasks ==> u !in old(visitedUrls)[domain]
        invariant |tasks| <= concurrentTasks || tasks == []
        invariant forall d :: d in urlQueues && d != domain ==> urlQueues[d] == old(urlQueues)[d]
        invariant old(totalArticles) <= totalArticles && (totalArticles <= maxArticles || totalArticles == old(totalArticles))
        invariant Capped(old(savedArticlesCount), savedArticlesCount, maxPerSite)
        invariant old(totalArticles) >= maxArticles || old(savedArticlesCount)[domain] >= maxPerSite ==>
          fetched == [] && tasks == []
        decreases Unvisited(universe, visitedUrls[domain]) + |tasks|
      {
        tasks := Refill(domain, tasks, fetched, old(visitedUrls)[domain], universe);
        if tasks == [] {
          break;
        }
        var i :| 0 <= i < |tasks|;
        var stop;
        fetched, tasks, stop := CompleteTask(domain, fetched, tasks, i, download, env, hash, universe, old(savedArticlesCount));
        if stop {
          break;
        }
      }
      unfinished := tasks;
    }
  }

  /** The URLs among the first `n` of `queue` that the dispatch loop of `crawl_site`
    * starts, in queue order: each one not in `visited` and not met earlier in the queue. */
  ghost function Unseen(queue: seq<string>, n: nat, visited: set<string>): seq<string>
    requires n <= |queue|
  {
    if n == 0 then []
    else
      var earlier := Unseen(queue, n - 1, visited);
      if queue[n - 1] in visited || queue[n - 1] in earlier then earlier else earlier + [queue[n - 1]]
  }

  /** The URLs started are exactly the unvisited URLs of the queue's first `n`, each once. */
  lemma {:induction false} UnseenExactly(queue: seq<string>, n: nat, visited: set<string>)
    requires n <= |queue|
    ensures forall u :: u in Unseen(queue, n, visited) <==> u in queue[..n] && u !in visited
    ensures Once(Unseen(queue, n, visited)) && |Unseen(queue, n, visited)| <= n
  {
    if n > 0 {
      UnseenExactly(queue, n - 1, visited);
      assert queue[..n] == queue[..n - 1] + [queue[n - 1]];
    }
  }

  /** The inner loop of `crawl_site`: URLs are taken from the front of the domain's queue,
    * and each one not yet visited is marked visited and is put in flight, until
    * `limit` tasks are in flight or the queue is empty. Returns the rest of the queue, the
    * new visited set and the URLs in flight. `fetched` are the URLs already fetched and
    * `universe` bounds the queue; both only serve to carry the crawl's invariants. */
  method Dispatch(queue: seq<string>, visited: set<string>, tasks: seq<string>, limit: int,
                  ghost fetched: seq<string>, ghost base: set<string>, ghost universe: set<string>)
    returns (rest: seq<string>, seen: set<string>, dispatched: seq<string>)
    requires forall u :: u in queue ==> u in universe
    requires Once(fetched + tasks) && visited == base + UrlStore.Elements(fetched + tasks)
    requires forall u :: u in fetched + tasks ==> u !in base
    ensures exists n :: 0 <= n <= |queue| && rest == queue[n..] && dispatched == tasks + Unseen(queue, n, visited)
    ensures seen == visited + UrlStore.Elements(dispatched[|tasks|..])
    ensures forall u :: u in dispatched[|tasks|..] ==> u !in visited
    ensures |dispatched| <= limit || dispatched == tasks
    ensures |dispatched| >= limit || rest == []
    ensures Once(fetched + dispatched) && seen == base + UrlStore.Elements(fetched + dispatched)
    ensures forall u :: u in fetched + dispatched ==> u !in base
    ensures forall u :: u in rest ==> u in universe
    ensures Unvisited(universe, seen) + |dispatched| == Unvisited(universe, visited) + |tasks|
  {
    rest, seen := queue, visited;
    var added := [];
    ghost var n := 0;
    while |tasks| + |added| < limit && rest != []
      invariant 0 <= n <= |queue| && rest == queue[n..]
      invariant added == Unseen(queue, n, visited)
      invariant seen == visited + UrlStore.Elements(added)
      invariant |tasks| + |added| <= limit || added == []
      invariant Unvisited(universe, seen) + |added| == Unvisited(universe, visited)
      decreases |rest|
    {
      var url := rest[0];
      DispatchStep(queue, n, visited, added, seen, universe);
      rest := rest[1..];
      if url !in seen {
        seen := seen + {url};
        added := added + [url];
      }
      n := n + 1;
    }
    dispatched := tasks + added;
    assert dispatched[|tasks|..] == added;
    Started(queue, n, visited, base, fetched, tasks);
  }

  /** The URLs a dispatch loop starts were not visited; joined to the URLs fetched and in
    * flight, which are the visited URLs beyond `base`, they still hold every URL at most
    * once and are the visited URLs beyond `base` once the new ones are marked. */
  lemma Started(queue: seq<string>, n: nat, visited: set<string>, base: set<string>, fetched: seq<string>,
                tasks: seq<string>)
    requires n <= |queue|
    requires Once(fetched + tasks) && visited == base + UrlStore.Elements(fetched + tasks)
    requires forall u :: u in fetched + tasks ==> u !in base
    ensures Once(fetched + (tasks + Unseen(queue, n, visited)))
    ensures visited + UrlStore.Elements(Unseen(queue, n, visited))
      == base + UrlStore.Elements(fetched + (tasks + Unseen(queue, n, visited)))
    ensures forall u :: u in Unseen(queue, n, visited) ==> u !in visited
    ensures forall u :: u in fetched + (tasks + Unseen(queue, n, visited)) ==> u !in base
  {
    var added := Unseen(queue, n, visited);
    UnseenExactly(queue, n, visited);
    forall u | u in added
      ensures u !in fetched + tasks
    {
      assert u in fetched + tasks ==> u in UrlStore.Elements(fetched + tasks);
    }
    Joined(fetched + tasks, added);
    assert fetched + (tasks + added) == (fetched + tasks) + added;
  }

  /** One turn of the dispatch loop: the next URL of the queue is started exactly when it
    * is not yet visited, and then it leaves the unvisited part of the universe. */
  lemma DispatchStep(queue: seq<string>, n: nat, visited: set<string>, added: seq<string>, seen: set<string>,
                     universe: set<string>)
    requires n < |queue| && queue[n] in universe
    requires added == Unseen(queue, n, visited) && seen == visited + UrlStore.Elements(added)
    ensures queue[n] in seen ==> Unseen(queue, n + 1, visited) == added
    ensures queue[n] !in seen ==>
      && Unseen(queue, n + 1, visited) == added + [queue[n]]
      && seen + {queue[n]} == visited + UrlStore.Elements(added + [queue[n]])
      && Unvisited(universe, seen + {queue[n]}) == Unvisited(universe, seen) - 1
  {
    if queue[n] !in seen {
      Dispatched(universe, seen, queue[n]);
      assert UrlStore.Elements(added + [queue[n]]) == UrlStore.Elements(added) + {queue[n]};
    }
  }

  /** How many URLs of the universe are not yet visited. */
  ghost function Unvisited(universe: set<string>, visited: set<string>): nat
  {
    |universe - visited|
  }

  /** Dispatching an unvisited URL of the universe takes one URL out of the unvisited part. */
  lemma Dispatched(universe: set<string>, visited: set<string>, url: string)
    requires url in universe && url !in visited
    ensures Unvisited(universe, visited + {url}) == Unvisited(universe, visited) - 1
  {
    assert universe - visited == (universe - (visited + {url})) + {url};
  }

  /** Two lists, each holding every URL at most once and sharing none, joined hold every
    * URL at most once, and their URLs together. */
  lemma Joined(s: seq<string>, t: seq<string>)
    requires Once(s) && Once(t)
    requires forall u :: u in t ==> u !in s
    ensures Once(s + t)
    ensures UrlStore.Elements(s + t) == UrlStore.Elements(s) + UrlStore.Elements(t)
  {
    forall u
      ensures multiset(s + t)[u] <= 1
    {
      assert multiset(s + t)[u] == multiset(s)[u] + multiset(t)[u];
      if u in t {
        assert u !in s;
      }
    }
  }

  /** Moving a completed task to the fetched list changes neither the URLs nor their counts. */
  lemma Completed(fetched: seq<string>, tasks: seq<string>, i: int)
    requires 0 <= i < |tasks|
    ensures multiset((fetched + [tasks[i]]) + (tasks[..i] + tasks[i + 1..])) == multiset(fetched + tasks)
    ensures UrlStore.Elements((fetched + [tasks[i]]) + (tasks[..i] + tasks[i + 1..])) == UrlStore.Elements(fetched + tasks)
    ensures forall u :: u in (fetched + [tasks[i]]) + (tasks[..i] + tasks[i + 1..]) <==> u in fetched + tasks
    ensures Once(fetched + tasks) ==> Once((fetched + [tasks[i]]) + (tasks[..i] + tasks[i + 1..]))
  {
    assert tasks == tasks[..i] + [tasks[i]] + tasks[i + 1..];
    assert multiset((fetched + [tasks[i]]) + (tasks[..i] + tasks[i + 1..])) == multiset(fetched + tasks);
    assert forall x :: x in (fetched + [tasks[i]]) + (tasks[..i] + tasks[i + 1..]) <==> x in multiset(fetched + tasks);
  }

  /** Every count grew by at most one, and only from below `cap`. */
  ghost predicate Bumped(before: map<string, int>, after: map<string, int>, cap: int)
  {
    forall d :: d in after ==> d in before && (after[d] == before[d] || (after[d] == before[d] + 1 && before[d] < cap))
  }

  /** No count fell below its value at the start, nor rose past `cap` unless it started there. */
  ghost predicate Capped(start: map<string, int>, now: map<string, int>, cap: int)
  {
    forall d :: d in now ==> d in start && start[d] <= now[d] && (now[d] <= cap || now[d] == start[d])
  }

  /** Counts left as they were are bumped. */
  lemma BumpedNone(counts: map<string, int>, cap: int)
    ensures Bumped(counts, counts, cap)
  {
  }

  /** Raising one count by one from below the cap bumps the counts. */
  lemma BumpedOne(counts: map<string, int>, d: string, cap: int)
    requires d in counts && counts[d] < cap
    ensures Bumped(counts, counts[d := counts[d] + 1], cap)
  {
  }

  /** Counts capped since the start and then bumped stay capped. */
  lemma CappedStep(start: map<string, int>, mid: map<string, int>, now: map<string, int>, cap: int)
    requires Capped(start, mid, cap) && Bumped(mid, now, cap)
    ensures Capped(start, now, cap)
  {
    forall d | d in now
      ensures d in start && start[d] <= now[d] && (now[d] <= cap || now[d] == start[d])
    {
      assert d in mid;
    }
  }
}
