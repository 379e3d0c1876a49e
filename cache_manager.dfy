/**
 * `CacheManager`: the per-domain set of saved article URLs of the news crawler,
 * flushed to its JSON file every hundredth URL.
 */
module CacheManager {
  import opened Wrappers
  import opened UrlStore

  /** `init_domain`: an empty set for a domain that has none; the rest is kept. */
  function WithDomain(m: map<string, set<string>>, domain: string): (r: map<string, set<string>>)
    ensures r.Keys == m.Keys + {domain}
    ensures domain in m ==> r == m
    ensures domain !in m ==> r[domain] == {}
    ensures forall d :: d in m ==> r[d] == m[d]
  {
    if domain in m then m else m[domain := {}]
  }

  /** The URLs a cache holds are exactly those of its entries. */
  lemma CachedAsEntry(m: map<string, set<string>>, domain: string, url: string)
    ensures url in UrlsOf(m, domain) <==> (domain, url) in Entries(m)
  {
    if url in UrlsOf(m, domain) {
      assert (domain, url) in Entries(m);
    }
  }

  class Cache {
    /** `url_cache`. */
    var urlCache: map<string, set<string>>
    /** The cache file `url_cache.json`. */
    var file: StoredFile

    /** `__init__` and `_load_cache`: the cache is what the file holds, and empty
      * when there is no file or it cannot be read. */
    constructor (file: StoredFile)
      ensures urlCache == Loaded(file) && this.file == file
    {
      urlCache := Loaded(file);
      this.file := file;
    }

    /** `init_domain`. */
    method InitDomain(domain: string)
      modifies this
      ensures urlCache == WithDomain(old(urlCache), domain)
      ensures file == old(file)
    {
      if domain !in urlCache {
        urlCache := urlCache[domain := {}];
      }
    }

    /** `is_cached`. */
    function IsCached(url: string, domain: string): (r: bool)
      reads this
      ensures r <==> domain in urlCache && url in urlCache[domain]
    {
      url in UrlsOf(urlCache, domain)
    }

    /** `_save_cache`: the file then loads back as the cache. */
    method SaveCache()
      modifies this
      ensures urlCache == old(urlCache)
      ensures Loaded(file) == urlCache
    {
      var lists := Dump(urlCache);
      file := Stored(lists);
    }

    /** `add_to_cache`: the URL is cached under its domain, and the file is
      * rewritten exactly when the number of cached URLs is then a multiple of 100. */
    method AddToCache(url: string, domain: string)
      modifies this
      ensures urlCache == Insert(old(urlCache), domain, url)
      ensures Total(urlCache) % 100 == 0 ==> Loaded(file) == urlCache
      ensures Total(urlCache) % 100 != 0 ==> file == old(file)
    {
      if domain !in urlCache {
        urlCache := urlCache[domain := {}];
      }
      urlCache := urlCache[domain := urlCache[domain] + {url}];
      if Total(urlCache) % 100 == 0 {
        SaveCache();
      }
    }

    /** `get_cache_size`: one domain's count, or the total when no domain is given. */
    function CacheSize(domain: Option<string>): (n: nat)
      reads this
      ensures domain.Some? && domain.value != "" ==> n == |UrlsOf(urlCache, domain.value)|
      ensures domain.None? || domain.value == "" ==> n == Total(urlCache)
    {
      if domain.Some? && domain.value != "" then |UrlsOf(urlCache, domain.value)| else Total(urlCache)
    }
  }

  /** After `add_to_cache(u, d)`, `is_cached(u, d)` holds, the count grows by one
    * exactly for a new URL, and no other domain changes. */
  lemma AddThenCached(m: map<string, set<string>>, url: string, domain: string)
    ensures var r := Insert(m, domain, url);
      url in UrlsOf(r, domain)
      && Total(r) == Total(m) + (if url in UrlsOf(m, domain) then 0 else 1)
      && forall d :: d != domain ==> UrlsOf(r, d) == UrlsOf(m, d)
  {
    TotalInsert(m, domain, url);
  }

  /** `init_domain` is idempotent and never drops a cached URL. */
  lemma InitDomainKeeps(m: map<string, set<string>>, domain: string, url: string)
    ensures WithDomain(WithDomain(m, domain), domain) == WithDomain(m, domain)
    ensures url in UrlsOf(WithDomain(m, domain), domain) <==> url in UrlsOf(m, domain)
  {
  }

  /** A domain never initialised nor added to has nothing cached. */
  lemma UnknownDomainNotCached(m: map<string, set<string>>, domain: string, url: string)
    requires domain !in m
    ensures url !in UrlsOf(m, domain) && (domain, url) !in Entries(m)
  {
    CachedAsEntry(m, domain, url);
  }
}
