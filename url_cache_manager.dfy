/**
 * `URLCacheManager`: the per-domain set of crawled paper URLs, written back to
 * its JSON file on every insert.
 */
module UrlCacheManager {
  import opened UrlStore

  /** `has_url`. */
  predicate Has(m: map<string, set<string>>, domain: string, url: string)
  {
    domain in m && url in m[domain]
  }

  class UrlCache {
    /** `cache`. */
    var cache: map<string, set<string>>
    /** The file `cache_file`. */
    var file: StoredFile

    /** `__init__` and `_load_cache`: a missing or unreadable file gives an empty cache. */
    constructor (file: StoredFile)
      ensures cache == Loaded(file) && this.file == file
    {
      cache := Loaded(file);
      this.file := file;
    }

    /** `has_url`. */
    function HasUrl(domain: string, url: string): (r: bool)
      reads this
      ensures r <==> Has(cache, domain, url)
    {
      domain in cache && url in cache[domain]
    }

    /** `save_cache`. */
    method SaveCache()
      modifies this
      ensures cache == old(cache)
      ensures Loaded(file) == cache
    {
      var lists := Dump(cache);
      file := Stored(lists);
    }

    /** `add_url`: the URL is recorded under its domain and the file rewritten,
      * so a manager loading the file afterwards knows the URL too. */
    method AddUrl(domain: string, url: string)
      modifies this
      ensures cache == Insert(old(cache), domain, url)
      ensures Loaded(file) == cache
    {
      if domain !in cache {
        cache := cache[domain := {}];
      }
      cache := cache[domain := cache[domain] + {url}];
      SaveCache();
    }
  }

  /** After `add_url(d, u)`, `has_url(d, u)` holds and every other answer is as before. */
  lemma AddThenHas(m: map<string, set<string>>, domain: string, url: string, d: string, u: string)
    ensures Has(Insert(m, domain, url), domain, url)
    ensures d != domain || u != url ==> (Has(Insert(m, domain, url), d, u) <==> Has(m, d, u))
  {
  }

  /** `has_url` never holds on a cache loaded from a missing or unreadable file. */
  lemma NothingWithoutFile(file: StoredFile, domain: string, url: string)
    requires !file.Stored?
    ensures !Has(Loaded(file), domain, url)
  {
  }
}
