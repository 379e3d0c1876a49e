/**
 * The URL caches of `CacheManager` and `URLCacheManager`: a dictionary from a
 * domain to the set of its URLs, kept on disk as a JSON object of URL lists.
 */
module UrlStore {
  /** The cache file: absent, unreadable (or not a dictionary of lists), or a dictionary of URL lists. */
  datatype StoredFile = Missing | Unreadable | Stored(lists: map<string, seq<string>>)

  /** `set(urls)`: the distinct URLs of a stored list. */
  function Elements(l: seq<string>): set<string>
  {
    set x | x in l
  }

  /** Loading: every stored list becomes a set; a missing or unreadable file leaves the cache empty. */
  function Loaded(file: StoredFile): (m: map<string, set<string>>)
    ensures file.Stored? ==> m.Keys == file.lists.Keys
    ensures file.Stored? ==> forall d, u :: d in m ==> (u in m[d] <==> u in file.lists[d])
    ensures !file.Stored? ==> m == map[]
  {
    if file.Stored? then map d | d in file.lists :: Elements(file.lists[d]) else map[]
  }

  /** `cache.get(domain, set())`. */
  function UrlsOf(m: map<string, set<string>>, domain: string): set<string>
  {
    if domain in m then m[domain] else {}
  }

  /** `if domain not in cache: cache[domain] = set()`, then `cache[domain].add(url)`. */
  function Insert(m: map<string, set<string>>, domain: string, url: string): (r: map<string, set<string>>)
    ensures r.Keys == m.Keys + {domain}
    ensures url in r[domain] && r[domain] == UrlsOf(m, domain) + {url}
    ensures forall d :: d in m && d != domain ==> r[d] == m[d]
  {
    m[domain := UrlsOf(m, domain) + {url}]
  }

  /** The (domain, URL) entries of the cache. */
  function Entries(m: map<string, set<string>>): set<(string, string)>
  {
    set d, u | d in m && u in m[d] :: (d, u)
  }

  /** `sum(len(urls) for urls in cache.values())`: the number of entries. */
  function Total(m: map<string, set<string>>): nat
  {
    |Entries(m)|
  }

  /** Inserting a URL adds one entry, unless the domain already had it. */
  lemma TotalInsert(m: map<string, set<string>>, domain: string, url: string)
    ensures Total(Insert(m, domain, url)) == Total(m) + (if url in UrlsOf(m, domain) then 0 else 1)
  {
    EntriesInsert(m, domain, url);
    if url in UrlsOf(m, domain) {
      assert (domain, url) in Entries(m);
      assert Entries(m) + {(domain, url)} == Entries(m);
    }
  }

  /** Inserting adds exactly the one (domain, URL) entry. */
  lemma EntriesInsert(m: map<string, set<string>>, domain: string, url: string)
    ensures Entries(Insert(m, domain, url)) == Entries(m) + {(domain, url)}
  {
    var r := Insert(m, domain, url);
    forall p | p in Entries(r)
      ensures p in Entries(m) + {(domain, url)}
    {
      var (d, u) := p;
      assert d in r && u in r[d];
      if d != domain || u != url {
        assert d in m && u in m[d];
      }
    }
    forall p | p in Entries(m)
      ensures p in Entries(r)
    {
      var (d, u) := p;
      assert d in r && u in r[d];
    }
  }

  /** Inserting is idempotent: a second insert of the same URL changes nothing. */
  lemma InsertIdempotent(m: map<string, set<string>>, domain: string, url: string)
    ensures Insert(Insert(m, domain, url), domain, url) == Insert(m, domain, url)
  {
  }

  /** `list(urls)`: the URLs of a set, each once, in some order. */
  method ListOf(s: set<string>) returns (l: seq<string>)
    ensures Elements(l) == s
    ensures forall i, j :: 0 <= i < j < |l| ==> l[i] != l[j]
  {
    l := [];
    var rest := s;
    while rest != {}
      invariant rest <= s
      invariant Elements(l) == s - rest
      invariant forall i, j :: 0 <= i < j < |l| ==> l[i] != l[j]
      decreases rest
    {
      var x :| x in rest;
      assert Elements(l + [x]) == Elements(l) + {x};
      l := l + [x];
      rest := rest - {x};
    }
  }

  /** Saving: `{domain: list(urls) for domain, urls in cache.items()}`; loading the
    * file back gives the same cache. */
  method Dump(m: map<string, set<string>>) returns (lists: map<string, seq<string>>)
    ensures Loaded(Stored(lists)) == m
  {
    lists := map[];
    var rest := m.Keys;
    while rest != {}
      invariant rest <= m.Keys
      invariant lists.Keys == m.Keys - rest
      invariant forall d :: d in lists ==> Elements(lists[d]) == m[d]
      decreases rest
    {
      var d :| d in rest;
      var l := ListOf(m[d]);
      lists := lists[d := l];
      rest := rest - {d};
    }
  }
}
