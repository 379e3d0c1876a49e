/**
 * `Downloader`: the HTTP GET with retries that the crawlers fetch pages with.
 * A URL must have a scheme and a host, and the host must resolve (resolutions
 * are remembered); then up to `retry_times` attempts are made, each on a fresh
 * session that is closed afterwards, with an exponential backoff between
 * attempts. The first response with a 2xx status is returned; when every
 * attempt fails, the error of the last one is raised.
 *
 * `urlparse`, `socket.gethostbyname` and the outcome of each request are
 * parameters; the random delays are left out, and the sleeps are recorded by
 * their deterministic part.
 */
module Downloader {
  import opened Wrappers

  /** The parts of `urlparse(url)` the downloader reads. */
  datatype UrlParts = UrlParts(scheme: string, netloc: string)

  /** A response: its status code and body. */
  datatype Response = Response(status: int, text: string)

  /** What one `session.get` does: returns a response, or raises one of the
    * exceptions `get` tells apart (`Unexpected` is any other exception). */
  datatype Attempt =
    | Responded(response: Response)
    | TimedOut          // httpx.TimeoutException
    | TransportFailed   // httpx.ReadError, httpx.WriteError
    | ProtocolFailed    // anyio.ClosedResourceError, httpx.LocalProtocolError
    | ConnectFailed     // httpx.ConnectError
    | Unexpected

  /** Why a `NetworkError` was raised. */
  datatype Reason = InvalidUrl | DnsFailure | Timeout | HttpStatus(status: int) | Transport | Protocol | Connect

  /** The exceptions `get` raises. */
  datatype Failure = NetworkError(reason: Reason) | DownloaderError

  /** What `get` does: return a response or `None`, or raise. */
  datatype GetResult = Returned(response: Option<Response>) | Raised(failure: Failure)

  /** `_validate_url`: both the scheme and the host are present; a URL `urlparse`
    * rejects is invalid. */
  function ValidateUrl(url: string, urlparse: string -> Option<UrlParts>): (r: bool)
    ensures r <==> urlparse(url).Some? && urlparse(url).value.scheme != "" && urlparse(url).value.netloc != ""
  {
    match urlparse(url)
    case None => false
    case Some(p) => p.scheme != "" && p.netloc != ""
  }

  /** An attempt that returns: `raise_for_status` lets only a 2xx status through. */
  predicate Succeeded(a: Attempt)
  {
    a.Responded? && 200 <= a.response.status < 300
  }

  /** The exception a failed attempt leaves in `last_error`. */
  function FailureOf(a: Attempt): (f: Failure)
    requires !Succeeded(a)
    ensures f.DownloaderError? <==> a.Unexpected?
  {
    match a
    case Responded(r) => NetworkError(HttpStatus(r.status))
    case TimedOut => NetworkError(Timeout)
    case TransportFailed => NetworkError(Transport)
    case ProtocolFailed => NetworkError(Protocol)
    case ConnectFailed => NetworkError(Connect)
    case Unexpected => DownloaderError
  }

  /** The first of the attempts `0 .. n-1` that succeeds, if any does. */
  function FirstSuccess(outcome: nat -> Attempt, n: nat): (r: Option<nat>)
    ensures r.Some? ==> r.value < n && Succeeded(outcome(r.value))
                        && forall k :: 0 <= k < r.value ==> !Succeeded(outcome(k))
    ensures r.None? ==> forall k :: 0 <= k < n ==> !Succeeded(outcome(k))
  {
    if n == 0 then None
    else
      var earlier := FirstSuccess(outcome, n - 1);
      if earlier.Some? then earlier
      else if Succeeded(outcome(n - 1)) then Some(n - 1)
      else None
  }

  /** When no attempt below `n` succeeds, there is no first success. */
  lemma NoSuccess(outcome: nat -> Attempt, n: nat)
    requires forall k :: 0 <= k < n ==> !Succeeded(outcome(k))
    ensures FirstSuccess(outcome, n).None?
  {
  }

  /** An attempt that succeeds after failed ones is the first success among any more attempts. */
  lemma {:induction false} FirstAt(outcome: nat -> Attempt, k: nat, n: nat)
    requires k < n && Succeeded(outcome(k))
    requires forall j :: 0 <= j < k ==> !Succeeded(outcome(j))
    ensures FirstSuccess(outcome, n) == Some(k)
  {
    if n > k + 1 {
      FirstAt(outcome, k, n - 1);
    } else {
      NoSuccess(outcome, k);
    }
  }

  function Pow2(k: nat): (r: nat)
    ensures r >= 1
  {
    if k == 0 then 1 else 2 * Pow2(k - 1)
  }

  /** The deterministic parts of the first `count` backoff sleeps: the interval doubled after each attempt. */
  function Backoffs(interval: int, count: nat): (s: seq<int>)
    ensures |s| == count
    ensures forall k :: 0 <= k < count ==> s[k] == interval * Pow2(k)
  {
    seq(count, k requires 0 <= k => interval * Pow2(k))
  }

  /** One more backoff. */
  lemma BackoffsNext(interval: int, count: nat)
    ensures Backoffs(interval, count) + [interval * Pow2(count)] == Backoffs(interval, count + 1)
  {
    assert forall k :: 0 <= k <= count ==> (Backoffs(interval, count) + [interval * Pow2(count)])[k] == Backoffs(interval, count + 1)[k];
  }

  function Sum(s: seq<int>): int
  {
    if s == [] then 0 else Sum(s[..|s| - 1]) + s[|s| - 1]
  }

  /** Each backoff is twice the one before. */
  lemma BackoffsDouble(interval: int, count: nat)
    ensures forall k :: 0 < k < count ==> Backoffs(interval, count)[k] == 2 * Backoffs(interval, count)[k - 1]
  {
    forall k | 0 < k < count
      ensures Backoffs(interval, count)[k] == 2 * Backoffs(interval, count)[k - 1]
    {
      assert Pow2(k) == 2 * Pow2(k - 1);
      assert interval * (2 * Pow2(k - 1)) == 2 * (interval * Pow2(k - 1));
    }
  }

  /** All the backoffs together wait `interval * (2^count - 1)`. */
  lemma {:induction false} BackoffsTotal(interval: int, count: nat)
    ensures Sum(Backoffs(interval, count)) == interval * (Pow2(count) - 1)
  {
    if count > 0 {
      var s := Backoffs(interval, count);
      BackoffsTotal(interval, count - 1);
      assert s[..count - 1] == Backoffs(interval, count - 1);
      assert s[count - 1] == interval * Pow2(count - 1);
      assert Pow2(count) == 2 * Pow2(count - 1);
      assert interval * (Pow2(count - 1) - 1) + interval * Pow2(count - 1) == interval * (2 * Pow2(count - 1) - 1);
    }
  }

  /** `get` as a whole, from the attempts' outcomes: the first 2xx response,
    * else the last attempt's error, else (no attempt at all) `None`; and how
    * many requests were sent. */
  function Expected(retryTimes: int, outcome: nat -> Attempt): (r: (GetResult, nat))
    ensures retryTimes <= 0 ==> r == (Returned(None), 0)
    ensures r.0.Returned? && r.0.response.Some? ==>
              0 < r.1 <= retryTimes && Succeeded(outcome(r.1 - 1)) && r.0.response.value == outcome(r.1 - 1).response
    ensures r.0.Raised? ==>
              r.1 == retryTimes && !Succeeded(outcome(r.1 - 1)) && r.0.failure == FailureOf(outcome(r.1 - 1))
    ensures forall k :: 0 <= k < r.1 - 1 ==> !Succeeded(outcome(k))
  {
    if retryTimes <= 0 then (Returned(None), 0)
    else match FirstSuccess(outcome, retryTimes)
      case Some(k) => (Returned(Some(outcome(k).response)), k + 1)
      case None => (Raised(FailureOf(outcome(retryTimes - 1))), retryTimes)
  }

  /** `get` returns a response exactly when one of its attempts succeeds, and
    * raises exactly when there was at least one attempt and none succeeded. */
  lemma ReturnsIffSucceeded(retryTimes: int, outcome: nat -> Attempt)
    ensures Expected(retryTimes, outcome).0 == Returned(None) <==> retryTimes <= 0
    ensures Expected(retryTimes, outcome).0.Raised? <==>
              retryTimes > 0 && forall k :: 0 <= k < retryTimes ==> !Succeeded(outcome(k))
  {
    if retryTimes > 0 && Expected(retryTimes, outcome).0.Raised? {
      assert FirstSuccess(outcome, retryTimes).None?;
    }
  }

  /** The address `_get_ip_from_domain` gives: the remembered one, else a fresh resolution. */
  function Address(cache: map<string, string>, domain: string, resolve: string -> Option<string>): Option<string>
  {
    if domain in cache then Some(cache[domain]) else resolve(domain)
  }

  /** `get` goes on to its attempts only with a non-empty address. */
  predicate Reachable(cache: map<string, string>, domain: string, resolve: string -> Option<string>)
  {
    Address(cache, domain, resolve).Some? && Address(cache, domain, resolve).value != ""
  }

  /** The DNS cache after a lookup: a fresh successful resolution is added. */
  function Remembered(cache: map<string, string>, domain: string, resolve: string -> Option<string>): map<string, string>
  {
    if domain !in cache && resolve(domain).Some? then cache[domain := resolve(domain).value] else cache
  }

  /** Once a host resolves, its address is remembered: later lookups give it
    * whatever the resolver would now say. A failed resolution is not
    * remembered, so the next lookup asks the resolver again. */
  lemma Memoised(cache: map<string, string>, domain: string, resolve: string -> Option<string>,
                 later: string -> Option<string>)
    ensures Address(cache, domain, resolve).Some? ==>
              Address(Remembered(cache, domain, resolve), domain, later) == Address(cache, domain, resolve)
    ensures Address(cache, domain, resolve).None? ==>
              Remembered(cache, domain, resolve) == cache && Address(cache, domain, later) == later(domain)
    ensures forall d :: d in cache ==> d in Remembered(cache, domain, resolve) && Remembered(cache, domain, resolve)[d] == cache[d]
  {
  }

  class Downloader {
    /** `retry_times`. */
    const retryTimes: int
    /** `retry_interval`, in seconds. */
    const retryInterval: int
    /** `dns_cache`: host to address. */
    var dnsCache: map<string, string>
    /** Whether `session` holds an open client. */
    var session: bool
    /** The deterministic parts of the backoff sleeps so far, in order. */
    var sleeps: seq<int>
    /** The requests sent so far. */
    var requests: nat

    /** `Downloader.__init__`: no session and an empty DNS cache. */
    constructor (retryTimes: int, retryInterval: int)
      ensures this.retryTimes == retryTimes && this.retryInterval == retryInterval
      ensures dnsCache == map[] && !session && sleeps == [] && requests == 0
    {
      this.retryTimes := retryTimes;
      this.retryInterval := retryInterval;
      dnsCache := map[];
      session := false;
      sleeps := [];
      requests := 0;
    }

    /** `_get_ip_from_domain`: a remembered address, else a fresh resolution,
      * remembered when it succeeds; a failed resolution is `None` and is not
      * remembered. */
    method GetIpFromDomain(domain: string, resolve: string -> Option<string>) returns (ip: Option<string>)
      modifies this
      ensures ip == Address(old(dnsCache), domain, resolve)
      ensures dnsCache == Remembered(old(dnsCache), domain, resolve)
      ensures unchanged(`session, `sleeps, `requests)
    {
      if domain in dnsCache {
        return Some(dnsCache[domain]);
      }
      ip := resolve(domain);
      if ip.Some? {
        dnsCache := dnsCache[domain := ip.value];
      }
    }

    /** `get`: a malformed URL or a host that does not resolve raises
      * `NetworkError` before any request; otherwise the outcome is `Expected`,
      * one fresh session is opened and closed per attempt, and a backoff
      * follows every attempt but the last. */
    method Get(url: string, urlparse: string -> Option<UrlParts>, resolve: string -> Option<string>,
               outcome: nat -> Attempt) returns (result: GetResult)
      modifies this
      ensures !ValidateUrl(url, urlparse) ==> result == Raised(NetworkError(InvalidUrl)) && unchanged(this)
      ensures ValidateUrl(url, urlparse) && !Reachable(old(dnsCache), urlparse(url).value.netloc, resolve) ==>
                result == Raised(NetworkError(DnsFailure))
                && requests == old(requests) && sleeps == old(sleeps) && session == old(session)
      ensures ValidateUrl(url, urlparse) && Reachable(old(dnsCache), urlparse(url).value.netloc, resolve) ==>
                (result, requests - old(requests)) == Expected(retryTimes, outcome)
                && (requests == old(requests) ==> session == old(session) && sleeps == old(sleeps))
                && (requests > old(requests) ==> !session && sleeps == old(sleeps) + Backoffs(retryInterval, requests - old(requests) - 1))
      ensures ValidateUrl(url, urlparse) ==> dnsCache == Remembered(old(dnsCache), urlparse(url).value.netloc, resolve)
    {
      if !ValidateUrl(url, urlparse) {
        return Raised(NetworkError(InvalidUrl));
      }
      var domain := urlparse(url).value.netloc;
      var ip := GetIpFromDomain(domain, resolve);
      if ip.None? || ip.value == "" {
        return Raised(NetworkError(DnsFailure));
      }
      result := Retry(outcome);
    }

    /** The attempts of `get`, once the URL is valid and its host resolved. */
    method Retry(outcome: nat -> Attempt) returns (result: GetResult)
      modifies this
      ensures (result, requests - old(requests)) == Expected(retryTimes, outcome)
      ensures requests == old(requests) ==> session == old(session) && sleeps == old(sleeps)
      ensures requests > old(requests) ==> !session && sleeps == old(sleeps) + Backoffs(retryInterval, requests - old(requests) - 1)
      ensures dnsCache == old(dnsCache)
    {
      var lastError: Option<Failure> := None;
      var attempt := 0;
      while attempt < retryTimes
        invariant 0 <= attempt && (attempt <= retryTimes || attempt == 0)
        invariant requests == old(requests) + attempt
        invariant forall k :: 0 <= k < attempt ==> !Succeeded(outcome(k))
        invariant attempt == 0 ==> lastError.None?
        invariant attempt > 0 ==> lastError == Some(FailureOf(outcome(attempt - 1))) && !session
        invariant attempt == 0 ==> session == old(session)
        invariant dnsCache == old(dnsCache)
        invariant sleeps == old(sleeps) + Backoffs(retryInterval, if attempt == retryTimes && attempt > 0 then attempt - 1 else attempt)
      {
        if session {
          session := false;
        }
        session := true;
        var sent := outcome(attempt);
        requests := requests + 1;
        session := false;
        if Succeeded(sent) {
          FirstAt(outcome, attempt, retryTimes);
          return Returned(Some(sent.response));
        }
        lastError := Some(FailureOf(sent));
        if attempt < retryTimes - 1 {
          BackoffsNext(retryInterval, attempt);
          sleeps := sleeps + [retryInterval * Pow2(attempt)];
        }
        attempt := attempt + 1;
      }
      if lastError.Some? {
        assert attempt == retryTimes;
        NoSuccess(outcome, attempt);
        return Raised(lastError.value);
      }
      return Returned(None);
    }
  }
}
