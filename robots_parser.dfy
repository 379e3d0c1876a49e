/**
 * `RobotsParser`: the robots.txt gate. Domains whose robots.txt could not be
 * fetched are remembered, with the time of the failure, for seven days and are
 * then allowed everything; a fetched robots.txt is consulted through a matcher
 * for RFC 9309 (the Robots Exclusion Protocol) that stays uninterpreted.
 */
module RobotsParser {
  import opened Wrappers

  /** `cache_ttl`, `timedelta(days=7)`, in seconds. */
  const Ttl: int := 7 * 86400

  /** A robots.txt as handed to `RobotFileParser.parse`: its lines. */
  datatype Rules = Rules(lines: seq<string>)

  /** A recorded failure time: seconds since the epoch, or a value `fromtimestamp` rejects. */
  datatype Stamp = At(seconds: int) | BadStamp

  /** `robots_cache.json`: absent, unreadable, or its (domain, timestamp) pairs in file order. */
  datatype RobotsFile = Missing | Unreadable | Records(entries: seq<(string, Stamp)>)

  /** The answer to `GET https://<domain>/robots.txt`: a status and the body's lines, or an exception. */
  datatype Response = Answer(status: int, body: seq<string>) | Raised

  /** The number of pairs `_load_failed_domains` gets through: all of them, or up to the first bad timestamp. */
  function Readable(entries: seq<(string, Stamp)>): (n: nat)
    ensures n <= |entries|
    ensures forall i :: 0 <= i < n ==> entries[i].1.At?
    ensures n < |entries| ==> entries[n].1.BadStamp?
  {
    if entries == [] || entries[0].1.BadStamp? then 0 else 1 + Readable(entries[1..])
  }

  /** A pair read before the first bad timestamp whose failure is less than `Ttl` old. */
  predicate FreshAt(entries: seq<(string, Stamp)>, i: int, now: int)
  {
    0 <= i < Readable(entries) && now - entries[i].1.seconds < Ttl
  }

  /** The domains `_load_failed_domains` adds. */
  function Fresh(entries: seq<(string, Stamp)>, now: int): set<string>
  {
    set i | 0 <= i < |entries| && FreshAt(entries, i, now) :: entries[i].0
  }

  /** The domains a cache file names. */
  function Names(entries: seq<(string, Stamp)>): set<string>
  {
    set k | 0 <= k < |entries| :: entries[k].0
  }

  lemma NamesAppend(entries: seq<(string, Stamp)>, e: (string, Stamp))
    ensures Names(entries + [e]) == Names(entries) + {e.0}
  {
    var all := entries + [e];
    assert all[|entries|].0 == e.0;
    forall k | 0 <= k < |entries|
      ensures all[k].0 == entries[k].0
    {
    }
  }

  /** The stamp an intended save gives a failed domain: the recorded time of its
    * failure when one was loaded, otherwise the current time. */
  function KeptStamp(since: map<string, int>, domain: string, now: int): int
  {
    if domain in since then since[domain] else now
  }

  class Robots {
    /** `robots_rules`. */
    var robotsRules: map<string, Rules>
    /** `failed_domains`. */
    var failedDomains: set<string>
    /** `robots_cache.json`. */
    var file: RobotsFile
    /** `RobotFileParser.can_fetch("*", url)`. */
    const canFetch: (Rules, string) -> bool

    /** `__init__` and `_load_failed_domains`: the failed domains are those of the file whose
      * failure is less than seven days old, read up to the first bad timestamp. */
    constructor (file: RobotsFile, canFetch: (Rules, string) -> bool, now: int)
      ensures robotsRules == map[] && this.file == file && this.canFetch == canFetch
      ensures failedDomains == (if file.Records? then Fresh(file.entries, now) else {})
    {
      robotsRules := map[];
      failedDomains := {};
      this.file := file;
      this.canFetch := canFetch;
      new;
      if file.Records? {
        LoadFailedDomains(file.entries, now);
      }
    }

    /** The loop of `_load_failed_domains`. */
    method LoadFailedDomains(entries: seq<(string, Stamp)>, now: int)
      requires failedDomains == {}
      modifies this
      ensures failedDomains == Fresh(entries, now)
      ensures robotsRules == old(robotsRules) && file == old(file)
    {
      var n := Readable(entries);
      var i := 0;
      while i < n
        invariant 0 <= i <= n
        invariant failedDomains == set j | 0 <= j < i && FreshAt(entries, j, now) :: entries[j].0
        invariant robotsRules == old(robotsRules) && file == old(file)
      {
        var (domain, stamp) := entries[i];
        if now - stamp.seconds < Ttl {
          failedDomains := failedDomains + {domain};
        }
        assert (set j | 0 <= j < i + 1 && FreshAt(entries, j, now) :: entries[j].0)
          == (set j | 0 <= j < i && FreshAt(entries, j, now) :: entries[j].0)
             + (if FreshAt(entries, i, now) then {domain} else {});
        i := i + 1;
      }
      assert forall j :: FreshAt(entries, j, now) ==> 0 <= j < n;
    }

    /** `is_url_allowed`: allowed for a failed domain and for one without rules,
      * otherwise as the rules say. */
    function IsUrlAllowed(url: string, domain: string): (r: bool)
      reads this
      ensures !r <==> domain !in failedDomains && domain in robotsRules && !canFetch(robotsRules[domain], url)
    {
      if domain in failedDomains then true
      else if domain !in robotsRules then true
      else canFetch(robotsRules[domain], url)
    }

    /** `_fetch_robots`: the rules are kept on status 200; any other status or an
      * exception marks the domain as failed. */
    method FetchRobots(domain: string, response: Response)
      modifies this
      ensures response.Answer? && response.status == 200 ==>
        robotsRules == old(robotsRules)[domain := Rules(response.body)] && failedDomains == old(failedDomains)
      ensures !(response.Answer? && response.status == 200) ==>
        robotsRules == old(robotsRules) && failedDomains == old(failedDomains) + {domain}
      ensures file == old(file)
    {
      if response.Answer? && response.status == 200 {
        robotsRules := robotsRules[domain := Rules(response.body)];
      } else {
        failedDomains := failedDomains + {domain};
      }
    }

    /** `_save_failed_domains`: the file is rewritten with every failed domain, once,
      * stamped with the current time. */
    method SaveFailedDomains(now: int)
      modifies this
      ensures file.Records? && Names(file.entries) == failedDomains
      ensures forall k :: 0 <= k < |file.entries| ==> file.entries[k].1 == At(now)
      ensures forall i, j :: 0 <= i < j < |file.entries| ==> file.entries[i].0 != file.entries[j].0
      ensures robotsRules == old(robotsRules) && failedDomains == old(failedDomains)
    {
      var entries: seq<(string, Stamp)> := [];
      var rest := failedDomains;
      while rest != {}
        invariant rest <= failedDomains
        invariant forall k :: 0 <= k < |entries| ==> entries[k].1 == At(now)
        invariant forall i, j :: 0 <= i < j < |entries| ==> entries[i].0 != entries[j].0
        invariant Names(entries) == failedDomains - rest
        invariant robotsRules == old(robotsRules) && failedDomains == old(failedDomains)
        decreases rest
      {
        var d :| d in rest;
        assert forall k :: 0 <= k < |entries| ==> entries[k].0 in Names(entries);
        NamesAppend(entries, (d, At(now)));
        entries := entries + [(d, At(now))];
        rest := rest - {d};
      }
      file := Records(entries);
    }

    /** `init_robots_rules`: robots.txt is requested for the listed domains that had
      * not failed when the call began, and the failures are saved afterwards. */
    method InitRobotsRules(domains: seq<string>, fetch: string -> Response, now: int) returns (requested: seq<string>)
      modifies this
      ensures forall k :: 0 <= k < |requested| ==> requested[k] in domains && requested[k] !in old(failedDomains)
      ensures forall d :: d in domains && d !in old(failedDomains) ==> d in requested
      ensures failedDomains == old(failedDomains)
        + (set k | 0 <= k < |requested| && !(fetch(requested[k]).Answer? && fetch(requested[k]).status == 200) :: requested[k])
      ensures forall d :: d in robotsRules <==> (d in old(robotsRules)
        || (d in requested && fetch(d).Answer? && fetch(d).status == 200))
      ensures file.Records? && Names(file.entries) == failedDomains
      ensures forall k :: 0 <= k < |file.entries| ==> file.entries[k].1 == At(now)
    {
      requested := [];
      var i := 0;
      while i < |domains|
        invariant 0 <= i <= |domains|
        invariant forall k :: 0 <= k < |requested| ==> requested[k] in domains[..i] && requested[k] !in failedDomains
        invariant forall j :: 0 <= j < i && domains[j] !in failedDomains ==> domains[j] in requested
        invariant failedDomains == old(failedDomains)
      {
        if domains[i] !in failedDomains {
          requested := requested + [domains[i]];
        }
        i := i + 1;
      }
      i := 0;
      while i < |requested|
        invariant 0 <= i <= |requested|
        invariant forall k :: 0 <= k < |requested| ==> requested[k] in domains && requested[k] !in old(failedDomains)
        invariant failedDomains == old(failedDomains)
          + (set k | 0 <= k < i && !(fetch(requested[k]).Answer? && fetch(requested[k]).status == 200) :: requested[k])
        invariant forall d :: d in robotsRules <==> (d in old(robotsRules)
          || (d in requested[..i] && fetch(d).Answer? && fetch(d).status == 200))
      {
        FetchRobots(requested[i], fetch(requested[i]));
        assert requested[..i + 1] == requested[..i] + [requested[i]];
        i := i + 1;
      }
      assert requested[..i] == requested;
      SaveFailedDomains(now);
    }
  }

  // ----- the failure cache across runs -----
  // A cache file read as a dictionary from domain to failure time.

  /** What a run loads: the domains whose failure is less than `Ttl` old, with their times. */
  function LoadedFrom(file: map<string, int>, now: int): (r: map<string, int>)
    ensures forall d :: d in r <==> d in file && now - file[d] < Ttl
    ensures forall d :: d in r ==> r[d] == file[d]
  {
    map d | d in file && now - file[d] < Ttl :: file[d]
  }

  /** `_save_failed_domains` as written: every failed domain is stamped with the current time. */
  function SavedAsWritten(failed: set<string>, now: int): (r: map<string, int>)
    ensures r.Keys == failed && forall d :: d in r ==> r[d] == now
  {
    map d | d in failed :: now
  }

  /** The save as evidently intended: a loaded domain keeps the time of its failure. */
  function SavedKeeping(failed: set<string>, since: map<string, int>, now: int): (r: map<string, int>)
    ensures r.Keys == failed && forall d :: d in r && d in since ==> r[d] == since[d]
  {
    map d | d in failed :: KeptStamp(since, d, now)
  }

  /** Runs at the given times in which every robots.txt that is requested is fetched
    * successfully, so the only failed domains are the loaded ones; saved as written. */
  function RunsAsWritten(file: map<string, int>, times: seq<int>): map<string, int>
    decreases |times|
  {
    if times == [] then file
    else
      var before := RunsAsWritten(file, times[..|times| - 1]);
      var now := times[|times| - 1];
      SavedAsWritten(LoadedFrom(before, now).Keys, now)
  }

  /** The same runs, saved keeping the failure times. */
  function RunsKeeping(file: map<string, int>, times: seq<int>): map<string, int>
    decreases |times|
  {
    if times == [] then file
    else
      var before := RunsKeeping(file, times[..|times| - 1]);
      var now := times[|times| - 1];
      var loaded := LoadedFrom(before, now);
      SavedKeeping(loaded.Keys, loaded, now)
  }

  /** As written, a crawler that runs at least once a week never asks again for a
    * robots.txt that failed once: after every run the domain is recorded with the
    * time of that run, however long ago the failure was. */
  lemma {:induction false} RestampedForever(file: map<string, int>, d: string, times: seq<int>)
    requires d in file && times != []
    requires times[0] - file[d] < Ttl
    requires forall k :: 0 < k < |times| ==> times[k] - times[k - 1] < Ttl
    ensures d in RunsAsWritten(file, times) && RunsAsWritten(file, times)[d] == times[|times| - 1]
    decreases |times|
  {
    var prefix := times[..|times| - 1];
    if prefix != [] {
      assert prefix[0] == times[0];
      forall k | 0 < k < |prefix|
        ensures prefix[k] - prefix[k - 1] < Ttl
      {
        assert prefix[k] == times[k] && prefix[k - 1] == times[k - 1];
      }
      RestampedForever(file, d, prefix);
      assert RunsAsWritten(file, prefix)[d] == times[|times| - 2];
    }
  }

  /** The concrete case: a failure on day 0 and runs on days 5 and 10; on day 10 the
    * domain is still skipped, ten days after its only failure. */
  lemma SkippedAfterTtl(d: string, t0: int)
    ensures var file := RunsAsWritten(map[d := t0], [t0 + 5 * 86400]);
      d in LoadedFrom(file, t0 + 10 * 86400) && (t0 + 10 * 86400) - t0 >= Ttl
  {
    RestampedForever(map[d := t0], d, [t0 + 5 * 86400]);
  }

  /** Keeping the failure times, a recorded time never moves and no domain is added. */
  lemma {:induction false} KeptStampsStay(file: map<string, int>, times: seq<int>)
    ensures var r := RunsKeeping(file, times);
      forall d :: d in r ==> d in file && r[d] == file[d]
    decreases |times|
  {
    if times != [] {
      KeptStampsStay(file, times[..|times| - 1]);
    }
  }

  /** Keeping the failure times, a domain is asked for its robots.txt again at the
    * first run at least `Ttl` after its failure. */
  lemma RetriedAfterTtl(file: map<string, int>, times: seq<int>, d: string, now: int)
    requires d in file && now - file[d] >= Ttl
    ensures d !in LoadedFrom(RunsKeeping(file, times), now)
  {
    KeptStampsStay(file, times);
  }
}
