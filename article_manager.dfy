/**
 * `ArticleManager`: housekeeping of the news crawler's article directory,
 * whose entries are named after the day their articles were saved
 * (`YYYY-MM-DD`). The directory is a map from entry name to whether the
 * entry is a directory and how many files lie under it; `None` stands for a
 * base directory that cannot be listed.
 */
module ArticleManager {
  import opened Wrappers
  import opened Calendar

  /** One entry of the base directory: a directory or a plain file, and the
    * number of files `os.walk` finds under it (none for a plain file). */
  datatype Entry = Entry(isDir: bool, files: nat)

  /** The names `datetime.strptime(name, '%Y-%m-%d')` accepts. */
  predicate DateNamed(name: string)
  {
    ParseIsoDate(name).Some?
  }

  /** An entry `cleanup_old_articles` deletes: a directory whose name is a day
    * whose midnight lies before the cutoff. A plain file with such a name is
    * kept, because `shutil.rmtree` refuses it and the error is only logged. */
  predicate Expired(name: string, entry: Entry, cutoff: Instant)
  {
    entry.isDir && ParseIsoDate(name).Some? && Seconds(Midnight(ParseIsoDate(name).value)) < Seconds(cutoff)
  }

  /** The names of the expired entries. */
  function ExpiredNames(entries: map<string, Entry>, cutoff: Instant): set<string>
  {
    set name | name in entries && Expired(name, entries[name], cutoff)
  }

  /** The entries of a directory with the given names. */
  function Restrict(entries: map<string, Entry>, names: set<string>): map<string, Entry>
  {
    map name | name in entries && name in names :: entries[name]
  }

  /** Deleting one more entry. */
  lemma RestrictRemove(entries: map<string, Entry>, names: set<string>, name: string)
    ensures Restrict(entries, names) - {name} == Restrict(entries, names - {name})
  {
    assert (Restrict(entries, names) - {name}).Keys == Restrict(entries, names - {name}).Keys;
  }

  /** Nothing deleted yet. */
  lemma RestrictAll(entries: map<string, Entry>)
    ensures Restrict(entries, entries.Keys) == entries
  {
  }

  /** The directory after `cleanup_old_articles`. */
  function Pruned(entries: map<string, Entry>, cutoff: Instant): map<string, Entry>
  {
    Restrict(entries, entries.Keys - ExpiredNames(entries, cutoff))
  }

  /** A directory whose name is not a date: what `cleanup_invalid_directories` deletes. */
  predicate Invalid(name: string, entry: Entry)
  {
    entry.isDir && !DateNamed(name)
  }

  /** The names of the invalid entries. */
  function InvalidNames(entries: map<string, Entry>): set<string>
  {
    set name | name in entries && Invalid(name, entries[name])
  }

  /** The directory after `cleanup_invalid_directories`. */
  function WithoutInvalid(entries: map<string, Entry>): map<string, Entry>
  {
    Restrict(entries, entries.Keys - InvalidNames(entries))
  }

  /** `get_article_dates`: the directories whose name is a date. */
  function ArticleDates(entries: map<string, Entry>): set<string>
  {
    set name | name in entries && entries[name].isDir && DateNamed(name)
  }

  /** The number of files under the named entries. */
  ghost function FileTotal(entries: map<string, Entry>, names: set<string>): nat
    requires names <= entries.Keys
    decreases names
  {
    if names == {} then 0
    else
      var name :| name in names;
      entries[name].files + FileTotal(entries, names - {name})
  }

  /** The total may be taken apart at any entry, whichever the definition picked. */
  lemma {:induction false} FileTotalRemove(entries: map<string, Entry>, names: set<string>, name: string)
    requires names <= entries.Keys && name in names
    ensures FileTotal(entries, names) == entries[name].files + FileTotal(entries, names - {name})
    decreases names
  {
    var picked :| picked in names && FileTotal(entries, names) == entries[picked].files + FileTotal(entries, names - {picked});
    if picked != name {
      FileTotalRemove(entries, names - {picked}, name);
      FileTotalRemove(entries, names - {name}, picked);
      assert names - {picked} - {name} == names - {name} - {picked};
    }
  }

  /** The files of a set of entries are those of any part plus those of the rest. */
  lemma {:induction false} FileTotalSplit(entries: map<string, Entry>, names: set<string>, part: set<string>)
    requires part <= names <= entries.Keys
    ensures FileTotal(entries, names) == FileTotal(entries, part) + FileTotal(entries, names - part)
    decreases part
  {
    if part != {} {
      var name :| name in part;
      FileTotalRemove(entries, names, name);
      FileTotalRemove(entries, part, name);
      FileTotalSplit(entries, names - {name}, part - {name});
      assert (names - {name}) - (part - {name}) == names - part;
    } else {
      assert names - part == names;
    }
  }

  /** What `cleanup_old_articles` counts plus what it leaves is what there was:
    * the files under the directory before are those under the pruned directory
    * plus those of the expired entries. */
  lemma PrunedFiles(entries: map<string, Entry>, cutoff: Instant)
    ensures FileTotal(entries, entries.Keys)
            == FileTotal(Pruned(entries, cutoff), Pruned(entries, cutoff).Keys) + FileTotal(entries, ExpiredNames(entries, cutoff))
  {
    var kept := Pruned(entries, cutoff);
    FileTotalSplit(entries, entries.Keys, ExpiredNames(entries, cutoff));
    assert entries.Keys - ExpiredNames(entries, cutoff) == kept.Keys;
    FileTotalOn(entries, kept, kept.Keys);
  }

  /** Two directories that agree on some entries have the same files under them. */
  lemma {:induction false} FileTotalOn(a: map<string, Entry>, b: map<string, Entry>, names: set<string>)
    requires names <= a.Keys && names <= b.Keys
    requires forall name :: name in names ==> a[name] == b[name]
    ensures FileTotal(a, names) == FileTotal(b, names)
    decreases names
  {
    if names != {} {
      var name :| name in names;
      FileTotalRemove(a, names, name);
      FileTotalRemove(b, names, name);
      FileTotalOn(a, b, names - {name});
    }
  }

  /** After pruning, the article dates are exactly the earlier ones whose midnight
    * is not before the cutoff; every other entry is untouched. */
  lemma PrunedDates(entries: map<string, Entry>, cutoff: Instant)
    ensures ArticleDates(Pruned(entries, cutoff))
            == set name | name in ArticleDates(entries) && Seconds(Midnight(ParseIsoDate(name).value)) >= Seconds(cutoff)
    ensures forall name :: name in entries && (!entries[name].isDir || !DateNamed(name)) ==>
              name in Pruned(entries, cutoff) && Pruned(entries, cutoff)[name] == entries[name]
  {
  }

  /** Pruning twice with the same cutoff removes nothing more. */
  lemma PrunedTwice(entries: map<string, Entry>, cutoff: Instant)
    ensures Pruned(Pruned(entries, cutoff), cutoff) == Pruned(entries, cutoff)
    ensures ExpiredNames(Pruned(entries, cutoff), cutoff) == {}
  {
  }

  /** After `cleanup_invalid_directories`, every directory left is one of the
    * article dates, and no article date was lost. */
  lemma CleanDates(entries: map<string, Entry>)
    ensures ArticleDates(WithoutInvalid(entries)) == ArticleDates(entries)
    ensures ArticleDates(WithoutInvalid(entries))
            == set name | name in WithoutInvalid(entries) && WithoutInvalid(entries)[name].isDir
    ensures forall name :: name in entries && !entries[name].isDir ==> name in WithoutInvalid(entries)
  {
  }

  class Manager {
    /** `retention_days`. */
    const retentionDays: nat
    /** The contents of `base_dir`, or `None` when it cannot be listed. */
    var baseDir: Option<map<string, Entry>>

    constructor (retentionDays: nat, baseDir: Option<map<string, Entry>>)
      ensures this.retentionDays == retentionDays && this.baseDir == baseDir
    {
      this.retentionDays := retentionDays;
      this.baseDir := baseDir;
    }

    /** `cleanup_old_articles`: deletes every expired directory, one entry of the
      * listing at a time, and returns how many files they held. When the cutoff
      * `now - retention_days` is out of range or the directory cannot be listed,
      * nothing is deleted and the count is 0. */
    method CleanupOldArticles(now: Instant) returns (count: nat)
      modifies this
      ensures SubSeconds(now, retentionDays * 86400).None? || old(baseDir).None? ==>
                count == 0 && baseDir == old(baseDir)
      ensures SubSeconds(now, retentionDays * 86400).Some? && old(baseDir).Some? ==>
                var cutoff: Instant := SubSeconds(now, retentionDays * 86400).value;
                baseDir == Some(Pruned(old(baseDir).value, cutoff))
                && count == FileTotal(old(baseDir).value, ExpiredNames(old(baseDir).value, cutoff))
    {
      count := 0;
      var back := SubSeconds(now, retentionDays * 86400);
      if back.None? || baseDir.None? {
        return;
      }
      var cutoff: Instant := back.value;
      var entries := baseDir.value;
      var remaining := entries.Keys;
      RestrictAll(entries);
      assert entries.Keys - (ExpiredNames(entries, cutoff) - remaining) == entries.Keys;
      while remaining != {}
        invariant remaining <= entries.Keys
        invariant baseDir == Some(Restrict(entries, entries.Keys - (ExpiredNames(entries, cutoff) - remaining)))
        invariant count == FileTotal(entries, ExpiredNames(entries, cutoff) - remaining)
        decreases remaining
      {
        var name :| name in remaining;
        if Expired(name, entries[name], cutoff) {
          FileTotalRemove(entries, ExpiredNames(entries, cutoff) - (remaining - {name}), name);
          assert ExpiredNames(entries, cutoff) - (remaining - {name}) - {name} == ExpiredNames(entries, cutoff) - remaining;
          count := count + entries[name].files;
          RestrictRemove(entries, entries.Keys - (ExpiredNames(entries, cutoff) - remaining), name);
          assert entries.Keys - (ExpiredNames(entries, cutoff) - remaining) - {name}
              == entries.Keys - (ExpiredNames(entries, cutoff) - (remaining - {name}));
          baseDir := Some(baseDir.value - {name});
        } else {
          assert ExpiredNames(entries, cutoff) - remaining == ExpiredNames(entries, cutoff) - (remaining - {name});
        }
        remaining := remaining - {name};
      }
      assert ExpiredNames(entries, cutoff) - remaining == ExpiredNames(entries, cutoff);
    }

    /** `get_article_dates`: the directories whose name is a date, or none when
      * the directory cannot be listed. */
    method GetArticleDates() returns (dates: set<string>)
      ensures baseDir.None? ==> dates == {}
      ensures baseDir.Some? ==> dates == ArticleDates(baseDir.value)
    {
      dates := {};
      if baseDir.None? {
        return;
      }
      var entries := baseDir.value;
      var remaining := entries.Keys;
      while remaining != {}
        invariant remaining <= entries.Keys
        invariant dates == ArticleDates(entries) - remaining
        decreases remaining
      {
        var name :| name in remaining;
        if entries[name].isDir && ParseIsoDate(name).Some? {
          dates := dates + {name};
        }
        remaining := remaining - {name};
      }
    }

    /** `cleanup_invalid_directories`: deletes every directory whose name is not
      * a date; a directory that cannot be listed is left as it is. */
    method CleanupInvalidDirectories()
      modifies this
      ensures old(baseDir).None? ==> baseDir == old(baseDir)
      ensures old(baseDir).Some? ==> baseDir == Some(WithoutInvalid(old(baseDir).value))
    {
      if baseDir.None? {
        return;
      }
      var entries := baseDir.value;
      var remaining := entries.Keys;
      RestrictAll(entries);
      assert entries.Keys - (InvalidNames(entries) - remaining) == entries.Keys;
      while remaining != {}
        invariant remaining <= entries.Keys
        invariant baseDir == Some(Restrict(entries, entries.Keys - (InvalidNames(entries) - remaining)))
        decreases remaining
      {
        var name :| name in remaining;
        if Invalid(name, entries[name]) {
          RestrictRemove(entries, entries.Keys - (InvalidNames(entries) - remaining), name);
          assert entries.Keys - (InvalidNames(entries) - remaining) - {name}
              == entries.Keys - (InvalidNames(entries) - (remaining - {name}));
          baseDir := Some(baseDir.value - {name});
        } else {
          assert InvalidNames(entries) - remaining == InvalidNames(entries) - (remaining - {name});
        }
        remaining := remaining - {name};
      }
      assert InvalidNames(entries) - remaining == InvalidNames(entries);
    }
  }
}
