/**
 The cache of prepared chart directories: entries with a lifetime, backed by
 directories on disk, cleaned up now and then while other callers go on. Each
 method of the cache holds its lock throughout, so a run is any sequence of them.
 */
module ChartCaches {
  import opened Wrappers
  import opened Names

  /** A temporary directory; every one that is made has a name never used before. */
  type Dir = nat

  /** Time in seconds. */
  type Time = int

  datatype Entry = Entry(path: Dir, createdAt: Time)

  const DEFAULT_TTL: Time := 3600

  function PathsOf(entries: map<string, Entry>): set<Dir> {
    set k | k in entries :: entries[k].path
  }

  predicate Expired(e: Entry, ttl: Time, now: Time) {
    now - e.createdAt > ttl
  }

  /** The entries that are not past their lifetime. */
  function Unexpired(entries: map<string, Entry>, ttl: Time, now: Time): map<string, Entry> {
    map k | k in entries && !Expired(entries[k], ttl, now) :: entries[k]
  }

  function ExpiredPaths(entries: map<string, Entry>, ttl: Time, now: Time): set<Dir> {
    set k | k in entries && Expired(entries[k], ttl, now) :: entries[k].path
  }

  /** The entries left when the cleanup has seen some of the keys. */
  function Remaining(entries: map<string, Entry>, seen: set<string>, ttl: Time, now: Time): map<string, Entry> {
    map k | k in entries && !(k in seen && Expired(entries[k], ttl, now)) :: entries[k]
  }

  lemma RemainingNext(entries: map<string, Entry>, keys: seq<string>, i: nat, ttl: Time, now: Time)
    requires i < |keys| && NoDuplicates(keys) && keys[i] in entries
    ensures var before := Remaining(entries, Members(keys[..i]), ttl, now);
      var after := Remaining(entries, Members(keys[..i + 1]), ttl, now);
      && keys[i] in before && before[keys[i]] == entries[keys[i]]
      && after == if Expired(entries[keys[i]], ttl, now) then before - {keys[i]} else before
  {
    assert keys[..i + 1] == keys[..i] + [keys[i]];
  }

  /** The paths of the expired entries among the keys seen. */
  function ExpiredSeen(entries: map<string, Entry>, seen: set<string>, ttl: Time, now: Time): set<Dir> {
    set k | k in entries && k in seen && Expired(entries[k], ttl, now) :: entries[k].path
  }

  lemma ExpiredSeenNext(entries: map<string, Entry>, keys: seq<string>, i: nat, ttl: Time, now: Time)
    requires i < |keys| && NoDuplicates(keys) && keys[i] in entries && DistinctPaths(entries)
    ensures var before := ExpiredSeen(entries, Members(keys[..i]), ttl, now);
      var gone := if Expired(entries[keys[i]], ttl, now) then {entries[keys[i]].path} else {};
      ExpiredSeen(entries, Members(keys[..i + 1]), ttl, now) == before + gone && before !! gone
  {
    assert keys[..i + 1] == keys[..i] + [keys[i]];
    forall k | k in entries && k in Members(keys[..i]) ensures entries[k].path != entries[keys[i]].path {
      assert k != keys[i];
    }
  }

  lemma AllCleaned(entries: map<string, Entry>, keys: seq<string>, ttl: Time, now: Time)
    requires Members(keys) == entries.Keys
    ensures Remaining(entries, Members(keys[..|keys|]), ttl, now) == Unexpired(entries, ttl, now)
    ensures ExpiredSeen(entries, Members(keys[..|keys|]), ttl, now) == ExpiredPaths(entries, ttl, now)
  {
    assert keys[..|keys|] == keys;
  }

  lemma ExpiredApart(entries: map<string, Entry>, ttl: Time, now: Time)
    requires DistinctPaths(entries)
    ensures ExpiredPaths(entries, ttl, now) !! PathsOf(Unexpired(entries, ttl, now))
  {
  }

  datatype Status = There | Missing | Unreadable

  /**
   What can go wrong for a caller: no new directory, a chart not written, a copy whose
   source is gone or that is not made.
   */
  datatype Fault = NotMade | NotPrepared(d: Dir) | SourceGone(d: Dir) | NotCopied(d: Dir) | NotRead(d: Dir)

  ghost predicate DistinctPaths(entries: map<string, Entry>) {
    forall j, k :: j in entries && k in entries && entries[j].path == entries[k].path ==> j == k
  }

  class ChartCache {
    const ttl: Time
    var entries: map<string, Entry>

    /** The clock, the directories on disk, and the name the next directory gets. */
    var clock: Time
    var dirs: set<Dir>
    var nextDir: Dir

    /** Directories by what they are for: being filled, ever stored in the cache, given to a caller as a copy. */
    var building: set<Dir>
    var stored: set<Dir>
    ghost var handedOut: set<Dir>
    /** The last write of every key so far. */
    ghost var latest: map<string, Entry>
    /** The key whose chart a stored or handed out directory was filled with. */
    ghost var charts: map<Dir, string>
    /** What went wrong on the disk for the caller looked at. */
    ghost var faults: seq<Fault>

    ghost predicate Valid()
      reads this
    {
      0 < ttl && EntriesAreLatest() && LatestIsStored() && RolesApart() && NamesUsed()
    }

    /** The entries are last writes; a last write that is gone is past its lifetime. */
    ghost predicate EntriesAreLatest()
      reads this
    {
      && (forall k :: k in entries ==> k in latest && entries[k] == latest[k])
      && (forall k :: k in latest && k !in entries ==> Expired(latest[k], ttl, clock))
    }

    ghost predicate LatestIsStored()
      reads this
    {
      && charts.Keys == stored + handedOut
      && forall k :: k in latest ==>
        latest[k].createdAt <= clock && latest[k].path in stored && charts[latest[k].path] == k
    }

    ghost predicate RolesApart()
      reads this
    {
      building !! stored && building !! handedOut && stored !! handedOut
    }

    ghost predicate NamesUsed()
      reads this
    {
      forall d :: d in dirs || d in building || d in stored || d in handedOut ==> d < nextDir
    }

    /** No two entries share a directory. */
    lemma EntriesApart()
      requires Valid()
      ensures DistinctPaths(entries)
    {
      forall j, k | j in entries && k in entries && entries[j].path == entries[k].path ensures j == k {
        assert charts[latest[j].path] == j && charts[latest[k].path] == k;
      }
    }

    /** `NewChartCache`, at some time and with some disk. */
    constructor (ttl: Time, clock: Time, dirs: set<Dir>, nextDir: Dir)
      requires forall d :: d in dirs ==> d < nextDir
      ensures Valid() && entries == map[] && latest == map[] && stored == {} && handedOut == {}
      ensures this.ttl == if ttl <= 0 then DEFAULT_TTL else ttl
      ensures this.clock == clock && this.dirs == dirs && this.nextDir == nextDir && faults == []
    {
      this.ttl := if ttl <= 0 then DEFAULT_TTL else ttl;
      entries := map[];
      this.clock, this.dirs, this.nextDir := clock, dirs, nextDir;
      latest, building, stored, handedOut, charts, faults := map[], {}, {}, {}, map[], [];
    }

    /** `time.Now`: the clock moves on by any amount. */
    method Now() returns (now: Time)
      requires Valid()
      modifies this`clock
      ensures Valid() && now == clock >= old(clock)
    {
      var passed: nat :| true;
      clock := clock + passed;
      now := clock;
    }

    /** What a lookup must give: the last path stored for the key, if it is recent and still on disk. */
    ghost function Lookup(key: string): Option<Dir>
      reads this
    {
      if key in latest && !Expired(latest[key], ttl, clock) && latest[key].path in dirs
      then Some(latest[key].path)
      else None
    }

    /** `os.Stat`. */
    method Stat(path: Dir) returns (status: Status)
      modifies this`faults
      ensures status.There? ==> path in dirs
      ensures status.Missing? ==> path !in dirs
      ensures faults == old(faults) + if status.Unreadable? then [NotRead(path)] else []
    {
      var ok: bool :| true;
      if !ok {
        faults := faults + [NotRead(path)];
        return Unreadable;
      }
      status := if path in dirs then There else Missing;
    }

    /** `get`: only a directory known to be missing makes it miss. */
    method Get(key: string) returns (r: Option<Dir>)
      requires Valid()
      modifies this`clock, this`faults
      ensures Valid() && old(clock) <= clock
      ensures r.None? ==> Lookup(key) == None && faults == old(faults)
      ensures r.Some? ==> key in latest && latest[key].path == r.value && clock - latest[key].createdAt <= ttl
      ensures r.Some? ==> (r == Lookup(key) && faults == old(faults)) || faults == old(faults) + [NotRead(r.value)]
    {
      var now := Now();
      if key !in entries || Expired(entries[key], ttl, now) {
        return None;
      }
      var status := Stat(entries[key].path);
      r := if status.Missing? then None else Some(entries[key].path);
    }

    /** `set`, with the directory the caller has filled for the key. A replaced entry's directory stays on disk. */
    method Set(key: string, path: Dir)
      requires Valid() && path in building
      modifies this`clock, this`entries, this`latest, this`building, this`stored, this`charts
      ensures Valid() && old(clock) <= clock
      ensures entries == old(entries)[key := Entry(path, clock)] && latest == old(latest)[key := Entry(path, clock)]
      ensures building == old(building) - {path} && stored == old(stored) + {path} && charts == old(charts)[path := key]
    {
      var now := Now();
      entries, latest := entries[key := Entry(path, now)], latest[key := Entry(path, now)];
      building, stored, charts := building - {path}, stored + {path}, charts[path := key];
    }

    /** `entryCount`. */
    method EntryCount() returns (n: nat)
      requires Valid()
      ensures n == |entries|
    {
      n := |entries|;
    }

    /** `os.RemoveAll`, which may fail and leave the directory. */
    method RemoveAll(path: Dir) returns (ok: bool)
      modifies this`dirs
      ensures dirs == if ok then old(dirs) - {path} else old(dirs)
    {
      ok :| true;
      if ok {
        dirs := dirs - {path};
      }
    }

    /** One round of the cleanup loop; the result is what could not be removed, which is logged. */
    method DropIfExpired(key: string, now: Time) returns (failed: set<Dir>)
      requires Valid() && clock == now && key in entries
      modifies this`entries, this`dirs
      ensures Valid()
      ensures entries == if Expired(old(entries)[key], ttl, now) then old(entries) - {key} else old(entries)
      ensures var gone := if Expired(old(entries)[key], ttl, now) then {old(entries)[key].path} else {};
        failed <= gone && dirs == old(dirs) - (gone - failed)
    {
      failed := {};
      if Expired(entries[key], ttl, now) {
        var ok := RemoveAll(entries[key].path);
        if !ok {
          failed := {entries[key].path};
        }
        entries := entries - {key};
      }
    }

    /** How far the cleanup of `before` has come when it has seen some keys. */
    ghost predicate Cleaned(before: map<string, Entry>, there: set<Dir>, seen: set<string>, now: Time, failed: set<Dir>)
      reads this
    {
      var expired := ExpiredSeen(before, seen, ttl, now);
      clock == now && entries == Remaining(before, seen, ttl, now) && failed <= expired
        && dirs == there - (expired - failed)
    }

    /** One round. */
    method CleanNext(
        ghost before: map<string, Entry>, ghost there: set<Dir>, keys: seq<string>, i: nat, now: Time, failed: set<Dir>)
      returns (failed': set<Dir>)
      requires Valid() && DistinctPaths(before) && NoDuplicates(keys) && i < |keys| && keys[i] in before
      requires Cleaned(before, there, Members(keys[..i]), now, failed)
      modifies this`entries, this`dirs
      ensures Valid() && Cleaned(before, there, Members(keys[..i + 1]), now, failed')
    {
      RemainingNext(before, keys, i, ttl, now);
      ExpiredSeenNext(before, keys, i, ttl, now);
      var more := DropIfExpired(keys[i], now);
      failed' := failed + more;
    }

    lemma ExpiredAreStored(entries: map<string, Entry>, now: Time)
      requires Valid() && this.entries == entries
      ensures ExpiredPaths(entries, ttl, now) <= stored
    {
    }

    /**
     `cleanupExpired`: the expired entries go, and their directories but for the
     removals that failed; nothing else does.
     */
    method CleanupExpired() returns (failed: set<Dir>)
      requires Valid()
      modifies this`clock, this`entries, this`dirs
      ensures Valid() && old(clock) <= clock
      ensures entries == Unexpired(old(entries), ttl, clock)
      ensures forall k :: k in old(entries) ==> (k in entries <==> clock - old(entries)[k].createdAt <= ttl)
      ensures failed <= ExpiredPaths(old(entries), ttl, clock)
      ensures dirs == old(dirs) - (ExpiredPaths(old(entries), ttl, clock) - failed)
      ensures ExpiredPaths(old(entries), ttl, clock) <= stored
        && ExpiredPaths(old(entries), ttl, clock) !! PathsOf(entries)
      ensures forall d :: d in old(dirs) && d !in PathsOf(old(entries)) ==> d in dirs
    {
      var now := Now();
      ghost var before, there := entries, dirs;
      EntriesApart();
      ExpiredAreStored(before, now);
      var keys := AnyKeys(entries);
      failed := {};
      assert entries == Remaining(before, Members(keys[..0]), ttl, now);
      for i := 0 to |keys|
        invariant Valid() && Cleaned(before, there, Members(keys[..i]), now, failed)
      {
        assert keys[i] in Members(keys);
        failed := CleanNext(before, there, keys, i, now, failed);
      }
      AllCleaned(before, keys, ttl, now);
      ExpiredApart(before, ttl, now);
    }

    // ----- directories that are left behind -----

    /** Directories once stored that no entry points to any more. */
    ghost function Orphans(): set<Dir>
      reads this
    {
      stored - PathsOf(entries)
    }

    /**
     A key is stored twice and the cache cleaned up: the first directory is still on
     disk, and no entry points to it.
     */
    method ReplaceThenCleanUp(key: string, first: Dir, second: Dir) returns (failed: set<Dir>)
      requires Valid() && first in building && second in building && first != second && first in dirs
      modifies this
      ensures Valid() && first in dirs && first in Orphans()
    {
      Set(key, first);
      Set(key, second);
      failed := CleanupExpired();
    }

    /** Anything the cache and its callers do but storing or removing this one directory. */
    method CacheStep(d: Dir)
      requires Valid() && d in dirs && d !in PathsOf(entries)
      modifies this
      ensures Valid() && d in dirs && d !in PathsOf(entries)
    {
      var choice: nat, key: string, p: Dir, e: Dir :| true;
      if choice == 0 {
        var _ := CleanupExpired();
      } else if choice == 1 {
        var _ := NewDir();
      } else if choice == 2 && p in building - {d} {
        Set(key, p);
      } else if choice == 3 && p in building && e in stored {
        HandOut(p, e);
      } else if choice == 4 {
        var _ := Get(key);
      } else if p != d {
        var _ := RemoveAll(p);
      }
    }

    /**
     A directory on disk that no entry points to stays there and unused, however long
     the cache is used and cleaned up: the cleanup never comes back to one whose entry
     was replaced, nor to one whose preparation failed.
     */
    method LeftBehind(d: Dir)
      requires Valid() && d in dirs && d !in PathsOf(entries)
      modifies this
      ensures Valid() && d in dirs && d !in PathsOf(entries)
    {
      var rounds: nat :| true;
      for i := 0 to rounds
        invariant Valid() && d in dirs && d !in PathsOf(entries)
      {
        CacheStep(d);
      }
    }

    // ----- one caller among others -----

    /** What stays true while other callers go on; `mine` are this caller's directories. */
    twostate predicate Later(mine: set<Dir>)
      reads this
    {
      && old(clock) <= clock && old(nextDir) <= nextDir
      && old(stored) <= stored && old(handedOut) <= handedOut && old(latest).Keys <= latest.Keys
      && (forall d :: d in old(charts) ==> d in charts && charts[d] == old(charts)[d])
      && mine * old(building) <= building && mine * old(dirs) <= dirs
      && old(faults) <= faults
    }

    /** A new directory. */
    method NewDir() returns (d: Dir)
      requires Valid()
      modifies this`dirs, this`nextDir, this`building
      ensures Valid() && d == old(nextDir) && nextDir == old(nextDir) + 1
      ensures dirs == old(dirs) + {d} && building == old(building) + {d}
    {
      d := nextDir;
      dirs, building, nextDir := dirs + {nextDir}, building + {nextDir}, nextDir + 1;
    }

    /** `os.MkdirTemp`, which may fail. */
    method MakeDir() returns (r: Option<Dir>)
      requires Valid()
      modifies this`dirs, this`nextDir, this`building, this`faults
      ensures Valid()
      ensures r.None? ==> dirs == old(dirs) && building == old(building) && nextDir == old(nextDir)
      ensures r.Some? ==> r.value == old(nextDir) && nextDir == old(nextDir) + 1
      ensures r.Some? ==> dirs == old(dirs) + {r.value} && building == old(building) + {r.value}
      ensures faults == old(faults) + if r.None? then [NotMade] else []
    {
      var ok: bool :| true;
      if !ok {
        faults := faults + [NotMade];
        return None;
      }
      var d := NewDir();
      r := Some(d);
    }

    /** Renders the chart into a directory. */
    method WriteChart(tmp: Dir) returns (ok: bool)
      modifies this`faults
      ensures faults == old(faults) + if ok then [] else [NotPrepared(tmp)]
    {
      ok :| true;
      if !ok {
        faults := faults + [NotPrepared(tmp)];
      }
    }

    /** Copies a directory's files. */
    method CopyFiles(source: Dir, copy: Dir) returns (ok: bool)
      modifies this`faults
      ensures ok ==> source in dirs
      ensures faults == old(faults)
        + if ok then [] else if source in dirs then [NotCopied(copy)] else [SourceGone(source)]
    {
      var done: bool :| true;
      ok := done && source in dirs;
      if !ok {
        faults := faults + if source in dirs then [NotCopied(copy)] else [SourceGone(source)];
      }
    }

    /** A caller is given a directory that was filled from a stored one. */
    method HandOut(copy: Dir, source: Dir)
      requires Valid() && copy in building && source in stored
      modifies this`building, this`handedOut, this`charts
      ensures Valid()
      ensures building == old(building) - {copy} && handedOut == old(handedOut) + {copy}
      ensures charts == old(charts)[copy := old(charts)[source]]
    {
      building, handedOut, charts := building - {copy}, handedOut + {copy}, charts[copy := charts[source]];
    }

    /** One thing that another caller does, or whoever was given a copy. */
    method OtherStep(mine: set<Dir>)
      requires Valid() && mine <= building
      modifies this
      ensures Valid() && Later(mine) && faults == old(faults)
    {
      var choice: nat, key: string, d: Dir, e: Dir :| true;
      if choice == 0 {
        OtherCleanup(mine);
      } else if choice == 1 {
        var _ := NewDir();
      } else if choice == 2 && d in building - mine {
        Set(key, d);
      } else if choice == 3 && d in building - mine && e in stored {
        HandOut(d, e);
      } else if d !in mine {
        var _ := RemoveAll(d);
      }
    }

    method OtherCleanup(mine: set<Dir>)
      requires Valid() && mine <= building
      modifies this`clock, this`entries, this`dirs
      ensures Valid() && Later(mine)
    {
      var _ := CleanupExpired();
    }

    /** Other callers, for any while. */
    method OtherCallers(mine: set<Dir>)
      requires Valid() && mine <= building
      modifies this
      ensures Valid() && Later(mine) && mine <= building && faults == old(faults)
    {
      var rounds: nat :| true;
      for i := 0 to rounds
        invariant Valid() && Later(mine) && mine <= building && faults == old(faults)
      {
        OtherStep(mine);
      }
    }

    /** Only a new directory, the source or the copying can be what went wrong. */
    ghost predicate CopyFault(f: Fault, source: Dir)
      reads this
    {
      f.NotMade? || f.NotCopied? || (f == SourceGone(source) && source !in dirs)
    }

    /** Fills a new directory from a stored one, or removes it. */
    method FillCopy(source: Dir, copy: Dir) returns (ok: bool)
      requires Valid() && source in stored && copy in building && copy in dirs
      modifies this
      ensures Valid() && Later({}) && nextDir == old(nextDir)
      ensures ok ==> copy in dirs && copy in handedOut && charts[copy] == old(charts)[source] && faults == old(faults)
      ensures !ok ==> |faults| == |old(faults)| + 1 && CopyFault(faults[|old(faults)|], source)
    {
      ok := CopyFiles(source, copy);
      if ok {
        HandOut(copy, source);
      } else {
        var _ := RemoveAll(copy);
      }
    }

    /** `createChartCopy`: the copy is a new directory. It is removed when the copying fails. */
    method Copy(source: Dir) returns (r: Option<Dir>)
      requires Valid() && source in stored
      modifies this
      ensures Valid() && Later({})
      ensures r.Some? ==> r.value in dirs && r.value in handedOut && old(nextDir) <= r.value
      ensures r.Some? ==> charts[r.value] == old(charts)[source] && faults == old(faults)
      ensures r.None? ==> |faults| == |old(faults)| + 1 && CopyFault(faults[|old(faults)|], source)
    {
      r := MakeDir();
      if r.None? {
        return;
      }
      OtherCallers({r.value});
      var ok := FillCopy(source, r.value);
      if !ok {
        r := None;
      }
    }

    /** A chart that could not be prepared leaves its new directory on disk, with no entry for it. */
    ghost predicate GenerateFault(f: Fault, next: Dir)
      reads this
    {
      match f
      case NotMade => true
      case NotPrepared(d) => d == next && d in dirs && d in building && d !in PathsOf(entries)
      case SourceGone(d) => d in stored && d !in dirs
      case NotCopied(_) => true
      case NotRead(_) => false
    }

    /** A directory on disk with the chart for the key, given to a caller and not the cache's own. */
    ghost predicate IsCopyFor(key: string, d: Dir)
      reads this
    {
      d in dirs && d in handedOut && d !in stored && d !in PathsOf(entries) && d in charts && charts[d] == key
    }

    /** A directory with the chart becomes the cache's, and the caller gets a copy. */
    method StoreAndCopy(key: string, tmp: Dir) returns (r: Option<Dir>)
      requires Valid() && tmp in building
      modifies this
      ensures Valid() && Later({})
      ensures r.Some? ==> IsCopyFor(key, r.value) && old(nextDir) <= r.value && faults == old(faults)
      ensures r.None? ==> |faults| == |old(faults)| + 1 && CopyFault(faults[|old(faults)|], tmp) && tmp in stored
    {
      Set(key, tmp);
      OtherCallers({});
      r := Copy(tmp);
    }

    /** A chart for the key is prepared in a new directory, stored, and copied. */
    method Generate(key: string) returns (r: Option<Dir>)
      requires Valid()
      modifies this
      ensures Valid() && Later({})
      ensures r.Some? ==> IsCopyFor(key, r.value) && old(nextDir) <= r.value && faults == old(faults)
      ensures r.None? ==> |faults| == |old(faults)| + 1 && GenerateFault(faults[|old(faults)|], old(nextDir))
    {
      var tmp := MakeDir();
      if tmp.None? {
        return None;
      }
      OtherCallers({tmp.value});
      var ok := WriteChart(tmp.value);
      if !ok {
        return None;
      }
      r := StoreAndCopy(key, tmp.value);
    }

    /** A directory found in the cache is copied, if it is still there. */
    method Reuse(key: string, hit: Dir) returns (r: Option<Dir>)
      requires Valid() && hit in stored && charts[hit] == key
      modifies this
      ensures Valid() && Later({})
      ensures r.Some? ==> IsCopyFor(key, r.value) && old(nextDir) <= r.value && faults == old(faults)
      ensures r.None? ==> |faults| == |old(faults)| + 1 && GenerateFault(faults[|old(faults)|], 0)
    {
      OtherCallers({});
      r := Copy(hit);
    }

    /** Nothing usable in the cache: now and then a cleanup is started, and a chart is generated. */
    method GenerateWithCleanup(key: string) returns (r: Option<Dir>, ghost next: Dir)
      requires Valid()
      modifies this
      ensures Valid() && Later({}) && old(nextDir) <= next
      ensures r.Some? ==> IsCopyFor(key, r.value) && old(nextDir) <= r.value && faults == old(faults)
      ensures r.None? ==> |faults| == |old(faults)| + 1 && GenerateFault(faults[|old(faults)|], next)
    {
      var count := EntryCount();
      if count > 0 && count % 10 == 0 {
        // The cleanup runs on its own from here on, as any other caller's does.
        OtherCallers({});
      }
      next := nextDir;
      r := Generate(key);
    }

    /**
     From `start` on the caller only met directories it could not look at, and then the
     fault that stopped it, if any.
     */
    ghost predicate FailedWith(start: nat, next: Dir, failed: bool)
      reads this
    {
      && start <= |faults| && (failed ==> start < |faults| && GenerateFault(faults[|faults| - 1], next))
      && forall i :: start <= i < |faults| - (if failed then 1 else 0) ==> faults[i].NotRead?
    }

    /**
     `PrepareChart`, among other callers and with the cleanup it may start beside
     itself: the directory it returns is new, the caller's own, and holds the chart
     for the key; and it returns none only for a fault of its own disk calls, or when
     the directory it was to copy was removed meanwhile.
     */
    method PrepareChart(key: string) returns (r: Option<Dir>)
      requires Valid()
      modifies this
      ensures Valid() && Later({})
      ensures r.Some? ==> IsCopyFor(key, r.value) && old(nextDir) <= r.value
      ensures exists next :: FailedWith(|old(faults)|, next, r.None?)
    {
      var hit := Get(key);
      if hit.Some? {
        r := Reuse(key, hit.value);
        assert FailedWith(|old(faults)|, 0, r.None?);
        return;
      }
      ghost var next;
      r, next := GenerateWithCleanup(key);
      assert FailedWith(|old(faults)|, next, r.None?);
    }
  }
}
