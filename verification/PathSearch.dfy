/** What looking up and searching the path index find, in terms of the files that were loaded. */
module PathSearch {
  import opened Wrappers
  import opened Text
  import opened PathIndex
  import opened Filters

  // ----- looking up

  /** The age of the first entry with this path. */
  function LinearLookup(ordered: seq<Entry>, path: string): int {
    if ordered == [] then 0
    else if ordered[0].path == path then ordered[0].age
    else LinearLookup(ordered[1..], path)
  }

  predicate DistinctPaths(ordered: seq<Entry>) {
    forall i, j :: 0 <= i < j < |ordered| ==> ordered[i].path != ordered[j].path
  }

  /** No path loses a first part that looks like the base. */
  predicate Untrimmed(base: string, ordered: seq<Entry>) {
    base == "" || forall i :: 0 <= i < |ordered| ==> !HasPrefix(ordered[i].path, base)
  }

  lemma {:induction false} LinearFinds(ordered: seq<Entry>, i: nat)
    requires DistinctPaths(ordered) && i < |ordered|
    ensures LinearLookup(ordered, ordered[i].path) == ordered[i].age
  {
    if i > 0 {
      assert ordered[0].path != ordered[i].path;
      LinearFinds(ordered[1..], i - 1);
    }
  }

  lemma {:induction false} LinearMisses(ordered: seq<Entry>, path: string)
    requires forall i :: 0 <= i < |ordered| ==> ordered[i].path != path
    ensures LinearLookup(ordered, path) == 0
  {
    if ordered != [] {
      LinearMisses(ordered[1..], path);
    }
  }

  /** The position map knows a path exactly when some entry is stored under it, and then the last such entry. */
  lemma {:induction false} PositionOf(base: string, ordered: seq<Entry>, path: string)
    ensures path in Positions(base, ordered) ==>
              Positions(base, ordered)[path] < |ordered|
              && TrimPrefix(ordered[Positions(base, ordered)[path]].path, base) == path
              && forall i :: Positions(base, ordered)[path] < i < |ordered| ==>
                   TrimPrefix(ordered[i].path, base) != path
    ensures path !in Positions(base, ordered) ==>
              forall i :: 0 <= i < |ordered| ==> TrimPrefix(ordered[i].path, base) != path
    decreases |ordered|
  {
    if ordered != [] {
      PositionOf(base, ordered[..|ordered| - 1], path);
    }
  }

  predicate LastStored(base: string, ordered: seq<Entry>, path: string, i: int) {
    && 0 <= i < |ordered| && TrimPrefix(ordered[i].path, base) == path
    && forall j :: i < j < |ordered| ==> TrimPrefix(ordered[j].path, base) != path
  }

  /** Looking up a path gives the age of the last entry stored under it, or the zero time. */
  lemma LookupIsLast(base: string, ordered: seq<Entry>, path: string)
    ensures (forall i :: 0 <= i < |ordered| ==> TrimPrefix(ordered[i].path, base) != path) ==>
              Lookup(base, ordered, path) == 0
    ensures forall i :: LastStored(base, ordered, path, i) ==> Lookup(base, ordered, path) == ordered[i].age
  {
    PositionOf(base, ordered, path);
    hide TrimPrefix;
    hide Positions;
  }

  lemma LookupIsLinear(base: string, ordered: seq<Entry>, path: string)
    requires DistinctPaths(ordered) && Untrimmed(base, ordered)
    ensures Lookup(base, ordered, path) == LinearLookup(ordered, path)
  {
    PositionOf(base, ordered, path);
    assert forall i :: 0 <= i < |ordered| ==> TrimPrefix(ordered[i].path, base) == ordered[i].path;
    if path in Positions(base, ordered) {
      LinearFinds(ordered, Positions(base, ordered)[path]);
    } else {
      LinearMisses(ordered, path);
    }
  }

  /** The longest of the paths that begin like the base. */
  lemma {:induction false} LongestTrimmed(base: string, ordered: seq<Entry>) returns (i: nat)
    requires exists j :: 0 <= j < |ordered| && HasPrefix(ordered[j].path, base)
    ensures i < |ordered| && HasPrefix(ordered[i].path, base)
    ensures forall j :: 0 <= j < |ordered| && HasPrefix(ordered[j].path, base) ==>
            |ordered[j].path| <= |ordered[i].path|
  {
    i :| 0 <= i < |ordered| && HasPrefix(ordered[i].path, base);
    for n := 0 to |ordered|
      invariant i < |ordered| && HasPrefix(ordered[i].path, base)
      invariant forall j :: 0 <= j < n && HasPrefix(ordered[j].path, base) ==> |ordered[j].path| <= |ordered[i].path|
    {
      if HasPrefix(ordered[n].path, base) && |ordered[n].path| > |ordered[i].path| {
        i := n;
      }
    }
  }

  /** For distinct paths with a modification time, looking up by position agrees with a linear search for
    every path if and only if no stored path begins with the base, or the base is empty. */
  lemma LookupAgreesExactly(base: string, ordered: seq<Entry>)
    requires DistinctPaths(ordered) && forall i :: 0 <= i < |ordered| ==> ordered[i].age != 0
    ensures (forall path :: Lookup(base, ordered, path) == LinearLookup(ordered, path)) <==> Untrimmed(base, ordered)
  {
    if Untrimmed(base, ordered) {
      forall path
        ensures Lookup(base, ordered, path) == LinearLookup(ordered, path)
      {
        LookupIsLinear(base, ordered, path);
      }
    } else {
      var i := LongestTrimmed(base, ordered);
      var path := ordered[i].path;
      PositionOf(base, ordered, path);
      LinearFinds(ordered, i);
      assert Lookup(base, ordered, path) != LinearLookup(ordered, path);
    }
  }

  // ----- searching

  predicate FoundAt(base: string, q: Query, ordered: seq<Entry>, path: string, i: int) {
    0 <= i < |ordered| && Wanted(q, ordered[i]) && FullPath(base, ordered[i].path) == path
  }

  lemma {:induction false} FoundIs(base: string, q: Query, ordered: seq<Entry>, path: string)
    ensures path in Found(base, q, ordered) <==> exists i :: FoundAt(base, q, ordered, path, i)
    decreases |ordered|
  {
    if ordered != [] {
      var n := |ordered| - 1;
      FoundIs(base, q, ordered[..n], path);
      assert forall i :: 0 <= i < n ==>
          (FoundAt(base, q, ordered, path, i) <==> FoundAt(base, q, ordered[..n], path, i));
      assert FoundAt(base, q, ordered, path, n) <==> Wanted(q, ordered[n]) && FullPath(base, ordered[n].path) == path;
    }
  }

  predicate FileFound(base: string, q: Query, files: seq<File>, maxAge: int, now: int, path: string, f: File) {
    && f in files && IsIndexed(f, maxAge, now)
    && Wanted(q, Entry(f.path, IndexName(f.name).value, f.modified))
    && FullPath(base, f.path) == path
  }

  predicate IsEntryOf(f: File, maxAge: int, now: int, e: Entry) {
    IsIndexed(f, maxAge, now) && e == Entry(f.path, IndexName(f.name).value, f.modified)
  }

  lemma {:induction false} IndexedIs(files: seq<File>, maxAge: int, now: int, e: Entry)
    ensures e in Indexed(files, maxAge, now) <==>
            exists f :: f in files && IsEntryOf(f, maxAge, now, e)
    decreases |files|
  {
    if files != [] {
      var n := |files| - 1;
      IndexedIs(files[..n], maxAge, now, e);
      forall f
        ensures f in files <==> f in files[..n] || f == files[n]
      {
        assert files == files[..n] + [files[n]];
      }
      var before := Indexed(files[..n], maxAge, now);
      assert IsEntryOf(files[n], maxAge, now, e) <==> e in Indexed(files, maxAge, now)[|before|..];
    }
  }

  /** A search after a load returns exactly the loaded files that are young enough, of a type asked for, and,
    where the path tells the job, of a job the filter lets through, however equal ages were ordered. */
  lemma SearchFindsFiles(base: string, q: Query, files: seq<File>, maxAge: int, now: int, ordered: seq<Entry>,
      path: string)
    requires IsNewestFirst(Indexed(files, maxAge, now), ordered)
    ensures path in Found(base, q, ordered) <==> exists f :: FileFound(base, q, files, maxAge, now, path, f)
  {
    var entries := Indexed(files, maxAge, now);
    FoundIs(base, q, ordered, path);
    assert forall e :: e in ordered <==> e in multiset(ordered);
    assert forall e :: e in entries <==> e in multiset(entries);
    if i :| FoundAt(base, q, ordered, path, i) {
      var e := ordered[i];
      assert e in entries;
      IndexedIs(files, maxAge, now, e);
      var f :| f in files && IsEntryOf(f, maxAge, now, e);
      assert FileFound(base, q, files, maxAge, now, path, f);
    }
    if f :| FileFound(base, q, files, maxAge, now, path, f) {
      var e := Entry(f.path, IndexName(f.name).value, f.modified);
      IndexedIs(files, maxAge, now, e);
      assert e in ordered;
      var i :| 0 <= i < |ordered| && ordered[i] == e;
      assert FoundAt(base, q, ordered, path, i);
    }
  }

  // ----- what a load keeps and deletes, and the order of what a search finds

  predicate TooOld(f: File, maxAge: int, now: int) {
    maxAge != 0 && f.modified < now - maxAge
  }

  function IfTooOld(maxAge: int, now: int): File -> Option<string> {
    (f: File) => if TooOld(f, maxAge, now) then Some(f.path) else None
  }

  /** A load deletes exactly the files older than the maximum age, each once, whatever their type; without a maximum
    age it deletes none. */
  lemma {:induction false} RemovedAre(files: seq<File>, maxAge: int, now: int)
    ensures Picked(files, IfTooOld(maxAge, now), Removed(files, maxAge, now))
  {
    hide Picked;
    if files == [] {
      NothingPicked(IfTooOld(maxAge, now));
    } else {
      var before := files[..|files| - 1];
      RemovedAre(before, maxAge, now);
      PickedLast(files, IfTooOld(maxAge, now), Removed(before, maxAge, now), Removed(files, maxAge, now));
    }
  }

  function IfIndexed(maxAge: int, now: int): File -> Option<Entry> {
    (f: File) =>
      if TooOld(f, maxAge, now) then None
      else if "build-log.txt" <= f.name then Some(Entry(f.path, "build-log.txt", f.modified))
      else if "junit.failures" <= f.name then Some(Entry(f.path, "junit.failures", f.modified))
      else None
  }

  /** A load indexes exactly the other files whose names begin in one of the two ways, each once. */
  lemma {:induction false} IndexedAre(files: seq<File>, maxAge: int, now: int)
    ensures Picked(files, IfIndexed(maxAge, now), Indexed(files, maxAge, now))
  {
    hide Picked;
    if files == [] {
      NothingPicked(IfIndexed(maxAge, now));
    } else {
      var before := files[..|files| - 1];
      IndexedAre(before, maxAge, now);
      PickedLast(files, IfIndexed(maxAge, now), Indexed(before, maxAge, now), Indexed(files, maxAge, now));
    }
  }

  function SizeIfIndexed(maxAge: int, now: int): File -> Option<nat> {
    (f: File) =>
      if !TooOld(f, maxAge, now) && ("build-log.txt" <= f.name || "junit.failures" <= f.name)
      then Some(f.size)
      else None
  }

  function Total(sizes: seq<nat>): nat {
    if sizes == [] then 0 else Total(sizes[..|sizes| - 1]) + sizes[|sizes| - 1]
  }

  /** The size of an index is the total of its files' sizes. */
  lemma {:induction false} SizeIsTotal(files: seq<File>, maxAge: int, now: int) returns (sizes: seq<nat>)
    ensures Picked(files, SizeIfIndexed(maxAge, now), sizes) && SizeOf(files, maxAge, now) == Total(sizes)
  {
    hide Picked;
    sizes := [];
    if files == [] {
      NothingPicked(SizeIfIndexed(maxAge, now));
    } else {
      var f := files[|files| - 1];
      var before := SizeIsTotal(files[..|files| - 1], maxAge, now);
      var kept := SizeIfIndexed(maxAge, now)(f);
      sizes := before + if kept.Some? then [kept.value] else [];
      PickedLast(files, SizeIfIndexed(maxAge, now), before, sizes);
      assert kept.Some? <==> IsIndexed(f, maxAge, now);
      hide IsIndexed;
      if kept.Some? {
        assert sizes[..|sizes| - 1] == before && sizes[|sizes| - 1] == f.size;
      } else {
        assert sizes == before;
      }
    }
  }

  function IfWanted(base: string, q: Query): Entry -> Option<string> {
    (e: Entry) => if Wanted(q, e) then Some(FullPath(base, e.path)) else None
  }

  /** A search returns one path for each entry wanted, in the order of the index: newest first. */
  lemma {:induction false} FoundInOrder(base: string, q: Query, ordered: seq<Entry>)
    ensures Picked(ordered, IfWanted(base, q), Found(base, q, ordered))
  {
    hide Picked;
    if ordered == [] {
      NothingPicked(IfWanted(base, q));
    } else {
      var before := ordered[..|ordered| - 1];
      FoundInOrder(base, q, before);
      PickedLast(ordered, IfWanted(base, q), Found(base, q, before), Found(base, q, ordered));
    }
  }

  // ----- search types

  /** The names of the files that a type of search is about. */
  predicate OfType(searchType: string, name: string) {
    || (searchType in ["", "junit", "bug+junit", "bug+issue+junit", "all"] && "junit.failures" <= name)
    || (searchType in ["build-log", "all"] && "build-log.txt" <= name)
  }

  predicate TypeFinds(base: string, searchType: string, oldest: int, filter: Option<string -> bool>, maxAge: int,
      now: int, path: string, f: File) {
    && OfType(searchType, f.name) && !TooOld(f, maxAge, now) && f.modified >= oldest
    && (filter.None? || JobOf(f.path).None? || filter.value(JobOf(f.path).value))
    && base + "/" + f.path == path
  }

  lemma TypeOfName(searchType: string, name: string)
    ensures OfType(searchType, name) <==>
            IndexName(name).Some? && IndexName(name).value in FilenamesForSearchType(searchType)
  {
    assert JUNIT != BUILD_LOG && JUNIT[0] != BUILD_LOG[0];
    assert HasPrefix(name, JUNIT) ==> name[0] == 'j';
    assert HasPrefix(name, BUILD_LOG) ==> name[0] == 'b';
  }

  /** A search of a type after a load returns exactly the files whose names begin as that type says, and that are
    neither too old for the index nor for the search, nor of a job the filter keeps out. */
  lemma TypeSearchFindsFiles(base: string, searchType: string, oldest: int, filter: Option<string -> bool>,
      files: seq<File>, maxAge: int, now: int, ordered: seq<Entry>, path: string)
    requires IsNewestFirst(Indexed(files, maxAge, now), ordered)
    ensures var q := Query(FilenamesForSearchType(searchType), oldest, filter);
            path in Found(base, q, ordered) <==>
            exists f :: f in files && TypeFinds(base, searchType, oldest, filter, maxAge, now, path, f)
  {
    var q := Query(FilenamesForSearchType(searchType), oldest, filter);
    SearchFindsFiles(base, q, files, maxAge, now, ordered, path);
    hide Found;
    hide IsNewestFirst;
    hide Indexed;
    forall f
      ensures FileFound(base, q, files, maxAge, now, path, f) <==>
              f in files && TypeFinds(base, searchType, oldest, filter, maxAge, now, path, f)
    {
      TypeOfName(searchType, f.name);
      hide OfType;
      hide FilenamesForSearchType;
      hide JobOf;
    }
  }

  predicate ReportsJob(q: Query, e: Entry, job: string) {
    e.age >= q.oldest && q.filter.Some? && JobOf(e.path) == Some(job) && q.filter.value(job)
  }

  /** A filtered search reports exactly the jobs it let through, whatever the type of their files. */
  lemma {:induction false} JobsReported(q: Query, ordered: seq<Entry>, job: string)
    ensures job in FoundJobs(q, ordered) <==> exists i :: 0 <= i < |ordered| && ReportsJob(q, ordered[i], job)
    decreases |ordered|
  {
    hide JobOf;
    if ordered != [] {
      var n := |ordered| - 1;
      JobsReported(q, ordered[..n], job);
      if i :| 0 <= i < n && ReportsJob(q, ordered[..n][i], job) {
        assert ReportsJob(q, ordered[i], job);
      }
      assert job in FoundJobs(q, ordered) <==> job in FoundJobs(q, ordered[..n]) || ReportsJob(q, ordered[n], job);
    }
  }

  // ----- the job of a path

  predicate NoSlash(s: string) {
    '/' !in s
  }

  lemma {:induction false} LastSlashIs(before: string, last: string)
    requires NoSlash(last)
    ensures LastSlash(before + "/" + last) == |before|
    decreases |last|
  {
    var s := before + "/" + last;
    if last != "" {
      assert s[..|s| - 1] == before + "/" + last[..|last| - 1];
      LastSlashIs(before, last[..|last| - 1]);
    }
  }

  /** The job is the third part of a path from its end; a shorter path has none and passes every filter. */
  lemma JobOfPath(before: string, job: string, build: string, file: string)
    requires NoSlash(job) && NoSlash(build) && NoSlash(file)
    ensures JobOf(before + "/" + job + "/" + build + "/" + file) == Some(job)
    ensures JobOf(job + "/" + build + "/" + file) == None
  {
    LastSlashIs(before + "/" + job + "/" + build, file);
    LastSlashIs(before + "/" + job, build);
    LastSlashIs(before, job);
    var path := before + "/" + job + "/" + build + "/" + file;
    assert path[..LastSlash(path)] == before + "/" + job + "/" + build;
    assert (before + "/" + job + "/" + build)[..|before + "/" + job|] == before + "/" + job;
    assert path[..|before + "/" + job|] == before + "/" + job;
    assert path[|before| + 1..|before + "/" + job|] == job;
    LastSlashIs(job + "/" + build, file);
    LastSlashIs(job, build);
    var short := job + "/" + build + "/" + file;
    assert short[..LastSlash(short)] == job + "/" + build;
    assert short[..|job|] == job;
  }
}
