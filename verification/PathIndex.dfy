/** The index of stored files: newest first, looked up by path and searched until it is too old.
  Times are nanoseconds, 0 is Go's zero time. */
module PathIndex {
  import opened Wrappers
  import opened Sorting
  import opened Text

  /** A file that the walk found: its slash-separated path below the base, its own name, its modification
    time and its size. */
  datatype File = File(path: string, name: string, modified: int, size: nat)

  datatype Entry = Entry(path: string, index: string, age: int)

  datatype Stats = Stats(entries: nat, size: nat)

  const BUILD_LOG := "build-log.txt"
  const JUNIT := "junit.failures"

  function IndexName(name: string): Option<string> {
    if HasPrefix(name, BUILD_LOG) then Some(BUILD_LOG)
    else if HasPrefix(name, JUNIT) then Some(JUNIT)
    else None
  }

  predicate Expired(f: File, maxAge: int, now: int) {
    maxAge != 0 && f.modified < now - maxAge
  }

  predicate IsIndexed(f: File, maxAge: int, now: int) {
    !Expired(f, maxAge, now) && IndexName(f.name).Some?
  }

  /** The entries of a walk, in walk order. */
  function Indexed(files: seq<File>, maxAge: int, now: int): seq<Entry> {
    if files == [] then []
    else
      var f := files[|files| - 1];
      Indexed(files[..|files| - 1], maxAge, now)
      + if IsIndexed(f, maxAge, now) then [Entry(f.path, IndexName(f.name).value, f.modified)] else []
  }

  function SizeOf(files: seq<File>, maxAge: int, now: int): nat {
    if files == [] then 0
    else
      var f := files[|files| - 1];
      SizeOf(files[..|files| - 1], maxAge, now) + if IsIndexed(f, maxAge, now) then f.size else 0
  }

  /** The files that the walk deletes. */
  function Removed(files: seq<File>, maxAge: int, now: int): seq<string> {
    if files == [] then []
    else
      var f := files[|files| - 1];
      Removed(files[..|files| - 1], maxAge, now) + if Expired(f, maxAge, now) then [f.path] else []
  }

  const BY_AGE := (e: Entry) => -e.age

  /** Newest first; entries of the same age come in any order. */
  predicate IsNewestFirst(entries: seq<Entry>, ordered: seq<Entry>) {
    multiset(entries) == multiset(ordered) && forall i, j :: 0 <= i < j < |ordered| ==> ordered[i].age >= ordered[j].age
  }

  /** `strings.TrimPrefix`. */
  function TrimPrefix(s: string, prefix: string): string {
    if HasPrefix(s, prefix) then s[|prefix|..] else s
  }

  /** The position map: the last entry of a path counts. */
  function Positions(base: string, ordered: seq<Entry>): map<string, nat> {
    if ordered == [] then map[]
    else
      var n := |ordered| - 1;
      Positions(base, ordered[..n])[TrimPrefix(ordered[n].path, base) := n]
  }

  // ----- searching

  /** `strings.LastIndex(s, "/")`. */
  function LastSlash(s: string): (i: int)
    ensures -1 <= i < |s|
    ensures i >= 0 ==> s[i] == '/'
    ensures forall j :: i < j < |s| ==> s[j] != '/'
  {
    if s == "" then -1 else if s[|s| - 1] == '/' then |s| - 1 else LastSlash(s[..|s| - 1])
  }

  /** The job of a path that ends in `/<job>/<build>/<file>`. */
  function JobOf(path: string): Option<string> {
    var i := LastSlash(path);
    if i == -1 then None
    else
      var j := LastSlash(path[..i]);
      if j == -1 then None
      else
        var k := LastSlash(path[..j]);
        if k == -1 then None else Some(path[k + 1..j])
  }

  function FilenamesForSearchType(searchType: string): seq<string> {
    if searchType == "" || searchType == "bug+junit" || searchType == "junit" || searchType == "bug+issue+junit"
    then [JUNIT]
    else if searchType == "build-log" then [BUILD_LOG]
    else if searchType == "all" then [JUNIT, BUILD_LOG]
    else []
  }

  /** What a search asks for. `oldest` is 0 when any age will do. */
  datatype Query = Query(names: seq<string>, oldest: int, filter: Option<string -> bool>)

  predicate PassesFilter(q: Query, path: string) {
    q.filter.None? || JobOf(path).None? || q.filter.value(JobOf(path).value)
  }

  predicate Wanted(q: Query, e: Entry) {
    e.age >= q.oldest && PassesFilter(q, e.path) && e.index in q.names
  }

  function FullPath(base: string, path: string): string {
    base + "/" + path
  }

  /** The paths a search returns, by filtering every entry. */
  function Found(base: string, q: Query, ordered: seq<Entry>): seq<string> {
    if ordered == [] then []
    else
      var e := ordered[|ordered| - 1];
      Found(base, q, ordered[..|ordered| - 1]) + if Wanted(q, e) then [FullPath(base, e.path)] else []
  }

  /** The jobs a filtered search reports, whatever the type of their files. */
  function FoundJobs(q: Query, ordered: seq<Entry>): set<string> {
    if ordered == [] then {}
    else
      var e := ordered[|ordered| - 1];
      FoundJobs(q, ordered[..|ordered| - 1])
      + if e.age >= q.oldest && q.filter.Some? && JobOf(e.path).Some? && q.filter.value(JobOf(e.path).value)
        then {JobOf(e.path).value} else {}
  }

  // ----- the index as an object

  class Index {
    const base: string
    const maxAge: int
    var ordered: seq<Entry>
    var stats: Stats
    var positions: map<string, nat>

    ghost predicate Valid()
      reads this
    {
      && positions == Positions(base, ordered)
      && forall i, j :: 0 <= i < j < |ordered| ==> ordered[i].age >= ordered[j].age
    }

    constructor (base: string, maxAge: int)
      ensures this.base == base && this.maxAge == maxAge
      ensures Valid() && ordered == [] && stats == Stats(0, 0)
    {
      this.base := base;
      this.maxAge := maxAge;
      ordered := [];
      stats := Stats(0, 0);
      positions := map[];
    }

    /** `Load`, from the files of the walk; `removed` are the expired ones. */
    method Load(files: seq<File>, now: int) returns (removed: seq<string>)
      modifies this
      ensures Valid()
      ensures IsNewestFirst(Indexed(files, maxAge, now), ordered)
      ensures stats == Stats(|Indexed(files, maxAge, now)|, SizeOf(files, maxAge, now))
      ensures removed == Removed(files, maxAge, now)
    {
      removed := [];
      var list: seq<Entry> := [];
      var size := 0;
      for i := 0 to |files|
        invariant list == Indexed(files[..i], maxAge, now) && size == SizeOf(files[..i], maxAge, now)
        invariant removed == Removed(files[..i], maxAge, now)
      {
        assert files[..i + 1][..i] == files[..i];
        var f := files[i];
        if maxAge != 0 && now - maxAge > f.modified {
          removed := removed + [f.path];
          continue;
        }
        var indexName;
        if HasPrefix(f.name, BUILD_LOG) {
          indexName := BUILD_LOG;
        } else if HasPrefix(f.name, JUNIT) {
          indexName := JUNIT;
        } else {
          continue;
        }
        size := size + f.size;
        list := list + [Entry(f.path, indexName, f.modified)];
      }
      assert files[..|files|] == files;
      var sorted, index := SortEntries(list);
      ordered := sorted;
      positions := index;
      stats := Stats(|list|, size);
    }

    method SortEntries(list: seq<Entry>) returns (sorted: seq<Entry>, index: map<string, nat>)
      ensures IsNewestFirst(list, sorted) && index == Positions(base, sorted)
    {
      var items := new Entry[|list|](i requires 0 <= i < |list| => list[i]);
      assert items[..] == list;
      SortBy(items, BY_AGE);
      index := map[];
      for i := 0 to items.Length
        invariant index == Positions(base, items[..i])
      {
        assert items[..i + 1][..i] == items[..i];
        var path := TrimPrefix(items[i].path, base);
        index := index[path := i];
      }
      sorted := items[..];
      assert items[..items.Length] == sorted;
      assert forall i, j :: 0 <= i < j < |sorted| ==> BY_AGE(sorted[i]) <= BY_AGE(sorted[j]);
    }

    method LastModified(path: string) returns (age: int)
      requires Valid()
      ensures age == Lookup(base, ordered, path)
    {
      PositionsBounded(base, ordered);
      if path in positions {
        return ordered[positions[path]].age;
      }
      return 0;
    }

    /** `SearchPaths`, with its early exit at the first entry that is too old. */
    method SearchPaths(searchType: string, oldest: int, filter: Option<string -> bool>)
        returns (paths: seq<string>, jobNames: set<string>)
      requires Valid()
      ensures var q := Query(FilenamesForSearchType(searchType), oldest, filter);
              && paths == Found(base, q, ordered)
              && jobNames == if q.names == [] then {} else FoundJobs(q, ordered)
    {
      paths, jobNames := [], {};
      var q := Query(FilenamesForSearchType(searchType), oldest, filter);
      if q.names == [] {
        NothingFound(base, q, ordered);
        return;
      }
      var n := 0;
      while n < |ordered|
        invariant 0 <= n <= |ordered|
        invariant paths == Found(base, q, ordered[..n]) && jobNames == FoundJobs(q, ordered[..n])
      {
        assert ordered[..n + 1][..n] == ordered[..n];
        var e := ordered[n];
        if e.age < oldest {
          RestTooOld(base, q, ordered, n);
          return;
        }
        n := n + 1;
        if filter.Some? {
          var job := JobOf(e.path);
          if job.Some? {
            if !filter.value(job.value) {
              continue;
            }
            jobNames := jobNames + {job.value};
          }
        }
        if e.index in q.names {
          paths := paths + [FullPath(base, e.path)];
        }
      }
      assert ordered[..n] == ordered;
    }
  }

  /** What a lookup finds through the position map. */
  function Lookup(base: string, ordered: seq<Entry>, path: string): int {
    PositionsBounded(base, ordered);
    if path in Positions(base, ordered) then ordered[Positions(base, ordered)[path]].age else 0
  }

  lemma {:induction false} PositionsBounded(base: string, ordered: seq<Entry>)
    ensures forall p :: p in Positions(base, ordered) ==> Positions(base, ordered)[p] < |ordered|
  {
    if ordered != [] {
      PositionsBounded(base, ordered[..|ordered| - 1]);
    }
  }

  lemma {:induction false} NothingFound(base: string, q: Query, ordered: seq<Entry>)
    requires q.names == []
    ensures Found(base, q, ordered) == []
  {
    if ordered != [] {
      NothingFound(base, q, ordered[..|ordered| - 1]);
    }
  }

  /** Past the first entry that is too old there is nothing to find. */
  lemma {:induction false} RestTooOld(base: string, q: Query, ordered: seq<Entry>, n: nat)
    requires n < |ordered| && ordered[n].age < q.oldest
    requires forall i, j :: 0 <= i < j < |ordered| ==> ordered[i].age >= ordered[j].age
    ensures Found(base, q, ordered) == Found(base, q, ordered[..n])
    ensures FoundJobs(q, ordered) == FoundJobs(q, ordered[..n])
    decreases |ordered|
  {
    var before := ordered[..|ordered| - 1];
    if n < |before| {
      assert before[..n] == ordered[..n];
      RestTooOld(base, q, before, n);
    }
  }
}
