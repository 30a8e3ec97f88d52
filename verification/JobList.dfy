/** The remembered job list: every listing merges what the listers offer with the previous result, so that a
  job stays visible until it expires. */
module JobList {
  import opened Wrappers

  /** A time of 0 is Go's zero time. */
  datatype Job = Job(job: string, buildID: string, created: int, completed: int, state: string)

  function Key(j: Job): (string, string) {
    (j.job, j.buildID)
  }

  predicate Expired(j: Job, expires: int) {
    if j.completed == 0 then j.created < expires else j.completed < expires
  }

  predicate Empty(j: Job) {
    j.job == "" || j.buildID == ""
  }

  /** A job that a merge keeps unless it has kept one with the same key. */
  predicate Offered(j: Job, expires: int) {
    !Expired(j, expires) && !Empty(j)
  }

  predicate Holds(jobs: seq<Job>, key: (string, string)) {
    exists i :: 0 <= i < |jobs| && Key(jobs[i]) == key
  }

  function Flatten(lists: seq<seq<Job>>): seq<Job> {
    if lists == [] then [] else Flatten(lists[..|lists| - 1]) + lists[|lists| - 1]
  }

  function Merged(jobs: seq<Job>, expires: int): seq<Job> {
    if jobs == [] then []
    else
      var kept, j := Merged(jobs[..|jobs| - 1], expires), jobs[|jobs| - 1];
      if Offered(j, expires) && !Holds(kept, Key(j)) then kept + [j] else kept
  }

  datatype Counts = Counts(expired: nat, empty: nat)

  function Counted(jobs: seq<Job>, expires: int): Counts {
    if jobs == [] then Counts(0, 0)
    else
      var c, j := Counted(jobs[..|jobs| - 1], expires), jobs[|jobs| - 1];
      if Expired(j, expires) then c.(expired := c.expired + 1)
      else if Empty(j) then c.(empty := c.empty + 1)
      else c
  }

  // ----- slices

  /** A slice of jobs, or nil. */
  type JobSlice = Option<Slice<Job>>

  predicate Bounded(s: JobSlice) {
    s.Some? ==> s.value.len <= s.value.items.Length
  }

  function Cells(s: JobSlice): set<array<Job>> {
    if s.Some? then {s.value.items} else {}
  }

  function Content(s: JobSlice): (jobs: seq<Job>)
    requires Bounded(s)
    reads Cells(s)
  {
    if s.Some? then s.value.items[..s.value.len] else []
  }

  const NO_JOB := Job("", "", 0, 0, "")

  /** `append(s[:0], items...)`: written over the array of `s` when it is long enough. */
  method Overwrite(s: JobSlice, items: seq<Job>) returns (r: JobSlice)
    requires Bounded(s)
    modifies Cells(s)
    ensures Bounded(r) && Content(r) == items
    ensures Cells(r) <= Cells(s) || fresh(Cells(r))
    ensures r.None? <==> s.None? && items == []
  {
    if s.Some? && |items| <= s.value.items.Length {
      var a := s.value.items;
      for i := 0 to |items|
        invariant a[..i] == items[..i]
      {
        a[i] := items[i];
      }
      return Some(Slice(a, |items|));
    }
    if |items| == 0 {
      return None;
    }
    var a := new Job[|items|](i requires 0 <= i < |items| => items[i]);
    r := Some(Slice(a, |items|));
    assert a[..|items|] == items;
  }

  // ----- merging

  predicate KeysOf(keys: set<(string, string)>, jobs: seq<Job>) {
    forall i :: 0 <= i < |jobs| ==> Key(jobs[i]) in keys
  }

  ghost predicate Tracks(keys: set<(string, string)>, jobs: seq<Job>) {
    KeysOf(keys, jobs) && forall key :: key in keys ==> Holds(jobs, key)
  }

  lemma TracksMore(keys: set<(string, string)>, jobs: seq<Job>, j: Job)
    requires Tracks(keys, jobs)
    ensures Key(j) in keys <==> Holds(jobs, Key(j))
    ensures Tracks(keys + {Key(j)}, jobs + [j])
  {
    var more := jobs + [j];
    forall key | key in keys + {Key(j)}
      ensures Holds(more, key)
    {
      if key in keys {
        var i :| 0 <= i < |jobs| && Key(jobs[i]) == key;
        assert Key(more[i]) == key;
      } else {
        assert Key(more[|jobs|]) == key;
      }
    }
  }

  lemma NextJob(before: seq<Job>, jobs: seq<Job>, k: nat, expires: int)
    requires k < |jobs|
    ensures var all, j := before + jobs[..k], jobs[k];
            && Merged(before + jobs[..k + 1], expires) ==
               (if Offered(j, expires) && !Holds(Merged(all, expires), Key(j)) then Merged(all, expires) + [j]
                   else Merged(all, expires))
            && Counted(before + jobs[..k + 1], expires) ==
               (var c := Counted(all, expires);
                if Expired(j, expires) then c.(expired := c.expired + 1) else if Empty(j)
                    then c.(empty := c.empty + 1) else c)
  {
    var more := before + jobs[..k + 1];
    assert more[..|more| - 1] == before + jobs[..k];
  }

  /** The inner loop of `mergeJobs`, over one list, after the jobs `before`. */
  method MergeList(jobs: seq<Job>, expires: int, items: array<Job>, start: nat, keys: set<(string, string)>,
      counts: Counts,
                   ghost before: seq<Job>) returns (n: nat, more: set<(string, string)>, total: Counts)
    requires start + |jobs| <= items.Length
    requires items[..start] == Merged(before, expires) && Tracks(keys, items[..start])
    requires counts == Counted(before, expires)
    modifies items
    ensures start <= n <= start + |jobs|
    ensures items[..n] == Merged(before + jobs, expires) && Tracks(more, items[..n])
    ensures total == Counted(before + jobs, expires)
  {
    hide Expired;
    hide Empty;
    hide Tracks;
    hide Holds;
    hide Merged;
    hide Counted;
    n, more, total := start, keys, counts;
    assert before + jobs[..0] == before;
    for k := 0 to |jobs|
      invariant start <= n <= start + k
      invariant items[..n] == Merged(before + jobs[..k], expires) && Tracks(more, items[..n])
      invariant total == Counted(before + jobs[..k], expires)
    {
      var j := jobs[k];
      NextJob(before, jobs, k, expires);
      TracksMore(more, items[..n], j);
      if Expired(j, expires) {
        total := total.(expired := total.expired + 1);
        continue;
      }
      if Empty(j) {
        total := total.(empty := total.empty + 1);
        continue;
      }
      if Key(j) in more {
        continue;
      }
      ghost var had := items[..n];
      more := more + {Key(j)};
      items[n] := j;
      n := n + 1;
      assert items[..n] == had + [j];
    }
    assert jobs[..|jobs|] == jobs;
  }

  /** `mergeJobs`: the result is a new array with room for everything offered. */
  method MergeJobs(lists: seq<seq<Job>>, expires: int) returns (list: Slice<Job>, expiredCount: nat, emptyCount: nat)
    ensures list.len <= list.items.Length && fresh(list.items)
    ensures Content(Some(list)) == Merged(Flatten(lists), expires)
    ensures Counts(expiredCount, emptyCount) == Counted(Flatten(lists), expires)
  {
    hide Tracks;
    var size := 0;
    for i := 0 to |lists|
      invariant size == |Flatten(lists[..i])|
    {
      assert lists[..i + 1][..i] == lists[..i];
      size := size + |lists[i]|;
    }
    assert lists[..|lists|] == lists;
    var keys: set<(string, string)> := {};
    var items := new Job[size](_ => NO_JOB);
    var n, counts := 0, Counts(0, 0);
    NothingTracked();
    for i := 0 to |lists|
      invariant n <= |Flatten(lists[..i])| <= items.Length
      invariant items[..n] == Merged(Flatten(lists[..i]), expires) && Tracks(keys, items[..n])
      invariant counts == Counted(Flatten(lists[..i]), expires)
    {
      assert lists[..i + 1][..i] == lists[..i];
      FlattenGrows(lists, i + 1);
      n, keys, counts := MergeList(lists[i], expires, items, n, keys, counts, Flatten(lists[..i]));
    }
    list, expiredCount, emptyCount := Slice(items, n), counts.expired, counts.empty;
  }

  lemma NothingTracked()
    ensures Tracks({}, [])
  {
  }

  lemma {:induction false} FlattenGrows(lists: seq<seq<Job>>, i: nat)
    requires i <= |lists|
    ensures |Flatten(lists[..i])| <= |Flatten(lists)|
    decreases |lists|
  {
    if i < |lists| {
      assert lists[..|lists| - 1][..i] == lists[..i];
      FlattenGrows(lists[..|lists| - 1], i);
    } else {
      assert lists[..i] == lists;
    }
  }

  // ----- the watcher

  /** The initial lister: none, one that fails, or one that answers with a slice of its own. */
  datatype Initial = NoLister | Fails | Lists(slice: JobSlice)

  function OwnCells(initial: Initial): set<array<Job>> {
    if initial.Lists? then Cells(initial.slice) else {}
  }

  class ListWatcher {
    var lastList: JobSlice
    /** The arrays of the lists returned so far. */
    ghost var returned: set<array<Job>>

    /** The remembered list is kept in an array that no caller has. */
    ghost predicate Valid()
      reads this
    {
      Bounded(lastList) && Cells(lastList) !! returned
    }

    constructor ()
      ensures Valid() && lastList == None && returned == {}
    {
      lastList := None;
      returned := {};
    }

    /** The previous result; before there is one, what the initial lister answers. */
    ghost function Seed(initial: Initial): JobSlice
      reads this
    {
      if lastList.None? && initial.Lists? then initial.slice else lastList
    }

    method MostRecentJobs(initial: Initial) returns (ok: bool)
      requires Valid() && OwnCells(initial) !! returned && (initial.Lists? ==> Bounded(initial.slice))
      modifies this
      ensures Valid() && returned == old(returned)
      ensures ok <==> !(old(lastList).None? && initial.Fails?)
      ensures lastList == old(Seed(initial))
    {
      if lastList.Some? || initial.NoLister? {
        return true;
      }
      if initial.Fails? {
        return false;
      }
      lastList := initial.slice;
      ok := true;
    }

    /** `List`; `offered` is what the listers answer, or `None` when one of them fails. Only the array of the
      remembered list is written, so that no list returned before changes. */
    method List(initial: Initial, offered: Option<seq<seq<Job>>>, expires: int) returns (result: JobSlice)
      requires Valid() && OwnCells(initial) !! returned && (initial.Lists? ==> Bounded(initial.slice))
      modifies this, Cells(Seed(initial))
      ensures Valid()
      ensures result.None? <==> offered.None? || (old(lastList).None? && initial.Fails?)
      ensures result.None? ==> returned == old(returned) && Content(lastList) == old(Content(Seed(initial)))
      ensures result.Some? ==>
                && Bounded(result) && fresh(result.value.items)
                && returned == old(returned) + {result.value.items}
                && Content(result) == Merged(Flatten(offered.value + [old(Content(Seed(initial)))]), expires)
                && Content(lastList) == Content(result)
      ensures forall a :: a in old(returned) ==> a[..] == old(a[..])
    {
      var ok := MostRecentJobs(initial);
      if !ok || offered.None? {
        return None;
      }
      var lists := offered.value + [Content(lastList)];
      var merged, _, _ := MergeJobs(lists, expires);
      lastList := Overwrite(lastList, Content(Some(merged)));
      returned := returned + {merged.items};
      result := Some(merged);
    }
  }
}
