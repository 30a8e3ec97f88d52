/** What the remembered job list shows, over any sequence of listings. */
module JobListRuns {
  import opened JobList

  // ----- one merge

  /** Job `i` is the first copy of its key that has not expired. */
  predicate FirstCopy(jobs: seq<Job>, expires: int, i: int) {
    && 0 <= i < |jobs| && Offered(jobs[i], expires)
    && forall j :: 0 <= j < i && Offered(jobs[j], expires) ==> Key(jobs[j]) != Key(jobs[i])
  }

  predicate Increasing(p: seq<int>) {
    forall i, j :: 0 <= i < j < |p| ==> p[i] < p[j]
  }

  predicate OfferedKey(jobs: seq<Job>, expires: int, key: (string, string)) {
    exists i :: 0 <= i < |jobs| && Offered(jobs[i], expires) && Key(jobs[i]) == key
  }

  /** A key is kept when some copy of it has not expired. */
  lemma {:induction false} KeptKeys(jobs: seq<Job>, expires: int, key: (string, string))
    ensures Holds(Merged(jobs, expires), key) <==> OfferedKey(jobs, expires, key)
    decreases |jobs|
  {
    if jobs != [] {
      var n := |jobs| - 1;
      var before, j := jobs[..n], jobs[n];
      KeptKeys(before, expires, key);
      var kept, all := Merged(before, expires), Merged(jobs, expires);
      var last := Offered(j, expires) && Key(j) == key;
      assert OfferedKey(jobs, expires, key) <==> OfferedKey(before, expires, key) || last by {
        if i :| 0 <= i < n && Offered(before[i], expires) && Key(before[i]) == key {
          assert Offered(jobs[i], expires) && Key(jobs[i]) == key;
        }
      }
      assert Holds(kept + [j], key) <==> Holds(kept, key) || Key(j) == key by {
        HoldsMore(kept, j, key);
      }
    }
  }

  lemma HoldsMore(jobs: seq<Job>, j: Job, key: (string, string))
    ensures Holds(jobs + [j], key) <==> Holds(jobs, key) || Key(j) == key
  {
    var more := jobs + [j];
    if i :| 0 <= i < |jobs| && Key(jobs[i]) == key {
      assert Key(more[i]) == key;
    }
    assert Key(more[|jobs|]) == Key(j);
  }

  /** A merge is the sequence of first unexpired copies, in the order they are offered: `p` tells where each
    one comes from, and leaves none out. */
  lemma {:induction false} MergedIsFirstCopies(jobs: seq<Job>, expires: int) returns (p: seq<int>)
    ensures |p| == |Merged(jobs, expires)| && Increasing(p)
    ensures forall k :: 0 <= k < |p| ==> FirstCopy(jobs, expires, p[k]) && jobs[p[k]] == Merged(jobs, expires)[k]
    ensures forall i :: FirstCopy(jobs, expires, i) ==> i in p
    decreases |jobs|
  {
    p := [];
    if jobs != [] {
      var n := |jobs| - 1;
      p := MergedIsFirstCopies(jobs[..n], expires);
      MergedStep(jobs, expires);
      hide *;
      FirstCopiesBefore(jobs, expires);
      if FirstCopy(jobs, expires, n) {
        p := MoreCopies(jobs, expires, p);
      } else {
        assert forall i :: FirstCopy(jobs, expires, i) ==> i in p;
      }
    }
  }

  lemma MergedStep(jobs: seq<Job>, expires: int)
    requires jobs != []
    ensures var n := |jobs| - 1;
            Merged(jobs, expires) == Merged(jobs[..n], expires) + if FirstCopy(jobs, expires, n) then [jobs[n]] else []
  {
    var n := |jobs| - 1;
    KeptKeys(jobs[..n], expires, Key(jobs[n]));
    LastIsFirst(jobs, expires);
  }

  lemma FirstCopiesBefore(jobs: seq<Job>, expires: int)
    requires jobs != []
    ensures forall i :: FirstCopy(jobs, expires, i) && i != |jobs| - 1 ==> FirstCopy(jobs[..|jobs| - 1], expires, i)
    ensures forall i :: FirstCopy(jobs[..|jobs| - 1], expires, i) ==> FirstCopy(jobs, expires, i) && 0 <= i < |jobs| - 1
  {
    hide FirstCopy;
    var before := jobs[..|jobs| - 1];
    forall i | FirstCopy(jobs, expires, i) && i != |jobs| - 1
      ensures FirstCopy(before, expires, i)
    {
      SameFirstCopy(jobs, expires, i);
    }
    forall i | FirstCopy(before, expires, i)
      ensures FirstCopy(jobs, expires, i) && 0 <= i < |jobs| - 1
    {
      SameFirstCopy(jobs, expires, i);
    }
  }

  lemma SameFirstCopy(jobs: seq<Job>, expires: int, i: int)
    requires jobs != []
    ensures FirstCopy(jobs[..|jobs| - 1], expires, i) <==> FirstCopy(jobs, expires, i) && 0 <= i < |jobs| - 1
    ensures FirstCopy(jobs, expires, i) ==> 0 <= i < |jobs|
  {
    hide Offered;
    if 0 <= i < |jobs| - 1 {
      assert forall j :: 0 <= j <= i ==> jobs[..|jobs| - 1][j] == jobs[j];
    }
  }

  lemma MoreCopies(jobs: seq<Job>, expires: int, p: seq<int>) returns (q: seq<int>)
    requires jobs != [] && FirstCopy(jobs, expires, |jobs| - 1)
    requires Merged(jobs, expires) == Merged(jobs[..|jobs| - 1], expires) + [jobs[|jobs| - 1]]
    requires |p| == |Merged(jobs[..|jobs| - 1], expires)| && Increasing(p)
    requires forall k :: 0 <= k < |p| ==> FirstCopy(jobs, expires, p[k]) && 0 <= p[k] < |jobs| - 1
    requires forall k :: 0 <= k < |p| ==> jobs[p[k]] == Merged(jobs[..|jobs| - 1], expires)[k]
    requires forall i :: FirstCopy(jobs, expires, i) && i != |jobs| - 1 ==> i in p
    ensures |q| == |Merged(jobs, expires)| && Increasing(q)
    ensures forall k :: 0 <= k < |q| ==> FirstCopy(jobs, expires, q[k]) && 0 <= q[k] < |jobs|
    ensures forall k :: 0 <= k < |q| ==> jobs[q[k]] == Merged(jobs, expires)[k]
    ensures forall i :: FirstCopy(jobs, expires, i) ==> i in q
  {
    hide Merged;
    hide FirstCopy;
    q := p + [|jobs| - 1];
  }

  lemma LastIsFirst(jobs: seq<Job>, expires: int)
    requires jobs != []
    ensures var n := |jobs| - 1;
            FirstCopy(jobs, expires, n) <==> Offered(jobs[n], expires) && !OfferedKey(jobs[..n], expires, Key(jobs[n]))
  {
    var n := |jobs| - 1;
    if j :| 0 <= j < n && Offered(jobs[j], expires) && Key(jobs[j]) == Key(jobs[n]) {
      assert jobs[..n][j] == jobs[j];
    }
  }

  /** The job has a name and a build, and the time that counts for it, of completion or else of creation, has not
    passed. */
  predicate Current(j: Job, expires: int) {
    j.job != "" && j.buildID != "" && (if j.completed != 0 then j.completed else j.created) >= expires
  }

  predicate SameBuild(a: Job, b: Job) {
    a.job == b.job && a.buildID == b.buildID
  }

  /** What a merge shows, in terms of the fields: only current jobs, no build twice, and of each build that has a
    current job the first such job. */
  lemma MergedShows(jobs: seq<Job>, expires: int)
    ensures var m := Merged(jobs, expires);
            && (forall a :: 0 <= a < |m| ==> Current(m[a], expires))
            && (forall a, b :: 0 <= a < b < |m| ==> !SameBuild(m[a], m[b]))
            && forall i :: 0 <= i < |jobs| && Current(jobs[i], expires) ==>
                 (jobs[i] in m || exists j :: 0 <= j < i && Current(jobs[j], expires) && SameBuild(jobs[j], jobs[i]))
  {
    var m := Merged(jobs, expires);
    var p := MergedIsFirstCopies(jobs, expires);
    forall a | 0 <= a < |m|
      ensures Current(m[a], expires)
    {
      assert FirstCopy(jobs, expires, p[a]);
    }
    forall a, b | 0 <= a < b < |m|
      ensures !SameBuild(m[a], m[b])
    {
      MergedKeysDiffer(jobs, expires, a, b);
    }
    hide Merged;
    forall i | 0 <= i < |jobs| && Current(jobs[i], expires)
      ensures jobs[i] in m || exists j :: 0 <= j < i && Current(jobs[j], expires) && SameBuild(jobs[j], jobs[i])
    {
      if FirstCopy(jobs, expires, i) {
        var k :| 0 <= k < |p| && p[k] == i;
        assert m[k] == jobs[i];
      } else {
        var j :| 0 <= j < i && Offered(jobs[j], expires) && Key(jobs[j]) == Key(jobs[i]);
        assert Current(jobs[j], expires) && SameBuild(jobs[j], jobs[i]);
      }
    }
  }

  /** How many of the jobs are of a kind. */
  function HowMany(jobs: seq<Job>, p: Job -> bool): nat {
    if jobs == [] then 0 else HowMany(jobs[..|jobs| - 1], p) + if p(jobs[|jobs| - 1]) then 1 else 0
  }

  function HasPassed(expires: int): Job -> bool {
    (j: Job) => (if j.completed != 0 then j.completed else j.created) < expires
  }

  function IsNameless(expires: int): Job -> bool {
    (j: Job) => !HasPassed(expires)(j) && (j.job == "" || j.buildID == "")
  }

  /** The counts of a merge: jobs whose time has passed, and the others that lack a name or a build. */
  lemma {:induction false} CountsAre(jobs: seq<Job>, expires: int)
    ensures Counted(jobs, expires).expired == HowMany(jobs, HasPassed(expires))
    ensures Counted(jobs, expires).empty == HowMany(jobs, IsNameless(expires))
  {
    if jobs != [] {
      CountsAre(jobs[..|jobs| - 1], expires);
    }
  }

  /** No key twice. */
  lemma {:induction false} MergedKeysDiffer(jobs: seq<Job>, expires: int, a: nat, b: nat)
    requires a < b < |Merged(jobs, expires)|
    ensures Key(Merged(jobs, expires)[a]) != Key(Merged(jobs, expires)[b])
  {
    var p := MergedIsFirstCopies(jobs, expires);
    assert FirstCopy(jobs, expires, p[a]) && FirstCopy(jobs, expires, p[b]) && p[a] < p[b];
  }

  function Duplicates(jobs: seq<Job>, expires: int): nat {
    if jobs == [] then 0
    else
      var n := |jobs| - 1;
      Duplicates(jobs[..n], expires) + if Offered(jobs[n], expires) && OfferedKey(jobs[..n], expires, Key(jobs[n]))
          then 1 else 0
  }

  /** Every job offered is kept, a duplicate, expired, or without a name. */
  lemma {:induction false} NothingUncounted(jobs: seq<Job>, expires: int)
    ensures var c := Counted(jobs, expires);
            |Merged(jobs, expires)| + Duplicates(jobs, expires) + c.expired + c.empty == |jobs|
    decreases |jobs|
  {
    if jobs != [] {
      var before, j := jobs[..|jobs| - 1], jobs[|jobs| - 1];
      NothingUncounted(before, expires);
      KeptKeys(before, expires, Key(j));
    }
  }

  // ----- listings one after another

  /** One `List` call that succeeds: what the listers answer, and the time before which jobs expire. */
  datatype Listing = Listing(lists: seq<seq<Job>>, expires: int)

  function Listed(seed: seq<Job>, l: Listing): seq<Job> {
    Merged(Flatten(l.lists + [seed]), l.expires)
  }

  function AfterAll(seed: seq<Job>, ls: seq<Listing>): seq<Job> {
    if ls == [] then seed else Listed(AfterAll(seed, ls[..|ls| - 1]), ls[|ls| - 1])
  }

  lemma FlattenSeed(l: Listing, seed: seq<Job>)
    ensures Flatten(l.lists + [seed]) == Flatten(l.lists) + seed
  {
    assert (l.lists + [seed])[..|l.lists|] == l.lists;
  }

  lemma OfferedConcat(a: seq<Job>, b: seq<Job>, expires: int, key: (string, string))
    ensures OfferedKey(a + b, expires, key) <==> OfferedKey(a, expires, key) || OfferedKey(b, expires, key)
  {
    var all := a + b;
    if i :| 0 <= i < |a| && Offered(a[i], expires) && Key(a[i]) == key {
      assert Offered(all[i], expires) && Key(all[i]) == key;
    }
    if i :| 0 <= i < |b| && Offered(b[i], expires) && Key(b[i]) == key {
      assert Offered(all[|a| + i], expires) && Key(all[|a| + i]) == key;
    }
    if i :| 0 <= i < |all| && Offered(all[i], expires) && Key(all[i]) == key {
      assert if i < |a| then all[i] == a[i] else all[i] == b[i - |a|];
    }
  }

  /** A key that was shown is not shown again exactly when no lister offers an unexpired copy and the
    remembered one has expired. */
  lemma LeavesOnlyWhenExpired(seed: seq<Job>, l: Listing, i: nat)
    requires i < |seed|
    requires forall k :: 0 <= k < |seed| && k != i ==> Key(seed[k]) != Key(seed[i])
    requires !Empty(seed[i])
    ensures !Holds(Listed(seed, l), Key(seed[i])) <==>
            Expired(seed[i], l.expires) && !OfferedKey(Flatten(l.lists), l.expires, Key(seed[i]))
  {
    FlattenSeed(l, seed);
    KeptKeys(Flatten(l.lists) + seed, l.expires, Key(seed[i]));
    OfferedConcat(Flatten(l.lists), seed, l.expires, Key(seed[i]));
    if k :| 0 <= k < |seed| && Offered(seed[k], l.expires) && Key(seed[k]) == Key(seed[i]) {
      assert k == i;
    }
    if Offered(seed[i], l.expires) {
      assert OfferedKey(seed, l.expires, Key(seed[i]));
    }
  }

  /** A copy that the listers offer is shown instead of the remembered one. */
  lemma ListersComeFirst(seed: seq<Job>, l: Listing, j: Job)
    requires j in Listed(seed, l) && OfferedKey(Flatten(l.lists), l.expires, Key(j))
    ensures j in Flatten(l.lists)
  {
    FlattenSeed(l, seed);
    var offered := Flatten(l.lists);
    var p := MergedIsFirstCopies(offered + seed, l.expires);
    var k :| 0 <= k < |Listed(seed, l)| && Listed(seed, l)[k] == j;
    assert FirstCopy(offered + seed, l.expires, p[k]) && (offered + seed)[p[k]] == j;
    var i :| 0 <= i < |offered| && Offered(offered[i], l.expires) && Key(offered[i]) == Key(j);
    assert (offered + seed)[i] == offered[i];
    assert p[k] <= i;
  }

  predicate Forward(ls: seq<Listing>) {
    forall i, j :: 0 <= i < j < |ls| ==> ls[i].expires <= ls[j].expires
  }

  /** While the listers offer no copy of it, a shown job stays shown, in the same copy, until it expires;
    time moves forward. */
  lemma {:induction false} StaysUntilExpired(seed: seq<Job>, ls: seq<Listing>, j: Job)
    requires j in seed && !Empty(j) && ls != [] && Forward(ls)
    requires forall k :: k in seed && Key(k) == Key(j) ==> k == j
    requires forall i :: 0 <= i < |ls| ==> !OfferedKey(Flatten(ls[i].lists), ls[i].expires, Key(j))
    ensures j in AfterAll(seed, ls) <==> !Expired(j, ls[|ls| - 1].expires)
    ensures forall k :: k in AfterAll(seed, ls) && Key(k) == Key(j) ==> k == j
    decreases |ls|
  {
    var n := |ls| - 1;
    var before := AfterAll(seed, ls[..n]);
    if n > 0 {
      StaysUntilExpired(seed, ls[..n], j);
      assert ls[n - 1].expires <= ls[n].expires;
    }
    OnlyCopyStays(before, ls[n], j);
  }

  /** One listing in which the remembered copies of a key are the only ones. */
  lemma OnlyCopyStays(seed: seq<Job>, l: Listing, j: Job)
    requires !Empty(j) && !OfferedKey(Flatten(l.lists), l.expires, Key(j))
    requires forall k :: k in seed && Key(k) == Key(j) ==> k == j
    ensures forall k :: k in Listed(seed, l) && Key(k) == Key(j) ==> k == j
    ensures j in Listed(seed, l) <==> j in seed && !Expired(j, l.expires)
  {
    FlattenSeed(l, seed);
    var all, next := Flatten(l.lists) + seed, Listed(seed, l);
    var p := MergedIsFirstCopies(all, l.expires);
    forall k | k in next && Key(k) == Key(j)
      ensures k == j && j in seed && !Expired(j, l.expires)
    {
      var i :| 0 <= i < |next| && next[i] == k;
      assert FirstCopy(all, l.expires, p[i]) && all[p[i]] == k;
      if p[i] >= |Flatten(l.lists)| {
        assert all[p[i]] == seed[p[i] - |Flatten(l.lists)|];
      }
    }
    if j in seed && !Expired(j, l.expires) {
      var i :| 0 <= i < |seed| && seed[i] == j;
      assert OfferedKey(seed, l.expires, Key(j));
      OfferedConcat(Flatten(l.lists), seed, l.expires, Key(j));
      KeptKeys(all, l.expires, Key(j));
      var k :| 0 <= k < |next| && Key(next[k]) == Key(j);
      assert next[k] in next;
    }
  }
}
