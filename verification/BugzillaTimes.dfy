/** The creation time and the resource version of a bug, which its comments' times decide. */
module BugzillaTimes {
  import opened BugzillaDisk
  import opened BugzillaRoundTrip

  /** Times are ordered as the nanoseconds they count. */
  lemma BeforeIs(a: Time, b: Time)
    requires a.nano < 1_000_000_000 && b.nano < 1_000_000_000
    ensures Before(a, b) <==> 1_000_000_000 * a.sec + a.nano < 1_000_000_000 * b.sec + b.nano
  {
  }

  lemma {:induction false} OldestIsOldest(oldest: Time, cs: seq<BugComment>)
    requires forall i :: 0 <= i < |cs| ==> cs[i].creationTime != ZERO_TIME
    ensures var r := OldestFrom(oldest, cs);
            && (oldest != ZERO_TIME ==> !Before(oldest, r))
            && (forall i :: 0 <= i < |cs| ==> !Before(cs[i].creationTime, r))
            && (r == oldest || exists i :: 0 <= i < |cs| && cs[i].creationTime == r)
            && (cs != [] ==> r != ZERO_TIME)
    decreases |cs|
  {
    if cs != [] {
      var t := cs[0].creationTime;
      var next := if oldest == ZERO_TIME || Before(t, oldest) then t else oldest;
      OldestIsOldest(next, cs[1..]);
      var r := OldestFrom(oldest, cs);
      assert r == OldestFrom(next, cs[1..]);
      forall i | 0 <= i < |cs|
        ensures !Before(cs[i].creationTime, r)
      {
        assert i > 0 ==> cs[i] == cs[1..][i - 1];
      }
      if r != next {
        var i :| 0 <= i < |cs[1..]| && cs[1..][i].creationTime == r;
        assert cs[i + 1].creationTime == r;
      }
    }
  }

  /** The creation timestamp of a file that was read is the earliest comment's. */
  lemma CreatedIsOldest(info: BugInfo, cs: seq<BugComment>)
    requires info.id >= 0 && cs != []
    requires forall i :: 0 <= i < |cs| ==> cs[i].creationTime.sec != ZERO_TIME.sec
    ensures var r := FileReadBack(info, cs);
            && (exists i :: 0 <= i < |cs| && r.created == r.comments[i].creationTime)
            && forall i :: 0 <= i < |cs| ==> !Before(r.comments[i].creationTime, r.created)
  {
    hide HeaderReadBack;
    var again := MapReadBackAs(cs);
    OldestIsOldest(ZERO_TIME, again);
    var i :| 0 <= i < |again| && again[i].creationTime == OldestFrom(ZERO_TIME, again);
    assert FileReadBack(info, cs).created == FileReadBack(info, cs).comments[i].creationTime;
  }

  // ----- what the newest time is

  predicate NoneAfter(cs: seq<BugComment>, from: nat, t: Time) {
    forall j :: from <= j < |cs| ==> !Before(t, cs[j].time)
  }

  lemma {:induction false} NewestStep(newest: Time, cs: seq<BugComment>, c: BugComment)
    ensures NewestFrom(newest, cs + [c]) ==
            var r := NewestFrom(newest, cs); if Before(r, c.time) then c.creationTime else r
    decreases |cs|
  {
    if cs == [] {
      assert (cs + [c])[1..] == [];
    } else {
      assert (cs + [c])[1..] == cs[1..] + [c];
      NewestStep(if Before(newest, cs[0].time) then cs[0].creationTime else newest, cs[1..], c);
    }
  }

  /** The loop's guard holds for comment `k`, whose creation time is `t`, and no later comment replaces it. */
  predicate ChosenAt(newest: Time, cs: seq<BugComment>, t: Time, k: int) {
    && 0 <= k < |cs| && cs[k].creationTime == t
    && Before(NewestFrom(newest, cs[..k]), cs[k].time) && NoneAfter(cs, k + 1, t)
  }

  /** The newest time is the creation time of a comment that passed the guard such that no later one has a time
    after it; the loop compares one time and keeps the other. */
  lemma {:induction false} NewestIsChosen(newest: Time, cs: seq<BugComment>, t: Time)
    ensures NewestFrom(newest, cs) == t <==>
            (t == newest && NoneAfter(cs, 0, t)) || exists k :: ChosenAt(newest, cs, t, k)
    decreases |cs|
  {
    if cs != [] {
      var n := |cs| - 1;
      var before := cs[..n];
      assert cs == before + [cs[n]];
      NewestStep(newest, before, cs[n]);
      NewestIsChosen(newest, before, t);
      hide NewestFrom;
      assert ChosenAt(newest, cs, t, n) <==> cs[n].creationTime == t && Before(NewestFrom(newest, before), cs[n].time);
      forall k
        ensures ChosenAt(newest, cs, t, k) && k != n <==>
                ChosenAt(newest, before, t, k) && !Before(t, cs[n].time)
      {
        EarlierChosen(newest, cs, t, k);
      }
    }
  }

  lemma EarlierChosen(newest: Time, cs: seq<BugComment>, t: Time, k: int)
    requires cs != []
    ensures ChosenAt(newest, cs, t, k) && k != |cs| - 1 <==>
            ChosenAt(newest, cs[..|cs| - 1], t, k) && !Before(t, cs[|cs| - 1].time)
  {
    hide NewestFrom;
    var n := |cs| - 1;
    if 0 <= k < n {
      assert cs[..n][..k] == cs[..k];
    }
  }

  // ----- exactly when the newest time is the latest

  /** The latest creation time, and `newest` when none is after it. */
  function LatestFrom(newest: Time, cs: seq<BugComment>): Time {
    if cs == [] then newest
    else
      var r := LatestFrom(newest, cs[..|cs| - 1]);
      if Before(r, cs[|cs| - 1].creationTime) then cs[|cs| - 1].creationTime else r
  }

  lemma {:induction false} LatestIsLatest(newest: Time, cs: seq<BugComment>)
    ensures var r := LatestFrom(newest, cs);
            && !Before(r, newest) && (forall i :: 0 <= i < |cs| ==> !Before(r, cs[i].creationTime))
            && (r == newest || exists i :: 0 <= i < |cs| && cs[i].creationTime == r)
  {
    if cs != [] {
      var n := |cs| - 1;
      LatestIsLatest(newest, cs[..n]);
      if LatestFrom(newest, cs) != newest {
        if LatestFrom(newest, cs) == cs[n].creationTime {
        } else {
          var i :| 0 <= i < n && cs[..n][i].creationTime == LatestFrom(newest, cs);
          assert cs[i].creationTime == LatestFrom(newest, cs);
        }
      }
    }
  }

  /** The two times of a comment do not stand on different sides of `t`. */
  predicate SameSide(t: Time, c: BugComment) {
    if Before(t, c.time) then !Before(c.creationTime, t) else !Before(t, c.creationTime)
  }

  predicate LatestAt(newest: Time, cs: seq<BugComment>, n: int) {
    0 <= n <= |cs| ==> NewestFrom(newest, cs[..n]) == LatestFrom(newest, cs[..n])
  }

  predicate SameSideAt(newest: Time, cs: seq<BugComment>, i: int) {
    0 <= i < |cs| ==> SameSide(LatestFrom(newest, cs[..i]), cs[i])
  }

  /** After each comment the newest time is the latest creation time so far. */
  predicate AlwaysLatest(newest: Time, cs: seq<BugComment>) {
    forall n :: 0 <= n <= |cs| ==> LatestAt(newest, cs, n)
  }

  /** Both times of each comment stand on the same side of the latest creation time before it. */
  predicate AllSameSide(newest: Time, cs: seq<BugComment>) {
    forall i :: 0 <= i < |cs| ==> SameSideAt(newest, cs, i)
  }

  lemma SamePrefix(newest: Time, cs: seq<BugComment>, more: seq<BugComment>, k: int)
    requires 0 <= k <= |cs| && cs <= more
    ensures LatestAt(newest, more, k) <==> LatestAt(newest, cs, k)
    ensures k < |cs| ==> (SameSideAt(newest, more, k) <==> SameSideAt(newest, cs, k))
  {
    hide NewestFrom;
    hide LatestFrom;
    hide SameSide;
    assert more[..k] == cs[..k];
  }

  lemma OneMore(newest: Time, cs: seq<BugComment>, c: BugComment)
    ensures AlwaysLatest(newest, cs + [c]) <==> AlwaysLatest(newest, cs) && LatestAt(newest, cs + [c], |cs| + 1)
    ensures AllSameSide(newest, cs + [c]) <==> AllSameSide(newest, cs) && SameSideAt(newest, cs + [c], |cs|)
  {
    hide LatestAt;
    hide SameSideAt;
    var more := cs + [c];
    forall k | 0 <= k <= |cs|
      ensures LatestAt(newest, more, k) <==> LatestAt(newest, cs, k)
      ensures k < |cs| ==> (SameSideAt(newest, more, k) <==> SameSideAt(newest, cs, k))
    {
      SamePrefix(newest, cs, more, k);
    }
  }

  lemma StaysLatest(newest: Time, cs: seq<BugComment>, c: BugComment)
    requires LatestAt(newest, cs, |cs|)
    ensures LatestAt(newest, cs + [c], |cs| + 1) <==> SameSideAt(newest, cs + [c], |cs|)
  {
    var more := cs + [c];
    assert more[..|cs| + 1] == more && more[..|cs|] == cs && cs[..|cs|] == cs;
    NewestStep(newest, cs, c);
    hide NewestFrom;
  }

  /** The loop keeps the latest creation time if and only if no comment's two times stand on different sides of
    the latest creation time before it. */
  lemma {:induction false} LatestExactly(newest: Time, cs: seq<BugComment>)
    ensures AlwaysLatest(newest, cs) <==> AllSameSide(newest, cs)
    decreases |cs|
  {
    hide LatestAt;
    hide SameSideAt;
    if cs == [] {
      StartsLatest(newest, cs);
    } else {
      var before, c := cs[..|cs| - 1], cs[|cs| - 1];
      assert cs == before + [c];
      LatestExactly(newest, before);
      OneMore(newest, before, c);
      if AlwaysLatest(newest, before) {
        assert LatestAt(newest, before, |before|);
        StaysLatest(newest, before, c);
      }
    }
  }

  lemma StartsLatest(newest: Time, cs: seq<BugComment>)
    ensures LatestAt(newest, cs, 0)
  {
  }

  /** Where both times of each comment agree, the newest one is the latest of them and of the start. */
  lemma NewestIsLatest(newest: Time, cs: seq<BugComment>)
    requires forall i :: 0 <= i < |cs| ==> cs[i].time == cs[i].creationTime
    ensures var r := NewestFrom(newest, cs);
            && !Before(r, newest) && NoneAfter(cs, 0, r)
            && (r == newest || exists i :: 0 <= i < |cs| && cs[i].creationTime == r)
  {
    LatestExactly(newest, cs);
    LatestIsLatest(newest, cs);
    assert cs[..|cs|] == cs;
    hide NewestFrom;
    hide LatestFrom;
    assert LatestAt(newest, cs, |cs|);
  }

  /** Where they differ it need not be: a comment that was made earlier but has the later time comes out. */
  lemma NewestCanBeOlder(a: BugComment, b: BugComment)
    requires Before(ZERO_TIME, a.time) && Before(a.creationTime, b.time) && Before(b.creationTime, a.creationTime)
    ensures NewestFrom(ZERO_TIME, [a, b]) == b.creationTime
  {
    assert [a, b][1..] == [b] && [b][1..] == [];
    assert NewestFrom(ZERO_TIME, [a, b]) == NewestFrom(a.creationTime, [b]);
    assert NewestFrom(a.creationTime, [b]) == NewestFrom(b.creationTime, []);
  }

  /** The resource version of a file that was read is the latest comment's time, or empty when none is after
    the zero time. */
  lemma VersionIsNewest(info: BugInfo, cs: seq<BugComment>)
    requires info.id >= 0
    ensures var r := FileReadBack(info, cs);
            exists t: Time :: r.resourceVersion == TimeToRV(t) && !Before(t, ZERO_TIME)
                           && NoneAfter(r.comments, 0, t)
                           && (t == ZERO_TIME || exists i :: 0 <= i < |cs| && r.comments[i].creationTime == t)
  {
    hide HeaderReadBack;
    hide TimeToRV;
    var again := MapReadBackAs(cs);
    NewestIsLatest(ZERO_TIME, again);
    var t := NewestFrom(ZERO_TIME, again);
    assert FileReadBack(info, cs).resourceVersion == TimeToRV(t) && FileReadBack(info, cs).comments == again;
  }
}
