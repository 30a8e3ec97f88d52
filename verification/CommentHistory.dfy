/** What the comment store holds after any sequence of informer events and fetched comments. */
module CommentHistory {
  import opened CommentStore
  import opened Filters
  import opened Wrappers
  import T = BugzillaTimes

  datatype Event =
    | Add(info: BugInfo)
    | Update(info: BugInfo)
    | Delete(id: int)
    | Fetch(comments: map<int, seq<Comment>>, now: nat)

  /** Fetched comments are filtered and then merged. */
  function Step(includePrivate: bool, bugs: Bugs, e: Event): Bugs {
    match e
    case Add(info) => Added(bugs, info)
    case Update(info) => Updated(bugs, info)
    case Delete(id) => Deleted(bugs, id)
    case Fetch(comments, now) => Merged(bugs, FilteredAll(includePrivate, comments), now)
  }

  function After(includePrivate: bool, initial: Bugs, events: seq<Event>): Bugs {
    if events == [] then initial
    else Step(includePrivate, After(includePrivate, initial, events[..|events| - 1]), events[|events| - 1])
  }

  predicate Says(e: Event, id: int) {
    (e.Add? || e.Update?) && e.info.id == id
  }

  predicate Informs(e: Event, id: int) {
    Says(e, id) || e == Delete(id)
  }

  /** From event `n` on, nothing deletes the bug. */
  predicate Kept(events: seq<Event>, n: int, id: int) {
    forall m :: 0 <= n <= m < |events| ==> events[m] != Delete(id)
  }

  predicate Uninformed(events: seq<Event>, n: int, id: int) {
    forall m :: 0 <= n <= m < |events| ==> !Informs(events[m], id)
  }

  /** From event `n` on, every fetch of the bug is older than `refresh`. */
  predicate OlderFetches(events: seq<Event>, n: int, id: int, refresh: nat) {
    forall m :: 0 <= n <= m < |events| && events[m].Fetch? && id in events[m].comments ==> events[m].now < refresh
  }

  // ----- which bugs are stored

  predicate AddedAt(events: seq<Event>, n: int, id: int) {
    0 <= n < |events| && events[n].Add? && events[n].info.id == id && Kept(events, n, id)
  }

  /** A bug is stored exactly when it was added, or there at the start, and not deleted since: neither an
    update nor a fetch revives it. */
  lemma {:induction false} StoredWhenAdded(includePrivate: bool, initial: Bugs, events: seq<Event>, id: int)
    ensures id in After(includePrivate, initial, events) <==>
            (id in initial && Kept(events, 0, id)) || exists n :: AddedAt(events, n, id)
    decreases |events|
  {
    if events != [] {
      var n := |events| - 1;
      var before, e := events[..n], events[n];
      StoredWhenAdded(includePrivate, initial, before, id);
      if e == Delete(id) {
        assert forall k :: 0 <= k < |events| ==> !Kept(events, k, id);
      } else {
        assert forall k :: 0 <= k < n ==> (Kept(events, k, id) <==> Kept(before, k, id));
        assert forall k :: 0 <= k < n ==> (AddedAt(events, k, id) <==> AddedAt(before, k, id));
        assert e.Add? && e.info.id == id ==> AddedAt(events, n, id);
        assert n > 0 || Kept(before, 0, id);
      }
    }
  }

  // ----- the info of a stored bug

  predicate SaidAt(events: seq<Event>, n: int, id: int, info: BugInfo) {
    0 <= n < |events| && Says(events[n], id) && events[n].info == info && Uninformed(events, n + 1, id)
  }

  /** A stored bug has the info of the last informer event about it. */
  lemma {:induction false} InfoIsLatest(includePrivate: bool, initial: Bugs, events: seq<Event>, id: int)
    requires id in After(includePrivate, initial, events)
    ensures var info := After(includePrivate, initial, events)[id].info;
            (id in initial && info == initial[id].info && Uninformed(events, 0, id))
                || exists n :: SaidAt(events, n, id, info)
    decreases |events|
  {
    if events != [] {
      var n := |events| - 1;
      var before, e := events[..n], events[n];
      var info := After(includePrivate, initial, events)[id].info;
      if Says(e, id) {
        assert SaidAt(events, n, id, info);
      } else {
        InfoIsLatest(includePrivate, initial, before, id);
        assert info == After(includePrivate, initial, before)[id].info;
        if k :| SaidAt(before, k, id, info) {
          assert SaidAt(events, k, id, info);
        }
      }
    }
  }

  // ----- the comments of a stored bug

  /** `s` holds the comments of the fetch at `n`, as fetched or filtered, and their dates; it found the bug stored,
    and every later fetch was older. */
  predicate FetchedAt(includePrivate: bool, initial: Bugs, events: seq<Event>, n: int, id: int, s: Stored) {
    && 0 <= n < |events| && events[n].Fetch? && id in events[n].comments
    && id in After(includePrivate, initial, events[..n])
    && s.comments == (if includePrivate then events[n].comments[id] else Filtered(events[n].comments[id]))
    && s.refresh == events[n].now
    && s.created == D.OldestFrom(D.ZERO_TIME, s.comments)
    && s.resourceVersion == D.TimeToRV(D.NewestFrom(D.ZERO_TIME, s.comments))
    && Kept(events, n + 1, id) && OlderFetches(events, n + 1, id, s.refresh)
  }

  /** The bug was added at `n`, and its comments have not been fetched since. */
  predicate BornAt(includePrivate: bool, initial: Bugs, events: seq<Event>, n: int, id: int, s: Stored) {
    && 0 <= n < |events| && events[n].Add? && events[n].info.id == id
    && id !in After(includePrivate, initial, events[..n])
    && s.comments == [] && s.refresh == 0 && s.created == D.ZERO_TIME && s.resourceVersion == ""
    && Kept(events, n + 1, id) && OlderFetches(events, n + 1, id, 0)
  }

  predicate AsLoaded(initial: Bugs, events: seq<Event>, id: int, s: Stored) {
    && id in initial && s == initial[id].(info := s.info)
    && Kept(events, 0, id) && OlderFetches(events, 0, id, s.refresh)
  }

  /** What says where a bug's comments came from stays true under an event that leaves them alone. */
  lemma OriginStays(includePrivate: bool, initial: Bugs, before: seq<Event>, e: Event, k: int, id: int, s: Stored,
      t: Stored)
    requires t == s.(info := t.info) && e != Delete(id)
    requires e.Fetch? && id in e.comments ==> e.now < s.refresh
    ensures FetchedAt(includePrivate, initial, before, k, id, s) ==>
              FetchedAt(includePrivate, initial, before + [e], k, id, t)
    ensures BornAt(includePrivate, initial, before, k, id, s) ==>
            BornAt(includePrivate, initial, before + [e], k, id, t)
    ensures AsLoaded(initial, before, id, s) ==> AsLoaded(initial, before + [e], id, t)
  {
    if 0 <= k < |before| {
      assert (before + [e])[..k] == before[..k];
    }
  }

  lemma NowFetched(includePrivate: bool, initial: Bugs, before: seq<Event>, e: Event, id: int)
    requires e.Fetch? && id in e.comments && id in After(includePrivate, initial, before)
    requires e.now >= After(includePrivate, initial, before)[id].refresh
    ensures id in After(includePrivate, initial, before + [e])
    ensures FetchedAt(includePrivate, initial, before + [e], |before|, id,
                      After(includePrivate, initial, before + [e])[id])
  {
    hide D.OldestFrom;
    hide D.NewestFrom;
    hide D.TimeToRV;
    hide Filtered;
    var events := before + [e];
    assert events[..|before|] == before;
  }

  lemma NowBorn(includePrivate: bool, initial: Bugs, before: seq<Event>, e: Event, id: int)
    requires id !in After(includePrivate, initial, before) && id in After(includePrivate, initial, before + [e])
    ensures BornAt(includePrivate, initial, before + [e], |before|, id,
            After(includePrivate, initial, before + [e])[id])
  {
    assert (before + [e])[..|before|] == before;
    hide Refreshed;
    hide Filtered;
  }

  /** Any other event leaves the comments of a stored bug as they were. */
  lemma SameComments(includePrivate: bool, initial: Bugs, before: seq<Event>, e: Event, id: int)
    requires id in After(includePrivate, initial, before) && id in After(includePrivate, initial, before + [e])
    requires e.Fetch? && id in e.comments ==> e.now < After(includePrivate, initial, before)[id].refresh
    ensures e != Delete(id)
    ensures var s, t := After(includePrivate, initial, before)[id], After(includePrivate, initial, before + [e])[id];
            t == s.(info := t.info)
  {
    assert (before + [e])[..|before|] == before;
    hide Refreshed;
    hide Filtered;
  }

  /** A stored bug has the comments and the refresh time of its last accepted fetch, or those it was loaded
    with, or none when it was added and not fetched yet. */
  lemma {:induction false} CommentsAreLatest(includePrivate: bool, initial: Bugs, events: seq<Event>, id: int)
    requires id in After(includePrivate, initial, events)
    ensures var s := After(includePrivate, initial, events)[id];
            || AsLoaded(initial, events, id, s)
            || (exists n :: FetchedAt(includePrivate, initial, events, n, id, s))
            || (exists n :: BornAt(includePrivate, initial, events, n, id, s))
    decreases |events|
  {
    if events == [] {
      assert AsLoaded(initial, events, id, initial[id]);
      return;
    }
    hide FetchedAt;
    hide BornAt;
    hide AsLoaded;
    hide After;
    var before, e := events[..|events| - 1], events[|events| - 1];
    assert events == before + [e];
    var bugs := After(includePrivate, initial, before);
    if id !in bugs {
      NowBorn(includePrivate, initial, before, e, id);
    } else if e.Fetch? && id in e.comments && e.now >= bugs[id].refresh {
      NowFetched(includePrivate, initial, before, e, id);
    } else {
      CommentsAreLatest(includePrivate, initial, before, id);
      SameComments(includePrivate, initial, before, e, id);
      OneOrigin(includePrivate, initial, before, e, id, bugs[id], After(includePrivate, initial, events)[id]);
    }
  }

  /** The dates of fetched comments: the earliest of them, and the latest where their two times agree. */
  lemma FetchedDates(includePrivate: bool, initial: Bugs, events: seq<Event>, n: int, id: int, s: Stored)
    requires FetchedAt(includePrivate, initial, events, n, id, s)
    ensures s.comments == [] ==> s.created == D.ZERO_TIME && s.resourceVersion == ""
    ensures s.comments != [] && (forall i :: 0 <= i < |s.comments| ==> s.comments[i].creationTime != D.ZERO_TIME) ==>
              && (exists i :: 0 <= i < |s.comments| && s.comments[i].creationTime == s.created)
              && forall i :: 0 <= i < |s.comments| ==> !D.Before(s.comments[i].creationTime, s.created)
    ensures (forall i :: 0 <= i < |s.comments| ==> s.comments[i].time == s.comments[i].creationTime) ==>
              exists t: D.Time :: s.resourceVersion == D.TimeToRV(t)
                && !D.Before(t, D.ZERO_TIME) && T.NoneAfter(s.comments, 0, t)
                && (t == D.ZERO_TIME || exists i :: 0 <= i < |s.comments| && s.comments[i].creationTime == t)
  {
    if forall i :: 0 <= i < |s.comments| ==> s.comments[i].creationTime != D.ZERO_TIME {
      T.OldestIsOldest(D.ZERO_TIME, s.comments);
    }
    if forall i :: 0 <= i < |s.comments| ==> s.comments[i].time == s.comments[i].creationTime {
      T.NewestIsLatest(D.ZERO_TIME, s.comments);
    }
  }

  lemma OneOrigin(includePrivate: bool, initial: Bugs, before: seq<Event>, e: Event, id: int, s: Stored, t: Stored)
    requires t == s.(info := t.info) && e != Delete(id)
    requires e.Fetch? && id in e.comments ==> e.now < s.refresh
    requires || AsLoaded(initial, before, id, s)
             || (exists n :: FetchedAt(includePrivate, initial, before, n, id, s))
             || (exists n :: BornAt(includePrivate, initial, before, n, id, s))
    ensures || AsLoaded(initial, before + [e], id, t)
            || (exists n :: FetchedAt(includePrivate, initial, before + [e], n, id, t))
            || (exists n :: BornAt(includePrivate, initial, before + [e], n, id, t))
  {
    if k :| FetchedAt(includePrivate, initial, before, k, id, s) {
      OriginStays(includePrivate, initial, before, e, k, id, s, t);
    } else if k :| BornAt(includePrivate, initial, before, k, id, s) {
      OriginStays(includePrivate, initial, before, e, k, id, s, t);
    } else {
      OriginStays(includePrivate, initial, before, e, 0, id, s, t);
    }
  }

  // ----- refresh times and private comments

  /** While a bug stays stored, its refresh time never goes back. */
  lemma {:induction false} RefreshGrows(includePrivate: bool, initial: Bugs, first: seq<Event>, second: seq<Event>,
      id: int)
    requires id in After(includePrivate, initial, first) && Kept(second, 0, id)
    ensures id in After(includePrivate, initial, first + second)
    ensures After(includePrivate, initial, first)[id].refresh <=
            After(includePrivate, initial, first + second)[id].refresh
    decreases |second|
  {
    if second == [] {
      assert first + second == first;
    } else {
      var n := |second| - 1;
      assert (first + second)[..|first + second| - 1] == first + second[..n];
      RefreshGrows(includePrivate, initial, first, second[..n], id);
      assert second[n] != Delete(id);
    }
  }

  predicate AllPublic(comments: seq<Comment>) {
    forall i :: 0 <= i < |comments| ==> !comments[i].isPrivate
  }

  lemma {:induction false} PublicIsPublic(comments: seq<Comment>)
    ensures AllPublic(Public(comments))
    ensures Public(comments) == comments <==> AllPublic(comments)
    decreases |comments|
  {
    if comments != [] {
      var before, last := comments[..|comments| - 1], comments[|comments| - 1];
      PublicIsPublic(before);
      PublicStep(comments);
      PublicAll(comments);
      PublicAll(before);
      hide Public;
      assert comments == before + [last];
    }
  }

  lemma {:induction false} PublicCount(comments: seq<Comment>, c: Comment)
    ensures multiset(Public(comments))[c] == if c.isPrivate then 0 else multiset(comments)[c]
    decreases |comments|
  {
    if comments != [] {
      var before, last := comments[..|comments| - 1], comments[|comments| - 1];
      PublicCount(before, c);
      PublicStep(comments);
      hide Public;
      assert comments == before + [last];
      if last.isPrivate {
        assert Public(comments) == Public(before);
      }
    }
  }

  const KEEP_PUBLIC := (c: Comment) => if c.isPrivate then None else Some(c)

  lemma {:induction false} PublicInOrder(comments: seq<Comment>)
    ensures Picked(comments, KEEP_PUBLIC, Public(comments))
  {
    hide Picked;
    if comments == [] {
      NothingPicked(KEEP_PUBLIC);
    } else {
      PublicInOrder(comments[..|comments| - 1]);
      PublicStep(comments);
      PickedLast(comments, KEEP_PUBLIC, Public(comments[..|comments| - 1]), Public(comments));
    }
  }

  /** What filtering leaves is public, and is everything exactly when nothing was private; a bug with private
    comments only shows one placeholder, and a bug without comments shows none. */
  lemma {:induction false} FilterHidesPrivate(comments: seq<Comment>)
    ensures AllPublic(Filtered(comments))
    ensures Filtered(comments) == comments <==> AllPublic(comments)
    ensures Filtered(comments) == [] <==> comments == []
    ensures comments != [] && Public(comments) == [] ==>
              Filtered(comments) ==
              [comments[0].(creator := "Unknown", text := "<private comment>", isPrivate := false)]
  {
    PublicIsPublic(comments);
    hide Public;
  }

  /** Filtering keeps exactly the public comments, each as often as it was there and in their order, when there is
    one. */
  lemma {:induction false} FilterKeepsPublic(comments: seq<Comment>, public: Comment, c: Comment)
    requires public in comments && !public.isPrivate
    ensures Public(comments) != []
    ensures Picked(comments, KEEP_PUBLIC, Filtered(comments))
    ensures multiset(Filtered(comments))[c] == if c.isPrivate then 0 else multiset(comments)[c]
  {
    PublicCount(comments, public);
    PublicCount(comments, c);
    PublicInOrder(comments);
    hide Picked;
    hide Public;
    assert multiset(Public(comments))[public] == multiset(comments)[public] > 0;
  }

  /** Without access to private comments, none is ever stored. */
  lemma {:induction false} NoPrivateStored(initial: Bugs, events: seq<Event>, id: int)
    requires forall k :: k in initial ==> AllPublic(initial[k].comments)
    requires id in After(false, initial, events)
    ensures AllPublic(After(false, initial, events)[id].comments)
    decreases |events|
  {
    if events != [] {
      var e := events[|events| - 1];
      var bugs := After(false, initial, events[..|events| - 1]);
      if id in bugs {
        NoPrivateStored(initial, events[..|events| - 1], id);
      }
      if e.Fetch? && id in e.comments {
        FilterHidesPrivate(e.comments[id]);
      }
    }
  }
}
