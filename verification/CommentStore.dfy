/** The in-memory store of bugs and their comments, fed by the bug informer and by fetched comments.
  A bug's key is its number; the informer names every bug by its number. */
module CommentStore {
  import opened Wrappers
  import W = PollingWatcher
  import D = BugzillaDisk

  type BugInfo = W.BugInfo
  type Comment = D.BugComment

  /** The value of a stored object. Refresh times count from the zero time. */
  datatype Stored = Stored(info: BugInfo, comments: seq<Comment>, refresh: nat, created: D.Time,
      resourceVersion: string)

  type Bugs = map<int, Stored>

  // ----- what each operation does to the stored bugs

  function Added(bugs: Bugs, info: BugInfo): Bugs {
    bugs[info.id := if info.id in bugs then bugs[info.id].(info := info) else Stored(info, [], 0, D.ZERO_TIME, "")]
  }

  function Updated(bugs: Bugs, info: BugInfo): Bugs {
    if info.id !in bugs then bugs else bugs[info.id := bugs[info.id].(info := info)]
  }

  function Deleted(bugs: Bugs, id: int): Bugs {
    bugs - {id}
  }

  /** `NewBugComments` for the comments of a bug, keeping what the informer said of it. */
  function Refreshed(existing: Stored, comments: seq<Comment>, now: nat): Stored {
    Stored(existing.info, comments, now, D.OldestFrom(D.ZERO_TIME, comments),
        D.TimeToRV(D.NewestFrom(D.ZERO_TIME, comments)))
  }

  function Merged(bugs: Bugs, fetched: map<int, seq<Comment>>, now: nat): Bugs {
    map id | id in bugs ::
      if id in fetched && Accepts(bugs, id, now) then Refreshed(bugs[id], fetched[id], now) else bugs[id]
  }

  /** A fetched bug is accepted when it is stored and was not refreshed later than `now`. */
  predicate Accepts(bugs: Bugs, id: int, now: nat) {
    id in bugs && bugs[id].refresh <= now
  }

  function AcceptedIds(bugs: Bugs, fetched: map<int, seq<Comment>>, now: nat): set<int> {
    set id | id in fetched && Accepts(bugs, id, now)
  }

  function MergedOne(bugs: Bugs, id: int, comments: seq<Comment>, now: nat): Bugs {
    if Accepts(bugs, id, now) then bugs[id := Refreshed(bugs[id], comments, now)] else bugs
  }

  function Public(comments: seq<Comment>): seq<Comment> {
    if comments == [] then []
    else Public(comments[..|comments| - 1]) + if comments[|comments| - 1].isPrivate then []
        else [comments[|comments| - 1]]
  }

  /** What a reader without access to private comments may see of a bug's comments. */
  function Filtered(comments: seq<Comment>): seq<Comment> {
    if comments != [] && Public(comments) == []
    then [comments[0].(text := "<private comment>", creator := "Unknown", isPrivate := false)]
    else Public(comments)
  }

  function FilteredAll(includePrivate: bool, fetched: map<int, seq<Comment>>): map<int, seq<Comment>> {
    map id | id in fetched :: if includePrivate then fetched[id] else Filtered(fetched[id])
  }

  // ----- the store as an object

  /** A stored bug. */
  class BugComments {
    var info: BugInfo
    var comments: seq<Comment>
    var refreshTime: nat
    var created: D.Time
    var resourceVersion: string

    function Value(): Stored
      reads this
    {
      Stored(info, comments, refreshTime, created, resourceVersion)
    }

    constructor (info: BugInfo)
      ensures Value() == Stored(info, [], 0, D.ZERO_TIME, "")
    {
      this.info := info;
      comments := [];
      refreshTime := 0;
      created := D.ZERO_TIME;
      resourceVersion := "";
    }

    method DeepCopyObject() returns (r: BugComments)
      ensures fresh(r) && r.Value() == Value()
    {
      r := new BugComments(info);
      r.comments := comments;
      r.refreshTime := refreshTime;
      r.created := created;
      r.resourceVersion := resourceVersion;
    }
  }

  class BugCommentsList {
    var bugs: map<int, seq<Comment>>

    constructor (bugs: map<int, seq<Comment>>)
      ensures this.bugs == bugs
    {
      this.bugs := bugs;
    }
  }

  /** No method of the store changes an object it holds or has handed out: each `modifies` clause names the
    store itself, never a `BugComments`. */
  class CommentStore {
    const includePrivate: bool
    const persistent: bool
    var store: map<int, BugComments>
    /** The bugs waiting for their comments to be fetched, and those waiting to be written to disk. */
    var queue: set<int>
    var changed: set<int>

    ghost function Contents(): Bugs
      reads this, store.Values
    {
      map id | id in store :: store[id].Value()
    }

    constructor (includePrivate: bool, persistent: bool)
      ensures this.includePrivate == includePrivate && this.persistent == persistent
      ensures Contents() == map[] && queue == {} && changed == {}
    {
      this.includePrivate := includePrivate;
      this.persistent := persistent;
      store := map[];
      queue := {};
      changed := {};
    }

    method Get(id: int) returns (bug: Option<BugComments>)
      ensures bug.Some? <==> id in Contents()
      ensures bug.Some? ==> id in store && bug.value == store[id]
    {
      bug := if id in store then Some(store[id]) else None;
    }

    method BugAdd(bug: BugInfo)
      modifies this
      ensures Contents() == Added(old(Contents()), bug)
      ensures queue == old(queue) + {bug.id} && changed == old(changed)
    {
      if bug.id in store {
        var existing := store[bug.id].DeepCopyObject();
        existing.info := bug;
        store := store[bug.id := existing];
      } else {
        var added := new BugComments(bug);
        store := store[bug.id := added];
      }
      queue := queue + {bug.id};
    }

    method BugUpdate(bug: BugInfo)
      modifies this
      ensures Contents() == Updated(old(Contents()), bug)
      ensures queue == old(queue)
      ensures changed == old(changed) +
                         if persistent && old(bug.id in Contents() && Contents()[bug.id].info != bug) then {bug.id}
                             else {}
    {
      var found := Get(bug.id);
      if found.None? {
        return;
      }
      if found.value.info == bug {
        assert Contents()[bug.id].(info := bug) == Contents()[bug.id];
        assert Contents()[bug.id := Contents()[bug.id]] == Contents();
        return;
      }
      var existing := found.value.DeepCopyObject();
      existing.info := bug;
      store := store[bug.id := existing];
      if persistent {
        changed := changed + {bug.id};
      }
    }

    /** `closed` tells whether the persistent store closes the bug. Without such a store the step that asks it
      to is a nil dereference. */
    method BugDelete(id: int, closed: bool) returns (panicked: bool)
      modifies this
      ensures Contents() == Deleted(old(Contents()), id) && changed == old(changed)
      ensures panicked <==> old(id in Contents()) && !persistent
      ensures queue == old(queue) + if old(id in Contents()) && persistent && closed then {id} else {}
    {
      panicked := false;
      if id !in store {
        assert Contents() - {id} == Contents();
        return;
      }
      store := store - {id};
      if !persistent {
        return true;
      }
      if !closed {
        return;
      }
      queue := queue + {id};
    }

    /** `filterComments` for one bug. */
    method FilterBug(comments: seq<Comment>) returns (kept: seq<Comment>)
      ensures kept == Filtered(comments)
    {
      if |comments| == 0 {
        return comments;
      }
      var copied := [];
      for i := 0 to |comments|
        invariant copied == Public(comments[..i])
      {
        assert comments[..i + 1][..i] == comments[..i];
        if comments[i].isPrivate {
          continue;
        }
        copied := copied + [comments[i]];
      }
      assert comments[..|comments|] == comments;
      if |copied| == |comments| {
        PublicAll(comments);
        return comments;
      }
      if |copied| == 0 {
        var comment := comments[0];
        copied := copied + [comment.(text := "<private comment>", creator := "Unknown", isPrivate := false)];
      }
      return copied;
    }

    method FilterComments(list: BugCommentsList)
      modifies list
      ensures list.bugs == FilteredAll(includePrivate, old(list.bugs))
    {
      hide Filtered;
      if includePrivate {
        return;
      }
      var all := list.bugs;
      var ids := all.Keys;
      while ids != {}
        invariant ids <= all.Keys
        invariant list.bugs == map id | id in all :: if id in ids then all[id] else Filtered(all[id])
        decreases |ids|
      {
        var id := Pick(ids);
        ids := ids - {id};
        var kept := FilterBug(list.bugs[id]);
        list.bugs := list.bugs[id := kept];
      }
    }

    /** `mergeBugs` for one bug. */
    method MergeBug(id: int, comments: seq<Comment>, now: nat)
      modifies this
      ensures Contents() == MergedOne(old(Contents()), id, comments, now)
      ensures queue == old(queue)
      ensures changed == old(changed) + if persistent && old(Accepts(Contents(), id, now)) then {id} else {}
    {
      hide D.OldestFrom;
      hide D.NewestFrom;
      hide D.TimeToRV;
      if id !in store {
        return;
      }
      var existing := store[id];
      if existing.refreshTime > now {
        return;
      }
      var updated := new BugComments(existing.info);
      updated.comments := comments;
      updated.created := D.OldestFrom(D.ZERO_TIME, comments);
      updated.resourceVersion := D.TimeToRV(D.NewestFrom(D.ZERO_TIME, comments));
      updated.refreshTime := now;
      assert updated.Value() == Refreshed(existing.Value(), comments, now);
      store := store[id := updated];
      if persistent {
        changed := changed + {id};
      }
    }

    /** The order in which the fetched bugs are visited does not matter. */
    method MergeBugs(list: BugCommentsList, now: nat)
      modifies this
      ensures Contents() == Merged(old(Contents()), list.bugs, now)
      ensures queue == old(queue)
      ensures changed == old(changed) +
                         set id | persistent && id in list.bugs && id in old(Contents())
                                  && old(Contents())[id].refresh <= now
    {
      hide Merged;
      hide MergedOne;
      hide Accepts;
      hide AcceptedIds;
      ghost var before := Contents();
      var fetched := list.bugs;
      var ids := fetched.Keys;
      ghost var done: map<int, seq<Comment>> := map[];
      MergeNothing(before, now);
      while ids != {}
        invariant ids <= fetched.Keys && done == fetched - ids
        invariant Contents() == Merged(before, done, now)
        invariant queue == old(queue)
        invariant changed == old(changed) + if persistent then AcceptedIds(before, done, now) else {}
        decreases |ids|
      {
        var id := Pick(ids);
        ids := ids - {id};
        MergeNext(before, done, id, fetched[id], now);
        done := done[id := fetched[id]];
        MergeBug(id, fetched[id], now);
      }
      assert done == fetched;
      AcceptedAre(persistent, before, fetched, now);
    }
  }

  lemma AcceptedAre(persistent: bool, bugs: Bugs, fetched: map<int, seq<Comment>>, now: nat)
    ensures (set id | persistent && id in fetched && id in bugs && bugs[id].refresh <= now) ==
            if persistent then AcceptedIds(bugs, fetched, now) else {}
  {
  }

  lemma MergeNothing(bugs: Bugs, now: nat)
    ensures Merged(bugs, map[], now) == bugs && AcceptedIds(bugs, map[], now) == {}
  {
  }

  lemma MergeNext(bugs: Bugs, fetched: map<int, seq<Comment>>, id: int, comments: seq<Comment>, now: nat)
    requires id !in fetched
    ensures Merged(bugs, fetched[id := comments], now) == MergedOne(Merged(bugs, fetched, now), id, comments, now)
    ensures AcceptedIds(bugs, fetched[id := comments], now) ==
            AcceptedIds(bugs, fetched, now) + if Accepts(Merged(bugs, fetched, now), id, now) then {id} else {}
  {
  }

  lemma PublicStep(comments: seq<Comment>)
    requires comments != []
    ensures var before, last := comments[..|comments| - 1], comments[|comments| - 1];
            Public(comments) == Public(before) + if last.isPrivate then [] else [last]
  {
  }

  lemma {:induction false} PublicAll(comments: seq<Comment>)
    ensures |Public(comments)| <= |comments|
    ensures |Public(comments)| == |comments| ==> Public(comments) == comments
  {
    if comments != [] {
      var before, last := comments[..|comments| - 1], comments[|comments| - 1];
      PublicAll(before);
      PublicStep(comments);
      hide Public;
      assert comments == before + [last];
    }
  }
}
