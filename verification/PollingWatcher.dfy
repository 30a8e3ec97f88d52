/** The bug watcher: it polls for bugs changed since a watermark, sends them as events, and moves the
  watermark to the latest change seen. Times are nanoseconds since Go's zero time. */
module PollingWatcher {
  import opened Filters
  import opened Sorting
  import opened Wrappers

  const SECOND := 1_000_000_000

  datatype BugInfo = BugInfo(id: int, created: nat, changed: nat, status: string)

  datatype Event = Added(info: BugInfo) | Modified(info: BugInfo) | Error

  /** A watch: the watermark, everything sent on the channel so far, and whether it is still open. */
  datatype Watch = Watch(rv: nat, sent: seq<Event>, open: bool)

  /** `time.Truncate(time.Second)`, and also what is left of a time printed in RFC 3339 and read back. */
  function Truncate(t: nat): (r: nat)
    ensures r <= t < r + SECOND && r % SECOND == 0
  {
    t - t % SECOND
  }

  /** A watch starts on the next visible change. */
  function Start(rv: nat): Watch {
    Watch(Truncate(rv) + SECOND, [], true)
  }

  /** A function that says which bugs a list includes; without one it includes every bug. */
  type IncludeFn = Option<BugInfo -> bool>

  predicate Includes(includeFn: IncludeFn, b: BugInfo) {
    includeFn.None? || includeFn.value(b)
  }

  function Included(includeFn: IncludeFn, bugs: seq<BugInfo>): seq<BugInfo> {
    if bugs == [] then []
    else
      var items := Included(includeFn, bugs[..|bugs| - 1]);
      if Includes(includeFn, bugs[|bugs| - 1]) then items + [bugs[|bugs| - 1]] else items
  }

  /** A list includes a bug exactly when the function accepts it. */
  lemma {:induction false} IncludedIs(includeFn: IncludeFn, bugs: seq<BugInfo>, b: BugInfo)
    ensures b in Included(includeFn, bugs) <==> b in bugs && Includes(includeFn, b)
  {
    if bugs != [] {
      IncludedIs(includeFn, bugs[..|bugs| - 1], b);
      assert bugs == bugs[..|bugs| - 1] + [bugs[|bugs| - 1]];
    }
  }

  function KeepIncluded(includeFn: IncludeFn): BugInfo -> Option<BugInfo> {
    (b: BugInfo) => if includeFn.None? || includeFn.value(b) then Some(b) else None
  }

  /** A list holds the included bugs, each as often as it was returned, in the order they came. */
  lemma {:induction false} IncludedInOrder(includeFn: IncludeFn, bugs: seq<BugInfo>)
    ensures Picked(bugs, KeepIncluded(includeFn), Included(includeFn, bugs))
  {
    hide Picked;
    if bugs == [] {
      NothingPicked(KeepIncluded(includeFn));
    } else {
      IncludedInOrder(includeFn, bugs[..|bugs| - 1]);
      PickedLast(bugs, KeepIncluded(includeFn), Included(includeFn, bugs[..|bugs| - 1]), Included(includeFn, bugs));
    }
  }

  lemma {:induction false} AllIncluded(bugs: seq<BugInfo>)
    ensures Included(None, bugs) == bugs
  {
    if bugs != [] {
      AllIncluded(bugs[..|bugs| - 1]);
    }
  }

  /** The latest change, or the zero time when there is none. */
  function Latest(items: seq<BugInfo>): nat {
    if items == [] then 0
    else
      var t := Latest(items[..|items| - 1]);
      if t < items[|items| - 1].changed then items[|items| - 1].changed else t
  }

  /** A possible outcome of sorting: the order of bugs changed at the same time is open. */
  predicate IsOrder(items: seq<BugInfo>, order: seq<BugInfo>) {
    multiset(items) == multiset(order) && Ascending(order, (b: BugInfo) => b.changed)
  }

  function EventFor(rv: nat, b: BugInfo): Event {
    if b.created >= rv then Added(b) else Modified(b)
  }

  /** The events sent for a sorted list. */
  function Batch(rv: nat, order: seq<BugInfo>): seq<Event> {
    if order == [] then []
    else
      var b := order[|order| - 1];
      Batch(rv, order[..|order| - 1]) + if b.changed < rv then [] else [EventFor(rv, b)]
  }

  /** One poll that returned `bugs`, sorted as `order`. */
  function Polled(w: Watch, bugs: seq<BugInfo>, order: seq<BugInfo>): Watch {
    var next := Truncate(Latest(bugs));
    if bugs == [] || next <= w.rv then w else Watch(next, w.sent + Batch(w.rv, order), w.open)
  }

  // ----- the watcher as an object

  method NewBugList(bugs: seq<BugInfo>, includeFn: IncludeFn) returns (items: array<BugInfo>, rv: nat)
    ensures fresh(items)
    ensures items[..] == Included(includeFn, bugs) && rv == Truncate(Latest(items[..]))
  {
    var list: seq<BugInfo> := [];
    var change: nat := 0;
    for i := 0 to |bugs|
      invariant list == Included(includeFn, bugs[..i]) && change == Latest(list)
    {
      assert bugs[..i + 1][..i] == bugs[..i];
      if includeFn.None? || includeFn.value(bugs[i]) {
        assert (list + [bugs[i]])[..|list|] == list;
        if change < bugs[i].changed {
          change := bugs[i].changed;
        }
        list := list + [bugs[i]];
      }
    }
    assert bugs[..|bugs|] == bugs;
    items := new BugInfo[|list|](i requires 0 <= i < |list| => list[i]);
    assert items[..] == list;
    rv := Truncate(change);
  }

  class PeriodicWatcher {
    var rv: nat
    const includeFn: IncludeFn
    var sent: seq<Event>
    var open: bool

    ghost function Contents(): Watch
      reads this
    {
      Watch(rv, sent, open)
    }

    /** `newPeriodicWatcher` and the start of `run`. The include function is an argument that no field is set
      from, so a watcher has none. */
    constructor (rv: nat, includeFn: IncludeFn)
      ensures this.includeFn == None && Contents() == Start(rv)
    {
      this.rv := Truncate(rv) + SECOND;
      this.includeFn := None;
      sent := [];
      open := true;
    }

    /** A query that failed: the watch reports an error and stops. */
    method Fail()
      modifies this
      ensures Contents() == Watch(old(rv), old(sent) + [Error], false)
    {
      sent := sent + [Error];
      open := false;
    }

    /** The last loop of a poll: the changes since the mark go out in list order. */
    method SendChanges(items: array<BugInfo>)
      modifies `sent
      ensures sent == old(sent) + Batch(rv, items[..])
    {
      for i := 0 to items.Length
        invariant sent == old(sent) + Batch(rv, items[..i])
      {
        assert items[..i + 1][..i] == items[..i];
        var event := if items[i].created >= rv then Added(items[i]) else Modified(items[i]);
        if items[i].changed < rv {
          continue;
        }
        sent := sent + [event];
      }
      assert items[..items.Length] == items[..];
    }

    /** One query that returned `bugs`, by a watcher as the constructor leaves it. */
    method Poll(bugs: seq<BugInfo>) returns (ghost order: seq<BugInfo>)
      requires includeFn == None
      modifies this
      ensures Contents() != old(Contents()) ==> IsOrder(bugs, order)
      ensures Contents() == Polled(old(Contents()), bugs, order)
    {
      hide Included;
      hide Latest;
      hide Batch;
      order := [];
      if |bugs| == 0 {
        return;
      }
      var items, nextRV := NewBugList(bugs, includeFn);
      AllIncluded(bugs);
      if nextRV <= rv {
        return;
      }
      SortBy(items, (b: BugInfo) => b.changed);
      order := items[..];
      SendChanges(items);
      rv := nextRV;
    }
  }
}
