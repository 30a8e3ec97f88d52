/** What a watch has sent, over every run of a bug server that changes between polls. */
module PollingRuns {
  import opened Wrappers
  import opened Filters
  import opened PollingWatcher
  import opened Sorting

  /** The server: the current state of every bug the query matches, and the latest change returned so far. */
  datatype Server = Server(bugs: map<int, BugInfo>, seen: nat)

  datatype State = State(server: Server, watch: Watch)

  datatype Action =
    | Change(info: BugInfo)
    | Remove(id: int)
    | Poll(bugs: seq<BugInfo>, order: seq<BugInfo>)
    | PollFails
    | Expire

  /** What the server promises: an answer holds current states only, and every bug changed at or after the
    asked time; and a later change never carries an earlier time than one already returned. */
  predicate Honest(s: State, a: Action) {
    match a
    case Change(info) => info.changed >= s.server.seen
    case Remove(_) => true
    case Poll(bugs, order) =>
      && s.watch.open
      && (forall i :: 0 <= i < |bugs| ==> bugs[i].id in s.server.bugs && s.server.bugs[bugs[i].id] == bugs[i])
      && (forall id :: id in s.server.bugs && s.server.bugs[id].changed >= s.watch.rv ==> s.server.bugs[id] in bugs)
      && IsOrder(bugs, order)
    case PollFails => s.watch.open
    case Expire => s.watch.open
  }

  function Max(a: nat, b: nat): nat {
    if a < b then b else a
  }

  function Step(s: State, a: Action): State {
    match a
    case Change(info) => s.(server := s.server.(bugs := s.server.bugs[info.id := info]))
    case Remove(id) => s.(server := s.server.(bugs := s.server.bugs - {id}))
    case Poll(bugs, order) =>
      State(s.server.(seen := Max(s.server.seen, Latest(bugs))), Polled(s.watch, bugs, order))
    case PollFails => s.(watch := s.watch.(sent := s.watch.sent + [Error], open := false))
    case Expire => s.(watch := s.watch.(sent := s.watch.sent + [Error], open := false))
  }

  function Exec(s: State, acts: seq<Action>): Option<State>
    decreases |acts|
  {
    if acts == [] then Some(s)
    else if !Honest(s, acts[0]) then None
    else Exec(Step(s, acts[0]), acts[1..])
  }

  /** A run of a watch started at resource version `rv`, on a server that already holds some bugs. */
  function Run(rv: nat, bugs: map<int, BugInfo>, acts: seq<Action>): Option<State> {
    Exec(State(Server(bugs, 0), Start(rv)), acts)
  }

  predicate SentIn(sent: seq<Event>, b: BugInfo) {
    Added(b) in sent || Modified(b) in sent
  }

  // ----- lists

  lemma {:induction false} LatestBounds(items: seq<BugInfo>, b: BugInfo)
    requires b in items
    ensures b.changed <= Latest(items)
  {
    if b != items[|items| - 1] {
      LatestBounds(items[..|items| - 1], b);
    }
  }

  lemma {:induction false} LatestIsOne(items: seq<BugInfo>)
    requires Latest(items) > 0
    ensures exists b :: b in items && b.changed == Latest(items)
  {
    if Latest(items) == items[|items| - 1].changed {
      assert items[|items| - 1] in items;
    } else {
      LatestIsOne(items[..|items| - 1]);
      var b :| b in items[..|items| - 1] && b.changed == Latest(items);
      assert b in items;
    }
  }

  lemma {:induction false} BatchSends(rv: nat, order: seq<BugInfo>, b: BugInfo)
    requires b in order && b.changed >= rv
    ensures EventFor(rv, b) in Batch(rv, order)
  {
    if b != order[|order| - 1] {
      BatchSends(rv, order[..|order| - 1], b);
    }
  }

  lemma {:induction false} BatchFrom(rv: nat, order: seq<BugInfo>, k: nat)
    requires k < |Batch(rv, order)|
    ensures exists i :: 0 <= i < |order| && order[i].changed >= rv && Batch(rv, order)[k] == EventFor(rv, order[i])
  {
    var n := |order| - 1;
    if k < |Batch(rv, order[..n])| {
      BatchFrom(rv, order[..n], k);
      var i :| 0 <= i < n && order[..n][i].changed >= rv && Batch(rv, order[..n])[k] == EventFor(rv, order[..n][i]);
      assert order[i].changed >= rv && Batch(rv, order)[k] == EventFor(rv, order[i]);
    } else {
      assert order[n].changed >= rv && Batch(rv, order)[k] == EventFor(rv, order[n]);
    }
  }

  function ChangeSince(rv: nat): BugInfo -> Option<Event> {
    (b: BugInfo) => if b.changed < rv then None else if b.created >= rv then Some(Added(b)) else Some(Modified(b))
  }

  /** A batch is the changes since the mark, one event for each bug of the list and in its order. */
  lemma {:induction false} BatchInOrder(rv: nat, order: seq<BugInfo>)
    ensures Picked(order, ChangeSince(rv), Batch(rv, order))
  {
    hide Picked;
    if order == [] {
      NothingPicked(ChangeSince(rv));
    } else {
      BatchInOrder(rv, order[..|order| - 1]);
      PickedLast(order, ChangeSince(rv), Batch(rv, order[..|order| - 1]), Batch(rv, order));
    }
  }

  lemma {:induction false} BatchCounts(rv: nat, order: seq<BugInfo>, e: Event)
    requires !e.Error?
    ensures multiset(Batch(rv, order))[e] ==
            if e.info.changed >= rv && e == EventFor(rv, e.info) then multiset(order)[e.info] else 0
  {
    if order != [] {
      var n := |order| - 1;
      BatchCounts(rv, order[..n], e);
      assert order == order[..n] + [order[n]];
    }
  }

  /** Each batch is sent in the order of the changes. */
  lemma {:induction false} BatchAscends(rv: nat, order: seq<BugInfo>, i: nat, j: nat)
    requires Ascending(order, (b: BugInfo) => b.changed) && i < j < |Batch(rv, order)|
    ensures !Batch(rv, order)[i].Error? && !Batch(rv, order)[j].Error?
    ensures Batch(rv, order)[i].info.changed <= Batch(rv, order)[j].info.changed
  {
    var n := |order| - 1;
    if j < |Batch(rv, order[..n])| {
      BatchAscends(rv, order[..n], i, j);
    } else {
      BatchFrom(rv, order[..n], i);
    }
  }

  // ----- one poll

  /** `rv` is the whole second of the latest change among the bugs. */
  ghost predicate LatestSecond(bugs: seq<BugInfo>, rv: nat) {
    && rv % SECOND == 0
    && (exists c :: c in bugs && rv <= c.changed < rv + SECOND)
    && forall c :: c in bugs ==> c.changed < rv + SECOND
  }

  /** The watermark never goes back. It moves when a bug changed in a later second, to the second of the latest
    change returned. */
  lemma PollMoves(w: Watch, bugs: seq<BugInfo>, order: seq<BugInfo>)
    ensures var t := Polled(w, bugs, order);
            && w.rv <= t.rv && w.sent <= t.sent
            && (t.rv > w.rv <==> exists c :: c in bugs && Truncate(c.changed) > w.rv)
            && (t.rv > w.rv ==> LatestSecond(bugs, t.rv))
            && (t.rv > w.rv ==> t.sent == w.sent + Batch(w.rv, order))
            && (t.rv == w.rv ==> t == w)
  {
    if Truncate(Latest(bugs)) > w.rv {
      LatestIsOne(bugs);
      var c :| c in bugs && c.changed == Latest(bugs);
      assert c in bugs && Truncate(c.changed) > w.rv;
      forall b | b in bugs
        ensures b.changed < Truncate(Latest(bugs)) + SECOND
      {
        LatestBounds(bugs, b);
      }
    } else {
      forall c | c in bugs
        ensures Truncate(c.changed) <= w.rv
      {
        LatestBounds(bugs, c);
      }
    }
  }

  /** A poll sends exactly what it returned of the bugs changed since the watermark, but only if one of them
    changed in a later second than it. */
  lemma PollSends(w: Watch, bugs: seq<BugInfo>, order: seq<BugInfo>, b: BugInfo)
    requires IsOrder(bugs, order)
    requires w.sent <= Polled(w, bugs, order).sent
    ensures SentIn(Polled(w, bugs, order).sent[|w.sent|..], b) <==>
            && b in bugs && b.changed >= w.rv
            && exists c :: c in bugs && Truncate(c.changed) > w.rv
    ensures Added(b) in Polled(w, bugs, order).sent[|w.sent|..] ==> b.created >= w.rv
    ensures Modified(b) in Polled(w, bugs, order).sent[|w.sent|..] ==> b.created < w.rv
  {
    hide Polled;
    hide Batch;
    hide Latest;
    assert b in order <==> b in multiset(bugs);
    PollMoves(w, bugs, order);
    var batch := Batch(w.rv, order);
    var t := Polled(w, bugs, order);
    assert t.sent[|w.sent|..] == if t.rv > w.rv then batch else [];
    if b in order && b.changed >= w.rv {
      BatchSends(w.rv, order, b);
    }
    if SentIn(batch, b) {
      var k :| 0 <= k < |batch| && (batch[k] == Added(b) || batch[k] == Modified(b));
      BatchFrom(w.rv, order, k);
      assert b in order;
    }
    SentAsCreated(w.rv, order, b);
  }

  /** A poll that moves the mark sends one event for each bug it returned that changed since then, as often as
    that bug was returned, and nothing else. */
  lemma PollSendsOnce(w: Watch, bugs: seq<BugInfo>, order: seq<BugInfo>, e: Event)
    requires IsOrder(bugs, order) && Polled(w, bugs, order).rv > w.rv && !e.Error?
    ensures w.sent <= Polled(w, bugs, order).sent
    ensures multiset(Polled(w, bugs, order).sent[|w.sent|..])[e] ==
            if e.info.changed >= w.rv && e.Added? == (e.info.created >= w.rv) then multiset(bugs)[e.info] else 0
  {
    BatchCounts(w.rv, order, e);
    hide Batch;
    assert Polled(w, bugs, order).sent[|w.sent|..] == Batch(w.rv, order);
  }

  /** A bug is sent as added exactly when it was created since the mark. */
  lemma {:induction false} SentAsCreated(rv: nat, order: seq<BugInfo>, b: BugInfo)
    ensures Added(b) in Batch(rv, order) ==> b.created >= rv
    ensures Modified(b) in Batch(rv, order) ==> b.created < rv
  {
    if order != [] {
      SentAsCreated(rv, order[..|order| - 1], b);
    }
  }

  // ----- whole runs

  predicate Caught(first: nat, bound: nat, s: State) {
    forall id :: id in s.server.bugs ==>
      var b := s.server.bugs[id];
      first <= b.changed < bound ==> SentIn(s.watch.sent, b)
  }

  predicate Inv(first: nat, s: State) {
    && first <= s.watch.rv
    && (first < s.watch.rv ==> s.watch.rv <= s.server.seen)
    && Caught(first, s.watch.rv, s)
  }

  lemma PollKeeps(first: nat, s: State, bugs: seq<BugInfo>, order: seq<BugInfo>)
    requires Inv(first, s) && Honest(s, Poll(bugs, order))
    ensures var t := Step(s, Poll(bugs, order));
            && Inv(first, t) && s.watch.rv <= t.watch.rv
            && (t.watch.rv > s.watch.rv ==>
                  forall id :: id in t.server.bugs ==>
                    var b := t.server.bugs[id]; first <= b.changed ==> SentIn(t.watch.sent, b))
  {
    var w, t := s.watch, Step(s, Poll(bugs, order));
    PollMoves(w, bugs, order);
    if t.watch.rv > w.rv {
      forall id | id in s.server.bugs && first <= s.server.bugs[id].changed
        ensures SentIn(t.watch.sent, s.server.bugs[id])
      {
        var b := s.server.bugs[id];
        if b.changed >= w.rv {
          PollSends(w, bugs, order, b);
        }
      }
    }
  }

  lemma StepKeeps(first: nat, s: State, a: Action)
    requires Inv(first, s) && Honest(s, a)
    ensures Inv(first, Step(s, a))
    ensures s.watch.rv <= Step(s, a).watch.rv && s.watch.sent <= Step(s, a).watch.sent
  {
    match a
    case Poll(bugs, order) =>
      PollKeeps(first, s, bugs, order);
      PollMoves(s.watch, bugs, order);
    case Change(_) =>
    case Remove(_) =>
    case PollFails =>
    case Expire =>
  }

  lemma {:induction false} ExecKeeps(first: nat, s: State, acts: seq<Action>)
    requires Inv(first, s) && Exec(s, acts).Some?
    ensures var t := Exec(s, acts).value;
            Inv(first, t) && s.watch.rv <= t.watch.rv && s.watch.sent <= t.watch.sent
    decreases |acts|
  {
    if acts != [] {
      StepKeeps(first, s, acts[0]);
      ExecKeeps(first, Step(s, acts[0]), acts[1..]);
    }
  }

  /** Nothing is lost: in every run, each bug whose latest change lies between the first mark and the
    current watermark has been sent in that state. */
  lemma NothingIsSkipped(rv: nat, bugs: map<int, BugInfo>, acts: seq<Action>)
    requires Run(rv, bugs, acts).Some?
    ensures var s := Run(rv, bugs, acts).value;
            Caught(Truncate(rv) + SECOND, s.watch.rv, s)
  {
    ExecKeeps(Truncate(rv) + SECOND, State(Server(bugs, 0), Start(rv)), acts);
  }

  /** A poll that moves the watermark leaves nothing behind: every bug changed at or after the first
    mark, that mark's own second included, has then been sent in its current state. */
  lemma CaughtUpAfterPoll(rv: nat, bugs: map<int, BugInfo>, acts: seq<Action>,
                          answer: seq<BugInfo>, order: seq<BugInfo>)
    requires Run(rv, bugs, acts).Some?
    requires Honest(Run(rv, bugs, acts).value, Poll(answer, order))
    requires exists c :: c in answer && Truncate(c.changed) > Run(rv, bugs, acts).value.watch.rv
    ensures var s := Step(Run(rv, bugs, acts).value, Poll(answer, order));
            forall id :: id in s.server.bugs ==>
              var b := s.server.bugs[id]; Truncate(rv) + SECOND <= b.changed ==> SentIn(s.watch.sent, b)
  {
    var first := Truncate(rv) + SECOND;
    ExecKeeps(first, State(Server(bugs, 0), Start(rv)), acts);
    var s := Run(rv, bugs, acts).value;
    PollMoves(s.watch, answer, order);
    PollKeeps(first, s, answer, order);
  }

  /** The watermark only grows and nothing sent is taken back. */
  lemma {:induction false} RunsExtend(s: State, first: seq<Action>, second: seq<Action>)
    requires Exec(s, first + second).Some?
    ensures Exec(s, first).Some?
    ensures var t, u := Exec(s, first).value, Exec(s, first + second).value;
            t.watch.rv <= u.watch.rv && t.watch.sent <= u.watch.sent
    decreases |first|
  {
    if first == [] {
      assert first + second == second;
      OnlyGrows(s, second);
    } else {
      assert (first + second)[1..] == first[1..] + second;
      RunsExtend(Step(s, first[0]), first[1..], second);
    }
  }

  lemma {:induction false} OnlyGrows(s: State, acts: seq<Action>)
    requires Exec(s, acts).Some?
    ensures s.watch.rv <= Exec(s, acts).value.watch.rv && s.watch.sent <= Exec(s, acts).value.watch.sent
    decreases |acts|
  {
    if acts != [] {
      if acts[0].Poll? {
        PollMoves(s.watch, acts[0].bugs, acts[0].order);
      }
      OnlyGrows(Step(s, acts[0]), acts[1..]);
    }
  }

  lemma TwoInOneSecond(one: BugInfo, two: BugInfo)
    requires one.changed == two.changed
    ensures Latest([one]) == one.changed && Latest([one, two]) == one.changed
    ensures Batch(SECOND, [one]) == if one.changed < SECOND then [] else [EventFor(SECOND, one)]
    ensures IsOrder([one], [one]) && IsOrder([one, two], [one, two])
  {
    assert [one][..0] == [] && [one, two][..1] == [one];
  }

  lemma FourSteps(s: State, acts: seq<Action>, s1: State, s2: State, s3: State, s4: State)
    requires |acts| == 4
    requires Honest(s, acts[0]) && s1 == Step(s, acts[0])
    requires Honest(s1, acts[1]) && s2 == Step(s1, acts[1])
    requires Honest(s2, acts[2]) && s3 == Step(s2, acts[2])
    requires Honest(s3, acts[3]) && s4 == Step(s3, acts[3])
    ensures Exec(s, acts) == Some(s4)
  {
    hide Step;
    hide Honest;
    assert acts[1..][1..] == acts[2..] && acts[2..][1..] == acts[3..] && acts[3..][1..] == [];
    assert Exec(s3, acts[3..]) == Some(s4);
    assert Exec(s2, acts[2..]) == Some(s4);
  }

  /** The bound is strict: a bug changed in the watermark's own second after it was set is returned by the
    next poll, yet not sent. */
  lemma SameSecondWaits(one: BugInfo, two: BugInfo)
    requires one.id != two.id
    requires one.changed == two.changed && one.changed % SECOND == 0 && one.changed > SECOND
    ensures var r := Run(0, map[], [Change(one), Poll([one], [one]), Change(two), Poll([one, two], [one, two])]);
            && r.Some? && r.value.watch.rv == two.changed
            && r.value.server.bugs == map[one.id := one, two.id := two]
            && SentIn(r.value.watch.sent, one) && !SentIn(r.value.watch.sent, two)
  {
    hide Exec;
    hide Latest;
    hide Batch;
    hide IsOrder;
    TwoInOneSecond(one, two);
    var watch := Watch(one.changed, [EventFor(SECOND, one)], true);
    var bugs := map[one.id := one];
    FourSteps(State(Server(map[], 0), Start(0)),
              [Change(one), Poll([one], [one]), Change(two), Poll([one, two], [one, two])],
              State(Server(bugs, 0), Start(0)),
              State(Server(bugs, one.changed), watch),
              State(Server(bugs[two.id := two], one.changed), watch),
              State(Server(bugs[two.id := two], one.changed), watch));
  }

  // ----- exactly which states of bugs are sent

  /** A poll of a watch at mark `rv` that returned `b`, changed since the mark, and a bug changed in a later second. */
  predicate Carries(rv: nat, a: Action, b: BugInfo) {
    a.Poll? && b in a.bugs && b.changed >= rv && exists c :: c in a.bugs && Truncate(c.changed) > rv
  }

  predicate SomeCarries(s: State, acts: seq<Action>, b: BugInfo)
    decreases |acts|
  {
    acts != [] && (Carries(s.watch.rv, acts[0], b) || SomeCarries(Step(s, acts[0]), acts[1..], b))
  }

  lemma SentConcat(sent: seq<Event>, more: seq<Event>, b: BugInfo)
    ensures SentIn(sent + more, b) <==> SentIn(sent, b) || SentIn(more, b)
  {
  }

  lemma StepSends(s: State, a: Action, b: BugInfo)
    requires Honest(s, a)
    ensures SentIn(Step(s, a).watch.sent, b) <==> SentIn(s.watch.sent, b) || Carries(s.watch.rv, a, b)
  {
    hide Batch;
    hide Latest;
    hide IsOrder;
    match a
    case Poll(bugs, order) =>
      PollMoves(s.watch, bugs, order);
      PollSends(s.watch, bugs, order, b);
      var t := Step(s, a).watch.sent;
      assert t == s.watch.sent + t[|s.watch.sent|..];
      SentConcat(s.watch.sent, t[|s.watch.sent|..], b);
    case PollFails => SentConcat(s.watch.sent, [Error], b);
    case Expire => SentConcat(s.watch.sent, [Error], b);
    case Change(_) =>
    case Remove(_) =>
  }

  lemma {:induction false} ExecSends(s: State, acts: seq<Action>, b: BugInfo)
    requires Exec(s, acts).Some?
    ensures SentIn(Exec(s, acts).value.watch.sent, b) <==> SentIn(s.watch.sent, b) || SomeCarries(s, acts, b)
    decreases |acts|
  {
    hide Honest;
    hide Step;
    hide Carries;
    hide SentIn;
    if acts != [] {
      StepSends(s, acts[0], b);
      ExecSends(Step(s, acts[0]), acts[1..], b);
    }
  }

  /** In every run a state of a bug was sent if and only if some poll returned it, changed since the mark, together
    with a bug changed in a later second than the mark. */
  lemma SentExactly(rv: nat, bugs: map<int, BugInfo>, acts: seq<Action>, b: BugInfo)
    requires Run(rv, bugs, acts).Some?
    ensures SentIn(Run(rv, bugs, acts).value.watch.sent, b) <==>
            SomeCarries(State(Server(bugs, 0), Start(rv)), acts, b)
  {
    ExecSends(State(Server(bugs, 0), Start(rv)), acts, b);
  }

  // ----- an include function given to a watcher

  /** Every bug sent is one that `f` accepts. */
  predicate OnlyIncluded(f: BugInfo -> bool, sent: seq<Event>) {
    forall k :: 0 <= k < |sent| && !sent[k].Error? ==> f(sent[k].info)
  }

  /** If `a` is a poll that moves the mark, it returned only bugs that `f` accepts, except for older ones. */
  predicate ReturnsIncluded(f: BugInfo -> bool, w: Watch, a: Action) {
    a.Poll? && Polled(w, a.bugs, a.order).rv > w.rv ==>
      forall i :: 0 <= i < |a.bugs| && a.bugs[i].changed >= w.rv ==> f(a.bugs[i])
  }

  predicate AllReturnIncluded(f: BugInfo -> bool, s: State, acts: seq<Action>)
    decreases |acts|
  {
    acts == [] || (ReturnsIncluded(f, s.watch, acts[0]) && AllReturnIncluded(f, Step(s, acts[0]), acts[1..]))
  }

  lemma OnlyIncludedConcat(f: BugInfo -> bool, a: seq<Event>, b: seq<Event>)
    ensures OnlyIncluded(f, a + b) <==> OnlyIncluded(f, a) && OnlyIncluded(f, b)
  {
    assert forall k :: 0 <= k < |a| ==> (a + b)[k] == a[k];
    assert forall k :: 0 <= k < |b| ==> (a + b)[|a| + k] == b[k];
  }

  /** A batch is of accepted bugs exactly when what it was made from was, except for older bugs. */
  lemma BatchIncluded(f: BugInfo -> bool, rv: nat, bugs: seq<BugInfo>, order: seq<BugInfo>)
    requires IsOrder(bugs, order)
    ensures OnlyIncluded(f, Batch(rv, order)) <==> forall i :: 0 <= i < |bugs| && bugs[i].changed >= rv ==> f(bugs[i])
  {
    hide Batch;
    assert forall b :: b in order <==> b in multiset(order);
    assert forall b :: b in bugs <==> b in multiset(bugs);
    var batch := Batch(rv, order);
    if OnlyIncluded(f, batch) {
      forall i | 0 <= i < |bugs| && bugs[i].changed >= rv
        ensures f(bugs[i])
      {
        assert bugs[i] in order;
        BatchSends(rv, order, bugs[i]);
      }
    }
    if forall i :: 0 <= i < |bugs| && bugs[i].changed >= rv ==> f(bugs[i]) {
      forall k | 0 <= k < |batch|
        ensures !batch[k].Error? && f(batch[k].info)
      {
        BatchFrom(rv, order, k);
        var i :| 0 <= i < |order| && order[i].changed >= rv && batch[k] == EventFor(rv, order[i]);
        assert order[i] in bugs;
      }
    }
  }

  lemma StepIncluded(f: BugInfo -> bool, s: State, a: Action)
    requires Honest(s, a)
    ensures OnlyIncluded(f, Step(s, a).watch.sent) <==> OnlyIncluded(f, s.watch.sent) && ReturnsIncluded(f, s.watch, a)
  {
    match a
    case Poll(bugs, order) =>
      PollMoves(s.watch, bugs, order);
      BatchIncluded(f, s.watch.rv, bugs, order);
      OnlyIncludedConcat(f, s.watch.sent, Batch(s.watch.rv, order));
    case PollFails => OnlyIncludedConcat(f, s.watch.sent, [Error]);
    case Expire => OnlyIncludedConcat(f, s.watch.sent, [Error]);
    case Change(_) =>
    case Remove(_) =>
  }

  lemma {:induction false} ExecIncluded(f: BugInfo -> bool, s: State, acts: seq<Action>)
    requires Exec(s, acts).Some?
    ensures OnlyIncluded(f, Exec(s, acts).value.watch.sent) <==>
            OnlyIncluded(f, s.watch.sent) && AllReturnIncluded(f, s, acts)
    decreases |acts|
  {
    if acts != [] {
      StepIncluded(f, s, acts[0]);
      ExecIncluded(f, Step(s, acts[0]), acts[1..]);
    }
  }

  /** Whatever include function a watch is given, it sends only bugs that the function accepts if and only if
    the polls that move the mark return no others, older bugs aside: the watch itself filters nothing. */
  lemma FilterHoldsExactly(f: BugInfo -> bool, rv: nat, bugs: map<int, BugInfo>, acts: seq<Action>)
    requires Run(rv, bugs, acts).Some?
    ensures OnlyIncluded(f, Run(rv, bugs, acts).value.watch.sent) <==>
            AllReturnIncluded(f, State(Server(bugs, 0), Start(rv)), acts)
  {
    ExecIncluded(f, State(Server(bugs, 0), Start(rv)), acts);
  }

  /** A bug that the include function rejects is sent and moves the mark, although a list with that function
    leaves it out. */
  lemma RejectedBugIsSent(f: BugInfo -> bool, b: BugInfo)
    requires !f(b) && b.changed % SECOND == 0 && b.changed > SECOND
    ensures Included(Some(f), [b]) == []
    ensures var r := Run(0, map[], [Change(b), Poll([b], [b])]);
            r.Some? && r.value.watch == Watch(b.changed, [EventFor(SECOND, b)], true)
  {
    assert [b][..0] == [];
    TwoInOneSecond(b, b);
    hide Batch;
    hide Latest;
    hide IsOrder;
    var acts := [Change(b), Poll([b], [b])];
    var s := State(Server(map[], 0), Start(0));
    var s1 := Step(s, acts[0]);
    var s2 := Step(s1, acts[1]);
    assert acts[1..][1..] == [];
    assert Exec(s2, acts[1..][1..]) == Some(s2);
    assert Exec(s1, acts[1..]) == Some(s2);
  }
}
