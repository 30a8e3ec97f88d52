/** Checkpoint safety of the batch inserter, over every run with any database failures. */
module BatchCheckpoints {
  import opened Wrappers
  import opened BatchInserter

  /** The rows inserted by a sequence of events that all succeeded. */
  function Log(events: seq<Event>): seq<Row> {
    if events == [] then []
    else
      var e := events[|events| - 1];
      Log(events[..|events| - 1]) + if e.Insert? then [e.row] else []
  }

  /** The last key completed, or the one the run resumed from. */
  function LastKey(resume: string, events: seq<Event>): string {
    if events == [] then resume
    else
      var e := events[|events| - 1];
      if e.Complete? then e.key else LastKey(resume, events[..|events| - 1])
  }

  /** A completion that makes progress: it names a new key, and there was a key before it. */
  predicate Moves(last: string, e: Event) {
    e.Complete? && e.key != last && last != ""
  }

  /** How many inserts came after the last completion that made progress. */
  function Since(resume: string, events: seq<Event>): nat {
    if events == [] then 0
    else
      var e := events[|events| - 1];
      var before := events[..|events| - 1];
      if e.Insert? then Since(resume, before) + 1
      else if Moves(LastKey(resume, before), e) then 0
      else Since(resume, before)
  }

  predicate Moved(resume: string, events: seq<Event>) {
    events != []
    && var before := events[..|events| - 1];
       (Moved(resume, before) || Moves(LastKey(resume, before), events[|events| - 1]))
  }

  /** No more than `max` inserts between one completion that makes progress and the next. */
  predicate Paced(max: int, resume: string, events: seq<Event>) {
    events != [] ==> Since(resume, events) <= max && Paced(max, resume, events[..|events| - 1])
  }

  /** The completed keys are named, as objects in a bucket are. */
  predicate NamedKeys(events: seq<Event>) {
    forall i :: 0 <= i < |events| && events[i].Complete? ==> events[i].key != ""
  }

  // ----- what holds after every event

  /** What is committed is a cut of the run: exactly the rows of the first `m` events, and the last key
    completed among them. */
  predicate CutAt(index: string, base: Store, resume: string, events: seq<Event>, now: Store, m: int) {
    && 0 <= m <= |events|
    && Moved(resume, events[..m])
    && now == Store(base.rows + Log(events[..m]), base.scrape[index := LastKey(resume, events[..m])])
  }

  /** Nothing was committed in this run, or the rows and the scrape row are from one moment of it. */
  ghost predicate ConsistentCut(index: string, base: Store, resume: string, events: seq<Event>, now: Store) {
    now == base || exists m :: CutAt(index, base, resume, events, now, m)
  }

  /** What holds even after an error. */
  ghost predicate Sound(index: string, base: Store, resume: string, events: seq<Event>, s: State) {
    && s.dropped == []
    && s.progress.index == index && s.progress.key == LastKey(resume, events)
    && base.rows <= s.store.rows && s.store.rows + Pending(s) <= base.rows + Log(events)
    && (s.progress.dirty ==> Moved(resume, events) && s.store.rows + Pending(s) == base.rows + Log(events))
    && ConsistentCut(index, base, resume, events, s.store)
  }

  /** What holds while no error occurred. */
  predicate Exact(max: int, index: string, base: Store, resume: string, events: seq<Event>, s: State) {
    && s.store.rows + Pending(s) == base.rows + Log(events)
    && s.inserted == |Pending(s)| <= max
    && (!s.progress.dirty ==> s.inserted <= Since(resume, events))
    && (!s.progress.dirty ==>
          s.store.scrape == if Moved(resume, events) then base.scrape[index := LastKey(resume, events)]
              else base.scrape)
  }

  lemma {:induction false} MovedNamesKey(resume: string, events: seq<Event>)
    requires Moved(resume, events)
    ensures exists i :: 0 <= i < |events| && events[i] == Complete(LastKey(resume, events))
    decreases |events|
  {
    var n := |events| - 1;
    if events[n].Complete? {
      assert events[n] == Complete(LastKey(resume, events));
    } else {
      MovedNamesKey(resume, events[..n]);
      var i :| 0 <= i < n && events[..n][i] == Complete(LastKey(resume, events[..n]));
      assert events[i] == Complete(LastKey(resume, events));
    }
  }

  lemma {:induction false} LogPrefix(events: seq<Event>, i: nat)
    requires i <= |events|
    ensures Log(events[..i]) <= Log(events)
    decreases |events|
  {
    if i == |events| {
      assert events[..i] == events;
    } else {
      assert events[..|events| - 1][..i] == events[..i];
      LogPrefix(events[..|events| - 1], i);
    }
  }

  /** A cut stays one when more events follow. */
  lemma CutStays(index: string, base: Store, resume: string, events: seq<Event>, more: seq<Event>, now: Store)
    requires ConsistentCut(index, base, resume, events, now) && events <= more
    ensures ConsistentCut(index, base, resume, more, now)
  {
    if now != base {
      var m :| CutAt(index, base, resume, events, now, m);
      assert more[..m] == events[..m];
      assert CutAt(index, base, resume, more, now, m);
    }
  }

  lemma FlushKeeps(max: int, index: string, base: Store, resume: string, events: seq<Event>, s: State, calls: Calls)
    requires index != "" && NamedKeys(events)
    requires Sound(index, base, resume, events, s)
    ensures var o := Flushed(s, calls);
            && Sound(index, base, resume, events, o.state)
            && (o.ok ==> !o.state.progress.dirty)
            && (0 <= max && o.ok && Exact(max, index, base, resume, events, s) ==>
                Exact(max, index, base, resume, events, o.state))
  {
    if !s.progress.dirty {
      return;
    }
    MovedNamesKey(resume, events);
    var o := Flushed(s, calls);
    if o.ok {
      assert events[..|events|] == events;
      assert o.state.store.scrape == base.scrape[index := LastKey(resume, events)];
      assert CutAt(index, base, resume, events, o.state.store, |events|);
    }
  }

  lemma CompleteKeeps(max: int, index: string, base: Store, resume: string, events: seq<Event>, e: Event, s: State)
    requires index != "" && e.Complete? && NamedKeys(events)
    requires Sound(index, base, resume, events, s) && Exact(max, index, base, resume, events, s)
    ensures var t := Completed(s, index, e.key);
            Sound(index, base, resume, events + [e], t) && Exact(max, index, base, resume, events + [e], t)
  {
    var more := events + [e];
    assert more[..|more| - 1] == events;
    CutStays(index, base, resume, events, more, s.store);
    if Moved(resume, events) {
      MovedNamesKey(resume, events);
    }
    hide ConsistentCut;
  }

  /** An insert finds a transaction to use without dropping one. */
  lemma WithTxKeeps(max: int, index: string, base: Store, resume: string, events: seq<Event>, s: State, calls: Calls)
    requires index != "" && NamedKeys(events) && Since(resume, events) < max
    requires Sound(index, base, resume, events, s) && Exact(max, index, base, resume, events, s)
    ensures var o := WithTx(max, s, calls);
            && Sound(index, base, resume, events, o.state)
            && (o.ok ==> o.state.inserted < max && Exact(max, index, base, resume, events, o.state))
  {
    if s.tx.Some? && s.inserted >= max {
      FlushKeeps(max, index, base, resume, events, s, calls);
    }
    hide ConsistentCut;
  }

  /** One more row in the transaction, counted or not. */
  lemma RowKeeps(max: int, index: string, base: Store, resume: string, events: seq<Event>, e: Event, t: State)
    requires e.Insert? && t.tx.Some? && t.inserted < max
    requires Sound(index, base, resume, events, t) && Exact(max, index, base, resume, events, t)
    ensures var u := t.(tx := Some(t.tx.value + [e.row]));
            && Sound(index, base, resume, events + [e], u)
            && Sound(index, base, resume, events + [e], u.(inserted := t.inserted + 1))
            && Exact(max, index, base, resume, events + [e], u.(inserted := t.inserted + 1))
  {
    var more := events + [e];
    assert more[..|more| - 1] == events;
    CutStays(index, base, resume, events, more, t.store);
    assert t.store.rows + (Pending(t) + [e.row]) == (t.store.rows + Pending(t)) + [e.row];
    assert base.rows + (Log(events) + [e.row]) == (base.rows + Log(events)) + [e.row];
    hide ConsistentCut;
  }

  lemma InsertKeeps(max: int, index: string, base: Store, resume: string, events: seq<Event>, e: Event, s: State)
    requires index != "" && NamedKeys(events) && Since(resume, events) < max && e.Insert?
    requires Sound(index, base, resume, events, s) && Exact(max, index, base, resume, events, s)
    ensures var o := Inserted(max, s, e.row, e.calls);
            && (Sound(index, base, resume, events, o.state) || Sound(index, base, resume, events + [e], o.state))
            && (o.ok ==> Sound(index, base, resume, events + [e], o.state))
            && (o.ok ==> Exact(max, index, base, resume, events + [e], o.state))
            && (o.ok ==> o.state.tx.Some? && o.state.tx.value != [])
  {
    WithTxKeeps(max, index, base, resume, events, s, e.calls);
    var o := WithTx(max, s, e.calls);
    hide Sound;
    hide Exact;
    hide WithTx;
    if o.ok {
      RowKeeps(max, index, base, resume, events, e, o.state);
    }
  }

  lemma StepSound(max: int, index: string, base: Store, resume: string, events: seq<Event>, e: Event, s: State)
    requires index != "" && NamedKeys(events) && (e.Insert? ==> Since(resume, events) < max)
    requires Sound(index, base, resume, events, s) && Exact(max, index, base, resume, events, s)
    requires s.tx.Some? ==> s.tx.value != []
    ensures var o := Step(max, index, s, e);
            && (Sound(index, base, resume, events, o.state) || Sound(index, base, resume, events + [e], o.state))
            && (o.ok ==> Sound(index, base, resume, events + [e], o.state))
            && (o.ok ==> Exact(max, index, base, resume, events + [e], o.state))
            && (o.ok && o.state.tx.Some? ==> o.state.tx.value != [])
  {
    hide Sound;
    hide Exact;
    hide Inserted;
    match e
    case Insert(_, _) => InsertKeeps(max, index, base, resume, events, e, s);
    case Complete(_) => CompleteKeeps(max, index, base, resume, events, e, s);
    case Fail =>
  }

  /** The scan is sound after `n` events: those that succeeded, and perhaps the insert that failed last. */
  lemma {:induction false} ScanKeeps(max: int, index: string, base: Store, resume: string, events: seq<Event>)
    returns (n: nat)
    requires index != "" && NamedKeys(events) && Paced(max, resume, events) && 0 <= max
    ensures var p := Scan(max, index, base, resume, events);
            && p.done <= n <= |events| && n <= p.done + 1
            && Sound(index, base, resume, events[..n], p.state)
            && (p.ok ==> Exact(max, index, base, resume, events, p.state))
            && (p.ok && p.state.tx.Some? ==> p.state.tx.value != [])
    decreases |events|
  {
    if events == [] {
      return 0;
    }
    var before, e := events[..|events| - 1], events[|events| - 1];
    n := ScanKeeps(max, index, base, resume, before);
    var p := Scan(max, index, base, resume, before);
    hide Sound;
    hide Exact;
    if p.ok {
      assert before[..n] == before && before + [e] == events;
      assert events[..|events|] == events && events[..|before|] == before;
      hide Step;
      StepSound(max, index, base, resume, before, e, p.state);
      var o := Step(max, index, p.state, e);
      n := if o.ok || !Sound(index, base, resume, before, o.state) then |events| else |before|;
    } else {
      assert before[..n] == events[..n];
    }
  }

  lemma PrefixOf<T>(a: seq<T>, rest: seq<T>, b: seq<T>, shorter: seq<T>, longer: seq<T>)
    requires a + rest <= b + shorter && shorter <= longer
    ensures a <= b + longer
  {
    assert a <= a + rest;
    assert b + shorter <= b + longer;
  }

  // ----- the results

  /** Whatever the database does, and wherever the run is cut off: no transaction is dropped, and what is
    committed is the state of one moment of the run. The rows are exactly those inserted up to then, and when
    any were committed the scrape row names the last key completed by then. */
  lemma CheckpointSafe(max: int, index: string, base: Store, resume: string, events: seq<Event>, last: Calls)
    requires index != "" && NamedKeys(events) && Paced(max, resume, events) && 0 <= max
    ensures var s := Scan(max, index, base, resume, events).state;
            s.dropped == [] && base.rows <= s.store.rows <= base.rows + Log(events)
            && ConsistentCut(index, base, resume, events, s.store)
    ensures var s := Run(max, index, base, resume, events, last).state;
            s.dropped == [] && base.rows <= s.store.rows <= base.rows + Log(events)
            && ConsistentCut(index, base, resume, events, s.store)
  {
    var n := ScanKeeps(max, index, base, resume, events);
    var s := Scan(max, index, base, resume, events).state;
    var reached, t := events[..n], Flushed(s, last).state;
    FlushKeeps(max, index, base, resume, reached, s, last);
    LogPrefix(events, n);
    CutStays(index, base, resume, reached, events, s.store);
    CutStays(index, base, resume, reached, events, t.store);
    PrefixOf(s.store.rows, Pending(s), base.rows, Log(reached), Log(events));
    PrefixOf(t.store.rows, Pending(t), base.rows, Log(reached), Log(events));
    hide ConsistentCut;
    hide Flushed;
  }

  lemma StepFits(max: int, index: string, s: State, e: Event)
    requires 0 <= max && (e.Insert? ==> 1 <= max)
    requires |Pending(s)| <= s.inserted && |Pending(s)| <= max
    ensures var o := Step(max, index, s, e);
            |Pending(o.state)| <= max && (o.ok ==> |Pending(o.state)| <= o.state.inserted)
  {
  }

  /** A batch fits wherever the scan stops, at a failed call too, and whatever the keys insert. */
  lemma {:induction false} BatchFits(max: int, index: string, base: Store, resume: string, events: seq<Event>)
    requires 0 <= max && (max == 0 ==> forall i :: 0 <= i < |events| ==> !events[i].Insert?)
    ensures var p := Scan(max, index, base, resume, events);
            |Pending(p.state)| <= max && (p.ok ==> |Pending(p.state)| <= p.state.inserted)
    decreases |events|
  {
    hide Step;
    if events != [] {
      var n := |events| - 1;
      BatchFits(max, index, base, resume, events[..n]);
      var p := Scan(max, index, base, resume, events[..n]);
      if p.ok {
        StepFits(max, index, p.state, events[n]);
      }
    }
  }

  lemma {:induction false} PacedRoom(resume: string, events: seq<Event>)
    requires Paced(0, resume, events)
    ensures forall i :: 0 <= i < |events| ==> !events[i].Insert?
    decreases |events|
  {
    if events != [] {
      PacedRoom(resume, events[..|events| - 1]);
    }
  }

  /** At most `max` inserts are ever uncommitted, wherever the scan stops; and while no call has failed, what is
    committed and what is pending is exactly what was inserted, in order. */
  lemma FewUncommitted(max: int, index: string, base: Store, resume: string, events: seq<Event>)
    requires index != "" && NamedKeys(events) && Paced(max, resume, events) && 0 <= max
    ensures var p := Scan(max, index, base, resume, events);
            && |Pending(p.state)| <= max
            && (p.ok ==> p.state.store.rows + Pending(p.state) == base.rows + Log(events))
  {
    if max == 0 {
      PacedRoom(resume, events);
    }
    BatchFits(max, index, base, resume, events);
    var _ := ScanKeeps(max, index, base, resume, events);
    assert events[..|events|] == events;
  }

  /** A flush between keys leaves no transaction open and nothing uncommitted, and records the last key. */
  lemma FlushBetweenKeys(max: int, index: string, base: Store, resume: string, events: seq<Event>, last: Calls)
    requires index != "" && NamedKeys(events) && Paced(max, resume, events) && 0 <= max
    requires Scan(max, index, base, resume, events).ok && Since(resume, events) == 0
    requires last.progress && last.commit
    ensures var o := Run(max, index, base, resume, events, last);
            && o.ok && o.state.tx == None
            && o.state.store.rows == base.rows + Log(events)
            && o.state.store.scrape == if Moved(resume, events) then base.scrape[index := LastKey(resume, events)]
                else base.scrape
  {
    var _ := ScanKeeps(max, index, base, resume, events);
    assert events[..|events|] == events;
    FlushKeeps(max, index, base, resume, events, Scan(max, index, base, resume, events).state, last);
    if Moved(resume, events) {
      MovedNamesKey(resume, events);
    }
    hide Sound;
  }

  // ----- keys: when a run is paced, whatever its keys insert

  /** What the scan does for one key: some inserts, whatever the database answers, and the completion. */
  datatype Work = Work(key: string, inserts: seq<Event>)

  predicate Inserts(max: int, work: Work) {
    |work.inserts| <= max && forall i :: 0 <= i < |work.inserts| ==> work.inserts[i].Insert?
  }

  function KeyEvents(works: seq<Work>): seq<Event> {
    if works == [] then []
    else
      var work := works[|works| - 1];
      KeyEvents(works[..|works| - 1]) + work.inserts + [Complete(work.key)]
  }

  function PreviousKey(resume: string, keys: seq<string>, i: nat): string
    requires i < |keys|
  {
    if i == 0 then resume else keys[i - 1]
  }

  function KeysOf(works: seq<Work>): (keys: seq<string>)
    ensures |keys| == |works|
    ensures forall i :: 0 <= i < |works| ==> keys[i] == works[i].key
  {
    seq(|works|, i requires 0 <= i < |works| => works[i].key)
  }

  predicate NewKey(resume: string, keys: seq<string>, i: nat)
    requires i < |keys|
  {
    keys[i] != PreviousKey(resume, keys, i) && PreviousKey(resume, keys, i) != ""
  }

  /** Every key but the last is a new one with a key before it. */
  predicate KeysMove(resume: string, keys: seq<string>) {
    forall i :: 0 <= i < |keys| - 1 ==> NewKey(resume, keys, i)
  }

  lemma {:induction false} InsertsCount(resume: string, events: seq<Event>, inserts: seq<Event>)
    requires forall i :: 0 <= i < |inserts| ==> inserts[i].Insert?
    ensures Since(resume, events + inserts) == Since(resume, events) + |inserts|
    ensures LastKey(resume, events + inserts) == LastKey(resume, events)
    decreases |inserts|
  {
    if inserts == [] {
      assert events + inserts == events;
    } else {
      var n := |inserts| - 1;
      var all := events + inserts;
      assert all[..|all| - 1] == events + inserts[..n];
      InsertsCount(resume, events, inserts[..n]);
    }
  }

  lemma {:induction false} InsertsPaced(max: int, resume: string, events: seq<Event>, inserts: seq<Event>)
    requires forall i :: 0 <= i < |inserts| ==> inserts[i].Insert?
    requires Paced(max, resume, events) && (inserts != [] ==> Since(resume, events) + |inserts| <= max)
    ensures Paced(max, resume, events + inserts)
    decreases |inserts|
  {
    if inserts == [] {
      assert events + inserts == events;
    } else {
      var n := |inserts| - 1;
      var all := events + inserts;
      assert all[..|all| - 1] == events + inserts[..n];
      InsertsPaced(max, resume, events, inserts[..n]);
      InsertsCount(resume, events, inserts);
    }
  }

  lemma KeyPaced(max: int, resume: string, before: seq<Event>, work: Work)
    requires 0 <= max && Inserts(max, work)
    requires Paced(max, resume, before) && Since(resume, before) == 0
    ensures var all := before + work.inserts + [Complete(work.key)];
            && Paced(max, resume, all)
            && LastKey(resume, all) == work.key
            && (work.key != LastKey(resume, before) && LastKey(resume, before) != "" ==> Since(resume, all) == 0)
  {
    InsertsPaced(max, resume, before, work.inserts);
    InsertsCount(resume, before, work.inserts);
    var all := before + work.inserts + [Complete(work.key)];
    assert all[..|all| - 1] == before + work.inserts;
  }

  lemma FewerKeys(resume: string, works: seq<Work>)
    requires works != [] && KeysMove(resume, KeysOf(works))
    ensures KeysMove(resume, KeysOf(works[..|works| - 1]))
    ensures |works| > 1 ==> NewKey(resume, KeysOf(works[..|works| - 1]), |works| - 2)
  {
    var keys, fewer := KeysOf(works), KeysOf(works[..|works| - 1]);
    assert fewer == keys[..|works| - 1];
    forall i | 0 <= i < |keys| - 1
      ensures NewKey(resume, fewer, i)
    {
      assert NewKey(resume, keys, i);
    }
  }

  lemma {:induction false} KeysPaced(max: int, resume: string, works: seq<Work>)
    requires 0 <= max && forall i :: 0 <= i < |works| ==> Inserts(max, works[i])
    requires KeysMove(resume, KeysOf(works))
    ensures Paced(max, resume, KeyEvents(works))
    ensures LastKey(resume, KeyEvents(works)) == if works == [] then resume else works[|works| - 1].key
    ensures works == [] || NewKey(resume, KeysOf(works), |works| - 1) ==> Since(resume, KeyEvents(works)) == 0
    decreases |works|
  {
    if works != [] {
      FewerKeys(resume, works);
      KeysPaced(max, resume, works[..|works| - 1]);
      KeyPaced(max, resume, KeyEvents(works[..|works| - 1]), works[|works| - 1]);
    }
  }

  lemma KeysNamed(works: seq<Work>)
    requires forall i :: 0 <= i < |works| ==> works[i].key != "" && Inserts(|works[i].inserts|, works[i])
    ensures NamedKeys(KeyEvents(works))
    decreases |works|
  {
    if works != [] {
      KeysNamed(works[..|works| - 1]);
    }
  }
}
