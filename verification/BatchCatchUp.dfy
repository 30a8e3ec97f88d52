/** What a run of the batch inserter leaves uncommitted when no commit fails, whatever else does. */
module BatchCatchUp {
  import opened BatchInserter
  import opened BatchCheckpoints

  /** What is committed is a cut of the run after which no key made progress. */
  ghost predicate Recent(index: string, base: Store, resume: string, events: seq<Event>, now: Store) {
    exists m :: CutAt(index, base, resume, events, now, m)
                && |Log(events)| - |Log(events[..m])| <= Since(resume, events)
  }

  /** Once a key has made progress, the inserter has recorded it or will. */
  ghost predicate CaughtUp(index: string, base: Store, resume: string, events: seq<Event>, s: State) {
    Moved(resume, events) && !s.progress.dirty ==> Recent(index, base, resume, events, s.store)
  }

  lemma RecentStays(index: string, base: Store, resume: string, events: seq<Event>, e: Event, now: Store)
    requires Recent(index, base, resume, events, now) && !Moves(LastKey(resume, events), e)
    ensures Recent(index, base, resume, events + [e], now)
  {
    var m :| CutAt(index, base, resume, events, now, m)
        && |Log(events)| - |Log(events[..m])| <= Since(resume, events);
    var more := events + [e];
    assert more[..|more| - 1] == events && more[..m] == events[..m];
    assert CutAt(index, base, resume, more, now, m);
  }

  /** A flush that commits everything is as recent as can be. */
  lemma FlushRecent(max: int, index: string, base: Store, resume: string, events: seq<Event>, s: State, calls: Calls)
    requires index != "" && NamedKeys(events) && Sound(index, base, resume, events, s)
    requires CaughtUp(index, base, resume, events, s) && calls.commit
    ensures var o := Flushed(s, calls);
            && CaughtUp(index, base, resume, events, o.state)
            && (calls.progress ==> !o.state.progress.dirty)
  {
    if s.progress.dirty && calls.progress {
      MovedNamesKey(resume, events);
      FlushKeeps(max, index, base, resume, events, s, calls);
      var o := Flushed(s, calls);
      assert events[..|events|] == events;
      assert CutAt(index, base, resume, events, o.state.store, |events|);
    }
  }

  lemma InsertRecent(max: int, index: string, base: Store, resume: string, events: seq<Event>, e: Event, s: State)
    requires index != "" && NamedKeys(events) && e.Insert? && e.calls.commit
    requires Sound(index, base, resume, events, s) && CaughtUp(index, base, resume, events, s)
    ensures CaughtUp(index, base, resume, events, Inserted(max, s, e.row, e.calls).state)
  {
    FlushRecent(max, index, base, resume, events, s, e.calls);
    hide Recent;
    hide Sound;
    hide Moved;
  }

  lemma StepRecent(max: int, index: string, base: Store, resume: string, events: seq<Event>, e: Event, s: State)
    requires index != "" && NamedKeys(events) && (e.Insert? ==> e.calls.commit)
    requires Sound(index, base, resume, events, s) && CaughtUp(index, base, resume, events, s)
    ensures CaughtUp(index, base, resume, events + [e], Step(max, index, s, e).state)
  {
    var more := events + [e];
    assert more[..|more| - 1] == events;
    var t := Step(max, index, s, e).state;
    match e
    case Insert(_, _) =>
      InsertRecent(max, index, base, resume, events, e, s);
      if Moved(resume, events) && !t.progress.dirty {
        RecentStays(index, base, resume, events, e, t.store);
      }
    case Complete(key) =>
      if Moves(LastKey(resume, events), e) {
        assert t.progress.dirty;
      } else if Moved(resume, events) && !t.progress.dirty {
        RecentStays(index, base, resume, events, e, t.store);
      }
    case Fail =>
      if Moved(resume, events) && !t.progress.dirty {
        RecentStays(index, base, resume, events, e, t.store);
      }
  }

  predicate CommitsWork(events: seq<Event>) {
    forall i :: 0 <= i < |events| && events[i].Insert? ==> events[i].calls.commit
  }

  /** The events up to the one that stopped the scan. */
  function Reached(p: Progressed, events: seq<Event>): seq<Event>
    requires p.done <= |events|
  {
    if p.done < |events| then events[..p.done + 1] else events
  }

  lemma ScanStep(max: int, index: string, base: Store, resume: string, before: seq<Event>, e: Event)
    ensures var p, q := Scan(max, index, base, resume, before), Scan(max, index, base, resume, before + [e]);
            && (!p.ok ==> q == p && Reached(q, before + [e]) == Reached(p, before))
            && (p.ok ==> q.state == Step(max, index, p.state, e).state && Reached(p, before) == before
                         && Reached(q, before + [e]) == before + [e])
  {
    hide Step;
    var events := before + [e];
    assert events[..|events| - 1] == before && events[..|events|] == events;
    var p := Scan(max, index, base, resume, before);
    assert p.done < |before| ==> events[..p.done + 1] == before[..p.done + 1];
  }

  lemma {:induction false} ScanRecent(max: int, index: string, base: Store, resume: string, events: seq<Event>)
    requires index != "" && NamedKeys(events) && Paced(max, resume, events) && 0 <= max && CommitsWork(events)
    ensures var p := Scan(max, index, base, resume, events);
            CaughtUp(index, base, resume, Reached(p, events), p.state)
    decreases |events|
  {
    if events != [] {
      var before, e := events[..|events| - 1], events[|events| - 1];
      ScanRecent(max, index, base, resume, before);
      var p := Scan(max, index, base, resume, before);
      assert events == before + [e];
      ScanStep(max, index, base, resume, before, e);
      if p.ok {
        var n := ScanKeeps(max, index, base, resume, before);
        assert before[..n] == before;
        hide *;
        StepRecent(max, index, base, resume, before, e, p.state);
      }
    }
  }

  /** If no commit fails, and whatever other call stops the scan, then after a last flush that works what is committed
    is a cut of the run after which no key made progress: everything inserted before the last progress is there. */
  lemma LastFlushCatchesUp(max: int, index: string, base: Store, resume: string, events: seq<Event>, last: Calls)
    requires index != "" && NamedKeys(events) && Paced(max, resume, events) && 0 <= max
    requires CommitsWork(events) && last.progress && last.commit
    requires Moved(resume, Reached(Scan(max, index, base, resume, events), events))
    ensures var p := Scan(max, index, base, resume, events);
            var o := Run(max, index, base, resume, events, last);
            o.ok && Recent(index, base, resume, Reached(p, events), o.state.store)
  {
    ScanRecent(max, index, base, resume, events);
    var p := Scan(max, index, base, resume, events);
    var n := ScanKeeps(max, index, base, resume, events);
    var reached := Reached(p, events);
    assert n <= |reached| && n + 1 >= |reached| && reached[..n] == events[..n];
    assert NamedKeys(reached);
    hide *;
    FlushedNow(index, base, resume, reached, n, p.state, last);
    LastFlush(max, index, base, resume, events, last);
  }

  lemma LastFlush(max: int, index: string, base: Store, resume: string, events: seq<Event>, last: Calls)
    ensures Run(max, index, base, resume, events, last) ==
            Flushed(Scan(max, index, base, resume, events).state, last)
  {
  }

  lemma OneRowMore(resume: string, events: seq<Event>)
    requires events != []
    ensures |Log(events)| - |Log(events[..|events| - 1])| <= Since(resume, events)
  {
  }

  lemma FlushedNow(index: string, base: Store, resume: string, events: seq<Event>, n: nat, s: State, last: Calls)
    requires index != "" && NamedKeys(events) && last.progress && last.commit && Moved(resume, events)
    requires n <= |events| <= n + 1 && Sound(index, base, resume, events[..n], s)
    requires CaughtUp(index, base, resume, events, s)
    ensures Flushed(s, last).ok && Recent(index, base, resume, events, Flushed(s, last).state.store)
  {
    if s.progress.dirty {
      var before, now := events[..n], Flushed(s, last).state.store;
      MovedNamesKey(resume, before);
      FlushKeeps(0, index, base, resume, before, s, last);
      assert CutAt(index, base, resume, events, now, n);
      if n == |events| {
        assert before == events;
      } else {
        OneRowMore(resume, events);
      }
    }
  }
}
