/** When the batch inserter can drop rows: exactly when a key that makes no progress has another after it. */
module BatchDrops {
  import opened Wrappers
  import opened BatchInserter
  import opened BatchCheckpoints

  lemma {:induction false} DriveConcat(max: int, index: string, s: State, first: seq<Event>, second: seq<Event>)
    requires Drive(max, index, s, first).ok
    ensures var p, q := Drive(max, index, s, first + second),
            Drive(max, index, Drive(max, index, s, first).state, second);
            p.state == q.state && p.ok == q.ok
    decreases |second|
  {
    if second == [] {
      assert first + second == first;
    } else {
      var all := first + second;
      assert all[..|all| - 1] == first + second[..|second| - 1];
      DriveConcat(max, index, s, first, second[..|second| - 1]);
    }
  }

  lemma {:induction false} DroppedStays(max: int, index: string, s: State, events: seq<Event>)
    requires s.dropped != []
    ensures Drive(max, index, s, events).state.dropped != []
    decreases |events|
  {
    if events != [] {
      DroppedStays(max, index, s, events[..|events| - 1]);
    }
  }

  predicate AllFiller(events: seq<Event>) {
    forall i :: 0 <= i < |events| ==> events[i] == Insert(JobRow(""), ALL_WORK)
  }

  function Filler(n: int): (r: seq<Event>)
    ensures |r| == if n < 0 then 0 else n
    ensures AllFiller(r)
  {
    if n <= 0 then [] else Filler(n - 1) + [Insert(JobRow(""), ALL_WORK)]
  }

  /** A transaction in use, or none. */
  predicate Counted(s: State) {
    s.inserted == |Pending(s)|
  }

  /** Inserts that fit do not flush. */
  lemma {:induction false} InsertsFit(max: int, index: string, s: State, n: nat)
    requires Counted(s) && s.dropped == [] && s.inserted + n <= max
    ensures var t := Drive(max, index, s, Filler(n)).state;
            Drive(max, index, s, Filler(n)).ok
            && Counted(t) && t.dropped == [] && t.inserted == s.inserted + n && t.progress == s.progress
  {
    if n > 0 {
      InsertsFit(max, index, s, n - 1);
      assert Filler(n)[..n - 1] == Filler(n - 1);
    }
  }

  lemma FillerSplit(n: int)
    requires n > 0
    ensures Filler(1) + Filler(n - 1) == Filler(n)
  {
    hide Filler;
  }

  lemma OneFlush(max: int, index: string, s: State)
    requires Counted(s) && s.dropped == [] && s.inserted == max > 0 && !NothingToRecord(s.progress)
    ensures var p := Drive(max, index, s, Filler(1));
            && p.ok && Counted(p.state) && p.state.dropped == [] && p.state.inserted == 1
            && p.state.progress == s.progress.(dirty := false)
  {
    assert Filler(1)[..0] == [];
  }

  /** Inserts into a full transaction flush it when there is a key to record. */
  lemma InsertsFlush(max: int, index: string, s: State)
    requires Counted(s) && s.dropped == [] && s.inserted == max > 0 && !NothingToRecord(s.progress)
    ensures var p := Drive(max, index, s, Filler(max));
            && p.ok && Counted(p.state) && p.state.dropped == [] && p.state.inserted == max
            && p.state.progress == s.progress.(dirty := false)
  {
    hide *;
    OneFlush(max, index, s);
    FillerThen(max, index, s, Drive(max, index, s, Filler(1)).state);
  }

  lemma FillerThen(max: int, index: string, s: State, t: State)
    requires max > 0
    requires Drive(max, index, s, Filler(1)).ok && Drive(max, index, s, Filler(1)).state == t
    requires Counted(t) && t.dropped == [] && t.inserted == 1
    ensures var p := Drive(max, index, s, Filler(max));
            && p.ok && Counted(p.state) && p.state.dropped == [] && p.state.inserted == max
            && p.state.progress == t.progress
  {
    hide *;
    FillerSplit(max);
    DriveConcat(max, index, s, Filler(1), Filler(max - 1));
    InsertsFit(max, index, t, max - 1);
  }

  /** One more insert drops it when there is none. */
  lemma InsertDrops(max: int, index: string, s: State)
    requires Counted(s) && s.inserted == max > 0 && NothingToRecord(s.progress)
    ensures Drive(max, index, s, Filler(1)).ok && Drive(max, index, s, Filler(1)).state.dropped != []
  {
    assert Filler(1)[..0] == [];
    assert s.tx.Some? && Pending(s) != [];
  }

  /** The scan of one more key, from where the keys before it left off. */
  lemma KeyStep(max: int, index: string, s: State, works: seq<Work>, i: nat)
    requires i < |works|
    requires Drive(max, index, s, KeyEvents(works[..i])).ok
    ensures var t := Drive(max, index, s, KeyEvents(works[..i])).state;
            var p, q := Drive(max, index, s, KeyEvents(works[..i + 1])), Drive(max, index, t, works[i].inserts);
            && p.ok == q.ok
            && (q.ok ==> p.state == Completed(q.state, index, works[i].key))
            && (q.ok ==> q.state == Drive(max, index, s, KeyEvents(works[..i]) + works[i].inserts).state)
  {
    var before := KeyEvents(works[..i]);
    assert works[..i + 1][..i] == works[..i];
    var all := before + works[i].inserts + [Complete(works[i].key)];
    assert KeyEvents(works[..i + 1]) == all;
    assert all[..|all| - 1] == before + works[i].inserts;
    DriveConcat(max, index, s, before, works[i].inserts);
  }

  /** Rows enough to fill the batch for key `i` and the one before it, and one row for the key after. */
  function Bulk(max: int, keys: seq<string>, i: int): (works: seq<Work>)
    ensures |works| == |keys|
  {
    seq(|keys|, j requires 0 <= j < |keys| =>
        Work(keys[j], Filler(if j == i || j == i - 1 then max else if j == i + 1 then 1 else 0)))
  }

  lemma BulkAt(max: int, keys: seq<string>, i: int, j: nat)
    requires max > 0 && j < |keys|
    ensures var work := Bulk(max, keys, i)[j];
            && work.key == keys[j]
            && work.inserts == Filler(if j == i || j == i - 1 then max else if j == i + 1 then 1 else 0)
            && Inserts(max, work)
  {
  }

  lemma BulkKeys(max: int, keys: seq<string>, i: nat)
    requires max > 0
    ensures KeysOf(Bulk(max, keys, i)) == keys
    ensures forall j :: 0 <= j < |keys| ==> Inserts(max, Bulk(max, keys, i)[j])
    ensures forall j :: 0 <= j < |keys| && j < i - 1 ==> Bulk(max, keys, i)[j].inserts == []
  {
    hide Bulk;
    hide Inserts;
    hide Filler;
    forall j | 0 <= j < |keys|
      ensures Bulk(max, keys, i)[j].key == keys[j] && Inserts(max, Bulk(max, keys, i)[j])
      ensures j < i - 1 ==> Bulk(max, keys, i)[j].inserts == []
    {
      BulkAt(max, keys, i, j);
    }
  }

  /** Keys without inserts leave nothing pending. */
  lemma {:induction false} IdleKeys(max: int, index: string, s: State, works: seq<Work>)
    requires forall i :: 0 <= i < |works| ==> works[i].inserts == []
    requires s.tx == None && s.inserted == 0 && s.dropped == [] && s.progress.index == index
    ensures var p := Drive(max, index, s, KeyEvents(works));
            && p.ok && p.state.tx == None && p.state.inserted == 0 && p.state.dropped == []
            && p.state.progress.index == index
            && p.state.progress.key == if works == [] then s.progress.key else works[|works| - 1].key
    decreases |works|
  {
    if works != [] {
      var n := |works| - 1;
      IdleKeys(max, index, s, works[..n]);
      assert works[..n + 1] == works;
      var t := Drive(max, index, s, KeyEvents(works[..n])).state;
      assert Drive(max, index, t, works[n].inserts) == Progressed(t, true, 0);
      hide Drive;
      hide KeyEvents;
      KeyStep(max, index, s, works, n);
    } else {
      assert KeyEvents(works) == [];
    }
  }

  lemma FullAfterNewKey(max: int, index: string, base: Store, resume: string, keys: seq<string>, i: nat)
    requires max > 0 && index != "" && 0 < i < |keys|
    requires NewKey(resume, keys, i - 1)
    ensures var p := Scan(max, index, base, resume, KeyEvents(Bulk(max, keys, i)[..i]));
            && p.ok && Counted(p.state) && p.state.inserted == max && p.state.dropped == []
            && p.state.progress == Progress(true, index, keys[i - 1])
  {
    hide Drive;
    hide Bulk;
    hide KeyEvents;
    hide Filler;
    hide KeysOf;
    hide Inserts;
    var works := Bulk(max, keys, i);
    var start := Completed(Opened(base), index, resume);
    BulkKeys(max, keys, i);
    IdleKeys(max, index, start, works[..i - 1]);
    InsertsFit(max, index, Drive(max, index, start, KeyEvents(works[..i - 1])).state, max);
    BulkAt(max, keys, i, i - 1);
    if i > 1 {
      BulkAt(max, keys, i, i - 2);
    }
    KeyStep(max, index, start, works, i - 1);
  }

  /** After key `i`, the first that makes no progress, the batch is full and there is nothing to record. */
  lemma FullAfterIdleKey(max: int, index: string, base: Store, resume: string, keys: seq<string>, i: nat)
    requires max > 0 && index != "" && i < |keys|
    requires i > 0 ==> keys[i - 1] != "" && NewKey(resume, keys, i - 1)
    requires !NewKey(resume, keys, i)
    ensures var p := Scan(max, index, base, resume, KeyEvents(Bulk(max, keys, i)[..i + 1]));
            p.ok && Counted(p.state) && p.state.inserted == max && !p.state.progress.dirty
  {
    hide Bulk;
    hide Filler;
    hide KeysOf;
    hide Inserts;
    var works := Bulk(max, keys, i);
    var start := Completed(Opened(base), index, resume);
    BulkAt(max, keys, i, i);
    if i == 0 {
      assert works[..0] == [];
      InsertsFit(max, index, start, max);
    } else {
      hide Drive;
      hide KeyEvents;
      FullAfterNewKey(max, index, base, resume, keys, i);
      InsertsFlush(max, index, Drive(max, index, start, KeyEvents(works[..i])).state);
    }
    KeyStep(max, index, start, works, i);
  }

  lemma BulkDrops(max: int, index: string, base: Store, resume: string, keys: seq<string>, i: nat)
    requires max > 0 && index != "" && i + 1 < |keys|
    requires i > 0 ==> keys[i - 1] != "" && NewKey(resume, keys, i - 1)
    requires !NewKey(resume, keys, i)
    ensures Scan(max, index, base, resume, KeyEvents(Bulk(max, keys, i))).state.dropped != []
  {
    hide Drive;
    hide Bulk;
    hide KeyEvents;
    hide Filler;
    var works := Bulk(max, keys, i);
    var start := Completed(Opened(base), index, resume);
    FullAfterIdleKey(max, index, base, resume, keys, i);
    InsertDrops(max, index, Drive(max, index, start, KeyEvents(works[..i + 1])).state);
    BulkAt(max, keys, i, i + 1);
    KeyStep(max, index, start, works, i + 1);
    RestKeeps(max, index, start, works, i + 2);
  }

  lemma {:induction false} RestKeeps(max: int, index: string, s: State, works: seq<Work>, i: nat)
    requires i <= |works|
    requires Drive(max, index, s, KeyEvents(works[..i])).ok
    requires Drive(max, index, s, KeyEvents(works[..i])).state.dropped != []
    ensures Drive(max, index, s, KeyEvents(works)).state.dropped != []
    decreases |works|
  {
    var rest := RestEvents(works, i);
    DriveConcat(max, index, s, KeyEvents(works[..i]), rest);
    DroppedStays(max, index, Drive(max, index, s, KeyEvents(works[..i])).state, rest);
  }

  lemma {:induction false} RestEvents(works: seq<Work>, i: nat) returns (rest: seq<Event>)
    requires i <= |works|
    ensures KeyEvents(works) == KeyEvents(works[..i]) + rest
    decreases |works|
  {
    if i == |works| {
      assert works[..i] == works;
      rest := [];
    } else {
      var n := |works| - 1;
      assert works[..n][..i] == works[..i];
      rest := RestEvents(works[..n], i);
      rest := rest + works[n].inserts + [Complete(works[n].key)];
    }
  }

  lemma FirstIdleKey(resume: string, keys: seq<string>, n: nat) returns (i: nat)
    requires n <= |keys| && exists j :: 0 <= j < n && !NewKey(resume, keys, j)
    ensures i < n && !NewKey(resume, keys, i) && forall j :: 0 <= j < i ==> NewKey(resume, keys, j)
  {
    i := 0;
    while NewKey(resume, keys, i)
      invariant i < n && forall j :: 0 <= j < i ==> NewKey(resume, keys, j)
      decreases n - i
    {
      i := i + 1;
    }
  }

  ghost predicate NeverDrops(max: int, index: string, base: Store, resume: string, keys: seq<string>) {
    forall works: seq<Work> ::
      KeysOf(works) == keys && (forall i :: 0 <= i < |works| ==> Inserts(max, works[i])) ==>
        Scan(max, index, base, resume, KeyEvents(works)).state.dropped == []
  }

  /** With at most a batch of inserts for each key, no transaction is ever dropped if and only if every key
    but the last one is different from the one before it, the resume key for the first, and follows a
    non-empty one. A scan resumed at a key that is listed again, or from no key at all, does not meet this. */
  lemma DropsExactly(max: int, index: string, base: Store, resume: string, keys: seq<string>)
    requires max > 0 && index != ""
    requires forall j :: 0 <= j < |keys| ==> keys[j] != ""
    ensures NeverDrops(max, index, base, resume, keys) <==> KeysMove(resume, keys)
  {
    if KeysMove(resume, keys) {
      forall works: seq<Work> | KeysOf(works) == keys && forall i :: 0 <= i < |works| ==> Inserts(max, works[i])
        ensures Scan(max, index, base, resume, KeyEvents(works)).state.dropped == []
      {
        forall i | 0 <= i < |works|
          ensures works[i].key != "" && Inserts(|works[i].inserts|, works[i])
        {
          assert works[i].key == keys[i];
          assert Inserts(max, works[i]);
        }
        KeysPaced(max, resume, works);
        KeysNamed(works);
        CheckpointSafe(max, index, base, resume, KeyEvents(works), ALL_WORK);
      }
    } else {
      var i := FirstIdleKey(resume, keys, |keys| - 1);
      BulkDrops(max, index, base, resume, keys, i);
      BulkKeys(max, keys, i);
    }
  }

  lemma DriveStep(max: int, index: string, s: State, events: seq<Event>, n: nat)
    requires n < |events| && Drive(max, index, s, events[..n]).ok
    ensures var o, p := Step(max, index, Drive(max, index, s, events[..n]).state, events[n]),
            Drive(max, index, s, events[..n + 1]);
            p.state == o.state && p.ok == o.ok
  {
    assert events[..n + 1][..n] == events[..n];
  }

  /** A scan from no key at all, as the first one ever is, whose keys fill a batch each: the run succeeds and
    its scrape row names the second key, but the first key's row is lost. */
  lemma FirstScanLosesRow(index: string, a: string, b: string, first: Row, second: Row)
    requires index != "" && a != "" && b != "" && a != b
    ensures var o := Run(1, index, Store([], map[]), "",
                         [Insert(first, ALL_WORK), Complete(a), Insert(second, ALL_WORK), Complete(b)], ALL_WORK);
            o.ok && o.state.store == Store([second], map[index := b]) && o.state.dropped == [first]
  {
    var base := Store([], map[]);
    var s := Completed(Opened(base), index, "");
    var e := [Insert(first, ALL_WORK), Complete(a), Insert(second, ALL_WORK), Complete(b)];
    assert e[..0] == [] && e[..4] == e;
    assert Drive(1, index, s, e[..0]).ok && Drive(1, index, s, e[..0]).state == s;
    hide Drive;
    assert [] + [first] == [first] && [] + [second] == [second];
    DriveStep(1, index, s, e, 0);
    assert Drive(1, index, s, e[..1]).state == State(base, Some([first]), 1, Progress(false, index, ""), []);
    DriveStep(1, index, s, e, 1);
    assert Drive(1, index, s, e[..2]).state == State(base, Some([first]), 1, Progress(false, index, a), []);
    DriveStep(1, index, s, e, 2);
    assert Drive(1, index, s, e[..3]).state == State(base, Some([second]), 2, Progress(false, index, a), [first]);
    DriveStep(1, index, s, e, 3);
  }
}
