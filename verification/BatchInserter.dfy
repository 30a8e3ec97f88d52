/** The batch inserter of the metrics database: rows and the scrape position share a transaction, which is
  committed when enough rows have piled up, even in the middle of a key. */
module BatchInserter {
  import opened Wrappers

  datatype Row =
    | JobRow(job: string)
    | MetricRow(metric: string)
    | ValueRow(values: seq<string>)
    | ReleaseRow(release: seq<string>)

  /** What is committed: the rows in insertion order, and the last key of each named scrape. */
  datatype Store = Store(rows: seq<Row>, scrape: map<string, string>)

  datatype Progress = Progress(dirty: bool, index: string, key: string)

  /** The inserter and its database. `tx` holds the rows of the open transaction; `dropped` holds those of
    transactions that were replaced without having been committed or rolled back. */
  datatype State = State(store: Store, tx: Option<seq<Row>>, inserted: int, progress: Progress, dropped: seq<Row>)

  /** Which of the database calls of one operation succeed. `progress` covers preparing, beginning and
    executing the statement that writes the scrape row; `exec` covers preparing and executing an insert, and
    `id` asking for the id of the new row. */
  datatype Calls = Calls(progress: bool, commit: bool, begin: bool, exec: bool, id: bool)

  datatype Outcome = Outcome(state: State, ok: bool)

  const ALL_WORK := Calls(true, true, true, true, true)

  function Opened(store: Store): State {
    State(store, None, 0, Progress(false, "", ""), [])
  }

  function Pending(s: State): seq<Row> {
    if s.tx.Some? then s.tx.value else []
  }

  predicate NothingToRecord(p: Progress) {
    !p.dirty || p.key == "" || p.index == ""
  }

  function Flushed(s: State, calls: Calls): Outcome {
    if NothingToRecord(s.progress) then Outcome(s, true)
    else if !calls.progress then Outcome(s, false)
    else
      var t := s.(tx := None, inserted := 0, progress := s.progress.(dirty := false));
      if !calls.commit then Outcome(t, false)
      else Outcome(t.(store := Store(s.store.rows + Pending(s), s.store.scrape[s.progress.index := s.progress.key])),
          true)
  }

  function WithTx(max: int, s: State, calls: Calls): (o: Outcome)
    ensures o.ok ==> o.state.tx.Some?
  {
    if s.tx.Some? && s.inserted < max then Outcome(s, true)
    else
      var o := if s.tx.Some? then Flushed(s, calls) else Outcome(s, true);
      if !o.ok || !calls.begin then Outcome(o.state, false)
      else Outcome(o.state.(tx := Some([]), dropped := o.state.dropped + Pending(o.state)), true)
  }

  /** The ids of new jobs and metrics are asked for. */
  predicate NeedsId(row: Row) {
    row.JobRow? || row.MetricRow?
  }

  /** A row whose id cannot be had stays in the transaction, uncounted. */
  function Inserted(max: int, s: State, row: Row, calls: Calls): Outcome {
    var o := WithTx(max, s, calls);
    if !o.ok || !calls.exec then Outcome(o.state, false)
    else
      var t := o.state.(tx := Some(o.state.tx.value + [row]));
      if NeedsId(row) && !calls.id then Outcome(t, false)
      else Outcome(t.(inserted := t.inserted + 1), true)
  }

  function Completed(s: State, index: string, key: string): State {
    if index == s.progress.index && s.progress.key == key then s
    else s.(progress := Progress(s.progress.dirty || (s.progress.index != "" && s.progress.key != ""), index, key))
  }

  /** What the scan of the index does with the inserter: each key makes some inserts and is completed;
    reading the index or a key may fail. */
  datatype Event = Insert(row: Row, calls: Calls) | Complete(key: string) | Fail

  function Step(max: int, index: string, s: State, e: Event): Outcome {
    match e
    case Insert(row, calls) => Inserted(max, s, row, calls)
    case Complete(key) => Outcome(Completed(s, index, key), true)
    case Fail => Outcome(s, false)
  }

  /** A run cut off somewhere: the first error ends the scan, and `done` events came before it. */
  datatype Progressed = Progressed(state: State, ok: bool, done: nat)

  function Drive(max: int, index: string, s: State, events: seq<Event>): (p: Progressed)
    ensures p.done <= |events| && (p.ok <==> p.done == |events|)
  {
    if events == [] then Progressed(s, true, 0)
    else
      var p := Drive(max, index, s, events[..|events| - 1]);
      if !p.ok then p
      else
        var o := Step(max, index, p.state, events[|events| - 1]);
        Progressed(o.state, o.ok, if o.ok then p.done + 1 else p.done)
  }

  /** The scan of an index that resumes from key `resume`, up to the point where it stops. */
  function Scan(max: int, index: string, store: Store, resume: string, events: seq<Event>): Progressed {
    Drive(max, index, Completed(Opened(store), index, resume), events)
  }

  /** The whole run: whatever ended the scan, `Flush` is called once more. */
  function Run(max: int, index: string, store: Store, resume: string, events: seq<Event>, last: Calls): Outcome {
    Flushed(Scan(max, index, store, resume, events).state, last)
  }

  // ----- the inserter as an object

  class Database {
    var rows: seq<Row>
    var scrape: map<string, string>

    constructor (store: Store)
      ensures rows == store.rows && scrape == store.scrape
    {
      rows := store.rows;
      scrape := store.scrape;
    }
  }

  class MetricBatchInserter {
    const db: Database
    const maxBatch: int
    var tx: Option<seq<Row>>
    var inserted: int
    var lastCompletedKey: string
    var lastIndex: string
    var lastDirty: bool
    ghost var dropped: seq<Row>

    ghost function Contents(): State
      reads this, db
    {
      State(Store(db.rows, db.scrape), tx, inserted, Progress(lastDirty, lastIndex, lastCompletedKey), dropped)
    }

    constructor (db: Database, maxBatch: int)
      ensures this.db == db && this.maxBatch == maxBatch
      ensures Contents() == Opened(Store(db.rows, db.scrape))
    {
      this.db := db;
      this.maxBatch := maxBatch;
      tx := None;
      inserted := 0;
      lastCompletedKey := "";
      lastIndex := "";
      lastDirty := false;
      dropped := [];
    }

    /** `Flush`, with `addProgressToTxn` in line. */
    method Flush(calls: Calls) returns (ok: bool)
      modifies this, db
      ensures Outcome(Contents(), ok) == Flushed(old(Contents()), calls)
    {
      if !lastDirty || |lastCompletedKey| == 0 || |lastIndex| == 0 {
        return true;
      }
      if !calls.progress {
        return false;
      }
      var rows := if tx.Some? then tx.value else [];
      lastDirty := false;
      tx := None;
      inserted := 0;
      if !calls.commit {
        return false;
      }
      db.rows := db.rows + rows;
      db.scrape := db.scrape[lastIndex := lastCompletedKey];
      ok := true;
    }

    method TxForInsert(calls: Calls) returns (ok: bool)
      modifies this, db
      ensures Outcome(Contents(), ok) == WithTx(maxBatch, old(Contents()), calls)
    {
      if tx.Some? {
        if inserted < maxBatch {
          return true;
        }
        var flushed := Flush(calls);
        if !flushed {
          return false;
        }
      }
      if !calls.begin {
        return false;
      }
      dropped := dropped + if tx.Some? then tx.value else [];
      tx := Some([]);
      ok := true;
    }

    /** `InsertJob`, `InsertMetric`, `InsertReleaseJob` and `InsertMetricValue`. */
    method Insert(row: Row, calls: Calls) returns (ok: bool)
      modifies this, db
      ensures Outcome(Contents(), ok) == Inserted(maxBatch, old(Contents()), row, calls)
    {
      ok := TxForInsert(calls);
      if !ok {
        return;
      }
      if !calls.exec {
        return false;
      }
      tx := Some(tx.value + [row]);
      if NeedsId(row) && !calls.id {
        return false;
      }
      inserted := inserted + 1;
    }

    method CompletedKey(index: string, key: string)
      modifies this
      ensures Contents() == Completed(old(Contents()), index, key)
    {
      if index == lastIndex && lastCompletedKey == key {
        return;
      }
      if |lastIndex| > 0 && |lastCompletedKey| > 0 {
        lastDirty := true;
      }
      lastIndex := index;
      lastCompletedKey := key;
    }
  }

  /** The inserter's part of `indexFromGCS`. */
  method IndexFromGCS(db: Database, maxBatch: int, index: string, resume: string, events: seq<Event>, last: Calls)
      returns (b: MetricBatchInserter, ok: bool)
    modifies db
    ensures b.db == db && fresh(b)
    ensures Outcome(b.Contents(), ok) == Run(maxBatch, index, old(Store(db.rows, db.scrape)), resume, events, last)
  {
    b := new MetricBatchInserter(db, maxBatch);
    b.CompletedKey(index, resume);
    ghost var start := b.Contents();
    var i := 0;
    var going := true;
    while going && i < |events|
      invariant 0 <= i <= |events|
      invariant b.db == db && b.maxBatch == maxBatch && fresh(b)
      invariant var p := Drive(maxBatch, index, start, events[..i]); p.state == b.Contents() && p.ok == going
      decreases |events| - i, going
    {
      assert events[..i + 1][..i] == events[..i];
      match events[i] {
        case Insert(row, calls) => going := b.Insert(row, calls);
        case Complete(key) => b.CompletedKey(index, key);
        case Fail => going := false;
      }
      i := i + 1;
    }
    StopsThere(maxBatch, index, start, events, i);
    ok := b.Flush(last);
  }

  lemma {:induction false} StopsThere(max: int, index: string, s: State, events: seq<Event>, i: nat)
    requires i <= |events|
    requires i == |events| || !Drive(max, index, s, events[..i]).ok
    ensures Drive(max, index, s, events) == Drive(max, index, s, events[..i])
    decreases |events|
  {
    if i == |events| {
      assert events[..i] == events;
    } else {
      var shorter := events[..|events| - 1];
      assert shorter[..i] == events[..i];
      StopsThere(max, index, s, shorter, i);
    }
  }
}
