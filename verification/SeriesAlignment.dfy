/** Turning sparse query rows into aligned series: one slot for each timestamp, 0 where a series has no row. */
module SeriesAlignment {
  import opened Wrappers

  datatype SeriesKey = SeriesKey(jobId: int, selector: string)

  type SeriesMap = map<SeriesKey, Slice<real>>

  datatype Row = Row(timestamp: int, version: string, key: SeriesKey, value: real)

  // ----- what the rows say

  function Timestamps(rows: seq<Row>): seq<int> {
    if rows == [] then []
    else
      var ts, t := Timestamps(rows[..|rows| - 1]), rows[|rows| - 1].timestamp;
      if ts == [] || ts[|ts| - 1] != t then ts + [t] else ts
  }

  function Labels(rows: seq<Row>): seq<string> {
    if rows == [] then []
    else
      var before, row := rows[..|rows| - 1], rows[|rows| - 1];
      if |Timestamps(rows)| > |Timestamps(before)| then Labels(before) + [row.version] else Labels(before)
  }

  /** The slot of a series as the rows so far leave it. */
  function Slot(rows: seq<Row>, key: SeriesKey, i: nat): real {
    if rows == [] then 0.0
    else if rows[|rows| - 1].key == key && |Timestamps(rows)| == i + 1 then rows[|rows| - 1].value
    else Slot(rows[..|rows| - 1], key, i)
  }

  predicate HasRow(rows: seq<Row>, key: SeriesKey) {
    exists j :: 0 <= j < |rows| && rows[j].key == key
  }

  // ----- the loops

  /** Slots up to the length of a series are in its array; the rest are still 0. */
  ghost predicate Kept(rows: seq<Row>, key: SeriesKey, s: Slice<real>)
    reads s.items
  {
    && s.len <= s.items.Length && s.len <= |Timestamps(rows)|
    && (forall i :: 0 <= i < s.len ==> s.items[i] == Slot(rows, key, i))
    && (forall i :: s.len <= i ==> Slot(rows, key, i) == 0.0)
  }

  function Cells(series: SeriesMap): set<array<real>> {
    set key | key in series :: series[key].items
  }

  /** No two series share an array. */
  ghost predicate Apart(series: SeriesMap) {
    forall k, l :: k in series && l in series && k != l ==> series[k].items != series[l].items
  }

  ghost predicate AllKept(rows: seq<Row>, series: SeriesMap)
    reads Cells(series)
  {
    && Apart(series)
    && (forall key :: key in series <==> HasRow(rows, key))
    && (forall key :: key in series ==> Kept(rows, key, series[key]))
  }

  /** `append(s, make([]float64, missing)...)`. */
  method Extend(s: Slice<real>, missing: nat) returns (r: Slice<real>)
    requires s.len <= s.items.Length
    modifies s.items
    ensures r.len == s.len + missing <= r.items.Length
    ensures r.items == s.items || fresh(r.items)
    ensures forall i :: 0 <= i < s.len ==> r.items[i] == old(s.items[i])
    ensures forall i :: s.len <= i < r.len ==> r.items[i] == 0.0
  {
    if s.len + missing <= s.items.Length {
      for i := s.len to s.len + missing
        invariant forall j :: 0 <= j < s.len ==> s.items[j] == old(s.items[j])
        invariant forall j :: s.len <= j < i ==> s.items[j] == 0.0
      {
        s.items[i] := 0.0;
      }
      return Slice(s.items, s.len + missing);
    }
    var grown := new real[s.len + missing](i reads s.items requires 0 <= i => if i < s.len && i < s.items.Length
        then s.items[i] else 0.0);
    r := Slice(grown, s.len + missing);
  }

  lemma NextSlot(rows: seq<Row>, n: nat, key: SeriesKey, i: nat)
    requires n < |rows|
    ensures Slot(rows[..n + 1], key, i) ==
            if rows[n].key == key && |Timestamps(rows[..n + 1])| == i + 1 then rows[n].value
                else Slot(rows[..n], key, i)
  {
    assert rows[..n + 1][..n] == rows[..n];
  }

  lemma NextRow(rows: seq<Row>, n: nat, key: SeriesKey, more: seq<Row>, before: seq<Row>)
    requires n < |rows| && more == rows[..n + 1] && before == rows[..n]
    ensures forall i: nat :: Slot(more, key, i) ==
              if rows[n].key == key && |Timestamps(more)| == i + 1 then rows[n].value else Slot(before, key, i)
  {
    forall i: nat
      ensures Slot(more, key, i) ==
              if rows[n].key == key && |Timestamps(more)| == i + 1 then rows[n].value else Slot(before, key, i)
    {
      NextSlot(rows, n, key, i);
    }
  }

  lemma NextTimestamp(rows: seq<Row>, n: nat)
    requires n < |rows|
    ensures var ts := Timestamps(rows[..n]);
            && Timestamps(rows[..n + 1]) ==
                (if ts == [] || ts[|ts| - 1] != rows[n].timestamp then ts + [rows[n].timestamp] else ts)
            && Labels(rows[..n + 1]) ==
               if |Timestamps(rows[..n + 1])| > |ts| then Labels(rows[..n]) + [rows[n].version] else Labels(rows[..n])
    ensures forall key :: HasRow(rows[..n + 1], key) <==> HasRow(rows[..n], key) || key == rows[n].key
  {
    assert rows[..n + 1][..n] == rows[..n];
    forall key
      ensures HasRow(rows[..n + 1], key) <==> HasRow(rows[..n], key) || key == rows[n].key
    {
      assert rows[..n + 1][n].key == rows[n].key;
      if j :| 0 <= j < n && rows[..n][j].key == key {
        assert rows[..n + 1][j].key == key;
      }
    }
  }

  /** A series that row `n` is not for. */
  lemma OthersKept(rows: seq<Row>, n: nat, key: SeriesKey, s: Slice<real>)
    requires n < |rows| && rows[n].key != key && Kept(rows[..n], key, s)
    ensures Kept(rows[..n + 1], key, s)
  {
    NextTimestamp(rows, n);
    NextRow(rows, n, key, rows[..n + 1], rows[..n]);
    hide Slot;
    hide Timestamps;
  }

  /** The series that row `n` is for, grown to the last timestamp. */
  lemma OwnKept(rows: seq<Row>, n: nat, len: nat, s: Slice<real>)
    requires n < |rows|
    requires var key, last := rows[n].key, |Timestamps(rows[..n + 1])| - 1;
             && s.len <= s.items.Length && s.len == last + 1 && s.items[last] == rows[n].value
             && (forall i :: 0 <= i < last ==> s.items[i] == Slot(rows[..n], key, i))
             && (forall i :: last < i ==> Slot(rows[..n], key, i) == 0.0)
    ensures Kept(rows[..n + 1], rows[n].key, s)
  {
    NextRow(rows, n, rows[n].key, rows[..n + 1], rows[..n]);
    hide Slot;
    hide Timestamps;
  }

  /** The loop body for row `n`, once its timestamp is the one at `last`. */
  method AddRow(rows: seq<Row>, n: nat, series: SeriesMap, last: nat) returns (updated: SeriesMap)
    requires n < |rows| && last + 1 == |Timestamps(rows[..n + 1])|
    requires AllKept(rows[..n], series)
    modifies Cells(series)
    ensures AllKept(rows[..n + 1], updated)
    ensures fresh(Cells(updated) - Cells(series))
  {
    hide Slot;
    hide Timestamps;
    hide HasRow;
    NextTimestamp(rows, n);
    NoRowNoSlot(rows[..n], rows[n].key);
    updated := series;
    var key, row := rows[n].key, rows[n];
    var s;
    if key in series {
      s := series[key];
    } else {
      var cells := new real[1024];
      s := Slice(cells, 0);
      updated := updated[key := s];
    }
    assert Kept(rows[..n], key, s);
    var missing := last - (s.len - 1);
    var seriesGrew := false;
    if missing > 0 {
      s := Extend(s, missing);
      seriesGrew := true;
    }
    s.items[last] := row.value;
    if seriesGrew {
      updated := updated[key := s];
    }
    OwnKept(rows, n, s.len, s);
    forall k | k in updated && k != key
      ensures Kept(rows[..n + 1], k, updated[k])
    {
      assert Kept(rows[..n], k, series[k]);
      OthersKept(rows, n, k, updated[k]);
    }
  }

  lemma {:induction false} NoRowNoSlot(rows: seq<Row>, key: SeriesKey)
    ensures !HasRow(rows, key) ==> forall i: nat :: Slot(rows, key, i) == 0.0
  {
    if rows != [] && !HasRow(rows, key) {
      var before := rows[..|rows| - 1];
      assert forall j :: 0 <= j < |before| ==> before[j] == rows[j];
      NoRowNoSlot(before, key);
    }
  }

  ghost predicate Aligned(rows: seq<Row>, series: SeriesMap)
    reads Cells(series)
  {
    && AllKept(rows, series)
    && forall key :: key in series ==> series[key].len == |Timestamps(rows)|
  }

  /** The row loop and the padding of `handleAPIJobGraph`. */
  method AlignRows(rows: seq<Row>) returns (timestamps: seq<int>, labels: seq<string>, series: SeriesMap)
    ensures timestamps == Timestamps(rows) && labels == Labels(rows)
    ensures Aligned(rows, series) && fresh(Cells(series))
  {
    hide Slot;
    hide Kept;
    hide AllKept;
    hide Labels;
    timestamps, labels, series := [], [], map[];
    NothingKept();
    for n := 0 to |rows|
      invariant timestamps == Timestamps(rows[..n]) && labels == Labels(rows[..n])
      invariant AllKept(rows[..n], series) && fresh(Cells(series))
    {
      NextTimestamp(rows, n);
      var last := |timestamps| - 1;
      if last == -1 || timestamps[last] != rows[n].timestamp {
        timestamps := timestamps + [rows[n].timestamp];
        labels := labels + [rows[n].version];
        last := last + 1;
      }
      series := AddRow(rows, n, series, last);
    }
    assert rows[..|rows|] == rows;
    series := PadSeries(rows, series, |timestamps|);
  }

  lemma NothingKept()
    ensures AllKept([], map[]) && Labels([]) == []
  {
  }

  /** The padding loop; the order of the keys does not matter. */
  method PadSeries(rows: seq<Row>, series: SeriesMap, expected: nat) returns (padded: SeriesMap)
    requires AllKept(rows, series) && expected == |Timestamps(rows)|
    modifies Cells(series)
    ensures Aligned(rows, padded) && fresh(Cells(padded) - Cells(series))
  {
    hide Slot;
    hide Timestamps;
    hide HasRow;
    hide Kept;
    hide Apart;
    padded := series;
    var keys := series.Keys;
    while keys != {}
      invariant keys <= padded.Keys && AllKept(rows, padded)
      invariant fresh(Cells(padded) - Cells(series))
      invariant forall key :: key in padded && key !in keys ==> padded[key].len == expected
      decreases |keys|
    {
      var key := Pick(keys);
      keys := keys - {key};
      padded := PadOne(rows, padded, key, expected);
    }
  }

  method PadOne(rows: seq<Row>, series: SeriesMap, key: SeriesKey, expected: nat) returns (padded: SeriesMap)
    requires AllKept(rows, series) && expected == |Timestamps(rows)| && key in series
    modifies Cells(series)
    ensures AllKept(rows, padded) && fresh(Cells(padded) - Cells(series))
    ensures padded.Keys == series.Keys && padded[key].len == expected
    ensures forall k :: k in series && k != key ==> padded[k] == series[k]
  {
    hide Slot;
    hide Timestamps;
    hide HasRow;
    padded := series;
    var v := series[key];
    assert Kept(rows, key, v);
    var missing := expected - v.len;
    if missing > 0 {
      v := Extend(v, missing);
      padded := padded[key := v];
      assert Kept(rows, key, v);
      forall k | k in padded && k != key
        ensures Kept(rows, k, padded[k])
      {
        assert old(Kept(rows, k, series[k]));
      }
    }
  }

  // ----- what the aligned series mean

  predicate Ordered(rows: seq<Row>) {
    forall i, j :: 0 <= i < j < |rows| ==> rows[i].timestamp <= rows[j].timestamp
  }

  predicate Increasing(ts: seq<int>) {
    forall i, j :: 0 <= i < j < |ts| ==> ts[i] < ts[j]
  }

  lemma LastTimestamp(rows: seq<Row>)
    requires rows != []
    ensures var ts := Timestamps(rows); ts != [] && ts[|ts| - 1] == rows[|rows| - 1].timestamp
  {
  }

  /** The timestamps of ordered rows are strictly increasing: one slot for each distinct timestamp. */
  lemma {:induction false} TimestampsIncrease(rows: seq<Row>)
    requires Ordered(rows)
    ensures Increasing(Timestamps(rows))
    decreases |rows|
  {
    if rows != [] {
      var before := rows[..|rows| - 1];
      TimestampsIncrease(before);
      if before != [] {
        LastTimestamp(before);
        assert rows[|rows| - 2].timestamp <= rows[|rows| - 1].timestamp;
      }
    }
  }

  predicate AnyRowAt(rows: seq<Row>, t: int) {
    exists j :: 0 <= j < |rows| && rows[j].timestamp == t
  }

  lemma AnyRowStep(rows: seq<Row>, t: int)
    requires rows != []
    ensures AnyRowAt(rows, t) <==> AnyRowAt(rows[..|rows| - 1], t) || rows[|rows| - 1].timestamp == t
  {
    var before := rows[..|rows| - 1];
    if j :| 0 <= j < |before| && before[j].timestamp == t {
      assert rows[j].timestamp == t;
    }
  }

  lemma TimestampStep(rows: seq<Row>)
    requires rows != []
    ensures var ts, t := Timestamps(rows[..|rows| - 1]), rows[|rows| - 1].timestamp;
            Timestamps(rows) == ts + [t] || (ts != [] && ts[|ts| - 1] == t && Timestamps(rows) == ts)
  {
  }

  /** The timestamps are those of the rows. */
  lemma {:induction false} TimestampsAreRows(rows: seq<Row>, t: int)
    ensures t in Timestamps(rows) <==> AnyRowAt(rows, t)
    decreases |rows|
  {
    if rows != [] {
      hide AnyRowAt;
      hide Timestamps;
      TimestampsAreRows(rows[..|rows| - 1], t);
      AnyRowStep(rows, t);
      TimestampStep(rows);
    }
  }

  lemma {:induction false} SlotBeyond(rows: seq<Row>, key: SeriesKey, i: nat)
    requires i >= |Timestamps(rows)|
    ensures Slot(rows, key, i) == 0.0
    decreases |rows|
  {
    if rows != [] {
      SlotBeyond(rows[..|rows| - 1], key, i);
    }
  }

  predicate RowAt(rows: seq<Row>, key: SeriesKey, t: int, j: int) {
    0 <= j < |rows| && rows[j].key == key && rows[j].timestamp == t
  }

  predicate LastRowAt(rows: seq<Row>, key: SeriesKey, t: int, j: int) {
    RowAt(rows, key, t, j) && forall k :: j < k < |rows| ==> !RowAt(rows, key, t, k)
  }

  /** `v` is the value of the last row of a series at a time, or 0 when there is none. */
  ghost predicate LastValue(rows: seq<Row>, key: SeriesKey, t: int, v: real) {
    || (exists j :: LastRowAt(rows, key, t, j) && v == rows[j].value)
    || ((forall j :: !RowAt(rows, key, t, j)) && v == 0.0)
  }

  lemma LastValueStays(rows: seq<Row>, n: nat, key: SeriesKey, t: int, v: real)
    requires n + 1 == |rows| && LastValue(rows[..n], key, t, v)
    requires rows[n].key != key || rows[n].timestamp != t
    ensures LastValue(rows, key, t, v)
  {
    assert forall j :: RowAt(rows, key, t, j) <==> RowAt(rows[..n], key, t, j);
    if j :| LastRowAt(rows[..n], key, t, j) && v == rows[..n][j].value {
      assert LastRowAt(rows, key, t, j) && v == rows[j].value;
    }
  }

  /** Given rows ordered by timestamp, slot `i` of a series is the value of its last row at timestamp `i`,
    or 0 if it has none. */
  lemma {:induction false} SlotIsLastValue(rows: seq<Row>, key: SeriesKey, i: nat)
    requires Ordered(rows) && i < |Timestamps(rows)|
    ensures LastValue(rows, key, Timestamps(rows)[i], Slot(rows, key, i))
    decreases |rows|
  {
    var n, ts := |rows| - 1, Timestamps(rows);
    var before, t := rows[..n], ts[i];
    LastTimestamp(rows);
    TimestampsIncrease(rows);
    if i == |ts| - 1 && rows[n].key == key {
      assert LastRowAt(rows, key, t, n);
    } else if i < |Timestamps(before)| {
      SlotIsLastValue(before, key, i);
      LastValueStays(rows, n, key, t, Slot(before, key, i));
    } else {
      SlotBeyond(before, key, i);
      TimestampsAreRows(before, t);
      assert t !in ts[..i];
      assert forall j :: !RowAt(before, key, t, j);
      LastValueStays(rows, n, key, t, 0.0);
    }
  }

  predicate FirstRowAt(rows: seq<Row>, t: int, j: int) {
    0 <= j < |rows| && rows[j].timestamp == t && forall k :: 0 <= k < j ==> rows[k].timestamp != t
  }

  /** Given rows ordered by timestamp, label `i` is the version of the first row at timestamp `i`. */
  lemma {:induction false} LabelIsFirstVersion(rows: seq<Row>, i: nat)
    requires Ordered(rows) && i < |Timestamps(rows)|
    ensures |Labels(rows)| == |Timestamps(rows)|
    ensures exists j :: FirstRowAt(rows, Timestamps(rows)[i], j) && Labels(rows)[i] == rows[j].version
    decreases |rows|
  {
    var n := |rows| - 1;
    var before := rows[..n];
    LabelCount(rows);
    LabelCount(before);
    LabelStep(rows);
    hide Labels;
    hide Timestamps;
    if i < |Timestamps(before)| {
      LabelIsFirstVersion(before, i);
      var j :| FirstRowAt(before, Timestamps(before)[i], j) && Labels(before)[i] == before[j].version;
      assert FirstRowAt(rows, Timestamps(rows)[i], j);
    } else {
      LastTimestamp(rows);
      NewTimestamp(rows);
      assert FirstRowAt(rows, rows[n].timestamp, n);
    }
  }

  lemma LabelStep(rows: seq<Row>)
    requires rows != []
    ensures var before, row := rows[..|rows| - 1], rows[|rows| - 1];
            if |Timestamps(rows)| > |Timestamps(before)|
            then Labels(rows) == Labels(before) + [row.version]
                 && Timestamps(rows) == Timestamps(before) + [row.timestamp]
            else Labels(rows) == Labels(before) && Timestamps(rows) == Timestamps(before)
  {
  }

  /** A row that begins a slot is the first at its time. */
  lemma NewTimestamp(rows: seq<Row>)
    requires Ordered(rows) && rows != [] && |Timestamps(rows)| > |Timestamps(rows[..|rows| - 1])|
    ensures forall k :: 0 <= k < |rows| - 1 ==> rows[k].timestamp != rows[|rows| - 1].timestamp
  {
    var n := |rows| - 1;
    var before, t := rows[..n], rows[n].timestamp;
    TimestampsIncrease(rows);
    assert Timestamps(rows) == Timestamps(before) + [t];
    forall k | 0 <= k < n
      ensures rows[k].timestamp != t
    {
      hide Timestamps;
      TimestampsAreRows(before, rows[k].timestamp);
      assert before[k].timestamp == rows[k].timestamp;
      var i :| 0 <= i < |Timestamps(before)| && Timestamps(before)[i] == rows[k].timestamp;
      assert Timestamps(rows)[i] == rows[k].timestamp && Timestamps(rows)[|Timestamps(before)|] == t;
    }
  }

  lemma {:induction false} LabelCount(rows: seq<Row>)
    ensures |Labels(rows)| == |Timestamps(rows)|
    decreases |rows|
  {
    if rows != [] {
      LabelCount(rows[..|rows| - 1]);
    }
  }
}
