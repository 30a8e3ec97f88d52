/** Scanning a bucket index for the jobs of a time range, one day prefix at a time. Object names are
  `<base>/<timestamp>/<rest>`; a bucket lists the names with a prefix in byte order. Times are whole seconds:
  the scan uses no finer part of them. */
module JobRange {
  import opened Text
  import opened Calendar
  import opened StampOrder

  const RFC3339: nat := 20

  predicate Listed(objects: seq<string>) {
    forall i, j :: 0 <= i < j < |objects| ==> Less(objects[i], objects[j])
  }

  function Filter(objects: seq<string>, p: string -> bool): seq<string> {
    if objects == [] then []
    else (if p(objects[0]) then [objects[0]] else []) + Filter(objects[1..], p)
  }

  /** The names with a prefix, as the bucket lists them. */
  function WithPrefix(objects: seq<string>, prefix: string): seq<string> {
    Filter(objects, name => HasPrefix(name, prefix))
  }

  predicate LongEnough(base: string, name: string) {
    |name| >= |base| + RFC3339 + 2
  }

  /** Where the timestamp of a name is expected. */
  function StampAt(base: string, name: string): string
    requires LongEnough(base, name)
  {
    name[|base| + 1..|base| + 1 + RFC3339]
  }

  predicate InRange(base: string, from: string, to: string, name: string) {
    LongEnough(base, name) && Less(from, StampAt(base, name)) && AtMost(StampAt(base, name), to)
  }

  /** One listing: a name past the range ends it, and with it the whole scan. */
  function Scan(names: seq<string>, base: string, from: string, to: string): (seq<string>, bool) {
    if names == [] then ([], false)
    else if !LongEnough(base, names[0]) || AtMost(StampAt(base, names[0]), from) then Scan(names[1..], base, from, to)
    else if Less(to, StampAt(base, names[0])) then ([], true)
    else
      var r := Scan(names[1..], base, from, to);
      ([names[0]] + r.0, r.1)
  }

  function SearchPrefix(base: string, from: Seconds): string {
    base + "/" + FormatStamp(from)[..DAY_LENGTH]
  }

  function Midnight(from: nat): nat {
    (from + DAY) / DAY * DAY
  }

  /** The names passed to the callback. */
  function ReadRange(objects: seq<string>, base: string, from: Seconds, to: Seconds): seq<string>
    decreases if from <= to then to - from + 1 else 0
  {
    var names := WithPrefix(objects, SearchPrefix(base, from));
    var next := Midnight(from);
    if next > to then Scan(names, base, FormatStamp(from), FormatStamp(to)).0
    else
      var r := Scan(names, base, FormatStamp(from), FormatStamp(next));
      if r.1 then r.0 else r.0 + ReadRange(objects, base, next, to)
  }

  // ----- the two loops

  method ScanJobRangeIndex(names: seq<string>, base: string, from: string, to: string)
      returns (passed: seq<string>, past: bool)
    requires |from| == RFC3339
    ensures passed == Scan(names, base, from, to).0 && past == Scan(names, base, from, to).1
  {
    hide Less;
    passed, past := [], false;
    var i := 0;
    assert names[0..] == names;
    while i < |names|
      invariant 0 <= i <= |names| && !past
      invariant Scan(names, base, from, to).0 == passed + Scan(names[i..], base, from, to).0
      invariant Scan(names, base, from, to).1 == Scan(names[i..], base, from, to).1
    {
      assert names[i..][0] == names[i] && names[i..][1..] == names[i + 1..];
      var name := names[i];
      i := i + 1;
      if |name| < |base| + |from| + 2 {
        continue;
      }
      var keyTimestamp := name[|base| + 1..|base| + 1 + |from|];
      if AtMost(keyTimestamp, from) {
        continue;
      }
      if Less(to, keyTimestamp) {
        return passed, true;
      }
      var more := Scan(names[i..], base, from, to).0;
      assert passed + ([name] + more) == (passed + [name]) + more;
      passed := passed + [name];
    }
  }

  /** `readJobRange`. The two narrower prefixes that its switch computes first are never searched: every case
    falls through to the last, which replaces them. */
  method ReadJobRange(objects: seq<string>, base: string, fromTime: Seconds, to: Seconds) returns (passed: seq<string>)
    ensures passed == ReadRange(objects, base, fromTime, to)
  {
    hide Scan;
    hide FormatStamp;
    passed := [];
    var from: Seconds := fromTime;
    StampForm(from);
    var fromTimestamp := FormatStamp(from);
    while true
      invariant fromTimestamp == FormatStamp(from) && |fromTimestamp| == RFC3339
      invariant ReadRange(objects, base, fromTime, to) == passed + ReadRange(objects, base, from, to)
      decreases if from <= to then to - from + 1 else 0
    {
      var minute, hour := from % 3600 / 60, from % DAY / 3600;
      var searchPrefix, nextFrom := "", from;
      if from % 60 != 0 || minute != 0 {
        if 60 - minute < 30 {
          searchPrefix := base + "/" + fromTimestamp[..15];
          nextFrom := (from + 600) / 600 * 600;
        }
      }
      if from % 60 != 0 || minute != 0 || hour != 0 {
        if 24 - hour < 16 {
          searchPrefix := base + "/" + fromTimestamp[..14];
          nextFrom := (from + 3600) / 3600 * 3600;
        }
      }
      searchPrefix := base + "/" + fromTimestamp[..DAY_LENGTH];
      nextFrom := (from + DAY) / DAY * DAY;
      var done := false;
      if nextFrom > to {
        nextFrom := to;
        done := true;
      }
      StampForm(nextFrom);
      var nextTimestamp := FormatStamp(nextFrom);
      var names := WithPrefix(objects, searchPrefix);
      var matched, stop := ScanJobRangeIndex(names, base, fromTimestamp, nextTimestamp);
      ghost var before := passed;
      passed := passed + matched;
      if stop || done {
        return;
      }
      ghost var rest := ReadRange(objects, base, nextFrom, to);
      assert before + (matched + rest) == passed + rest;
      from := nextFrom;
      fromTimestamp := nextTimestamp;
    }
  }

  // ----- filters of a listing

  lemma {:induction false} FilterMembers(objects: seq<string>, p: string -> bool, name: string)
    ensures name in Filter(objects, p) <==> name in objects && p(name)
  {
    if objects != [] {
      FilterMembers(objects[1..], p, name);
      assert objects == [objects[0]] + objects[1..];
    }
  }

  lemma {:induction false} FilterNone(objects: seq<string>, p: string -> bool)
    requires forall i :: 0 <= i < |objects| ==> !p(objects[i])
    ensures Filter(objects, p) == []
  {
    if objects != [] {
      FilterNone(objects[1..], p);
    }
  }

  lemma {:induction false} FilterSame(objects: seq<string>, p: string -> bool, q: string -> bool)
    requires forall i :: 0 <= i < |objects| ==> p(objects[i]) == q(objects[i])
    ensures Filter(objects, p) == Filter(objects, q)
  {
    if objects != [] {
      FilterSame(objects[1..], p, q);
    }
  }

  lemma {:induction false} FilterTwice(objects: seq<string>, p: string -> bool, q: string -> bool, both: string -> bool)
    requires forall i :: 0 <= i < |objects| ==> both(objects[i]) == (p(objects[i]) && q(objects[i]))
    ensures Filter(Filter(objects, p), q) == Filter(objects, both)
  {
    if objects != [] {
      FilterTwice(objects[1..], p, q, both);
      if p(objects[0]) {
        assert ([objects[0]] + Filter(objects[1..], p))[1..] == Filter(objects[1..], p);
      } else {
        assert Filter(objects, p) == Filter(objects[1..], p);
      }
    }
  }
}
