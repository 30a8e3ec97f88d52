/** Which object names a range scan passes on: for any bucket, and for well-formed names in terms of time. */
module JobRangeScan {
  import opened Text
  import opened Calendar
  import opened StampOrder
  import opened JobRange

  // ----- one listing

  /** Names of a bucket are in the order of their timestamps. */
  lemma StampsGrow(base: string, a: string, b: string)
    requires HasPrefix(a, base + "/") && HasPrefix(b, base + "/")
    requires LongEnough(base, a) && LongEnough(base, b) && Less(a, b)
    ensures AtMost(StampAt(base, a), StampAt(base, b))
  {
    var n := |base| + 1 + RFC3339;
    LessPrefix(a, b, n);
    assert a[..n] == (base + "/") + StampAt(base, a) && b[..n] == (base + "/") + StampAt(base, b);
    LessParts(base + "/", base + "/", StampAt(base, a), StampAt(base, b));
    LessTotal(base + "/", base + "/");
  }

  /** Stopping at the first name past the range loses nothing. */
  lemma {:induction false} ScanIsFilter(names: seq<string>, base: string, from: string, to: string)
    requires Listed(names) && forall i :: 0 <= i < |names| ==> HasPrefix(names[i], base + "/")
    ensures Scan(names, base, from, to).0 == Filter(names, name => InRange(base, from, to, name))
    ensures Scan(names, base, from, to).1 ==>
              exists i :: 0 <= i < |names| && LongEnough(base, names[i]) && Less(to, StampAt(base, names[i]))
  {
    var p := name => InRange(base, from, to, name);
    if names != [] {
      ScanIsFilter(names[1..], base, from, to);
      var first := names[0];
      if LongEnough(base, first) {
        LessTotal(StampAt(base, first), from);
        LessTotal(StampAt(base, first), to);
        if !AtMost(StampAt(base, first), from) && Less(to, StampAt(base, first)) {
          forall i | 0 <= i < |names|
            ensures !p(names[i])
          {
            PastStaysPast(names, base, to, i);
          }
          FilterNone(names, p);
        }
      }
    }
  }

  lemma PastStaysPast(names: seq<string>, base: string, to: string, i: nat)
    requires i < |names| && Listed(names) && forall j :: 0 <= j < |names| ==> HasPrefix(names[j], base + "/")
    requires LongEnough(base, names[0]) && Less(to, StampAt(base, names[0]))
    ensures LongEnough(base, names[i]) ==> !AtMost(StampAt(base, names[i]), to)
  {
    if LongEnough(base, names[i]) {
      if i > 0 {
        StampsGrow(base, names[0], names[i]);
      }
      var a, b := StampAt(base, names[0]), StampAt(base, names[i]);
      if a != b {
        LessTrans(to, a, b);
      }
      LessTotal(to, b);
    }
  }

  lemma {:induction false} FilterListed(objects: seq<string>, p: string -> bool)
    requires Listed(objects)
    ensures Listed(Filter(objects, p))
  {
    if objects != [] {
      FilterListed(objects[1..], p);
      forall i | 0 <= i < |Filter(objects[1..], p)|
        ensures Less(objects[0], Filter(objects[1..], p)[i])
      {
        var name := Filter(objects[1..], p)[i];
        FilterMembers(objects[1..], p, name);
        var j :| 0 <= j < |objects[1..]| && objects[1..][j] == name;
        assert objects[j + 1] == name;
      }
    }
  }

  // ----- the days of a range

  /** What the scan from `from` to `to` passes on, whatever the name: a long enough one, whose timestamp is in
    the range as a string, begins with the date of some day, and comes after that day's midnight. */
  predicate Chosen(base: string, from: Seconds, to: Seconds, name: string) {
    && HasPrefix(name, base + "/")
    && InRange(base, FormatStamp(from), FormatStamp(to), name)
    && exists d :: 0 <= d < DAYS && OnDay(base, d, name)
  }

  predicate OnDay(base: string, d: nat, name: string)
    requires LongEnough(base, name) && d < DAYS
  {
    StampAt(base, name)[..DAY_LENGTH] == DayPrefix(d) && Less(FormatStamp(d * DAY), StampAt(base, name))
  }

  function IsChosen(base: string, from: Seconds, to: Seconds): string -> bool {
    name => Chosen(base, from, to, name)
  }

  predicate DayPart(base: string, d: nat, from: Seconds, to: Seconds, name: string)
    requires d < DAYS
  {
    HasPrefix(name, base + "/" + DayPrefix(d)) && InRange(base, FormatStamp(from), FormatStamp(to), name)
  }

  function IsDayPart(base: string, d: nat, from: Seconds, to: Seconds): string -> bool
    requires d < DAYS
  {
    name => DayPart(base, d, from, to, name)
  }

  lemma PrefixIsDay(base: string, d: nat, name: string)
    requires d < DAYS && LongEnough(base, name) && HasPrefix(name, base + "/")
    ensures HasPrefix(name, base + "/" + DayPrefix(d)) <==> StampAt(base, name)[..DAY_LENGTH] == DayPrefix(d)
  {
    StampOfDay(d * DAY);
    var p, q := base + "/" + DayPrefix(d), name[..|base| + 1 + DAY_LENGTH];
    assert StampAt(base, name)[..DAY_LENGTH] == q[|base| + 1..];
    assert name[..|base| + 1] == base + "/";
    assert q == (base + "/") + q[|base| + 1..];
    assert p == (base + "/") + p[|base| + 1..] && p[|base| + 1..] == DayPrefix(d);
    assert HasPrefix(name, p) <==> q == p;
  }

  /** Any string that begins with a day's date comes before the timestamps of every later day. */
  lemma BeforeLaterDay(s: string, d: nat, t: Seconds)
    requires |s| == RFC3339 && d < DAYS && s[..DAY_LENGTH] == DayPrefix(d) && d < t / DAY
    ensures Less(s, FormatStamp(t))
  {
    StampOfDay(t);
    StampForm(t);
    DaysOrdered(d, t / DAY);
    LessPrefix(s, FormatStamp(t), DAY_LENGTH);
  }

  lemma LessAtMost(a: string, b: string, c: string)
    ensures Less(a, b) && AtMost(b, c) ==> Less(a, c)
    ensures AtMost(a, b) && Less(b, c) ==> Less(a, c)
    ensures AtMost(a, b) && AtMost(b, c) ==> AtMost(a, c)
    ensures Less(a, b) ==> !AtMost(b, a)
  {
    if Less(a, b) && Less(b, c) {
      LessTrans(a, b, c);
    }
    LessTotal(a, b);
  }

  /** The last day of a range. */
  lemma LastDay(base: string, from: Seconds, to: Seconds, name: string)
    requires Midnight(from) > to
    ensures Chosen(base, from, to, name) <==> from / DAY < DAYS && DayPart(base, from / DAY, from, to, name)
  {
    StampOfDay(from);
    var d0 := from / DAY;
    if HasPrefix(name, base + "/") && InRange(base, FormatStamp(from), FormatStamp(to), name) {
      var s := StampAt(base, name);
      PrefixIsDay(base, d0, name);
      StampsOrdered(d0 * DAY, from);
      LessAtMost(FormatStamp(d0 * DAY), FormatStamp(from), s);
      if d :| 0 <= d < DAYS && OnDay(base, d, name) {
        OtherDay(from, to, s, d);
      }
      if DayPart(base, d0, from, to, name) {
        assert OnDay(base, d0, name);
      }
    }
  }

  lemma NextMidnight(from: nat)
    ensures Midnight(from) == (from / DAY + 1) * DAY && from < Midnight(from) && Midnight(from) / DAY == from / DAY + 1
    ensures from / DAY * DAY <= from
  {
  }

  /** Everything in a range that ends before the next midnight is on one day. */
  lemma OtherDay(from: Seconds, to: Seconds, s: string, d: nat)
    requires |s| == RFC3339 && Midnight(from) > to && d < DAYS
    requires s[..DAY_LENGTH] == DayPrefix(d) && Less(FormatStamp(from), s) && AtMost(s, FormatStamp(to))
    requires Less(FormatStamp(d * DAY), s)
    ensures d == from / DAY
  {
    hide FormatStamp;
    hide DayPrefix;
    hide Less;
    NextMidnight(from);
    if d < from / DAY {
      BeforeLaterDay(s, d, from);
      LessTotal(FormatStamp(from), s);
    } else if d > from / DAY {
      assert to < d * DAY;
      StampsOrdered(to, d * DAY);
      LessAtMost(s, FormatStamp(to), FormatStamp(d * DAY));
      LessTotal(s, FormatStamp(d * DAY));
    }
  }

  /** A range that goes past the next midnight: the day it begins on, and the range from that midnight. */
  lemma FirstDay(base: string, from: Seconds, to: Seconds, name: string)
    requires Midnight(from) <= to
    ensures from / DAY < DAYS
    ensures Chosen(base, from, to, name) <==>
            DayPart(base, from / DAY, from, Midnight(from), name) || Chosen(base, Midnight(from), to, name)
  {
    StampOfDay(from);
    hide FormatStamp;
    hide DayPrefix;
    hide Less;
    NextMidnight(from);
    var d0, next: Seconds := from / DAY, Midnight(from);
    StampsOrdered(from, next);
    StampsOrdered(next, to);
    if HasPrefix(name, base + "/") && LongEnough(base, name) {
      var s := StampAt(base, name);
      LessAtMost(FormatStamp(from), FormatStamp(next), s);
      LessAtMost(s, FormatStamp(next), FormatStamp(to));
      PrefixIsDay(base, d0, name);
      StampsOrdered(d0 * DAY, from);
      LessAtMost(FormatStamp(d0 * DAY), FormatStamp(from), s);
      if DayPart(base, d0, from, next, name) {
        assert OnDay(base, d0, name);
      }
      if Chosen(base, from, to, name) {
        var d :| 0 <= d < DAYS && OnDay(base, d, name);
        ChosenDay(from, next, s, d);
      }
    }
  }

  /** A chosen timestamp is on the first day or after its end. */
  lemma ChosenDay(from: Seconds, next: Seconds, s: string, d: nat)
    requires |s| == RFC3339 && next == Midnight(from) && d < DAYS
    requires s[..DAY_LENGTH] == DayPrefix(d) && Less(FormatStamp(from), s) && Less(FormatStamp(d * DAY), s)
    ensures if d == from / DAY then Less(s, FormatStamp(next)) else Less(FormatStamp(next), s)
  {
    hide FormatStamp;
    hide DayPrefix;
    hide Less;
    NextMidnight(from);
    if d <= from / DAY {
      BeforeLaterDay(s, d, next);
      if d < from / DAY {
        BeforeLaterDay(s, d, from);
        LessTotal(FormatStamp(from), s);
      }
    } else {
      StampsOrdered(next, d * DAY);
      LessAtMost(FormatStamp(next), FormatStamp(d * DAY), s);
    }
  }

  // ----- the whole scan

  lemma FilterStep(objects: seq<string>, p: string -> bool)
    requires objects != []
    ensures Filter(objects, p) ==
            if p(objects[0]) then [objects[0]] + Filter(objects[1..], p) else Filter(objects[1..], p)
  {
  }

  lemma {:induction false} FilterSplit(objects: seq<string>, p: string -> bool, first: string -> bool,
      second: string -> bool)
    requires forall i :: 0 <= i < |objects| ==> p(objects[i]) == (first(objects[i]) || second(objects[i]))
    requires Apiece(objects, first, second)
    ensures Filter(objects, p) == Filter(objects, first) + Filter(objects, second)
  {
    if objects != [] {
      var rest := objects[1..];
      ApieceRest(objects, first, second);
      assert forall i :: 0 <= i < |rest| ==> rest[i] == objects[i + 1];
      hide Apiece;
      FilterSplit(rest, p, first, second);
      FilterStep(objects, p);
      FilterStep(objects, first);
      FilterStep(objects, second);
      if second(objects[0]) {
        FilterNone(rest, first);
      }
      hide Filter;
    }
  }

  /** Everything `first` picks stands before everything `second` picks. */
  predicate Apiece(objects: seq<string>, first: string -> bool, second: string -> bool) {
    forall i, j :: 0 <= i < |objects| && 0 <= j < |objects| && first(objects[i]) && second(objects[j]) ==> i < j
  }

  lemma ApieceRest(objects: seq<string>, first: string -> bool, second: string -> bool)
    requires objects != [] && Apiece(objects, first, second)
    ensures Apiece(objects[1..], first, second)
    ensures second(objects[0]) ==> forall i :: 0 <= i < |objects[1..]| ==> !first(objects[1..][i])
  {
    var rest := objects[1..];
    forall i, j | 0 <= i < |rest| && 0 <= j < |rest| && first(rest[i]) && second(rest[j])
      ensures i < j
    {
      assert rest[i] == objects[i + 1] && rest[j] == objects[j + 1];
    }
  }

  /** The names of a day that a scan of it passes on are those of the range. */
  lemma DayScan(objects: seq<string>, base: string, from: Seconds, to: Seconds)
    requires Listed(objects)
    ensures from / DAY < DAYS
    ensures var r := Scan(WithPrefix(objects, SearchPrefix(base, from)), base, FormatStamp(from), FormatStamp(to));
            && r.0 == Filter(objects, IsDayPart(base, from / DAY, from, to))
            && (to / DAY > from / DAY ==> !r.1)
  {
    StampOfDay(from);
    hide FormatStamp;
    hide DayPrefix;
    hide Less;
    var prefix := base + "/" + DayPrefix(from / DAY);
    assert SearchPrefix(base, from) == prefix;
    var names := WithPrefix(objects, prefix);
    FilterListed(objects, name => HasPrefix(name, prefix));
    forall i | 0 <= i < |names|
      ensures HasPrefix(names[i], prefix) && HasPrefix(names[i], base + "/")
    {
      FilterMembers(objects, name => HasPrefix(name, prefix), names[i]);
      assert names[i][..|base| + 1] == prefix[..|base| + 1] == base + "/";
    }
    var within := name => InRange(base, FormatStamp(from), FormatStamp(to), name);
    ScanIsFilter(names, base, FormatStamp(from), FormatStamp(to));
    FilterTwice(objects, name => HasPrefix(name, prefix), within, IsDayPart(base, from / DAY, from, to));
    if to / DAY > from / DAY {
      forall i | 0 <= i < |names| && LongEnough(base, names[i])
        ensures !Less(FormatStamp(to), StampAt(base, names[i]))
      {
        var s := StampAt(base, names[i]);
        PrefixIsDay(base, from / DAY, names[i]);
        BeforeLaterDay(s, from / DAY, to);
        LessTotal(s, FormatStamp(to));
      }
    }
  }

  /** The scan passes on exactly the chosen names, each once and in the order of the bucket. */
  lemma {:induction false} RangeIsFilter(objects: seq<string>, base: string, from: Seconds, to: Seconds)
    requires Listed(objects)
    ensures ReadRange(objects, base, from, to) == Filter(objects, IsChosen(base, from, to))
    decreases if from <= to then to - from + 1 else 0
  {
    NextMidnight(from);
    var next := Midnight(from);
    if next > to {
      DayScan(objects, base, from, to);
      LastDays(objects, base, from, to);
    } else {
      DayScan(objects, base, from, next);
      RangeIsFilter(objects, base, next, to);
      FirstDays(objects, base, from, to);
    }
  }

  lemma LastDays(objects: seq<string>, base: string, from: Seconds, to: Seconds)
    requires Midnight(from) > to && from / DAY < DAYS
    ensures Filter(objects, IsDayPart(base, from / DAY, from, to)) == Filter(objects, IsChosen(base, from, to))
  {
    hide Chosen;
    hide DayPart;
    forall i | 0 <= i < |objects|
      ensures IsDayPart(base, from / DAY, from, to)(objects[i]) == IsChosen(base, from, to)(objects[i])
    {
      LastDay(base, from, to, objects[i]);
    }
    FilterSame(objects, IsDayPart(base, from / DAY, from, to), IsChosen(base, from, to));
  }

  lemma FirstDays(objects: seq<string>, base: string, from: Seconds, to: Seconds)
    requires Listed(objects) && Midnight(from) <= to && from / DAY < DAYS
    ensures Filter(objects, IsChosen(base, from, to)) ==
            Filter(objects, IsDayPart(base, from / DAY, from, Midnight(from)))
                + Filter(objects, IsChosen(base, Midnight(from), to))
  {
    hide FormatStamp;
    hide DayPrefix;
    hide Less;
    var next: Seconds := Midnight(from);
    var p, first, second := IsChosen(base, from, to), IsDayPart(base, from / DAY, from, next), IsChosen(base, next, to);
    forall i | 0 <= i < |objects|
      ensures p(objects[i]) == (first(objects[i]) || second(objects[i]))
    {
      FirstDay(base, from, to, objects[i]);
    }
    forall i, j | 0 <= i < |objects| && 0 <= j < |objects| && first(objects[i]) && second(objects[j])
      ensures i < j
    {
      Apart(base, next, objects, i, j);
    }
    FilterSplit(objects, p, first, second);
  }

  lemma Apart(base: string, next: Seconds, objects: seq<string>, i: nat, j: nat)
    requires Listed(objects) && i < |objects| && j < |objects|
    requires HasPrefix(objects[i], base + "/") && LongEnough(base, objects[i])
    requires HasPrefix(objects[j], base + "/") && LongEnough(base, objects[j])
    requires AtMost(StampAt(base, objects[i]), FormatStamp(next)) && Less(FormatStamp(next), StampAt(base, objects[j]))
    ensures i < j
  {
    var a, b := StampAt(base, objects[i]), StampAt(base, objects[j]);
    LessAtMost(a, FormatStamp(next), b);
    LessTotal(a, b);
    if j < i {
      StampsGrow(base, objects[j], objects[i]);
    }
  }

  /** The names passed on, spelled out: long enough for a timestamp and a slash after the base, with a timestamp part
    after `from` and not after `to` as strings, that begins with the date of a day and is after its midnight. */
  lemma PassedNames(objects: seq<string>, base: string, from: Seconds, to: Seconds, name: string)
    requires Listed(objects)
    ensures name in ReadRange(objects, base, from, to) <==>
            && name in objects && base + "/" <= name && |name| >= |base| + 22
            && var stamp := name[|base| + 1..|base| + 21];
               && Less(FormatStamp(from), stamp) && (Less(stamp, FormatStamp(to)) || stamp == FormatStamp(to))
               && exists d :: 0 <= d < DAYS && stamp[..11] == DayPrefix(d) && Less(FormatStamp(d * 86400), stamp)
  {
    RangeIsFilter(objects, base, from, to);
    FilterMembers(objects, IsChosen(base, from, to), name);
    hide Less;
    hide FormatStamp;
    hide DayPrefix;
    hide ReadRange;
    hide Filter;
    if HasPrefix(name, base + "/") && LongEnough(base, name) {
      var stamp := StampAt(base, name);
      assert forall d :: 0 <= d < DAYS ==>
          (OnDay(base, d, name) <==> stamp[..11] == DayPrefix(d) && Less(FormatStamp(d * 86400), stamp));
    }
  }

  // ----- well-formed names

  function Key(base: string, t: Seconds, rest: string): string {
    base + "/" + FormatStamp(t) + "/" + rest
  }

  /** Of the well-formed names, the scan passes on exactly those after `from`, not after `to`, and not at
    midnight UTC. */
  lemma PassedExactly(objects: seq<string>, base: string, from: Seconds, to: Seconds, t: Seconds, rest: string)
    requires Listed(objects)
    ensures Key(base, t, rest) in ReadRange(objects, base, from, to) <==>
            Key(base, t, rest) in objects && from < t <= to && t % DAY != 0
    ensures Listed(ReadRange(objects, base, from, to))
  {
    RangeIsFilter(objects, base, from, to);
    FilterMembers(objects, IsChosen(base, from, to), Key(base, t, rest));
    FilterListed(objects, IsChosen(base, from, to));
    KeyChosen(base, from, to, t, rest);
  }

  lemma KeyChosen(base: string, from: Seconds, to: Seconds, t: Seconds, rest: string)
    ensures Chosen(base, from, to, Key(base, t, rest)) <==> from < t <= to && t % DAY != 0
  {
    StampForm(t);
    StampOfDay(t);
    hide FormatStamp;
    hide DayPrefix;
    hide Less;
    var name, d := Key(base, t, rest), t / DAY;
    assert HasPrefix(name, base + "/") && LongEnough(base, name) && StampAt(base, name) == FormatStamp(t);
    StampsOrdered(from, t);
    StampsOrdered(t, to);
    StampsOrdered(d * DAY, t);
    assert t % DAY != 0 ==> OnDay(base, d, name);
    if e :| 0 <= e < DAYS && OnDay(base, e, name) {
      SameDayPrefix(d, e);
    }
  }
}
