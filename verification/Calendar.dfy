/** The proleptic Gregorian calendar and the RFC 3339 UTC timestamps of section 5.6 of RFC 3339,
  in the form `2006-01-02T15:04:05Z` that Go's `time.RFC3339` prints for a UTC time.

  An instant is a whole number of seconds from the start of year 0 to the end of year 9999. */
module Calendar {
  import opened Wrappers
  import opened Text

  datatype Date = Date(year: nat, month: nat, day: nat)

  const DAY: nat := 86400
  const DAYS: nat := 3652425 // in the years 0 to 9999

  type Seconds = t: nat | t < 315569520000

  predicate Leap(y: nat) {
    y % 4 == 0 && (y % 100 != 0 || y % 400 == 0)
  }

  function DaysIn(y: nat, m: nat): nat {
    if m == 2 then (if Leap(y) then 29 else 28)
    else if m == 4 || m == 6 || m == 9 || m == 11 then 30
    else 31
  }

  predicate ValidDate(c: Date) {
    1 <= c.month <= 12 && 1 <= c.day <= DaysIn(c.year, c.month)
  }

  function NextDay(c: Date): Date {
    if c.day < DaysIn(c.year, c.month) then c.(day := c.day + 1)
    else if c.month < 12 then Date(c.year, c.month + 1, 1)
    else Date(c.year + 1, 1, 1)
  }

  /** The date `n` days after the first of January of year 0. */
  function Civil(n: nat): (c: Date)
    ensures ValidDate(c)
  {
    if n == 0 then Date(0, 1, 1) else NextDay(Civil(n - 1))
  }

  function DaysBeforeYear(y: nat): nat {
    365 * y + (y + 3) / 4 - (y + 99) / 100 + (y + 399) / 400
  }

  function DaysBeforeMonth(y: nat, m: nat): nat
    requires m >= 1
  {
    if m == 1 then 0 else DaysBeforeMonth(y, m - 1) + DaysIn(y, m - 1)
  }

  function DayNumber(c: Date): nat
    requires ValidDate(c)
  {
    DaysBeforeYear(c.year) + DaysBeforeMonth(c.year, c.month) + c.day - 1
  }

  lemma Fours(y: nat)
    ensures (y + 4) / 4 == (y + 3) / 4 + (if y % 4 == 0 then 1 else 0)
  {
  }

  lemma Hundreds(y: nat)
    ensures (y + 100) / 100 == (y + 99) / 100 + (if y % 100 == 0 then 1 else 0)
  {
  }

  lemma FourHundreds(y: nat)
    ensures (y + 400) / 400 == (y + 399) / 400 + (if y % 400 == 0 then 1 else 0)
  {
  }

  lemma MultiplesOfFour(y: nat)
    ensures y % 400 == 0 ==> y % 100 == 0
    ensures y % 100 == 0 ==> y % 4 == 0
  {
    if y % 100 == 0 {
      assert y == 4 * (25 * (y / 100));
    }
    if y % 400 == 0 {
      assert y == 100 * (4 * (y / 400));
    }
  }

  lemma YearStep(y: nat)
    ensures DaysBeforeYear(y + 1) == DaysBeforeYear(y) + (if Leap(y) then 366 else 365)
  {
    Fours(y);
    Hundreds(y);
    FourHundreds(y);
    MultiplesOfFour(y);
  }

  lemma MonthsOfYear(y: nat)
    ensures DaysBeforeMonth(y, 12) + 31 == if Leap(y) then 366 else 365
  {
    assert DaysBeforeMonth(y, 2) == 31;
    assert DaysBeforeMonth(y, 4) == DaysBeforeMonth(y, 2) + DaysIn(y, 2) + 31;
    assert DaysBeforeMonth(y, 6) == DaysBeforeMonth(y, 4) + 61;
    assert DaysBeforeMonth(y, 8) == DaysBeforeMonth(y, 6) + 61;
    assert DaysBeforeMonth(y, 10) == DaysBeforeMonth(y, 8) + 61;
    assert DaysBeforeMonth(y, 12) == DaysBeforeMonth(y, 10) + 61;
  }

  lemma NextDayNumber(c: Date)
    requires ValidDate(c)
    ensures ValidDate(NextDay(c)) && DayNumber(NextDay(c)) == DayNumber(c) + 1
  {
    YearStep(c.year);
    MonthsOfYear(c.year);
    hide DaysBeforeYear;
    hide Leap;
  }

  lemma {:induction false} CivilNumber(n: nat)
    ensures DayNumber(Civil(n)) == n
  {
    if n != 0 {
      CivilNumber(n - 1);
      NextDayNumber(Civil(n - 1));
    }
  }

  predicate Earlier(a: Date, b: Date) {
    a.year < b.year || (a.year == b.year && (a.month < b.month || (a.month == b.month && a.day < b.day)))
  }

  lemma {:induction false} MonthsGrow(y: nat, m: nat, m': nat)
    requires 1 <= m < m'
    ensures DaysBeforeMonth(y, m) + DaysIn(y, m) <= DaysBeforeMonth(y, m')
  {
    if m + 1 < m' {
      MonthsGrow(y, m, m' - 1);
    }
  }

  lemma {:induction false} YearsGrow(y: nat, y': nat)
    requires y < y'
    ensures DaysBeforeYear(y) + (if Leap(y) then 366 else 365) <= DaysBeforeYear(y')
  {
    YearStep(y' - 1);
    if y + 1 < y' {
      YearsGrow(y, y' - 1);
    }
  }

  lemma NumberGrows(a: Date, b: Date)
    requires ValidDate(a) && ValidDate(b) && Earlier(a, b)
    ensures DayNumber(a) < DayNumber(b)
  {
    if a.year < b.year {
      YearsGrow(a.year, b.year);
      MonthsOfYear(a.year);
      if a.month < 12 {
        MonthsGrow(a.year, a.month, 12);
      }
    } else if a.month < b.month {
      MonthsGrow(a.year, a.month, b.month);
    }
  }

  lemma CivilGrows(n: nat, n': nat)
    ensures n < n' <==> Earlier(Civil(n), Civil(n'))
    ensures n == n' <==> Civil(n) == Civil(n')
  {
    CivilNumber(n);
    CivilNumber(n');
    if Earlier(Civil(n), Civil(n')) {
      NumberGrows(Civil(n), Civil(n'));
    } else if Earlier(Civil(n'), Civil(n)) {
      NumberGrows(Civil(n'), Civil(n));
    }
  }

  lemma NumberCivil(c: Date)
    requires ValidDate(c)
    ensures Civil(DayNumber(c)) == c
  {
    var c' := Civil(DayNumber(c));
    CivilNumber(DayNumber(c));
    if Earlier(c, c') {
      NumberGrows(c, c');
    } else if Earlier(c', c) {
      NumberGrows(c', c);
    }
  }

  lemma FourDigitYears(n: nat)
    ensures n < DAYS <==> Civil(n).year < 10000
  {
    assert DaysBeforeYear(10000) == DAYS;
    CivilNumber(n);
    NumberCivil(Date(10000, 1, 1));
    assert DayNumber(Date(10000, 1, 1)) == DAYS;
    CivilGrows(n, DAYS);
  }

  // ----- the calendar in closed form

  /** The days since the first of January of year 0, counting years from March and without a table of months. */
  function MarchCount(y: int, m: nat, d: nat): int {
    var year := if m > 2 then y else y - 1;
    365 * year + year / 4 - year / 100 + year / 400 + (153 * ((m + 9) % 12) + 2) / 5 + d + 59
  }

  lemma MonthTable(y: nat)
    ensures DaysBeforeMonth(y, 1) == 0 && DaysBeforeMonth(y, 2) == 31
    ensures var f := if Leap(y) then 60 else 59;
            && DaysBeforeMonth(y, 3) == f && DaysBeforeMonth(y, 4) == f + 31 && DaysBeforeMonth(y, 5) == f + 61
            && DaysBeforeMonth(y, 6) == f + 92 && DaysBeforeMonth(y, 7) == f + 122 && DaysBeforeMonth(y, 8) == f + 153
            && DaysBeforeMonth(y, 9) == f + 184 && DaysBeforeMonth(y, 10) == f + 214
            && DaysBeforeMonth(y, 11) == f + 245 && DaysBeforeMonth(y, 12) == f + 275
  {
    assert DaysBeforeMonth(y, 4) == DaysBeforeMonth(y, 3) + 31;
    assert DaysBeforeMonth(y, 6) == DaysBeforeMonth(y, 4) + 61;
    assert DaysBeforeMonth(y, 8) == DaysBeforeMonth(y, 6) + 61;
    assert DaysBeforeMonth(y, 10) == DaysBeforeMonth(y, 8) + 61;
  }

  lemma YearsFromMarch(y: nat)
    ensures DaysBeforeYear(y) == 365 * y + y / 4 - y / 100 + y / 400 + if Leap(y) then 0 else 1
    ensures DaysBeforeYear(y) == 365 * (y - 1) + (y - 1) / 4 - (y - 1) / 100 + (y - 1) / 400 + 366
  {
    MultiplesOfFour(y);
    assert (y + 3) / 4 == y / 4 + if y % 4 == 0 then 0 else 1;
    assert (y + 99) / 100 == y / 100 + if y % 100 == 0 then 0 else 1;
    assert (y + 399) / 400 == y / 400 + if y % 400 == 0 then 0 else 1;
  }

  /** The day number of a date, by a formula that names neither leap years nor the lengths of months. */
  lemma DayNumberIs(c: Date)
    requires ValidDate(c)
    ensures DayNumber(c) == MarchCount(c.year, c.month, c.day)
  {
    MonthTable(c.year);
    YearsFromMarch(c.year);
    hide DaysBeforeYear;
    hide DaysBeforeMonth;
    hide Leap;
  }

  /** The formula agrees with Unix time at its zero. */
  lemma UnixDay()
    ensures ValidDate(Date(1970, 1, 1)) && DayNumber(Date(1970, 1, 1)) == 719528
  {
    DayNumberIs(Date(1970, 1, 1));
  }

  // ----- fixed-width numbers separated by fixed characters

  /** The low `w` decimal digits of `n`. */
  function Digits(n: nat, w: nat): (s: string)
    ensures |s| == w && AllDigits(s)
  {
    if w == 0 then "" else Digits(n / 10, w - 1) + [Digit(n % 10)]
  }

  function Pow10(w: nat): nat {
    if w == 0 then 1 else 10 * Pow10(w - 1)
  }

  lemma {:induction false} DigitsValue(n: nat, w: nat)
    requires n < Pow10(w)
    ensures Value(Digits(n, w)) == n
  {
    if w > 0 {
      DigitsValue(n / 10, w - 1);
      assert Digits(n, w)[..w - 1] == Digits(n / 10, w - 1);
    }
  }

  datatype Field = Field(width: nat, sep: char)

  predicate Fits(vals: seq<nat>, shape: seq<Field>) {
    |vals| == |shape| && forall i :: 0 <= i < |vals| ==> vals[i] < Pow10(shape[i].width)
  }

  function Fmt(vals: seq<nat>, shape: seq<Field>): (s: string)
    requires |vals| == |shape|
    ensures |s| == ShapeLength(shape)
    ensures shape != [] ==> s != "" && s[|s| - 1] == shape[|shape| - 1].sep
  {
    if shape == [] then ""
    else Digits(vals[0], shape[0].width) + [shape[0].sep] + Fmt(vals[1..], shape[1..])
  }

  function ShapeLength(shape: seq<Field>): nat {
    if shape == [] then 0 else shape[0].width + 1 + ShapeLength(shape[1..])
  }

  predicate Matches(s: string, shape: seq<Field>) {
    if shape == [] then s == ""
    else
      && |s| > shape[0].width
      && AllDigits(s[..shape[0].width])
      && s[shape[0].width] == shape[0].sep
      && Matches(s[shape[0].width + 1..], shape[1..])
  }

  function Values(s: string, shape: seq<Field>): (vals: seq<nat>)
    requires Matches(s, shape)
    ensures |vals| == |shape|
  {
    if shape == [] then []
    else [Value(s[..shape[0].width])] + Values(s[shape[0].width + 1..], shape[1..])
  }

  lemma FieldFirst(digits: string, f: Field, rest: string, shape: seq<Field>)
    requires |digits| == f.width && AllDigits(digits) && shape != [] && shape[0] == f
    requires Matches(rest, shape[1..])
    ensures var s := digits + [f.sep] + rest;
            Matches(s, shape) && Values(s, shape) == [Value(digits)] + Values(rest, shape[1..])
  {
    var s, w := digits + [f.sep] + rest, f.width;
    assert s[..w] == digits && s[w] == f.sep && s[w + 1..] == rest;
    hide Value;
  }

  lemma FmtNext(vals: seq<nat>, shape: seq<Field>)
    requires shape != [] && |vals| == |shape|
    ensures Fmt(vals, shape) == Digits(vals[0], shape[0].width) + [shape[0].sep] + Fmt(vals[1..], shape[1..])
  {
  }

  lemma {:induction false} FmtMatches(vals: seq<nat>, shape: seq<Field>)
    requires Fits(vals, shape)
    ensures Matches(Fmt(vals, shape), shape)
    ensures Values(Fmt(vals, shape), shape) == vals
  {
    if shape != [] {
      assert Fits(vals[1..], shape[1..]);
      FmtMatches(vals[1..], shape[1..]);
      DigitsValue(vals[0], shape[0].width);
      hide *;
      FmtNext(vals, shape);
      FieldFirst(Digits(vals[0], shape[0].width), shape[0], Fmt(vals[1..], shape[1..]), shape);
      assert vals == [vals[0]] + vals[1..];
    }
  }

  lemma {:induction false} MatchLength(s: string, shape: seq<Field>)
    requires Matches(s, shape)
    ensures |s| == ShapeLength(shape)
    ensures shape != [] ==> s[|s| - 1] == shape[|shape| - 1].sep
    ensures forall c :: c in s ==> IsDigit(c) || exists f :: f in shape && f.sep == c
  {
    if shape != [] {
      var w := shape[0].width;
      MatchLength(s[w + 1..], shape[1..]);
      forall c | c in s
        ensures IsDigit(c) || exists f :: f in shape && f.sep == c
      {
        assert s == s[..w] + [s[w]] + s[w + 1..];
        if c in s[..w] {
        } else if c == s[w] {
          assert shape[0] in shape;
        } else {
          assert c in s[w + 1..];
        }
      }
    }
  }

  // ----- timestamps

  const STAMP: seq<Field> := [Field(4, '-'), Field(2, '-'), Field(2, 'T'), Field(2, ':'), Field(2, ':'), Field(2, 'Z')]

  function Parts(t: nat): seq<nat> {
    var c := Civil(t / DAY);
    var r := t % DAY;
    [c.year, c.month, c.day, r / 3600, r % 3600 / 60, r % 60]
  }

  /** `t.UTC().Format(time.RFC3339)`. */
  function FormatStamp(t: Seconds): string {
    Fmt(Parts(t), STAMP)
  }

  /** The instant named by the six numbers of a timestamp: out-of-range parts are errors. */
  function FromParts(v: seq<nat>): Option<Seconds>
    requires |v| == 6
  {
    var c := Date(v[0], v[1], v[2]);
    if !ValidDate(c) || v[3] >= 24 || v[4] >= 60 || v[5] >= 60 then None
    else
      var t := DayNumber(c) * DAY + v[3] * 3600 + v[4] * 60 + v[5];
      if t < 315569520000 then Some(t) else None
  }

  /** `time.Parse(time.RFC3339, s)` of a string in this form. */
  function ParseStamp(s: string): Option<Seconds> {
    if Matches(s, STAMP) then FromParts(Values(s, STAMP)) else None
  }

  lemma PartsFit(t: Seconds)
    ensures Fits(Parts(t), STAMP)
  {
    FourDigitYears(t / DAY);
    assert Pow10(2) == 100 && Pow10(4) == 10000;
  }

  lemma StampForm(t: Seconds)
    ensures Matches(FormatStamp(t), STAMP) && Values(FormatStamp(t), STAMP) == Parts(t)
    ensures |FormatStamp(t)| == 20
  {
    PartsFit(t);
    FmtMatches(Parts(t), STAMP);
  }

  lemma ClockParts(r: nat)
    requires r < DAY
    ensures r / 3600 < 24 && r % 3600 / 60 < 60
    ensures r / 3600 * 3600 + r % 3600 / 60 * 60 + r % 60 == r
  {
    var h, q := r / 3600, r % 3600;
    assert r == h * 3600 + q;
    var m, s := q / 60, q % 60;
    assert q == m * 60 + s;
    MinuteParts(h, m, s);
  }

  lemma MinuteParts(h: nat, m: nat, s: nat)
    requires s < 60
    ensures (h * 3600 + m * 60 + s) % 60 == s
  {
    assert h * 3600 + m * 60 + s == (h * 60 + m) * 60 + s;
  }

  lemma SplitInstant(t: nat) returns (c: Date, h: nat, m: nat, s: nat)
    ensures Parts(t) == [c.year, c.month, c.day, h, m, s]
    ensures ValidDate(c) && h < 24 && m < 60 && s < 60
    ensures DayNumber(c) * DAY + h * 3600 + m * 60 + s == t
  {
    var n, r := t / DAY, t % DAY;
    c, h, m, s := Civil(n), r / 3600, r % 3600 / 60, r % 60;
    CivilNumber(n);
    ClockParts(r);
  }

  lemma FromPartsOf(t: Seconds)
    ensures FromParts(Parts(t)) == Some(t)
  {
    var c, h, m, s := SplitInstant(t);
    var v := Parts(t);
    assert Date(v[0], v[1], v[2]) == c;
  }

  /** Reading back a printed timestamp gives the instant that was printed. */
  lemma StampRoundTrip(t: Seconds)
    ensures ParseStamp(FormatStamp(t)) == Some(t)
  {
    StampForm(t);
    FromPartsOf(t);
  }

  // ----- exactly which strings are timestamps, and of when

  lemma DigitIs(n: nat)
    requires n < 10
    ensures Digit(n) == "0123456789"[n]
  {
  }

  lemma {:induction false} DigitsOfValue(s: string)
    requires AllDigits(s)
    ensures Value(s) < Pow10(|s|) && Digits(Value(s), |s|) == s
  {
    if s != "" {
      var front, c := s[..|s| - 1], s[|s| - 1];
      DigitsOfValue(front);
      var d := c as int - '0' as int;
      assert Value(s) / 10 == Value(front) && Value(s) % 10 == d;
      assert Digit(d) == c;
      assert s == front + [c];
    }
  }

  lemma FmtStep(n: nat, vals: seq<nat>, shape: seq<Field>)
    requires |vals| + 1 == |shape|
    ensures Fmt([n] + vals, shape) == Part(n, shape[0].width, [shape[0].sep]) + Fmt(vals, shape[1..])
  {
    assert ([n] + vals)[1..] == vals;
  }

  lemma ValuesStep(s: string, shape: seq<Field>)
    requires shape != [] && Matches(s, shape)
    ensures var w := shape[0].width;
            && w < |s| && AllDigits(s[..w]) && s[w] == shape[0].sep && Matches(s[w + 1..], shape[1..])
            && Values(s, shape) == [Value(s[..w])] + Values(s[w + 1..], shape[1..])
  {
  }

  lemma {:induction false} FmtOfValues(s: string, shape: seq<Field>)
    requires Matches(s, shape)
    ensures Fmt(Values(s, shape), shape) == s
  {
    hide *;
    if shape == [] {
      NoFields(s);
    } else {
      ValuesStep(s, shape);
      var w := shape[0].width;
      var first, rest := s[..w], s[w + 1..];
      var vals := Values(rest, shape[1..]);
      DigitsOfValue(first);
      FmtOfValues(rest, shape[1..]);
      FmtStep(Value(first), vals, shape);
      PartIs(Value(first), w, [s[w]]);
      Halves(s, w);
    }
  }

  lemma NoFields(s: string)
    ensures Matches(s, []) ==> s == "" && Values(s, []) == [] && Fmt([], []) == ""
  {
  }

  lemma Halves(s: string, w: nat)
    requires w < |s|
    ensures s == s[..w] + [s[w]] + s[w + 1..]
  {
  }

  lemma PartIs(n: nat, width: nat, sep: string)
    ensures Part(n, width, sep) == Digits(n, width) + sep
  {
  }

  function Instant(n: nat, h: nat, m: nat, s: nat): nat {
    86400 * n + 3600 * h + 60 * m + s
  }

  lemma ClockOf(n: nat, h: nat, m: nat, s: nat)
    requires h < 24 && m < 60 && s < 60
    ensures var t := Instant(n, h, m, s);
            t / DAY == n && t % DAY / 3600 == h && t % DAY % 3600 / 60 == m && t % DAY % 60 == s
  {
    var r := h * 3600 + m * 60 + s;
    assert Instant(n, h, m, s) == n * DAY + r && r < DAY;
    Divided(n, r);
    Divided(h, m * 60 + s);
    Divided(m, s);
    MinuteParts(h, m, s);
  }

  lemma Divided(q: nat, r: nat)
    ensures r < 86400 ==> (q * 86400 + r) / 86400 == q && (q * 86400 + r) % 86400 == r
    ensures r < 3600 ==> (q * 3600 + r) / 3600 == q && (q * 3600 + r) % 3600 == r
    ensures r < 60 ==> (q * 60 + r) / 60 == q && (q * 60 + r) % 60 == r
  {
  }

  lemma PartsOf(c: Date, h: nat, m: nat, s: nat)
    requires ValidDate(c) && h < 24 && m < 60 && s < 60
    ensures Parts(Instant(DayNumber(c), h, m, s)) == [c.year, c.month, c.day, h, m, s]
  {
    ClockOf(DayNumber(c), h, m, s);
    NumberCivil(c);
    hide Instant;
    hide DayNumber;
    hide Civil;
  }

  /** Only what would be printed is read: reading a timestamp and printing it again gives the same string. */
  lemma StampReprinted(s: string)
    ensures ParseStamp(s).Some? ==> FormatStamp(ParseStamp(s).value) == s
  {
    if ParseStamp(s).Some? {
      var v := Values(s, STAMP);
      PartsOf(Date(v[0], v[1], v[2]), v[3], v[4], v[5]);
      FmtOfValues(s, STAMP);
      assert v == [v[0], v[1], v[2], v[3], v[4], v[5]];
    }
  }

  function Part(n: nat, width: nat, sep: string): string {
    Digits(n, width) + sep
  }

  function StampText(c: Date, h: nat, m: nat, s: nat): string {
    Part(c.year, 4, "-") + (Part(c.month, 2, "-") + (Part(c.day, 2, "T")
    + (Part(h, 2, ":") + (Part(m, 2, ":") + Part(s, 2, "Z")))))
  }

  lemma DayStamp(c: Date, n: nat, h: nat, m: nat, s: nat)
    requires ValidDate(c) && n == DayNumber(c) && n < DAYS && h < 24 && m < 60 && s < 60
    ensures Instant(n, h, m, s) < 315569520000
    ensures FormatStamp(Instant(n, h, m, s)) == StampText(c, h, m, s)
    ensures ParseStamp(StampText(c, h, m, s)) == Some(Instant(n, h, m, s))
  {
    PartsOf(c, h, m, s);
    InstantFits(n, h, m, s);
    hide *;
    var t: Seconds := Instant(n, h, m, s);
    StampRoundTrip(t);
    StampOfParts(t, [c.year, c.month, c.day, h, m, s]);
    TextOfParts(c, h, m, s);
  }

  /** The timestamp of a date and a clock time, and the seconds that it stands for: exactly the valid dates of four
    digit years have one. */
  lemma StampMeans(c: Date, h: nat, m: nat, s: nat)
    requires ValidDate(c) && c.year < 10000 && h < 24 && m < 60 && s < 60
    ensures MarchCount(c.year, c.month, c.day) >= 0
    ensures var t := Instant(MarchCount(c.year, c.month, c.day), h, m, s);
            t < 315569520000 && FormatStamp(t) == StampText(c, h, m, s) && ParseStamp(StampText(c, h, m, s)) == Some(t)
  {
    hide *;
    DayNumberIs(c);
    NumberCivil(c);
    FourDigitYears(DayNumber(c));
    DayStamp(c, DayNumber(c), h, m, s);
  }

  lemma InstantFits(n: nat, h: nat, m: nat, s: nat)
    requires n < DAYS && h < 24 && m < 60 && s < 60
    ensures Instant(n, h, m, s) < 315569520000
  {
  }

  lemma StampOfParts(t: Seconds, v: seq<nat>)
    requires |v| == 6 && Parts(t) == v
    ensures FormatStamp(t) == Fmt(v, STAMP)
  {
  }

  lemma TextOfParts(c: Date, h: nat, m: nat, s: nat)
    ensures Fmt([c.year, c.month, c.day, h, m, s], STAMP) == StampText(c, h, m, s)
  {
    hide Digits;
    hide Part;
    ClockText(h, m, s);
    var clock := [h, m, s];
    hide Fmt;
    FmtStep(c.day, clock, STAMP[2..]);
    assert STAMP[2..][1..] == STAMP[3..];
    FmtStep(c.month, [c.day] + clock, STAMP[1..]);
    assert STAMP[1..][1..] == STAMP[2..];
    FmtStep(c.year, [c.month] + ([c.day] + clock), STAMP);
    assert [c.year] + ([c.month] + ([c.day] + clock)) == [c.year, c.month, c.day, h, m, s];
  }

  lemma ClockText(h: nat, m: nat, s: nat)
    ensures Fmt([h, m, s], STAMP[3..]) == Part(h, 2, ":") + (Part(m, 2, ":") + Part(s, 2, "Z"))
  {
    hide Digits;
    hide Part;
    hide Fmt;
    FmtStep(s, [], STAMP[5..]);
    FmtNothing();
    assert [s] + [] == [s] && Part(s, 2, "Z") + "" == Part(s, 2, "Z");
    FmtStep(m, [s], STAMP[4..]);
    assert STAMP[4..][1..] == STAMP[5..];
    FmtStep(h, [m] + [s], STAMP[3..]);
    assert STAMP[3..][1..] == STAMP[4..];
    assert [h] + ([m] + [s]) == [h, m, s];
  }

  lemma FmtNothing()
    ensures STAMP[5..][1..] == [] && Fmt([], []) == ""
  {
  }
}
