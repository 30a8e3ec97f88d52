/** Byte order of strings, and why it is time order on RFC 3339 timestamps of one form (section 5.1 of RFC 3339). */
module StampOrder {
  import opened Text
  import opened Calendar

  predicate Less(a: string, b: string) {
    b != "" && (a == "" || a[0] < b[0] || (a[0] == b[0] && Less(a[1..], b[1..])))
  }

  predicate AtMost(a: string, b: string) {
    a == b || Less(a, b)
  }

  /** The first place where two strings differ decides, and a string comes after those it begins with. */
  predicate DiffersAt(a: string, b: string, k: int) {
    0 <= k <= |a| && k < |b| && a[..k] == b[..k] && (k == |a| || a[k] < b[k])
  }

  lemma {:induction false} LessIs(a: string, b: string)
    ensures Less(a, b) <==> exists k :: DiffersAt(a, b, k)
  {
    assert forall k :: DiffersAt(a, b, k) && k > 0 ==> a[..k][0] == a[0] && b[..k][0] == b[0];
    if a != "" && b != "" && a[0] == b[0] {
      LessIs(a[1..], b[1..]);
      if k :| DiffersAt(a[1..], b[1..], k) {
        assert a[..k + 1] == [a[0]] + a[1..][..k] && b[..k + 1] == [b[0]] + b[1..][..k];
        assert DiffersAt(a, b, k + 1);
      }
      if k :| DiffersAt(a, b, k) {
        assert k > 0;
        assert a[1..][..k - 1] == a[..k][1..] && b[1..][..k - 1] == b[..k][1..];
        assert DiffersAt(a[1..], b[1..], k - 1);
      }
    } else if b != "" && (a == "" || a[0] < b[0]) {
      assert DiffersAt(a, b, 0);
    }
  }

  lemma {:induction false} LessTrans(a: string, b: string, c: string)
    requires Less(a, b) && Less(b, c)
    ensures Less(a, c)
  {
    if a != "" && a[0] == b[0] == c[0] {
      LessTrans(a[1..], b[1..], c[1..]);
    }
  }

  lemma {:induction false} LessTotal(a: string, b: string)
    ensures !(Less(a, b) && Less(b, a)) && !Less(a, a)
    ensures a != b ==> Less(a, b) || Less(b, a)
  {
    if a != "" && b != "" {
      LessTotal(a[1..], b[1..]);
      assert a == [a[0]] + a[1..] && b == [b[0]] + b[1..];
    }
    if a != "" {
      LessTotal(a[1..], a[1..]);
    }
  }

  /** A string order is decided by the first parts of equal length when they differ. */
  lemma {:induction false} LessParts(a: string, b: string, x: string, y: string)
    requires |a| == |b|
    ensures Less(a + x, b + y) <==> Less(a, b) || (a == b && Less(x, y))
  {
    if a == "" {
      assert a + x == x && b + y == y;
    } else {
      assert (a + x)[1..] == a[1..] + x && (b + y)[1..] == b[1..] + y;
      LessParts(a[1..], b[1..], x, y);
      assert a == [a[0]] + a[1..] && b == [b[0]] + b[1..];
    }
  }

  lemma LessPrefix(a: string, b: string, n: nat)
    requires n <= |a| && n <= |b|
    ensures Less(a, b) ==> AtMost(a[..n], b[..n])
    ensures Less(a[..n], b[..n]) ==> Less(a, b)
  {
    assert a == a[..n] + a[n..] && b == b[..n] + b[n..];
    LessParts(a[..n], b[..n], a[n..], b[n..]);
  }

  // ----- numbers

  lemma {:induction false} DigitsOrder(n: nat, m: nat, w: nat)
    requires n < m < Pow10(w)
    ensures Less(Digits(n, w), Digits(m, w))
  {
    if w > 0 {
      LessParts(Digits(n / 10, w - 1), Digits(m / 10, w - 1), [Digit(n % 10)], [Digit(m % 10)]);
      if n / 10 < m / 10 {
        DigitsOrder(n / 10, m / 10, w - 1);
      } else {
        assert n / 10 == m / 10 && n % 10 < m % 10;
      }
    }
  }

  predicate LexLess(v: seq<nat>, w: seq<nat>)
    requires |v| == |w|
  {
    v != [] && (v[0] < w[0] || (v[0] == w[0] && LexLess(v[1..], w[1..])))
  }

  lemma {:induction false} FmtOrder(v: seq<nat>, w: seq<nat>, shape: seq<Field>)
    requires Fits(v, shape) && Fits(w, shape) && LexLess(v, w)
    ensures Less(Fmt(v, shape), Fmt(w, shape))
  {
    var n, sep := shape[0].width, [shape[0].sep];
    var a, b := Digits(v[0], n) + sep, Digits(w[0], n) + sep;
    var x, y := Fmt(v[1..], shape[1..]), Fmt(w[1..], shape[1..]);
    LessParts(a, b, x, y);
    LessParts(Digits(v[0], n), Digits(w[0], n), sep, sep);
    if v[0] < w[0] {
      DigitsOrder(v[0], w[0], n);
    } else {
      FmtOrder(v[1..], w[1..], shape[1..]);
    }
  }

  lemma SixParts(v: seq<nat>, w: seq<nat>)
    requires |v| == |w| == 6
    ensures LexLess(v, w) <==>
            || v[0] < w[0]
            || (v[0] == w[0] && (v[1] < w[1]
            || (v[1] == w[1] && (v[2] < w[2]
            || (v[2] == w[2] && (v[3] < w[3]
            || (v[3] == w[3] && (v[4] < w[4]
            || (v[4] == w[4] && v[5] < w[5])))))))))
  {
    assert LexLess(v[5..], w[5..]) <==> v[5] < w[5];
    assert v[4..][1..] == v[5..] && w[4..][1..] == w[5..];
    assert LexLess(v[4..], w[4..]) <==> v[4] < w[4] || (v[4] == w[4] && v[5] < w[5]);
    assert v[3..][1..] == v[4..] && w[3..][1..] == w[4..];
    assert v[2..][1..] == v[3..] && w[2..][1..] == w[3..];
    assert v[1..][1..] == v[2..] && w[1..][1..] == w[2..];
    assert LexLess(v[3..], w[3..]) <==> v[3] < w[3] || (v[3] == w[3] && LexLess(v[4..], w[4..]));
    assert LexLess(v[2..], w[2..]) <==> v[2] < w[2] || (v[2] == w[2] && LexLess(v[3..], w[3..]));
    assert LexLess(v[1..], w[1..]) <==> v[1] < w[1] || (v[1] == w[1] && LexLess(v[2..], w[2..]));
  }

  lemma ClockOrder(r: nat, q: nat)
    requires r < q < DAY
    ensures r / 3600 < q / 3600
            || (r / 3600 == q / 3600
                && (r % 3600 / 60 < q % 3600 / 60 || (r % 3600 / 60 == q % 3600 / 60 && r % 60 < q % 60)))
  {
    ClockParts(r);
    ClockParts(q);
  }

  // ----- timestamps

  lemma PartsOrder(t: Seconds, u: Seconds)
    requires t < u
    ensures LexLess(Parts(t), Parts(u))
  {
    SixParts(Parts(t), Parts(u));
    CivilGrows(t / DAY, u / DAY);
    if t / DAY == u / DAY {
      ClockOrder(t % DAY, u % DAY);
    }
  }

  /** Timestamps are ordered as the times they stand for. */
  lemma StampsOrdered(t: Seconds, u: Seconds)
    ensures Less(FormatStamp(t), FormatStamp(u)) <==> t < u
    ensures FormatStamp(t) == FormatStamp(u) <==> t == u
  {
    PartsFit(t);
    PartsFit(u);
    LessTotal(FormatStamp(t), FormatStamp(u));
    if t < u {
      PartsOrder(t, u);
      FmtOrder(Parts(t), Parts(u), STAMP);
    } else if u < t {
      PartsOrder(u, t);
      FmtOrder(Parts(u), Parts(t), STAMP);
    }
  }

  // ----- days

  const DAY_LENGTH: nat := 11

  /** The first part of every timestamp of a day, up to and with the `T`. */
  function DayPrefix(d: nat): (s: string)
    requires d < DAYS
  {
    var c := Civil(d);
    Fmt([c.year, c.month, c.day], STAMP[..3])
  }

  lemma {:induction false} FmtConcat(v: seq<nat>, w: seq<nat>, shape: seq<Field>)
    requires |v| + |w| == |shape|
    ensures Fmt(v + w, shape) == Fmt(v, shape[..|v|]) + Fmt(w, shape[|v|..])
    decreases |v|
  {
    if v == [] {
      assert v + w == w && shape[0..] == shape;
    } else {
      assert (v + w)[1..] == v[1..] + w;
      assert shape[1..][..|v| - 1] == shape[..|v|][1..] && shape[1..][|v| - 1..] == shape[|v|..];
      FmtConcat(v[1..], w, shape[1..]);
    }
  }

  /** A timestamp is its day and its clock. */
  lemma StampOfDay(t: Seconds)
    ensures t / DAY < DAYS
    ensures |DayPrefix(t / DAY)| == DAY_LENGTH && FormatStamp(t)[..DAY_LENGTH] == DayPrefix(t / DAY)
  {
    var c, r := Civil(t / DAY), t % DAY;
    StampForm(t);
    FmtConcat([c.year, c.month, c.day], [r / 3600, r % 3600 / 60, r % 60], STAMP);
    assert Parts(t) == [c.year, c.month, c.day] + [r / 3600, r % 3600 / 60, r % 60];
    assert ShapeLength(STAMP[..3]) == DAY_LENGTH;
  }

  lemma DaysOrdered(d: nat, e: nat)
    requires d < e < DAYS
    ensures |DayPrefix(d)| == |DayPrefix(e)| == DAY_LENGTH && Less(DayPrefix(d), DayPrefix(e))
  {
    hide DayPrefix;
    hide FormatStamp;
    var a, b := FormatStamp(d * DAY), FormatStamp(e * DAY);
    StampsOrdered(d * DAY, e * DAY);
    StampOfDay(d * DAY);
    StampOfDay(e * DAY);
    StampForm(d * DAY);
    StampForm(e * DAY);
    LessPrefix(a, b, DAY_LENGTH);
    if DayPrefix(d) == DayPrefix(e) {
      SameDayPrefix(d, e);
    }
  }

  lemma SameDayPrefix(d: nat, e: nat)
    requires d < DAYS && e < DAYS && DayPrefix(d) == DayPrefix(e)
    ensures d == e
  {
    var a, b := Civil(d), Civil(e);
    FourDigitYears(d);
    FourDigitYears(e);
    assert Pow10(2) == 100 && Pow10(4) == 10000;
    FmtMatches([a.year, a.month, a.day], STAMP[..3]);
    FmtMatches([b.year, b.month, b.day], STAMP[..3]);
    CivilGrows(d, e);
    assert [a.year, a.month, a.day][0] == [b.year, b.month, b.day][0];
    assert [a.year, a.month, a.day][1] == [b.year, b.month, b.day][1];
    assert [a.year, a.month, a.day][2] == [b.year, b.month, b.day][2];
  }
}
