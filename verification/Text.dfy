/** The parts of Go's `strings` and `strconv` that the stored files rely on.
  A string is a sequence of code points. */
module Text {

  /** `unicode.IsSpace`. */
  predicate IsSpace(c: char) {
    || c == ' ' || '\t' <= c <= '\r' || c == '\U{85}' || c == '\U{A0}' || c == '\U{1680}'
    || '\U{2000}' <= c <= '\U{200A}' || c == '\U{2028}' || c == '\U{2029}' || c == '\U{202F}'
    || c == '\U{205F}' || c == '\U{3000}'
  }

  /** Neither end is white space. */
  predicate Trimmed(s: string) {
    s == "" || (!IsSpace(s[0]) && !IsSpace(s[|s| - 1]))
  }

  /** `strings.TrimSpace`. */
  function TrimSpace(s: string): (r: string)
    ensures Trimmed(r)
    ensures |r| <= |s|
    ensures r == s <==> Trimmed(s)
    ensures forall c :: c in r ==> c in s
    decreases |s|
  {
    if s == "" then s
    else if IsSpace(s[0]) then TrimSpace(s[1..])
    else if IsSpace(s[|s| - 1]) then TrimSpace(s[..|s| - 1])
    else s
  }

  /** `strings.ReplaceAll` of one character by another. */
  function ReplaceChar(s: string, from: char, to: char): (r: string)
    ensures |r| == |s|
    ensures forall i :: 0 <= i < |s| ==> r[i] == if s[i] == from then to else s[i]
    ensures from != to ==> from !in r
    ensures from !in s ==> r == s
  {
    seq(|s|, i requires 0 <= i < |s| => if s[i] == from then to else s[i])
  }

  /** A string on one line with no blank ends: what `lineSafe` returns. */
  predicate OneLine(s: string) {
    Trimmed(s) && '\n' !in s
  }

  function LineSafe(s: string): (r: string)
    ensures OneLine(r)
    ensures r == s <==> OneLine(s)
  {
    TrimSpace(ReplaceChar(s, '\n', ' '))
  }

  predicate HasPrefix(s: string, prefix: string) {
    prefix <= s
  }

  /** `strings.TrimSuffix` for a one-character suffix. */
  function TrimSuffix(s: string, c: char): string {
    if s != "" && s[|s| - 1] == c then s[..|s| - 1] else s
  }

  predicate At(s: string, sep: string, i: int) {
    0 <= i && i + |sep| <= |s| && s[i..i + |sep|] == sep
  }

  /** `strings.Index`: where `sep` first occurs in `s`, or -1. */
  function Index(s: string, sep: string): (i: int)
    ensures i == -1 || At(s, sep, i)
    ensures forall j :: 0 <= j && (i < 0 || j < i) ==> !At(s, sep, j)
    decreases |s|
  {
    if |s| < |sep| then -1
    else if s[..|sep|] == sep then 0
    else if s == "" then -1
    else
      var i := Index(s[1..], sep);
      assert forall j :: 1 <= j && At(s, sep, j) ==> At(s[1..], sep, j - 1);
      if i < 0 then -1 else i + 1
  }

  /** `strings.SplitN` for a positive `n`. */
  function SplitN(s: string, sep: string, n: nat): (parts: seq<string>)
    requires sep != "" && n > 0
    ensures 0 < |parts| <= n
    decreases n
  {
    var i := Index(s, sep);
    if n == 1 || i < 0 then [s] else [s[..i]] + SplitN(s[i + |sep|..], sep, n - 1)
  }

  /** `strings.Split`. */
  function Split(s: string, sep: string): (parts: seq<string>)
    requires sep != ""
    ensures parts != []
    decreases |s|
  {
    var i := Index(s, sep);
    if i < 0 then [s] else [s[..i]] + Split(s[i + |sep|..], sep)
  }

  /** `strings.Join`. */
  function Join(parts: seq<string>, sep: string): string {
    if parts == [] then "" else if |parts| == 1 then parts[0] else parts[0] + sep + Join(parts[1..], sep)
  }

  function MapLineSafe(parts: seq<string>): (r: seq<string>)
    ensures |r| == |parts|
    ensures forall i :: 0 <= i < |parts| ==> r[i] == LineSafe(parts[i])
  {
    seq(|parts|, i requires 0 <= i < |parts| => LineSafe(parts[i]))
  }

  // ----- decimal numbers

  predicate IsDigit(c: char) {
    '0' <= c <= '9'
  }

  predicate AllDigits(s: string) {
    forall i :: 0 <= i < |s| ==> IsDigit(s[i])
  }

  function Digit(n: nat): (c: char)
    requires n < 10
    ensures IsDigit(c)
  {
    ('0' as int + n) as char
  }

  /** `%d` of a non-negative number. */
  function Itoa(n: nat): (s: string)
    ensures s != "" && AllDigits(s)
    ensures Value(s) == n
  {
    if n < 10 then [Digit(n)] else Itoa(n / 10) + [Digit(n % 10)]
  }

  function Value(s: string): nat
    requires AllDigits(s)
  {
    if s == "" then 0 else 10 * Value(s[..|s| - 1]) + (s[|s| - 1] as int - '0' as int)
  }

  /** How many of the leading characters are digits: what `\d+` takes. */
  function DigitRun(s: string): (n: nat)
    ensures n <= |s| && AllDigits(s[..n])
    ensures n < |s| ==> !IsDigit(s[n])
  {
    if s == "" || !IsDigit(s[0]) then 0 else 1 + DigitRun(s[1..])
  }

  // ----- lemmas

  lemma IndexIs(s: string, sep: string, i: nat)
    requires At(s, sep, i)
    requires forall j :: 0 <= j < i ==> !At(s, sep, j)
    ensures Index(s, sep) == i
  {
  }

  lemma IndexChar(a: string, c: char, b: string)
    ensures c !in a ==> Index(a + [c] + b, [c]) == |a|
    ensures c !in a ==> Index(a, [c]) == -1
  {
    var s := a + [c] + b;
    assert s[|a|..|a| + 1] == [c] && At(s, [c], |a|);
    forall j | 0 <= j < |a|
      ensures At(s, [c], j) || At(a, [c], j) ==> a[j] == c
    {
      assert s[j..j + 1] == [a[j]] && a[j..j + 1] == [a[j]];
    }
  }

  lemma {:induction false} DigitRunIs(a: string, b: string)
    requires AllDigits(a)
    requires b == "" || !IsDigit(b[0])
    ensures DigitRun(a + b) == |a|
  {
    if a == "" {
      assert a + b == b;
    } else {
      assert (a + b)[1..] == a[1..] + b;
      DigitRunIs(a[1..], b);
    }
  }

  // ----- white space

  predicate AllSpace(s: string) {
    forall i :: 0 <= i < |s| ==> IsSpace(s[i])
  }

  lemma TrimStep(s: string)
    ensures s != "" && IsSpace(s[0]) ==> TrimSpace(s) == TrimSpace(s[1..])
    ensures s != "" && !IsSpace(s[0]) && IsSpace(s[|s| - 1]) ==> TrimSpace(s) == TrimSpace(s[..|s| - 1])
    ensures s == "" || (!IsSpace(s[0]) && !IsSpace(s[|s| - 1])) ==> TrimSpace(s) == s
  {
    hide IsSpace;
  }

  /** Trimming takes white space off both ends and nothing else. */
  lemma {:induction false} TrimIs(s: string) returns (before: string, after: string)
    ensures s == before + TrimSpace(s) + after && AllSpace(before) && AllSpace(after) && Trimmed(TrimSpace(s))
    decreases |s|
  {
    hide Trimmed;
    hide IsSpace;
    hide TrimSpace;
    TrimStep(s);
    before, after := "", "";
    if s != "" && IsSpace(s[0]) {
      before, after := TrimIs(s[1..]);
      assert s == [s[0]] + s[1..];
      before := [s[0]] + before;
    } else if s != "" && IsSpace(s[|s| - 1]) {
      before, after := TrimIs(s[..|s| - 1]);
      assert s == s[..|s| - 1] + [s[|s| - 1]];
      after := after + [s[|s| - 1]];
    }
  }

  /** A line-safe string is the string with blanks for line breaks, without its blank ends. */
  lemma LineSafeIs(s: string) returns (before: string, after: string)
    ensures AllSpace(before) && AllSpace(after) && Trimmed(LineSafe(s))
    ensures var whole := before + LineSafe(s) + after;
            |whole| == |s| && forall i :: 0 <= i < |s| ==> whole[i] == if s[i] == '\n' then ' ' else s[i]
  {
    before, after := TrimIs(ReplaceChar(s, '\n', ' '));
    hide TrimSpace;
  }

  /** The 25 code points with the Unicode property White_Space, and no other. */
  lemma SpacesAre(c: char)
    ensures IsSpace(c) <==> c in "\t\n\U{0B}\U{0C}\r \U{85}\U{A0}\U{1680}"
                                 + "\U{2000}\U{2001}\U{2002}\U{2003}\U{2004}\U{2005}\U{2006}\U{2007}"
                                 + "\U{2008}\U{2009}\U{200A}\U{2028}\U{2029}\U{202F}\U{205F}\U{3000}"
  {
  }
}
