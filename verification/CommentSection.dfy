/** The comment section that both disk formats share, and the scanner that reads it.

  Each comment is a header line, the text, and the delimiter character 0x1E. The scanner's split rule
  depends on a phase that the reader changes between calls. */
module CommentSection {
  import opened Wrappers
  import opened Text
  import opened Calendar

  const DELIMITER: char := '\U{1E}'
  const MAX_INT: nat := 9223372036854775807

  /** The two printers differ in the timestamps they print and in how the header line is cleaned. */
  datatype Dialect = Bugzilla | Jira

  datatype RawComment = RawComment(id: string, author: string, time: string, text: string)

  datatype ReadError = FirstLine | NoSeparator | CommentHeader | CommentId | CommentTime

  // ----- the scanner

  datatype Token = Token(text: string, rest: string)

  function DropCR(line: string): string {
    TrimSuffix(line, '\r')
  }

  /** `bufio.ScanLines` on a whole file. */
  function ScanLine(data: string): (t: Token)
    requires data != ""
    ensures |t.rest| < |data|
    ensures '\n' !in t.text
  {
    var i := Index(data, "\n");
    if i < 0 then
      assert forall j :: 0 <= j < |data| && data[j] == '\n' ==> At(data, "\n", j);
      Token(DropCR(data), "")
    else
      assert forall j :: 0 <= j < i && data[j] == '\n' ==> At(data, "\n", j);
      Token(DropCR(data[..i]), data[i + 1..])
  }

  /** The split rule of phase 2: everything up to the delimiter, or up to the end of the file. */
  function ScanText(data: string): (t: Token)
    requires data != ""
    ensures |t.rest| < |data|
  {
    var i := Index(data, [DELIMITER]);
    if i < 0 then Token(data, "") else Token(data[..i], data[i + 1..])
  }

  function ScanPhase(phase: nat, data: string): Option<Token> {
    if data == "" then None
    else Some(if phase == 2 then ScanText(data) else ScanLine(data))
  }

  /** `bufio.Scanner` over a file, with the split function of `ReadBugComments`. */
  class Scanner {
    var rest: string
    var text: string
    var phase: nat

    constructor (data: string)
      ensures rest == data && phase == 0
    {
      rest := data;
      text := "";
      phase := 0;
    }

    method Scan() returns (ok: bool)
      modifies this`rest, this`text
      ensures ok <==> old(rest) != ""
      ensures ok ==> ScanPhase(phase, old(rest)) == Some(Token(text, rest))
      ensures !ok ==> rest == old(rest)
    {
      var next := ScanPhase(phase, rest);
      ok := next.Some?;
      if ok {
        text := next.value.text;
        rest := next.value.rest;
      }
    }
  }

  // ----- header lines

  const JIRA_CLOCK: seq<Field> := [Field(4, '-'), Field(2, '-'), Field(2, 'T'), Field(2, ':'), Field(2, ':'),
      Field(2, '.')]

  /** The timestamp pattern of the comment header expression. */
  predicate IsStamp(d: Dialect, s: string) {
    match d
    case Bugzilla => Matches(s, STAMP)
    case Jira =>
      && |s| == 28 && Matches(s[..20], JIRA_CLOCK) && AllDigits(s[20..23])
      && (s[23] == '+' || s[23] == '-') && AllDigits(s[24..])
  }

  function StampLength(d: Dialect): nat {
    if d.Bugzilla? then 20 else 28
  }

  datatype Header = Header(id: string, author: string, time: string)

  /** `^Comment (\d+) by (.+) at (STAMP)$` on one line. The timestamp has a fixed length and the digits
    end where the first other character stands, so at most one match exists. */
  function MatchHeader(d: Dialect, line: string): (r: Option<Header>)
    ensures r.Some? ==>
              var h := r.value;
              && h.id != "" && AllDigits(h.id)
              && h.author != "" && '\n' !in h.author
              && IsStamp(d, h.time)
              && |line| == 16 + |h.id| + |h.author| + StampLength(d)
              && |h.id| == DigitRun(line[8..])
  {
    if !HasPrefix(line, "Comment ") then None
    else
      var n := DigitRun(line[8..]);
      var k := 8 + n;
      var e := |line| - StampLength(d) - 4;
      if k == 8 || e <= k + 4 then None
      else if line[k..k + 4] != " by " || line[e..e + 4] != " at " then None
      else if '\n' in line[k + 4..e] || !IsStamp(d, line[e + 4..]) then None
      else Some(Header(line[8..][..n], line[k + 4..e], line[e + 4..]))
  }

  /** `dropSpaces` of the Jira reader removes the first delimiter character of a line. */
  function CleanLine(d: Dialect, line: string): (r: string)
    ensures DELIMITER !in line ==> r == line
    ensures d.Jira? && DELIMITER in line ==> |r| == |line| - 1
  {
    if d.Bugzilla? then line else DropFirst(line, DELIMITER)
  }

  function DropFirst(s: string, c: char): (r: string)
    ensures c !in s ==> r == s
    ensures c in s ==> |r| == |s| - 1
  {
    if s == "" then s else if s[0] == c then s[1..] else [s[0]] + DropFirst(s[1..], c)
  }

  /** What the reader makes of a header line, in the order of its checks. */
  function ReadHeader(d: Dialect, line: string): Result<Header, ReadError> {
    var m := MatchHeader(d, CleanLine(d, line));
    if m.None? then Err(CommentHeader)
    else if d.Bugzilla? && Value(m.value.id) > MAX_INT then Err(CommentId)
    else if d.Bugzilla? && ParseStamp(m.value.time).None? then Err(CommentTime)
    else Ok(m.value)
  }

  // ----- the section

  function WithText(h: Header, text: string): RawComment {
    RawComment(h.id, h.author, h.time, TrimSuffix(text, '\n'))
  }

  function Append(front: seq<RawComment>, r: Result<seq<RawComment>, ReadError>): Result<seq<RawComment>, ReadError> {
    if r.Ok? then Ok(front + r.value) else r
  }

  /** What the reader guarantees of a comment it accepts. */
  predicate WellRead(d: Dialect, c: RawComment) {
    && c.id != "" && AllDigits(c.id)
    && (d.Bugzilla? ==> Value(c.id) <= MAX_INT && ParseStamp(c.time).Some?)
  }

  /** The comments in `data`: a header line and a text alternate. */
  function ParseSection(d: Dialect, data: string): (r: Result<seq<RawComment>, ReadError>)
    ensures r.Ok? ==> forall i :: 0 <= i < |r.value| ==> WellRead(d, r.value[i])
    decreases |data|
  {
    if data == "" then Ok([])
    else
      var line := ScanLine(data);
      ParseAfterLine(d, line.text, line.rest)
  }

  /** The comments whose first header line is `line`; a header with nothing after it is dropped. */
  function ParseAfterLine(d: Dialect, line: string, rest: string): (r: Result<seq<RawComment>, ReadError>)
    ensures r.Ok? ==> forall i :: 0 <= i < |r.value| ==> WellRead(d, r.value[i])
    decreases |rest|
  {
    var h :- ReadHeader(d, line);
    if rest == "" then Ok([])
    else
      var body := ScanText(rest);
      Append([WithText(h, body.text)], ParseSection(d, body.rest))
  }

  /** What is left to read when the scanner has delivered a token in `phase`. */
  function Remaining(d: Dialect, phase: nat, pending: Header, text: string, rest: string): Result<seq<RawComment>,
      ReadError> {
    if phase == 2 then Append([WithText(pending, text)], ParseSection(d, rest))
    else ParseAfterLine(d, text, rest)
  }

  /** The second loop of `ReadBugComments`: the phase alternates between 1 and 2. */
  method ReadSection(d: Dialect, sr: Scanner) returns (r: Result<seq<RawComment>, ReadError>)
    modifies sr
    ensures r == ParseSection(d, old(sr.rest))
  {
    var comments: seq<RawComment> := [];
    var pending := Header("", "", "");
    sr.phase := 1;
    var ok := sr.Scan();
    ghost var expected := ParseSection(d, old(sr.rest));
    AppendNothing([], expected);
    while ok
      invariant sr.phase == 1 || sr.phase == 2
      invariant expected == Append(comments, if ok then Remaining(d, sr.phase, pending, sr.text, sr.rest) else Ok([]))
      decreases |sr.rest|, ok
    {
      if sr.phase == 1 {
        var h := ReadHeader(d, sr.text);
        if h.Err? {
          return Err(h.error);
        }
        pending := h.value;
        sr.phase := 2;
      } else {
        AppendAppend(comments, [WithText(pending, sr.text)], ParseSection(d, sr.rest));
        comments := comments + [WithText(pending, sr.text)];
        sr.phase := 1;
      }
      ok := sr.Scan();
    }
    AppendNothing(comments, expected);
    return Ok(comments);
  }

  lemma AppendNothing(a: seq<RawComment>, r: Result<seq<RawComment>, ReadError>)
    ensures Append([], r) == r
    ensures Append(a, Ok([])) == Ok(a)
  {
    assert a + [] == a;
    if r.Ok? {
      assert [] + r.value == r.value;
    }
  }

  lemma AppendAppend(a: seq<RawComment>, b: seq<RawComment>, r: Result<seq<RawComment>, ReadError>)
    ensures Append(a, Append(b, r)) == Append(a + b, r)
  {
    if r.Ok? {
      assert a + (b + r.value) == (a + b) + r.value;
    }
  }

  // ----- the printer

  function Escape(text: string): (r: string)
    ensures |r| == |text|
    ensures '\0' !in r && DELIMITER !in r
    ensures r == text <==> '\0' !in text && DELIMITER !in text
    ensures forall i :: 0 <= i < |text| ==>
              r[i] == if text[i] == '\0' || text[i] == DELIMITER then ' ' else text[i]
  {
    ReplaceChar(ReplaceChar(text, '\0', ' '), DELIMITER, ' ')
  }

  function HeaderLine(c: RawComment): string {
    "Comment " + c.id + " by " + c.author + " at " + c.time
  }

  function PrintComment(c: RawComment): string {
    HeaderLine(c) + "\n" + Escape(c.text) + "\n" + [DELIMITER]
  }

  function PrintSection(cs: seq<RawComment>): string {
    if cs == [] then "" else PrintComment(cs[0]) + PrintSection(cs[1..])
  }

  method WriteSection(cs: seq<RawComment>) returns (out: string)
    ensures out == PrintSection(cs)
  {
    out := "";
    for i := 0 to |cs|
      invariant out + PrintSection(cs[i..]) == PrintSection(cs)
    {
      out := out + PrintComment(cs[i]);
      assert cs[i..][1..] == cs[i + 1..];
    }
  }
}
