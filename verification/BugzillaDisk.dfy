/** The Bugzilla comment file: what `write` prints and `ReadBugComments` reads. */
module BugzillaDisk {
  import opened Wrappers
  import opened Text
  import opened Calendar
  import opened CommentSection
  import opened DiskLines

  // ----- data

  /** A `metav1.Time`. Go's zero time is the start of year 1. */
  datatype Time = Time(sec: Seconds, nano: nat)

  const ZERO_TIME := Time(366 * 86400, 0)

  predicate Before(a: Time, b: Time) {
    a.sec < b.sec || (a.sec == b.sec && a.nano < b.nano)
  }

  /** Numbers that fit a Go `int`. */
  type Int = n: int | -9223372036854775808 <= n <= 9223372036854775807

  datatype BugComment = BugComment(id: Int, isPrivate: bool, creator: string, creationTime: Time, time: Time,
      text: string)

  /** The fields of `BugInfo` that are stored. */
  datatype BugInfo = BugInfo(
    id: Int, status: string, resolution: string, severity: string, summary: string,
    keywords: seq<string>, whiteboard: string, internalWhiteboard: string, creator: string,
    component: seq<string>, assignedTo: string, environment: string,
    targetRelease: seq<string>, version: seq<string>)

  datatype BugComments = BugComments(
    name: string, info: BugInfo, comments: seq<BugComment>, created: Time, resourceVersion: string)

  const NO_INFO := BugInfo(0, "", "", "", "", [], "", "", "", [], "", "", [], [])

  /** `timeToRV`. */
  function TimeToRV(t: Time): string {
    if t == ZERO_TIME then "" else FormatStamp(t.sec)
  }

  /** `strconv.Itoa`. */
  function IntText(n: int): string {
    if n < 0 then "-" + Itoa(-n) else Itoa(n)
  }

  // ----- setFieldsFromBugComments

  function OldestFrom(oldest: Time, cs: seq<BugComment>): Time
    decreases |cs|
  {
    if cs == [] then oldest
    else
      var t := cs[0].creationTime;
      OldestFrom(if oldest == ZERO_TIME || Before(t, oldest) then t else oldest, cs[1..])
  }

  function NewestFrom(newest: Time, cs: seq<BugComment>): Time
    decreases |cs|
  {
    if cs == [] then newest
    else NewestFrom(if Before(newest, cs[0].time) then cs[0].creationTime else newest, cs[1..])
  }

  function SetFields(bug: BugComments): BugComments {
    bug.(created := OldestFrom(ZERO_TIME, bug.comments),
         resourceVersion := TimeToRV(NewestFrom(ZERO_TIME, bug.comments)))
  }

  method SetFieldsFromBugComments(bug: BugComments) returns (r: BugComments)
    ensures r == SetFields(bug)
  {
    var oldest, newest := ZERO_TIME, ZERO_TIME;
    var cs := bug.comments;
    for i := 0 to |cs|
      invariant OldestFrom(oldest, cs[i..]) == OldestFrom(ZERO_TIME, cs)
      invariant NewestFrom(newest, cs[i..]) == NewestFrom(ZERO_TIME, cs)
    {
      assert cs[i..][0] == cs[i] && cs[i..][1..] == cs[i + 1..];
      if oldest == ZERO_TIME || Before(cs[i].creationTime, oldest) {
        oldest := cs[i].creationTime;
      }
      if Before(newest, cs[i].time) {
        newest := cs[i].creationTime;
      }
    }
    return bug.(created := oldest, resourceVersion := TimeToRV(newest));
  }

  // ----- printing

  /** `strings.ReplaceAll(s, "\x0D", "")`. */
  function DropCRs(s: string): string {
    if s == "" then "" else DropCRs(s[..|s| - 1]) + if s[|s| - 1] == '\r' then "" else [s[|s| - 1]]
  }

  function StatusText(info: BugInfo): string {
    LineSafe(info.status) + " " + LineSafe(info.resolution)
  }

  function TitleLine(info: BugInfo): string {
    "Bug " + IntText(info.id) + ": " + LineSafe(info.summary)
  }

  /** The header lines between the title and `---`. */
  function FieldLines(info: BugInfo): (r: seq<string>)
    ensures |r| == 11
  {
    [
      "Status:" + " " + StatusText(info),
      "Severity:" + " " + LineSafe(info.severity),
      "Creator:" + " " + LineSafe(info.creator),
      "Assigned" + " " + "To:" + " " + LineSafe(info.assignedTo),
      "Keywords:" + " " + ListText(info.keywords),
      "Whiteboard:" + " " + LineSafe(info.whiteboard),
      "Internal" + " " + "Whiteboard:" + " " + LineSafe(info.internalWhiteboard),
      "Target" + " " + "Release:" + " " + ListText(info.targetRelease),
      "Version:" + " " + ListText(info.version),
      "Component:" + " " + ListText(info.component),
      "Environment:" + LineSafe(DropCRs(info.environment))
    ]
  }

  function PrintHeader(info: BugInfo): string {
    TitleLine(info) + "\n" + PrintLines(FieldLines(info)) + "---\n"
  }

  function ToRaw(c: BugComment): RawComment {
    RawComment(IntText(c.id), TrimSpace(c.creator), TimeToRV(c.creationTime), c.text)
  }

  function MapToRaw(cs: seq<BugComment>): (r: seq<RawComment>)
    ensures |r| == |cs|
    ensures forall i :: 0 <= i < |cs| ==> r[i] == ToRaw(cs[i])
  {
    seq(|cs|, i requires 0 <= i < |cs| => ToRaw(cs[i]))
  }

  /** The file that `write` produces. */
  function PrintFile(info: BugInfo, cs: seq<BugComment>): string {
    PrintHeader(info) + PrintSection(MapToRaw(cs))
  }

  method WriteHeader(info: BugInfo) returns (out: string)
    ensures out == PrintHeader(info)
  {
    hide PrintLines;
    hide LineSafe;
    hide Join;
    var keywords := ArrayLineSafe(info.keywords, ", ");
    var targetRelease := ArrayLineSafe(info.targetRelease, ", ");
    var version := ArrayLineSafe(info.version, ", ");
    var component := ArrayLineSafe(info.component, ", ");
    var fields := [
      "Status:" + " " + StatusText(info),
      "Severity:" + " " + LineSafe(info.severity),
      "Creator:" + " " + LineSafe(info.creator),
      "Assigned" + " " + "To:" + " " + LineSafe(info.assignedTo),
      "Keywords:" + " " + keywords,
      "Whiteboard:" + " " + LineSafe(info.whiteboard),
      "Internal" + " " + "Whiteboard:" + " " + LineSafe(info.internalWhiteboard),
      "Target" + " " + "Release:" + " " + targetRelease,
      "Version:" + " " + version,
      "Component:" + " " + component,
      "Environment:" + LineSafe(DropCRs(info.environment))
    ];
    out := TitleLine(info) + "\n" + PrintLines(fields) + "---\n";
  }

  /** `write`: the header, then one comment after the other. */
  method Write(info: BugInfo, cs: seq<BugComment>) returns (out: string)
    ensures out == PrintFile(info, cs)
  {
    hide PrintHeader;
    hide PrintComment;
    hide ToRaw;
    out := WriteHeader(info);
    for i := 0 to |cs|
      invariant out == PrintHeader(info) + PrintSection(MapToRaw(cs[..i]))
    {
      out := out + PrintComment(ToRaw(cs[i]));
      PrintSnoc(MapToRaw(cs[..i]), ToRaw(cs[i]));
      assert MapToRaw(cs[..i + 1]) == MapToRaw(cs[..i]) + [ToRaw(cs[i])];
    }
    assert cs[..|cs|] == cs;
  }

  lemma {:induction false} PrintSnoc(cs: seq<RawComment>, c: RawComment)
    ensures PrintSection(cs + [c]) == PrintSection(cs) + PrintComment(c)
  {
    hide PrintComment;
    if cs == [] {
      assert [c] == [] + [c];
    } else {
      PrintSnoc(cs[1..], c);
      assert (cs + [c])[1..] == cs[1..] + [c];
    }
  }

  // ----- reading

  /** One header line: the switch of `ReadBugComments`. An empty value leaves the field as it is. */
  function ApplyLine(info: BugInfo, text: string): BugInfo {
    if HasPrefix(text, "Status: ") then
      var parts := SplitN(text, " ", 3);
      if |parts| < 2 || parts[1] == "" then info
      else
        var status := info.(status := TrimSpace(parts[1]));
        if |parts| > 2 then status.(resolution := parts[2]) else status
    else if HasPrefix(text, "Severity: ") then
      var v := LastPart(text, 2);
      if v == "" then info else info.(severity := v)
    else if HasPrefix(text, "Creator: ") then
      var v := LastPart(text, 2);
      if v == "" then info else info.(creator := v)
    else if HasPrefix(text, "Assigned To: ") then
      var v := LastPart(text, 3);
      if v == "" then info else info.(assignedTo := v)
    else if HasPrefix(text, "Keywords: ") then
      var v := LastPart(text, 2);
      if v == "" then info else info.(keywords := Split(v, ", "))
    else if HasPrefix(text, "Whiteboard: ") then
      var v := LastPart(text, 2);
      if v == "" then info else info.(whiteboard := v)
    else if HasPrefix(text, "Internal Whiteboard: ") then
      var v := LastPart(text, 3);
      if v == "" then info else info.(internalWhiteboard := v)
    else if HasPrefix(text, "Target Release: ") then
      var v := LastPart(text, 3);
      if v == "" then info else info.(targetRelease := Split(v, ", "))
    else if HasPrefix(text, "Version: ") then
      var v := LastPart(text, 2);
      if v == "" then info else info.(version := Split(v, ","))
    else if HasPrefix(text, "Component: ") then
      var v := LastPart(text, 2);
      if v == "" then info else info.(component := Split(v, ", "))
    else if HasPrefix(text, "Environment: ") then
      var v := LastPart(text, 2);
      if v == "" then info else info.(environment := v)
    else info
  }

  function FromRaw(c: RawComment): BugComment
    requires WellRead(Bugzilla, c)
  {
    var t := Time(ParseStamp(c.time).value, 0);
    BugComment(Value(c.id), false, c.author, t, t, c.text)
  }

  function MapFromRaw(cs: seq<RawComment>): (r: seq<BugComment>)
    requires forall i :: 0 <= i < |cs| ==> WellRead(Bugzilla, cs[i])
    ensures |r| == |cs|
    ensures forall i :: 0 <= i < |cs| ==> r[i] == FromRaw(cs[i])
  {
    seq(|cs|, i requires 0 <= i < |cs| => FromRaw(cs[i]))
  }

  /** `Atoi` with its error ignored: a number that does not fit becomes the largest one. */
  function AtoiCapped(s: string): (n: Int)
    requires AllDigits(s)
    ensures n == Value(s) || n == 9223372036854775807 < Value(s)
  {
    if Value(s) > MAX_INT then MAX_INT else Value(s)
  }

  function ParseFile(data: string): Result<BugComments, ReadError> {
    if data == "" then Err(FirstLine)
    else
      var line := ScanLine(data);
      var title := MatchTitle("Bug ", line.text);
      if title.None? then Err(FirstLine)
      else
        var (id, summary) := title.value;
        var header :- ReadFields(ApplyLine, line.rest, NO_INFO.(id := AtoiCapped(id), summary := summary));
        var section :- ParseSection(Bugzilla, header.1);
        Ok(SetFields(BugComments(id, header.0, MapFromRaw(section), ZERO_TIME, "")))
  }

  /** `ReadBugComments`: title, header loop, comment loop, over one scanner. */
  method ReadBugComments(data: string) returns (r: Result<BugComments, ReadError>)
    ensures r == ParseFile(data)
  {
    hide ScanLine;
    hide ApplyLine;
    hide MatchTitle;
    hide ParseSection;
    var sr := new Scanner(data);
    var ok := sr.Scan();
    if !ok {
      return Err(FirstLine);
    }
    var title := MatchTitle("Bug ", sr.text);
    if title.None? {
      return Err(FirstLine);
    }
    var (name, summary) := title.value;
    var info := NO_INFO.(id := AtoiCapped(name), summary := summary);
    ghost var header := ReadFields(ApplyLine, sr.rest, info);
    var foundSeparator := false;
    ok := sr.Scan();
    while ok && !foundSeparator
      invariant sr.phase == 0
      invariant header ==
                if foundSeparator then Ok((info, sr.rest))
                else if !ok then Err(NoSeparator)
                else if sr.text == "---" then Ok((info, sr.rest))
                else ReadFields(ApplyLine, sr.rest, ApplyLine(info, sr.text))
      decreases |sr.rest|, ok, !foundSeparator
    {
      if sr.text == "---" {
        foundSeparator := true;
      } else {
        info := ApplyLine(info, sr.text);
        ok := sr.Scan();
      }
    }
    if !foundSeparator {
      return Err(NoSeparator);
    }
    var section := ReadSection(Bugzilla, sr);
    if section.Err? {
      return Err(section.error);
    }
    var bug := SetFieldsFromBugComments(BugComments(name, info, MapFromRaw(section.value), ZERO_TIME, ""));
    return Ok(bug);
  }
}
