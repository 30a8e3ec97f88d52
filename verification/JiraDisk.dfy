/** The Jira comment file: what `write` prints and `ReadBugComments` reads. */
module JiraDisk {
  import opened Wrappers
  import opened Text
  import opened CommentSection
  import opened DiskLines

  /** The stored part of an issue. Status, resolution, priority and users may be nil in the original;
    `None` stands for it. */
  datatype Fields = Fields(
    summary: string, description: string, status: Option<string>, resolution: Option<string>,
    priority: Option<string>, creator: Option<string>, assignee: Option<string>, labels: seq<string>)

  datatype Comment = Comment(id: string, author: string, created: string, updated: string, body: string)

  datatype IssueComments = IssueComments(name: string, fields: Fields, comments: seq<Comment>)

  const NO_FIELDS := Fields("", "", None, None, None, None, None, [])
  const ANONYMOUS := "ANONYMOUS"

  /** `StatusFieldName` and its siblings: nothing for nil. */
  function NameText(name: Option<string>): (r: string)
    ensures OneLine(r)
    ensures name.None? ==> r == ""
    ensures name.Some? ==> r == LineSafe(name.value)
  {
    if name.None? then "" else LineSafe(name.value)
  }

  /** `CommentAuthor`. */
  function CommentAuthor(name: string): string {
    if name == "" then ANONYMOUS else TrimSpace(name)
  }

  // ----- printing

  function TitleLine(id: string, fields: Fields): string {
    "Issue " + id + ": " + LineSafe(fields.summary)
  }

  function FieldLines(fields: Fields, versions: seq<string>): (r: seq<string>)
    ensures |r| == 8
  {
    [
      "Description:" + " " + (LineSafe(fields.description) + " "),
      "Status:" + " " + NameText(fields.status),
      "Resolution:" + " " + NameText(fields.resolution),
      "Priority:" + " " + NameText(fields.priority),
      "Creator:" + " " + NameText(fields.creator),
      "Assigned" + " " + "To:" + " " + NameText(fields.assignee),
      "Labels:" + " " + ListText(fields.labels),
      "Target" + " " + "Version:" + " " + ListText(versions)
    ]
  }

  function PrintHeader(id: string, fields: Fields, versions: seq<string>): string {
    TitleLine(id, fields) + "\n" + PrintLines(FieldLines(fields, versions)) + "---\n"
  }

  function ToRaw(c: Comment): RawComment {
    RawComment(c.id, CommentAuthor(c.author), c.created, c.body)
  }

  function MapToRaw(cs: seq<Comment>): (r: seq<RawComment>)
    ensures |r| == |cs|
    ensures forall i :: 0 <= i < |cs| ==> r[i] == ToRaw(cs[i])
  {
    seq(|cs|, i requires 0 <= i < |cs| => ToRaw(cs[i]))
  }

  function PrintFile(id: string, fields: Fields, versions: seq<string>, cs: seq<Comment>): string {
    PrintHeader(id, fields, versions) + PrintSection(MapToRaw(cs))
  }

  /** `write`; `versions` are the target version ids, which are printed and never read. */
  method Write(id: string, fields: Fields, versions: seq<string>, cs: seq<Comment>) returns (out: string)
    ensures out == PrintFile(id, fields, versions, cs)
  {
    hide PrintLines;
    hide LineSafe;
    hide NameText;
    hide Join;
    var labels := ArrayLineSafe(fields.labels, ", ");
    var targets := ArrayLineSafe(versions, ", ");
    var lines := [
      "Description:" + " " + (LineSafe(fields.description) + " "),
      "Status:" + " " + NameText(fields.status),
      "Resolution:" + " " + NameText(fields.resolution),
      "Priority:" + " " + NameText(fields.priority),
      "Creator:" + " " + NameText(fields.creator),
      "Assigned" + " " + "To:" + " " + NameText(fields.assignee),
      "Labels:" + " " + labels,
      "Target" + " " + "Version:" + " " + targets
    ];
    var section := WriteSection(MapToRaw(cs));
    out := TitleLine(id, fields) + "\n" + PrintLines(lines) + "---\n" + section;
  }

  // ----- reading

  function ApplyLine(fields: Fields, text: string): Fields {
    if HasPrefix(text, "Description: ") then
      var v := LastPart(text, 2);
      if v == "" then fields else fields.(description := TrimSpace(v))
    else if HasPrefix(text, "Status: ") then
      var v := LastPart(text, 2);
      if v == "" then fields else fields.(status := Some(TrimSpace(v)))
    else if HasPrefix(text, "Priority: ") then
      var v := LastPart(text, 2);
      if v == "" then fields else fields.(priority := Some(v))
    else if HasPrefix(text, "Creator: ") then
      var v := LastPart(text, 2);
      if v == "" then fields else fields.(creator := Some(v))
    else if HasPrefix(text, "Assigned To: ") then
      var v := LastPart(text, 3);
      if v == "" then fields else fields.(assignee := Some(v))
    else if HasPrefix(text, "Labels: ") then
      var v := LastPart(text, 2);
      if v == "" then fields else fields.(labels := Split(v, ", "))
    else if HasPrefix(text, "Resolution: ") then
      var v := LastPart(text, 2);
      if v == "" then fields else fields.(resolution := Some(v))
    else fields
  }

  function FromRaw(c: RawComment): Comment {
    Comment(c.id, if c.author == ANONYMOUS then "" else c.author, c.time, c.time, c.text)
  }

  function MapFromRaw(cs: seq<RawComment>): (r: seq<Comment>)
    ensures |r| == |cs|
    ensures forall i :: 0 <= i < |cs| ==> r[i] == FromRaw(cs[i])
  {
    seq(|cs|, i requires 0 <= i < |cs| => FromRaw(cs[i]))
  }

  function ParseFile(data: string): Result<IssueComments, ReadError> {
    if data == "" then Err(FirstLine)
    else
      var line := ScanLine(data);
      var title := MatchTitle("Issue ", CleanLine(Jira, line.text));
      if title.None? then Err(FirstLine)
      else
        var header :- ReadFields(ApplyLine, line.rest, NO_FIELDS.(summary := title.value.1));
        var section :- ParseSection(Jira, header.1);
        Ok(IssueComments(title.value.0, header.0, MapFromRaw(section)))
  }

  method ReadBugComments(data: string) returns (r: Result<IssueComments, ReadError>)
    ensures r == ParseFile(data)
  {
    hide ScanLine;
    hide ApplyLine;
    hide MatchTitle;
    hide ParseSection;
    var sr := new Scanner(data);
    var ok := sr.Scan();
    if !ok {
      return Err(FirstLine);
    }
    var title := MatchTitle("Issue ", CleanLine(Jira, sr.text));
    if title.None? {
      return Err(FirstLine);
    }
    var (name, summary) := title.value;
    var fields := NO_FIELDS.(summary := summary);
    ghost var header := ReadFields(ApplyLine, sr.rest, fields);
    var foundSeparator := false;
    ok := sr.Scan();
    while ok && !foundSeparator
      invariant sr.phase == 0
      invariant header ==
                if foundSeparator then Ok((fields, sr.rest))
                else if !ok then Err(NoSeparator)
                else if sr.text == "---" then Ok((fields, sr.rest))
                else ReadFields(ApplyLine, sr.rest, ApplyLine(fields, sr.text))
      decreases |sr.rest|, ok, !foundSeparator
    {
      if sr.text == "---" {
        foundSeparator := true;
      } else {
        fields := ApplyLine(fields, sr.text);
        ok := sr.Scan();
      }
    }
    if !foundSeparator {
      return Err(NoSeparator);
    }
    var section := ReadSection(Jira, sr);
    if section.Err? {
      return Err(section.error);
    }
    return Ok(IssueComments(name, fields, MapFromRaw(section.value)));
  }
}
