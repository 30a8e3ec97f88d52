/** What a Jira comment file is read back as, and exactly when. */
module JiraRoundTrip {
  import opened Wrappers
  import opened Text
  import opened CommentSection
  import opened CommentRoundTrip
  import opened DiskLines
  import opened JiraDisk

  // ----- one header line

  lemma LabelStarts(text: string)
    ensures HasPrefix(text, "Description: ") ==> |text| > 1 && text[0] == 'D'
    ensures HasPrefix(text, "Status: ") ==> |text| > 1 && text[0] == 'S'
    ensures HasPrefix(text, "Priority: ") ==> |text| > 1 && text[0] == 'P'
    ensures HasPrefix(text, "Creator: ") ==> |text| > 1 && text[0] == 'C'
    ensures HasPrefix(text, "Assigned To: ") ==> |text| > 1 && text[0] == 'A'
    ensures HasPrefix(text, "Labels: ") ==> |text| > 1 && text[0] == 'L'
    ensures HasPrefix(text, "Resolution: ") ==> |text| > 1 && text[0] == 'R'
  {
  }

  lemma ReadDescription(fields: Fields, v: string)
    ensures ApplyLine(fields, "Description:" + " " + v) == if v == "" then fields
            else fields.(description := TrimSpace(v))
  {
    hide LastPart;
    hide Split;
    hide TrimSpace;
    var text := "Description:" + " " + v;
    LabelStarts(text);
    LastOfTwo("Description:", v);
    assert text[0] == 'D';
    assert text == "Description: " + v;
  }

  lemma ReadStatus(fields: Fields, v: string)
    ensures ApplyLine(fields, "Status:" + " " + v) == if v == "" then fields else fields.(status := Some(TrimSpace(v)))
  {
    hide LastPart;
    hide Split;
    hide TrimSpace;
    var text := "Status:" + " " + v;
    LabelStarts(text);
    LastOfTwo("Status:", v);
    assert text[0] == 'S';
    assert text == "Status: " + v;
  }

  lemma ReadResolution(fields: Fields, v: string)
    ensures ApplyLine(fields, "Resolution:" + " " + v) == if v == "" then fields else fields.(resolution := Some(v))
  {
    hide LastPart;
    hide Split;
    hide TrimSpace;
    var text := "Resolution:" + " " + v;
    LabelStarts(text);
    LastOfTwo("Resolution:", v);
    assert text[0] == 'R';
    assert text == "Resolution: " + v;
  }

  lemma ReadPriority(fields: Fields, v: string)
    ensures ApplyLine(fields, "Priority:" + " " + v) == if v == "" then fields else fields.(priority := Some(v))
  {
    hide LastPart;
    hide Split;
    hide TrimSpace;
    var text := "Priority:" + " " + v;
    LabelStarts(text);
    LastOfTwo("Priority:", v);
    assert text[0] == 'P';
    assert text == "Priority: " + v;
  }

  lemma ReadCreator(fields: Fields, v: string)
    ensures ApplyLine(fields, "Creator:" + " " + v) == if v == "" then fields else fields.(creator := Some(v))
  {
    hide LastPart;
    hide Split;
    hide TrimSpace;
    var text := "Creator:" + " " + v;
    LabelStarts(text);
    LastOfTwo("Creator:", v);
    assert text[0] == 'C';
    assert text == "Creator: " + v;
  }

  lemma ReadLabels(fields: Fields, v: string)
    ensures ApplyLine(fields, "Labels:" + " " + v) == if v == "" then fields else fields.(labels := Split(v, ", "))
  {
    hide LastPart;
    hide Split;
    hide TrimSpace;
    var text := "Labels:" + " " + v;
    LabelStarts(text);
    LastOfTwo("Labels:", v);
    assert text[0] == 'L';
    assert text == "Labels: " + v;
  }

  lemma ReadAssignee(fields: Fields, v: string)
    ensures ApplyLine(fields, "Assigned" + " " + "To:" + " " + v) == if v == "" then fields
            else fields.(assignee := Some(v))
  {
    hide LastPart;
    hide SplitN;
    hide Split;
    var text := "Assigned" + " " + "To:" + " " + v;
    LabelStarts(text);
    LastOfThree("Assigned", "To:", v);
    assert text[0] == 'A';
    assert text == "Assigned To: " + v;
  }

  lemma SkipTargetVersion(fields: Fields, v: string)
    ensures ApplyLine(fields, "Target" + " " + "Version:" + " " + v) == fields
  {
    hide LastPart;
    hide Split;
    var text := "Target" + " " + "Version:" + " " + v;
    LabelStarts(text);
    assert text[0] == 'T';
  }

  // ----- the whole header

  /** A named field after writing and reading: in line-safe form, and nil when that is blank. */
  function NameReadBack(name: Option<string>): Option<string> {
    if NameText(name) == "" then None else Some(NameText(name))
  }

  /** The fields after writing and reading: everything in line-safe form, the labels cut at `, `. */
  function FieldsReadBack(fields: Fields): Fields {
    Fields(
      LineSafe(fields.summary), LineSafe(fields.description), NameReadBack(fields.status),
      NameReadBack(fields.resolution), NameReadBack(fields.priority), NameReadBack(fields.creator),
      NameReadBack(fields.assignee), ReadList(ListText(fields.labels), ", "))
  }

  /** Labels without commas come back one by one. */
  lemma LabelsReadBack(fields: Fields)
    requires forall i :: 0 <= i < |fields.labels| ==> ',' !in fields.labels[i]
    ensures FieldsReadBack(fields).labels == if ListText(fields.labels) == "" then [] else MapLineSafe(fields.labels)
  {
    CommaFreeItems(fields.labels);
  }

  lemma TrimBlank(v: string)
    requires Trimmed(v)
    ensures TrimSpace(v + " ") == v && TrimSpace(v) == v
  {
    if v != "" {
      assert (v + " ")[0] == v[0];
      assert (v + " ")[..|v|] == v;
    } else {
      assert (v + " ")[1..] == "";
    }
  }

  lemma FieldsFold(fields: Fields, versions: seq<string>)
    ensures Fold(ApplyLine, NO_FIELDS.(summary := LineSafe(fields.summary)), FieldLines(fields, versions))
            == FieldsReadBack(fields)
  {
    TrimBlank(LineSafe(fields.description));
    TrimBlank(NameText(fields.status));
    hide ApplyLine;
    hide LineSafe;
    hide NameText;
    hide ListText;
    hide Split;
    hide Fold;
    hide TrimSpace;
    var lines := FieldLines(fields, versions);
    var f0 := NO_FIELDS.(summary := LineSafe(fields.summary));
    var f1 := f0.(description := LineSafe(fields.description));
    var f2 := f1.(status := NameReadBack(fields.status));
    var f3 := f2.(resolution := NameReadBack(fields.resolution));
    var f4 := f3.(priority := NameReadBack(fields.priority));
    var f5 := f4.(creator := NameReadBack(fields.creator));
    var f6 := f5.(assignee := NameReadBack(fields.assignee));
    var f7 := f6.(labels := ReadList(ListText(fields.labels), ", "));
    FoldStep(ApplyLine, f0, lines, 0);
    ReadDescription(f0, LineSafe(fields.description) + " ");
    FoldStep(ApplyLine, f1, lines, 1);
    ReadStatus(f1, NameText(fields.status));
    FoldStep(ApplyLine, f2, lines, 2);
    ReadResolution(f2, NameText(fields.resolution));
    FoldStep(ApplyLine, f3, lines, 3);
    ReadPriority(f3, NameText(fields.priority));
    FoldStep(ApplyLine, f4, lines, 4);
    ReadCreator(f4, NameText(fields.creator));
    FoldStep(ApplyLine, f5, lines, 5);
    ReadAssignee(f5, NameText(fields.assignee));
    FoldStep(ApplyLine, f6, lines, 6);
    ReadLabels(f6, ListText(fields.labels));
    FoldStep(ApplyLine, f7, lines, 7);
    SkipTargetVersion(f7, ListText(versions));
    FoldNothing(ApplyLine, f7, lines[8..]);
  }

  lemma CleanNames()
    ensures CleanEnd("Description:" + " ") && CleanEnd("Status:" + " ") && CleanEnd("Resolution:" + " ")
    ensures CleanEnd("Priority:" + " ") && CleanEnd("Creator:" + " ") && CleanEnd("Assigned" + " " + "To:" + " ")
    ensures CleanEnd("Labels:" + " ") && CleanEnd("Target" + " " + "Version:" + " ")
  {
  }

  lemma CleanValues(fields: Fields)
    ensures CleanEnd(LineSafe(fields.description) + " ") && CleanEnd(NameText(fields.status))
    ensures CleanEnd(NameText(fields.resolution)) && CleanEnd(NameText(fields.priority))
    ensures CleanEnd(NameText(fields.creator)) && CleanEnd(NameText(fields.assignee))
  {
  }

  lemma CleanFields(fields: Fields, versions: seq<string>)
    ensures forall i :: 0 <= i < 8 ==> FieldLine(FieldLines(fields, versions)[i])
  {
    CleanNames();
    CleanValues(fields);
    ListEnd(fields.labels);
    ListEnd(versions);
    hide CleanEnd;
    hide FieldLine;
    hide LineSafe;
    hide NameText;
    hide ListText;
    CleanLabel("Description:" + " ", LineSafe(fields.description) + " ");
    CleanLabel("Status:" + " ", NameText(fields.status));
    CleanLabel("Resolution:" + " ", NameText(fields.resolution));
    CleanLabel("Priority:" + " ", NameText(fields.priority));
    CleanLabel("Creator:" + " ", NameText(fields.creator));
    CleanLabel("Assigned" + " " + "To:" + " ", NameText(fields.assignee));
    CleanLabel("Labels:" + " ", ListText(fields.labels));
    CleanLabel("Target" + " " + "Version:" + " ", ListText(versions));
  }

  // ----- the title

  /** The title survives `dropSpaces`: the id is a number and the summary holds no delimiter. */
  predicate TitleGood(id: string, fields: Fields) {
    id != "" && AllDigits(id) && DELIMITER !in LineSafe(fields.summary)
  }

  lemma CleanTitle(id: string, fields: Fields)
    requires '\n' !in id
    ensures CleanEnd(TitleLine(id, fields))
  {
  }

  lemma TitleReads(id: string, fields: Fields)
    requires TitleGood(id, fields)
    ensures MatchTitle("Issue ", CleanLine(Jira, TitleLine(id, fields))) == Some((id, LineSafe(fields.summary)))
  {
    hide LineSafe;
    assert DELIMITER !in "Issue " && DELIMITER !in ": ";
    assert DELIMITER !in TitleLine(id, fields);
    TitleReadBack("Issue ", id, LineSafe(fields.summary));
  }

  lemma TitleOnlyGood(id: string, fields: Fields)
    requires MatchTitle("Issue ", CleanLine(Jira, TitleLine(id, fields))) == Some((id, LineSafe(fields.summary)))
    ensures TitleGood(id, fields)
  {
    hide LineSafe;
    var line := TitleLine(id, fields);
    assert |line| == 8 + |id| + |LineSafe(fields.summary)|;
    assert line[8 + |id|..] == LineSafe(fields.summary);
    assert DELIMITER in LineSafe(fields.summary) ==> DELIMITER in line;
  }

  // ----- comments

  /** The comment's header can be read back with its author. */
  predicate Good(c: Comment) {
    && c.id != "" && AllDigits(c.id)
    && IsStamp(Jira, c.created)
    && (c.author == "" ||
        (TrimSpace(c.author) != "" && TrimSpace(c.author) != ANONYMOUS
         && '\n' !in TrimSpace(c.author) && DELIMITER !in TrimSpace(c.author)))
  }

  /** A comment after writing and reading: the author trimmed, both times the creation time. */
  function CommentReadBackAs(c: Comment): Comment {
    Comment(c.id, TrimSpace(c.author), c.created, c.created, Escape(c.body))
  }

  function MapReadBackAs(cs: seq<Comment>): (r: seq<Comment>)
    ensures |r| == |cs|
    ensures forall i :: 0 <= i < |cs| ==> r[i] == CommentReadBackAs(cs[i])
  {
    seq(|cs|, i requires 0 <= i < |cs| => CommentReadBackAs(cs[i]))
  }

  lemma GoodIsReadable(c: Comment)
    requires Good(c)
    ensures Readable(Jira, ToRaw(c))
    ensures FromRaw(ToRaw(c).(text := Escape(c.body))) == CommentReadBackAs(c)
  {
  }

  lemma BlankAuthorUnread(c: Comment, rest: string)
    requires c.id != "" && AllDigits(c.id) && IsStamp(Jira, c.created)
    requires CommentAuthor(c.author) == ""
    ensures ReadHeader(Jira, ScanLine(PrintComment(ToRaw(c)) + rest).text).Err?
  {
    var raw := ToRaw(c);
    hide IsStamp;
    hide HeaderLine;
    hide PrintComment;
    hide ScanLine;
    hide CommentAuthor;
    StampShape(Jira, c.created);
    NotInHeaderLine(raw, '\n');
    NotInHeaderLine(raw, DELIMITER);
    PrintedLine(Jira, raw, rest);
    HeaderLineParts(raw);
    hide MatchHeader;
  }

  lemma ExpectedOnlyGood(c: Comment, rest: string, raws: seq<RawComment>)
    requires ParseSection(Jira, PrintComment(ToRaw(c)) + rest) == Ok(raws)
    requires raws != [] ==> FromRaw(raws[0]) == CommentReadBackAs(c)
    ensures Good(c)
  {
    hide ParseSection;
    hide PrintComment;
    hide ScanLine;
    hide MatchHeader;
    hide IsStamp;
    var raw := ToRaw(c);
    FirstComment(Jira, raw, rest, raws);
    if raws[0].author == raw.author {
      ReadOnlyReadable(Jira, raw, rest, raws);
    } else if CommentAuthor(c.author) == "" {
      BlankAuthorUnread(c, rest);
    }
  }

  lemma TypedTail(c: Comment, rest: string, raws: seq<RawComment>)
    requires ParseSection(Jira, PrintComment(ToRaw(c)) + rest) == Ok(raws)
    requires raws != [] ==> FromRaw(raws[0]) == CommentReadBackAs(c)
    ensures raws != [] && Good(c)
    ensures ParseSection(Jira, rest) == Ok(raws[1..])
  {
    hide ParseSection;
    hide PrintComment;
    hide Readable;
    ExpectedOnlyGood(c, rest, raws);
    GoodIsReadable(c);
    CommentReadBack(Jira, ToRaw(c), rest);
    AppendTail([ToRaw(c).(text := Escape(c.body))], ParseSection(Jira, rest), raws);
  }

  lemma {:induction false} OnlyGoodSectionReads(cs: seq<Comment>, raws: seq<RawComment>)
    requires ParseSection(Jira, PrintSection(MapToRaw(cs))) == Ok(raws)
    requires MapFromRaw(raws) == MapReadBackAs(cs)
    ensures forall i :: 0 <= i < |cs| ==> Good(cs[i])
  {
    hide ParseSection;
    hide PrintComment;
    hide ToRaw;
    hide FromRaw;
    hide CommentReadBackAs;
    hide Good;
    if cs != [] {
      assert MapToRaw(cs)[1..] == MapToRaw(cs[1..]);
      assert MapFromRaw(raws)[0] == MapReadBackAs(cs)[0];
      TypedTail(cs[0], PrintSection(MapToRaw(cs[1..])), raws);
      assert MapFromRaw(raws[1..]) == MapFromRaw(raws)[1..];
      assert MapReadBackAs(cs[1..]) == MapReadBackAs(cs)[1..];
      OnlyGoodSectionReads(cs[1..], raws[1..]);
      forall i | 1 <= i < |cs|
        ensures Good(cs[i])
      {
        assert cs[i] == cs[1..][i - 1];
      }
    }
  }

  lemma RawTexts(cs: seq<Comment>)
    ensures forall i :: 0 <= i < |cs| ==> Escaped(MapToRaw(cs))[i] == ToRaw(cs[i]).(text := Escape(cs[i].body))
  {
  }

  lemma GoodSectionReads(cs: seq<Comment>)
    requires forall i :: 0 <= i < |cs| ==> Good(cs[i])
    ensures ParseSection(Jira, PrintSection(MapToRaw(cs))).Ok?
    ensures MapFromRaw(ParseSection(Jira, PrintSection(MapToRaw(cs))).value) == MapReadBackAs(cs)
  {
    RawTexts(cs);
    hide ParseSection;
    hide Readable;
    hide ToRaw;
    hide FromRaw;
    hide CommentReadBackAs;
    hide Good;
    forall i | 0 <= i < |cs|
      ensures Readable(Jira, MapToRaw(cs)[i])
      ensures FromRaw(ToRaw(cs[i]).(text := Escape(cs[i].body))) == CommentReadBackAs(cs[i])
    {
      GoodIsReadable(cs[i]);
    }
    SectionReadBack(Jira, MapToRaw(cs));
  }

  // ----- the whole file

  function FileReadBack(id: string, fields: Fields, cs: seq<Comment>): IssueComments {
    IssueComments(id, FieldsReadBack(fields), MapReadBackAs(cs))
  }

  /** Past the title line, the file reads as its fields and its section. */
  lemma ParseAfterTitle(id: string, fields: Fields, versions: seq<string>, rest: string)
    requires TitleGood(id, fields)
    ensures ParseFile(PrintHeader(id, fields, versions) + rest) ==
            var section := ParseSection(Jira, rest);
            if section.Err? then Err(section.error)
            else Ok(IssueComments(id, FieldsReadBack(fields), MapFromRaw(section.value)))
  {
    hide ApplyLine;
    hide FieldLines;
    hide FieldsReadBack;
    hide LineSafe;
    hide ReadFields;
    hide ScanLine;
    hide MatchTitle;
    hide PrintLines;
    hide Fold;
    hide ParseSection;
    hide CleanLine;
    var tail := PrintLines(FieldLines(fields, versions)) + "---\n" + rest;
    assert PrintHeader(id, fields, versions) + rest == TitleLine(id, fields) + "\n" + tail;
    CleanTitle(id, fields);
    LineSplit(TitleLine(id, fields), tail);
    TitleReads(id, fields);
    CleanFields(fields, versions);
    LinesReadBack(ApplyLine, NO_FIELDS.(summary := LineSafe(fields.summary)), FieldLines(fields, versions),
        rest);
    FieldsFold(fields, versions);
  }

  lemma NameOnlyDigits(data: string)
    requires ParseFile(data).Ok?
    ensures data != "" && MatchTitle("Issue ", CleanLine(Jira, ScanLine(data).text)).Some?
    ensures ParseFile(data).value.name == MatchTitle("Issue ", CleanLine(Jira, ScanLine(data).text)).value.0
    ensures ParseFile(data).value.name != "" && AllDigits(ParseFile(data).value.name)
    ensures ReadFields(ApplyLine, ScanLine(data).rest,
            NO_FIELDS.(summary := MatchTitle("Issue ", CleanLine(Jira, ScanLine(data).text)).value.1)).Ok?
    ensures ParseFile(data).value.fields ==
            ReadFields(ApplyLine, ScanLine(data).rest,
                NO_FIELDS.(summary := MatchTitle("Issue ", CleanLine(Jira, ScanLine(data).text)).value.1)).value.0
  {
    hide ScanLine;
    hide MatchTitle;
    hide ParseSection;
    hide ReadFields;
    hide ApplyLine;
    hide CleanLine;
  }

  lemma LineKeepsSummary(fields: Fields, line: string)
    ensures ApplyLine(fields, line).summary == fields.summary
  {
    hide LastPart;
    hide Split;
    hide TrimSpace;
    hide HasPrefix;
  }

  /** The header lines never touch the summary. */
  lemma {:induction false} SummaryStays(data: string, fields: Fields)
    requires ReadFields(ApplyLine, data, fields).Ok?
    ensures ReadFields(ApplyLine, data, fields).value.0.summary == fields.summary
    decreases |data|
  {
    hide ApplyLine;
    hide ScanLine;
    if ScanLine(data).text != "---" {
      LineKeepsSummary(fields, ScanLine(data).text);
      SummaryStays(ScanLine(data).rest, ApplyLine(fields, ScanLine(data).text));
    }
  }

  lemma ReadOnlyGoodTitle(id: string, fields: Fields, versions: seq<string>, rest: string)
    requires var data := PrintHeader(id, fields, versions) + rest;
             && ParseFile(data).Ok?
             && ParseFile(data).value.name == id && ParseFile(data).value.fields.summary == LineSafe(fields.summary)
    ensures TitleGood(id, fields)
  {
    hide ParseFile;
    hide ReadFields;
    hide LineSafe;
    hide ScanLine;
    hide MatchTitle;
    hide PrintLines;
    hide FieldLines;
    hide CleanLine;
    hide ApplyLine;
    var data := PrintHeader(id, fields, versions) + rest;
    NameOnlyDigits(data);
    var title := MatchTitle("Issue ", CleanLine(Jira, ScanLine(data).text)).value;
    SummaryStays(ScanLine(data).rest, NO_FIELDS.(summary := title.1));
    var tail := PrintLines(FieldLines(fields, versions)) + "---\n" + rest;
    assert data == TitleLine(id, fields) + "\n" + tail;
    CleanTitle(id, fields);
    LineSplit(TitleLine(id, fields), tail);
    TitleOnlyGood(id, fields);
  }

  /** A written file is read back as the fields in line-safe form and every comment in order, an empty
    author included, if and only if the id is a number, the summary holds no delimiter, and every comment
    has a numeric id, a Jira timestamp, and an author that is empty or non-blank, on one line, without the
    delimiter and not the word that stands for an empty one. Texts are arbitrary. */
  lemma FileRoundTrip(id: string, fields: Fields, versions: seq<string>, cs: seq<Comment>)
    ensures ParseFile(PrintFile(id, fields, versions, cs)) == Ok(FileReadBack(id, fields, cs)) <==>
            TitleGood(id, fields) && forall i :: 0 <= i < |cs| ==> Good(cs[i])
  {
    hide PrintHeader;
    hide ParseSection;
    hide ParseFile;
    hide Good;
    hide TitleGood;
    hide PrintSection;
    var rest := PrintSection(MapToRaw(cs));
    if ParseFile(PrintFile(id, fields, versions, cs)) == Ok(FileReadBack(id, fields, cs)) {
      ReadOnlyGoodTitle(id, fields, versions, rest);
    }
    if TitleGood(id, fields) {
      ParseAfterTitle(id, fields, versions, rest);
      if forall i :: 0 <= i < |cs| ==> Good(cs[i]) {
        GoodSectionReads(cs);
      } else if ParseFile(PrintFile(id, fields, versions, cs)) == Ok(FileReadBack(id, fields, cs)) {
        OnlyGoodSectionReads(cs, ParseSection(Jira, rest).value);
      }
    }
  }
}
