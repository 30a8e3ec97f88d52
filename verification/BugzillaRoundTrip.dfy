/** What a Bugzilla comment file is read back as, and when writing it again gives the same bytes. */
module BugzillaRoundTrip {
  import opened Wrappers
  import opened Text
  import opened Calendar
  import opened CommentSection
  import opened CommentRoundTrip
  import opened DiskLines
  import opened BugzillaDisk

  // ----- one header line

  /** The header labels differ in their first two characters. */
  lemma LabelStarts(text: string)
    ensures HasPrefix(text, "Status: ") ==> |text| > 1 && text[0] == 'S' && text[1] == 't'
    ensures HasPrefix(text, "Severity: ") ==> |text| > 1 && text[0] == 'S' && text[1] == 'e'
    ensures HasPrefix(text, "Creator: ") ==> |text| > 1 && text[0] == 'C' && text[1] == 'r'
    ensures HasPrefix(text, "Assigned To: ") ==> |text| > 1 && text[0] == 'A'
    ensures HasPrefix(text, "Keywords: ") ==> |text| > 1 && text[0] == 'K'
    ensures HasPrefix(text, "Whiteboard: ") ==> |text| > 1 && text[0] == 'W'
    ensures HasPrefix(text, "Internal Whiteboard: ") ==> |text| > 1 && text[0] == 'I'
    ensures HasPrefix(text, "Target Release: ") ==> |text| > 1 && text[0] == 'T'
    ensures HasPrefix(text, "Version: ") ==> |text| > 1 && text[0] == 'V'
    ensures HasPrefix(text, "Component: ") ==> |text| > 1 && text[0] == 'C' && text[1] == 'o'
    ensures HasPrefix(text, "Environment: ") ==> |text| > 12 && text[0] == 'E' && text[12] == ' '
  {
  }

  lemma ReadSeverity(info: BugInfo, v: string)
    ensures ApplyLine(info, "Severity:" + " " + v) == if v == "" then info else info.(severity := v)
  {
    hide LastPart;
    hide Split;
    var text := "Severity:" + " " + v;
    LabelStarts(text);
    LastOfTwo("Severity:", v);
    assert text[0] == 'S' && text[1] == 'e';
    assert text == "Severity: " + v;
  }

  lemma ReadCreator(info: BugInfo, v: string)
    ensures ApplyLine(info, "Creator:" + " " + v) == if v == "" then info else info.(creator := v)
  {
    hide LastPart;
    hide Split;
    var text := "Creator:" + " " + v;
    LabelStarts(text);
    LastOfTwo("Creator:", v);
    assert text[0] == 'C' && text[1] == 'r';
    assert text == "Creator: " + v;
  }

  lemma ReadKeywords(info: BugInfo, v: string)
    ensures ApplyLine(info, "Keywords:" + " " + v) == if v == "" then info else info.(keywords := Split(v, ", "))
  {
    hide LastPart;
    hide Split;
    var text := "Keywords:" + " " + v;
    LabelStarts(text);
    LastOfTwo("Keywords:", v);
    assert text[0] == 'K';
    assert text == "Keywords: " + v;
  }

  lemma ReadWhiteboard(info: BugInfo, v: string)
    ensures ApplyLine(info, "Whiteboard:" + " " + v) == if v == "" then info else info.(whiteboard := v)
  {
    hide LastPart;
    hide Split;
    var text := "Whiteboard:" + " " + v;
    LabelStarts(text);
    LastOfTwo("Whiteboard:", v);
    assert text[0] == 'W';
    assert text == "Whiteboard: " + v;
  }

  lemma ReadVersion(info: BugInfo, v: string)
    ensures ApplyLine(info, "Version:" + " " + v) == if v == "" then info else info.(version := Split(v, ","))
  {
    hide LastPart;
    hide Split;
    var text := "Version:" + " " + v;
    LabelStarts(text);
    LastOfTwo("Version:", v);
    assert text[0] == 'V';
    assert text == "Version: " + v;
  }

  lemma ReadComponent(info: BugInfo, v: string)
    ensures ApplyLine(info, "Component:" + " " + v) == if v == "" then info else info.(component := Split(v, ", "))
  {
    hide LastPart;
    hide Split;
    var text := "Component:" + " " + v;
    LabelStarts(text);
    LastOfTwo("Component:", v);
    assert text[0] == 'C' && text[1] == 'o';
    assert text == "Component: " + v;
  }

  lemma ReadAssignedTo(info: BugInfo, v: string)
    ensures ApplyLine(info, "Assigned" + " " + "To:" + " " + v) == if v == "" then info else info.(assignedTo := v)
  {
    hide LastPart;
    hide SplitN;
    hide Split;
    var text := "Assigned" + " " + "To:" + " " + v;
    LabelStarts(text);
    LastOfThree("Assigned", "To:", v);
    assert text[0] == 'A';
    assert text == "Assigned To: " + v;
  }

  lemma ReadInternalWhiteboard(info: BugInfo, v: string)
    ensures ApplyLine(info, "Internal" + " " + "Whiteboard:" + " " + v) == if v == "" then info
            else info.(internalWhiteboard := v)
  {
    hide LastPart;
    hide SplitN;
    hide Split;
    var text := "Internal" + " " + "Whiteboard:" + " " + v;
    LabelStarts(text);
    LastOfThree("Internal", "Whiteboard:", v);
    assert text[0] == 'I';
    assert text == "Internal Whiteboard: " + v;
  }

  lemma ReadTargetRelease(info: BugInfo, v: string)
    ensures ApplyLine(info, "Target" + " " + "Release:" + " " + v) == if v == "" then info
            else info.(targetRelease := Split(v, ", "))
  {
    hide LastPart;
    hide SplitN;
    hide Split;
    var text := "Target" + " " + "Release:" + " " + v;
    LabelStarts(text);
    LastOfThree("Target", "Release:", v);
    assert text[0] == 'T';
    assert text == "Target Release: " + v;
  }

  /** The environment is printed without the blank that the reader looks for, so it is never read. */
  lemma SkipEnvironment(info: BugInfo, v: string)
    requires OneLine(v)
    ensures ApplyLine(info, "Environment:" + v) == info
  {
    hide LastPart;
    hide SplitN;
    hide Split;
    var text := "Environment:" + v;
    LabelStarts(text);
    assert text[0] == 'E';
    if v != "" {
      assert text[12] == v[0];
    }
  }

  /** Where the reader cuts `STATUS RESOLUTION`: at the first blank of the printed text. */
  function StatusReadBack(status: string, resolution: string): (string, string) {
    var text := status + " " + resolution;
    var i := Index(text, " ");
    if i <= 0 then ("", "") else (TrimSpace(text[..i]), text[i + 1..])
  }

  lemma BlankInside(status: string, resolution: string)
    ensures var text := status + " " + resolution;
            0 <= Index(text, " ") < |text| && ' ' !in text[..Index(text, " ")]
  {
    var text := status + " " + resolution;
    assert text[|status|..|status| + 1] == " ";
    assert At(text, " ", |status|);
    var i := Index(text, " ");
    forall j | 0 <= j < i
      ensures text[j] != ' '
    {
      assert text[j..j + 1] == [text[j]];
      assert !At(text, " ", j);
    }
  }

  lemma ReadStatusParts(info: BugInfo, a: string, b: string)
    requires ' ' !in a
    ensures ApplyLine(info, "Status:" + " " + a + " " + b) ==
            if a == "" then info else info.(status := TrimSpace(a), resolution := b)
  {
    hide SplitN;
    hide TrimSpace;
    var text := "Status:" + " " + a + " " + b;
    LabelStarts(text);
    LastOfThree("Status:", a, b);
    assert text == "Status: " + (a + " " + b);
  }

  lemma ReadStatus(info: BugInfo, status: string, resolution: string)
    requires info.status == "" && info.resolution == ""
    ensures var (s, r) := StatusReadBack(status, resolution);
            ApplyLine(info, "Status:" + " " + (status + " " + resolution)) == info.(status := s, resolution := r)
  {
    hide ApplyLine;
    hide TrimSpace;
    var x := status + " " + resolution;
    BlankInside(status, resolution);
    var i := Index(x, " ");
    assert x[i..i + 1] == " ";
    assert x == x[..i] + " " + x[i + 1..];
    assert "Status:" + " " + x == "Status:" + " " + x[..i] + " " + x[i + 1..];
    ReadStatusParts(info, x[..i], x[i + 1..]);
  }

  // ----- the whole header

  /** The header fields after writing and reading. */
  function HeaderReadBack(info: BugInfo): BugInfo {
    var (status, resolution) := StatusReadBack(LineSafe(info.status), LineSafe(info.resolution));
    BugInfo(
      info.id, status, resolution, LineSafe(info.severity), LineSafe(info.summary),
      ReadList(ListText(info.keywords), ", "), LineSafe(info.whiteboard), LineSafe(info.internalWhiteboard),
      LineSafe(info.creator), ReadList(ListText(info.component), ", "), LineSafe(info.assignedTo), "",
      ReadList(ListText(info.targetRelease), ", "), ReadList(ListText(info.version), ","))
  }

  /** The record after the first five header lines. */
  function FirstFive(info: BugInfo): BugInfo {
    var (status, resolution) := StatusReadBack(LineSafe(info.status), LineSafe(info.resolution));
    NO_INFO.(id := info.id, summary := LineSafe(info.summary), status := status, resolution := resolution,
             severity := LineSafe(info.severity), creator := LineSafe(info.creator),
             assignedTo := LineSafe(info.assignedTo), keywords := ReadList(ListText(info.keywords), ", "))
  }

  lemma FirstLines(info: BugInfo)
    ensures Fold(ApplyLine, NO_INFO.(id := info.id, summary := LineSafe(info.summary)), FieldLines(info))
            == Fold(ApplyLine, FirstFive(info), FieldLines(info)[5..])
  {
    hide ApplyLine;
    hide LineSafe;
    hide ListText;
    hide Split;
    hide Fold;
    hide StatusReadBack;
    var lines := FieldLines(info);
    var (status, resolution) := StatusReadBack(LineSafe(info.status), LineSafe(info.resolution));
    var i0 := NO_INFO.(id := info.id, summary := LineSafe(info.summary));
    var i1 := i0.(status := status, resolution := resolution);
    var i2 := i1.(severity := LineSafe(info.severity));
    var i3 := i2.(creator := LineSafe(info.creator));
    var i4 := i3.(assignedTo := LineSafe(info.assignedTo));
    assert lines[0..] == lines;
    FoldStep(ApplyLine, i0, lines, 0);
    ReadStatusLine(i0, info);
    FoldStep(ApplyLine, i1, lines, 1);
    ReadSeverity(i1, LineSafe(info.severity));
    FoldStep(ApplyLine, i2, lines, 2);
    ReadCreator(i2, LineSafe(info.creator));
    FoldStep(ApplyLine, i3, lines, 3);
    ReadAssignedTo(i3, LineSafe(info.assignedTo));
    FoldStep(ApplyLine, i4, lines, 4);
    ReadKeywords(i4, ListText(info.keywords));
  }

  /** The record after the next three. */
  function FirstEight(info: BugInfo): BugInfo {
    FirstFive(info).(whiteboard := LineSafe(info.whiteboard), internalWhiteboard := LineSafe(info.internalWhiteboard),
                     targetRelease := ReadList(ListText(info.targetRelease), ", "))
  }

  lemma MiddleLines(info: BugInfo)
    ensures Fold(ApplyLine, FirstFive(info), FieldLines(info)[5..]) ==
            Fold(ApplyLine, FirstEight(info), FieldLines(info)[8..])
  {
    hide ApplyLine;
    hide LineSafe;
    hide ListText;
    hide Split;
    hide Fold;
    hide StatusReadBack;
    var lines := FieldLines(info);
    var i5 := FirstFive(info);
    var i6 := i5.(whiteboard := LineSafe(info.whiteboard));
    var i7 := i6.(internalWhiteboard := LineSafe(info.internalWhiteboard));
    FoldStep(ApplyLine, i5, lines, 5);
    ReadWhiteboard(i5, LineSafe(info.whiteboard));
    FoldStep(ApplyLine, i6, lines, 6);
    ReadInternalWhiteboard(i6, LineSafe(info.internalWhiteboard));
    FoldStep(ApplyLine, i7, lines, 7);
    ReadTargetRelease(i7, ListText(info.targetRelease));
  }

  lemma LastLines(info: BugInfo)
    ensures Fold(ApplyLine, FirstFive(info), FieldLines(info)[5..]) == HeaderReadBack(info)
  {
    hide ApplyLine;
    hide LineSafe;
    hide ListText;
    hide Split;
    hide Fold;
    hide StatusReadBack;
    MiddleLines(info);
    var lines := FieldLines(info);
    var i8 := FirstEight(info);
    var i9 := i8.(version := ReadList(ListText(info.version), ","));
    var i10 := i9.(component := ReadList(ListText(info.component), ", "));
    FoldStep(ApplyLine, i8, lines, 8);
    ReadVersion(i8, ListText(info.version));
    FoldStep(ApplyLine, i9, lines, 9);
    ReadComponent(i9, ListText(info.component));
    FoldStep(ApplyLine, i10, lines, 10);
    SkipEnvironment(i10, LineSafe(DropCRs(info.environment)));
    FoldNothing(ApplyLine, i10, lines[11..]);
  }

  /** Every header field except the environment is read back. */
  lemma FieldsFold(info: BugInfo)
    ensures Fold(ApplyLine, NO_INFO.(id := info.id, summary := LineSafe(info.summary)), FieldLines(info))
            == HeaderReadBack(info)
  {
    FirstLines(info);
    LastLines(info);
  }

  lemma ReadStatusLine(i0: BugInfo, info: BugInfo)
    requires i0.status == "" && i0.resolution == ""
    ensures var (status, resolution) := StatusReadBack(LineSafe(info.status), LineSafe(info.resolution));
            ApplyLine(i0, "Status:" + " " + StatusText(info)) == i0.(status := status, resolution := resolution)
  {
    hide ApplyLine;
    ReadStatus(i0, LineSafe(info.status), LineSafe(info.resolution));
  }

  // ----- the lines are delivered as printed

  lemma CleanSafe(s: string)
    ensures CleanEnd(LineSafe(s))
  {
  }

  lemma CleanStatus(info: BugInfo)
    ensures CleanEnd(StatusText(info))
  {
  }

  lemma CleanNames()
    ensures CleanEnd("Status:" + " ") && CleanEnd("Severity:" + " ") && CleanEnd("Creator:" + " ")
    ensures CleanEnd("Assigned" + " " + "To:" + " ") && CleanEnd("Keywords:" + " ") && CleanEnd("Whiteboard:" + " ")
    ensures CleanEnd("Internal" + " " + "Whiteboard:" + " ") && CleanEnd("Target" + " " + "Release:" + " ")
    ensures CleanEnd("Version:" + " ") && CleanEnd("Component:" + " ") && CleanEnd("Environment:")
  {
  }

  lemma CleanFields(info: BugInfo)
    ensures forall i :: 0 <= i < |FieldLines(info)| ==> FieldLine(FieldLines(info)[i])
  {
    CleanNames();
    hide CleanEnd;
    hide FieldLine;
    hide StatusText;
    CleanStatus(info);
    CleanSafe(info.severity);
    CleanSafe(info.creator);
    CleanSafe(info.assignedTo);
    CleanSafe(info.whiteboard);
    CleanSafe(info.internalWhiteboard);
    CleanSafe(DropCRs(info.environment));
    hide LineSafe;
    hide ListText;
    ListEnd(info.keywords);
    ListEnd(info.targetRelease);
    ListEnd(info.version);
    ListEnd(info.component);
    CleanLabel("Severity:" + " ", LineSafe(info.severity));
    CleanLabel("Creator:" + " ", LineSafe(info.creator));
    CleanLabel("Assigned" + " " + "To:" + " ", LineSafe(info.assignedTo));
    CleanLabel("Keywords:" + " ", ListText(info.keywords));
    CleanLabel("Whiteboard:" + " ", LineSafe(info.whiteboard));
    CleanLabel("Internal" + " " + "Whiteboard:" + " ", LineSafe(info.internalWhiteboard));
    CleanLabel("Target" + " " + "Release:" + " ", ListText(info.targetRelease));
    CleanLabel("Version:" + " ", ListText(info.version));
    CleanLabel("Component:" + " ", ListText(info.component));
    CleanLabel("Environment:", LineSafe(DropCRs(info.environment)));
    CleanLabel("Status:" + " ", StatusText(info));
  }

  lemma CleanTitle(info: BugInfo)
    ensures CleanEnd(TitleLine(info))
  {
    assert forall c :: c in IntText(info.id) ==> c == '-' || IsDigit(c);
    assert CleanEnd(LineSafe(info.summary));
  }

  /** A printed header is read back, and the comment section is left to read. */
  lemma HeaderReads(info: BugInfo, rest: string)
    requires info.id >= 0
    ensures var line := ScanLine(PrintHeader(info) + rest);
            && PrintHeader(info) + rest != ""
            && MatchTitle("Bug ", line.text) == Some((Itoa(info.id), LineSafe(info.summary)))
            && ReadFields(ApplyLine, line.rest, NO_INFO.(id := info.id, summary := LineSafe(info.summary)))
               == Ok((HeaderReadBack(info), rest))
  {
    hide ApplyLine;
    hide FieldLines;
    hide HeaderReadBack;
    hide LineSafe;
    hide ReadFields;
    hide ScanLine;
    hide MatchTitle;
    hide PrintLines;
    hide Fold;
    hide Itoa;
    var tail := PrintLines(FieldLines(info)) + "---\n" + rest;
    assert PrintHeader(info) + rest == TitleLine(info) + "\n" + tail;
    CleanTitle(info);
    LineSplit(TitleLine(info), tail);
    TitleReadBack("Bug ", Itoa(info.id), LineSafe(info.summary));
    CleanFields(info);
    LinesReadBack(ApplyLine, NO_INFO.(id := info.id, summary := LineSafe(info.summary)), FieldLines(info), rest);
    FieldsFold(info);
  }

  // ----- comments

  /** The comment's header can be read back. */
  predicate Good(c: BugComment) {
    && c.id >= 0
    && TrimSpace(c.creator) != "" && '\n' !in TrimSpace(c.creator)
    && c.creationTime != ZERO_TIME
  }

  /** A comment after writing and reading: the author trimmed, the time to the second, the text escaped. */
  function CommentReadBackAs(c: BugComment): BugComment {
    var t := Time(c.creationTime.sec, 0);
    BugComment(c.id, false, TrimSpace(c.creator), t, t, Escape(c.text))
  }

  function MapReadBackAs(cs: seq<BugComment>): (r: seq<BugComment>)
    ensures |r| == |cs|
    ensures forall i :: 0 <= i < |cs| ==> r[i] == CommentReadBackAs(cs[i])
  {
    seq(|cs|, i requires 0 <= i < |cs| => CommentReadBackAs(cs[i]))
  }

  lemma GoodIsReadable(c: BugComment)
    requires Good(c)
    ensures Readable(Bugzilla, ToRaw(c))
    ensures WellRead(Bugzilla, ToRaw(c).(text := Escape(c.text)))
    ensures FromRaw(ToRaw(c).(text := Escape(c.text))) == CommentReadBackAs(c)
  {
    StampForm(c.creationTime.sec);
    StampRoundTrip(c.creationTime.sec);
  }

  lemma NegativeIdUnread(c: BugComment)
    requires c.id < 0
    ensures MatchHeader(Bugzilla, HeaderLine(ToRaw(c))).None?
  {
    var raw := ToRaw(c);
    var line := HeaderLine(raw);
    HeaderLineParts(raw);
    assert line[8..][0] == '-';
    assert DigitRun(line[8..]) == 0;
  }

  lemma HeaderLengths(c: BugComment, h: Header)
    requires c.id >= 0
    requires MatchHeader(Bugzilla, HeaderLine(ToRaw(c))) == Some(h)
    requires h.author == TrimSpace(c.creator)
    ensures |TimeToRV(c.creationTime)| == 20
  {
    hide MatchHeader;
    hide TimeToRV;
    hide HeaderLine;
    var raw := ToRaw(c);
    HeaderLineParts(raw);
    DigitRunIs(raw.id, " by " + raw.author + " at " + raw.time);
  }

  lemma HeaderOfBug(c: BugComment, h: Header)
    requires ReadHeader(Bugzilla, HeaderLine(ToRaw(c))) == Ok(h)
    requires h.author == TrimSpace(c.creator)
    ensures Good(c)
  {
    hide MatchHeader;
    hide HeaderLine;
    hide ParseStamp;
    hide FormatStamp;
    if c.id < 0 {
      NegativeIdUnread(c);
    } else {
      HeaderLengths(c, h);
    }
  }

  lemma NoBreaks(c: BugComment)
    ensures var raw := ToRaw(c);
            '\n' !in raw.time && '\n' !in raw.id && (raw.time == "" || raw.time[|raw.time| - 1] != '\r')
  {
    var raw := ToRaw(c);
    StampForm(c.creationTime.sec);
    if raw.time != "" {
      StampShape(Bugzilla, raw.time);
    }
    assert forall x :: x in raw.id ==> x == '-' || IsDigit(x);
  }

  /** The first comment comes back as expected only if its header was good. */
  lemma ExpectedOnlyGood(c: BugComment, rest: string, cs: seq<RawComment>)
    requires ParseSection(Bugzilla, PrintComment(ToRaw(c)) + rest) == Ok(cs)
    requires cs != [] ==> WellRead(Bugzilla, cs[0]) && FromRaw(cs[0]) == CommentReadBackAs(c)
    ensures Good(c)
  {
    hide ParseSection;
    hide PrintComment;
    hide HeaderLine;
    hide ScanLine;
    hide MatchHeader;
    hide ParseStamp;
    hide Value;
    hide TimeToRV;
    hide IntText;
    hide TrimSpace;
    var raw := ToRaw(c);
    FirstComment(Bugzilla, raw, rest, cs);
    var h := ReadHeader(Bugzilla, ScanLine(PrintComment(raw) + rest).text).value;
    assert h.author == TrimSpace(c.creator);
    NoBreaks(c);
    NotInHeaderLine(raw, '\n');
    PrintedLine(Bugzilla, raw, rest);
    HeaderOfBug(c, h);
  }

  lemma {:induction false} GoodSectionReads(cs: seq<BugComment>)
    requires forall i :: 0 <= i < |cs| ==> Good(cs[i])
    ensures ParseSection(Bugzilla, PrintSection(MapToRaw(cs))).Ok?
    ensures MapFromRaw(ParseSection(Bugzilla, PrintSection(MapToRaw(cs))).value) == MapReadBackAs(cs)
  {
    hide ParseSection;
    hide Readable;
    hide ToRaw;
    hide FromRaw;
    hide CommentReadBackAs;
    hide Good;
    forall i | 0 <= i < |cs|
      ensures Readable(Bugzilla, MapToRaw(cs)[i])
      ensures WellRead(Bugzilla, ToRaw(cs[i]).(text := Escape(cs[i].text)))
      ensures FromRaw(ToRaw(cs[i]).(text := Escape(cs[i].text))) == CommentReadBackAs(cs[i])
    {
      GoodIsReadable(cs[i]);
    }
    SectionReadBack(Bugzilla, MapToRaw(cs));
    RawTexts(cs);
  }

  lemma RawTexts(cs: seq<BugComment>)
    ensures forall i :: 0 <= i < |cs| ==> Escaped(MapToRaw(cs))[i] == ToRaw(cs[i]).(text := Escape(cs[i].text))
  {
  }

  lemma TypedTail(c: BugComment, rest: string, raws: seq<RawComment>)
    requires ParseSection(Bugzilla, PrintComment(ToRaw(c)) + rest) == Ok(raws)
    requires raws != [] ==> FromRaw(raws[0]) == CommentReadBackAs(c)
    ensures raws != [] && Good(c)
    ensures ParseSection(Bugzilla, rest) == Ok(raws[1..])
  {
    hide ParseSection;
    hide PrintComment;
    hide Readable;
    ExpectedOnlyGood(c, rest, raws);
    GoodIsReadable(c);
    CommentReadBack(Bugzilla, ToRaw(c), rest);
    AppendTail([ToRaw(c).(text := Escape(c.text))], ParseSection(Bugzilla, rest), raws);
  }

  lemma {:induction false} OnlyGoodSectionReads(cs: seq<BugComment>, raws: seq<RawComment>)
    requires ParseSection(Bugzilla, PrintSection(MapToRaw(cs))) == Ok(raws)
    requires MapFromRaw(raws) == MapReadBackAs(cs)
    ensures forall i :: 0 <= i < |cs| ==> Good(cs[i])
  {
    hide ParseSection;
    hide PrintComment;
    hide ToRaw;
    hide FromRaw;
    hide CommentReadBackAs;
    hide Good;
    if cs != [] {
      assert MapToRaw(cs)[1..] == MapToRaw(cs[1..]);
      assert MapFromRaw(raws)[0] == MapReadBackAs(cs)[0];
      TypedTail(cs[0], PrintSection(MapToRaw(cs[1..])), raws);
      assert MapFromRaw(raws[1..]) == MapFromRaw(raws)[1..];
      assert MapReadBackAs(cs[1..]) == MapReadBackAs(cs)[1..];
      OnlyGoodSectionReads(cs[1..], raws[1..]);
      forall i | 1 <= i < |cs|
        ensures Good(cs[i])
      {
        assert cs[i] == cs[1..][i - 1];
      }
    }
  }

  // ----- the whole file

  /** The record after writing and reading. */
  function FileReadBack(info: BugInfo, cs: seq<BugComment>): BugComments
    requires info.id >= 0
  {
    SetFields(BugComments(Itoa(info.id), HeaderReadBack(info), MapReadBackAs(cs), ZERO_TIME, ""))
  }

  lemma NegativeTitle(info: BugInfo)
    requires info.id < 0
    ensures MatchTitle("Bug ", TitleLine(info)).None?
  {
    hide LineSafe;
    assert TitleLine(info)[4..][0] == '-';
    assert DigitRun(TitleLine(info)[4..]) == 0;
  }

  lemma TitleFirst(info: BugInfo, rest: string)
    ensures PrintHeader(info) + rest == TitleLine(info) + "\n" + (PrintLines(FieldLines(info)) + "---\n" + rest)
  {
    hide FieldLines;
    hide PrintLines;
    hide TitleLine;
  }

  lemma NegativeTitleUnread(info: BugInfo, rest: string)
    requires info.id < 0
    ensures ParseFile(PrintHeader(info) + rest) == Err(FirstLine)
  {
    hide *;
    TitleFirst(info, rest);
    NegativeTitle(info);
    CleanTitle(info);
    TitleClean(info);
    LineSplit(TitleLine(info), PrintLines(FieldLines(info)) + "---\n" + rest);
    NoTitle(PrintHeader(info) + rest);
  }

  lemma TitleClean(info: BugInfo)
    requires CleanEnd(TitleLine(info))
    ensures '\n' !in TitleLine(info) && (TitleLine(info) == "" || TitleLine(info)[|TitleLine(info)| - 1] != '\r')
  {
    hide TitleLine;
  }

  lemma NoTitle(data: string)
    requires data != "" && MatchTitle("Bug ", ScanLine(data).text).None?
    ensures ParseFile(data) == Err(FirstLine)
  {
  }

  lemma ParseAfterHeader(info: BugInfo, rest: string)
    requires info.id >= 0
    ensures ParseFile(PrintHeader(info) + rest) ==
            var section := ParseSection(Bugzilla, rest);
            if section.Err? then Err(section.error)
            else Ok(SetFields(BugComments(Itoa(info.id), HeaderReadBack(info), MapFromRaw(section.value), ZERO_TIME,
                "")))
  {
    hide ApplyLine;
    hide PrintHeader;
    hide ParseSection;
    hide HeaderReadBack;
    hide ReadFields;
    hide SetFields;
    hide ScanLine;
    hide MatchTitle;
    HeaderReads(info, rest);
  }

  /** A written file is read back as every comment in order, with its id, trimmed author, creation time to
    the second and escaped text, and as the header fields of `HeaderReadBack`, if and only if every comment
    has a non-negative id, a non-blank author on one line and a non-zero time. The texts are arbitrary. */
  lemma FileRoundTrip(info: BugInfo, cs: seq<BugComment>)
    requires info.id >= 0
    ensures ParseFile(PrintFile(info, cs)) == Ok(FileReadBack(info, cs)) <==>
            forall i :: 0 <= i < |cs| ==> Good(cs[i])
  {
    hide PrintHeader;
    hide ParseSection;
    hide ParseFile;
    hide Good;
    hide PrintSection;
    hide HeaderReadBack;
    ParseAfterHeader(info, PrintSection(MapToRaw(cs)));
    if forall i :: 0 <= i < |cs| ==> Good(cs[i]) {
      GoodSectionReads(cs);
    } else if ParseFile(PrintFile(info, cs)) == Ok(FileReadBack(info, cs)) {
      OnlyGoodSectionReads(cs, ParseSection(Bugzilla, PrintSection(MapToRaw(cs))).value);
    }
  }
}
