/** Write, read, write: exactly when the second file has the bytes of the first. */
module BugzillaRewrite {
  import opened Wrappers
  import opened Text
  import opened Calendar
  import opened CommentSection
  import opened CommentRoundTrip
  import opened DiskItems
  import opened Filters
  import opened DiskLines
  import opened BugzillaDisk
  import opened BugzillaRoundTrip

  /** The status line survives. A blank status loses the resolution; a status of several words is cut at
    its first blank, which is harmless only if single blanks surround the cut and a resolution follows. */
  predicate StatusKept(status: string, resolution: string) {
    var i := Index(status, " ");
    if status == "" then resolution == ""
    else i < 0 || (0 < i < |status| - 1 && !IsSpace(status[i - 1]) && !IsSpace(status[i + 1]) && resolution != "")
  }

  /** The version list is read at the comma alone, so each comma in an item must also have a blank after it. */
  predicate VersionKept(items: seq<string>) {
    AllCommasCut(MapLineSafe(items)) && AllCutsClean(MapLineSafe(items))
  }

  predicate FieldsKept(info: BugInfo) {
    && StatusKept(LineSafe(info.status), LineSafe(info.resolution))
    && ListKept(info.keywords) && ListKept(info.targetRelease) && ListKept(info.component)
    && VersionKept(info.version)
  }

  lemma FirstBlank(s: string)
    ensures var i := Index(s, " ");
            if i < 0 then ' ' !in s else 0 <= i < |s| && s[i] == ' ' && ' ' !in s[..i]
  {
    var i := Index(s, " ");
    forall j | 0 <= j < |s| && (i < 0 || j < i)
      ensures s[j] != ' '
    {
      assert s[j..j + 1] == [s[j]];
      assert s[j] == ' ' ==> At(s, " ", j);
    }
    if i >= 0 {
      assert s[i..i + 1] == " ";
    }
  }

  lemma CutPlace(status: string, resolution: string)
    ensures var i := Index(status, " ");
            Index(status + " " + resolution, " ") == if i < 0 then |status| else i
  {
    FirstBlank(status);
    hide Index;
    var i := Index(status, " ");
    var x := status + " " + resolution;
    if i < 0 {
      IndexChar(status, ' ', resolution);
    } else {
      var rest := status[i + 1..] + " " + resolution;
      assert x == status[..i] + [' '] + rest;
      IndexChar(status[..i], ' ', rest);
    }
  }

  lemma TrimKeeps(a: string, b: string)
    ensures TrimSpace(a) + " " + TrimSpace(b) == a + " " + b <==> Trimmed(a) && Trimmed(b)
  {
    TrimShorter(a);
    TrimShorter(b);
    if TrimSpace(a) + " " + TrimSpace(b) == a + " " + b {
      assert |TrimSpace(a)| + |TrimSpace(b)| == |a| + |b|;
    }
  }

  lemma OneLineTrim(s: string)
    requires '\n' !in s
    ensures LineSafe(s) == TrimSpace(s)
  {
    assert ReplaceChar(s, '\n', ' ') == s;
  }

  lemma CutTrimmed(status: string, resolution: string)
    requires OneLine(status) && OneLine(resolution)
    ensures var x := status + " " + resolution;
            var i := Index(x, " ");
            0 <= i < |x| &&
            (StatusKept(status, resolution) <==>
             if i == 0 then resolution == "" else Trimmed(x[..i]) && Trimmed(x[i + 1..]))
  {
    CutPlace(status, resolution);
    FirstBlank(status);
    var x := status + " " + resolution;
    var i := Index(status, " ");
    if i < 0 {
      assert x[..|status|] == status && x[|status| + 1..] == resolution;
    } else {
      assert x[..i] == status[..i];
      var b := status[i + 1..] + " " + resolution;
      assert x[i + 1..] == b;
      assert status[|status| - 1] != ' ';
      assert b[0] == status[i + 1];
      assert b[|b| - 1] == if resolution == "" then ' ' else resolution[|resolution| - 1];
      assert status[..i][0] == status[0] && status[..i][i - 1] == status[i - 1];
    }
  }

  lemma StatusRewritten(status: string, resolution: string)
    requires OneLine(status) && OneLine(resolution)
    ensures var (s, r) := StatusReadBack(status, resolution);
            LineSafe(s) + " " + LineSafe(r) == status + " " + resolution <==> StatusKept(status, resolution)
  {
    var x := status + " " + resolution;
    var i := Index(x, " ");
    BlankInside(status, resolution);
    CutTrimmed(status, resolution);
    assert x[i..i + 1] == " ";
    assert x == x[..i] + " " + x[i + 1..];
    hide StatusKept;
    hide Index;
    if i == 0 {
      CutPlaceZero(status, resolution);
      assert LineSafe("") == "";
      assert "" + " " + "" == " ";
      assert |x| == 1 + |resolution|;
    } else {
      OneLineTrim(x[..i]);
      OneLineTrim(x[i + 1..]);
      OneLineTrim(TrimSpace(x[..i]));
      TrimKeeps(x[..i], x[i + 1..]);
    }
  }

  lemma CutPlaceZero(status: string, resolution: string)
    requires OneLine(status)
    requires Index(status + " " + resolution, " ") == 0
    ensures status == ""
  {
    CutPlace(status, resolution);
    FirstBlank(status);
  }

  // ----- the header

  /** Title, fields and separator as one list of lines. */
  function HeaderLines(info: BugInfo): seq<string> {
    [TitleLine(info)] + FieldLines(info) + ["---"]
  }

  lemma HeaderAsLines(info: BugInfo)
    ensures PrintHeader(info) == PrintLines(HeaderLines(info))
    ensures forall i :: 0 <= i < |HeaderLines(info)| ==> CleanEnd(HeaderLines(info)[i])
  {
    CleanTitle(info);
    CleanFields(info);
    hide FieldLines;
    hide TitleLine;
    PrintLinesAppend([TitleLine(info)] + FieldLines(info), ["---"]);
    PrintLinesAppend([TitleLine(info)], FieldLines(info));
    assert PrintLines(["---"]) == "---\n";
    assert PrintLines([TitleLine(info)]) == TitleLine(info) + "\n";
  }

  predicate EnvironmentBlank(info: BugInfo) {
    LineSafe(DropCRs(info.environment)) == ""
  }

  lemma StatusLineAgain(info: BugInfo)
    ensures "Status:" + " " + StatusText(HeaderReadBack(info)) == "Status:" + " " + StatusText(info) <==>
            StatusKept(LineSafe(info.status), LineSafe(info.resolution))
  {
    hide ReadList;
    hide ListText;
    StatusRewritten(LineSafe(info.status), LineSafe(info.resolution));
    SameAfter("Status:" + " ", StatusText(HeaderReadBack(info)), StatusText(info));
  }

  lemma VersionLineAgain(name: string, items: seq<string>)
    ensures name + ListText(ReadList(ListText(items), ",")) == name + ListText(items) <==> VersionKept(items)
  {
    VersionKeptByItems(items);
    SameAfter(name, ListText(ReadList(ListText(items), ",")), ListText(items));
  }

  const NO_CR := (c: char) => if c == '\r' then None else Some(c)

  /** The environment is printed without its carriage returns and with everything else, in order. */
  lemma {:induction false} DropCRsIs(s: string)
    ensures Picked(s, NO_CR, DropCRs(s))
  {
    hide Picked;
    if s == "" {
      NothingPicked(NO_CR);
    } else {
      DropCRsIs(s[..|s| - 1]);
      PickedLast(s, NO_CR, DropCRs(s[..|s| - 1]), DropCRs(s));
    }
  }

  lemma EnvironmentLineAgain(info: BugInfo)
    ensures "Environment:" + LineSafe(DropCRs("")) == "Environment:" + LineSafe(DropCRs(info.environment)) <==>
            EnvironmentBlank(info)
  {
    assert DropCRs("") == "" && LineSafe("") == "";
    SameAfter("Environment:", LineSafe(DropCRs("")), LineSafe(DropCRs(info.environment)));
  }

  /** The lines of what was read, as texts of what was written. */
  lemma LinesAgain(info: BugInfo)
    ensures var a, b := FieldLines(HeaderReadBack(info)), FieldLines(info);
            && a[0] == "Status:" + " " + StatusText(HeaderReadBack(info))
            && a[1] == b[1] && a[2] == b[2] && a[3] == b[3] && a[5] == b[5] && a[6] == b[6]
            && a[4] == "Keywords:" + " " + ListText(ReadList(ListText(info.keywords), ", "))
            && a[7] == "Target" + " " + "Release:" + " " + ListText(ReadList(ListText(info.targetRelease), ", "))
            && a[8] == "Version:" + " " + ListText(ReadList(ListText(info.version), ","))
            && a[9] == "Component:" + " " + ListText(ReadList(ListText(info.component), ", "))
            && a[10] == "Environment:" + LineSafe(DropCRs(""))
  {
    hide LineSafe;
    hide ListText;
    hide ReadList;
    hide StatusText;
    hide StatusReadBack;
    hide DropCRs;
  }

  /** Which of the header lines are printed again as they were, whatever becomes of the others. */
  lemma LinesRewritten(info: BugInfo)
    ensures var a, b := FieldLines(HeaderReadBack(info)), FieldLines(info);
            && (a[0] == b[0] <==> StatusKept(LineSafe(info.status), LineSafe(info.resolution)))
            && a[1] == b[1] && a[2] == b[2] && a[3] == b[3] && a[5] == b[5] && a[6] == b[6]
            && (a[4] == b[4] <==> ListKept(info.keywords))
            && (a[7] == b[7] <==> ListKept(info.targetRelease))
            && (a[8] == b[8] <==> VersionKept(info.version))
            && (a[9] == b[9] <==> ListKept(info.component))
            && (a[10] == b[10] <==> EnvironmentBlank(info))
  {
    hide LineSafe;
    hide ListText;
    hide ReadList;
    hide StatusText;
    hide StatusKept;
    hide ListKept;
    hide VersionKept;
    hide EnvironmentBlank;
    hide DropCRs;
    hide HeaderReadBack;
    LinesAgain(info);
    StatusLineAgain(info);
    ListLineAgain("Keywords:" + " ", info.keywords);
    ListLineAgain("Target" + " " + "Release:" + " ", info.targetRelease);
    ListLineAgain("Component:" + " ", info.component);
    VersionLineAgain("Version:" + " ", info.version);
    EnvironmentLineAgain(info);
  }

  /** All of them are when the listed fields survive and the environment is blank. */
  lemma FieldsRewritten(info: BugInfo)
    ensures FieldLines(HeaderReadBack(info)) == FieldLines(info) <==> FieldsKept(info) && EnvironmentBlank(info)
  {
    LinesRewritten(info);
    hide FieldLines;
    hide HeaderReadBack;
    hide StatusKept;
    hide ListKept;
    hide VersionKept;
    hide EnvironmentBlank;
    hide LineSafe;
  }

  // ----- the comments

  /** The whole second of the creation time is not Go's zero time, which would be printed as nothing. */
  predicate SecondKept(c: BugComment) {
    c.creationTime.sec != ZERO_TIME.sec
  }

  lemma CommentPrintedAgain(c: BugComment)
    requires Good(c)
    ensures var again := ToRaw(CommentReadBackAs(c));
            && again.id == ToRaw(c).id && again.author == ToRaw(c).author
            && again.time == (if SecondKept(c) then ToRaw(c).time else "")
            && Escape(again.text) == Escape(ToRaw(c).text)
  {
  }

  /** Two printed comments that differ in the time at most are told apart by their header lines. */
  lemma SameTime(a: RawComment, b: RawComment, ra: string, rb: string)
    requires '\n' !in HeaderLine(a) && '\n' !in HeaderLine(b)
    requires a.time == "" || a.time[|a.time| - 1] != '\r'
    requires b.time == "" || b.time[|b.time| - 1] != '\r'
    requires a.id == b.id && a.author == b.author && Escape(a.text) == Escape(b.text)
    requires PrintComment(a) + ra == PrintComment(b) + rb
    ensures |a.time| == |b.time| && ra == rb
  {
    PrintedLine(Bugzilla, a, ra);
    PrintedLine(Bugzilla, b, rb);
    HeaderLineParts(a);
    HeaderLineParts(b);
    SameAfter(Escape(a.text) + "\n" + [DELIMITER], ra, rb);
  }

  lemma HeaderAgain(c: BugComment, rest: string, rest': string)
    requires Good(c)
    requires PrintComment(ToRaw(CommentReadBackAs(c))) + rest' == PrintComment(ToRaw(c)) + rest
    ensures SecondKept(c) && rest' == rest
  {
    var again, raw := ToRaw(CommentReadBackAs(c)), ToRaw(c);
    CommentPrintedAgain(c);
    NoBreaks(c);
    NotInHeaderLine(raw, '\n');
    NotInHeaderLine(again, '\n');
    StampForm(c.creationTime.sec);
    hide HeaderLine;
    hide PrintComment;
    hide FormatStamp;
    SameTime(again, raw, rest', rest);
  }

  lemma SamePrint(c: BugComment)
    requires Good(c) && SecondKept(c)
    ensures PrintComment(ToRaw(CommentReadBackAs(c))) == PrintComment(ToRaw(c))
  {
    CommentPrintedAgain(c);
  }

  lemma {:induction false} SectionRewritten(cs: seq<BugComment>)
    requires forall i :: 0 <= i < |cs| ==> Good(cs[i])
    ensures PrintSection(MapToRaw(MapReadBackAs(cs))) == PrintSection(MapToRaw(cs)) <==>
            forall i :: 0 <= i < |cs| ==> SecondKept(cs[i])
  {
    hide PrintComment;
    hide ToRaw;
    hide CommentReadBackAs;
    hide Good;
    hide SecondKept;
    if cs != [] {
      SectionRewritten(cs[1..]);
      var first, again := PrintComment(ToRaw(cs[0])), PrintComment(ToRaw(CommentReadBackAs(cs[0])));
      var rest, rest' := PrintSection(MapToRaw(cs[1..])), PrintSection(MapToRaw(MapReadBackAs(cs[1..])));
      assert MapToRaw(cs)[1..] == MapToRaw(cs[1..]);
      assert MapToRaw(MapReadBackAs(cs))[1..] == MapToRaw(MapReadBackAs(cs[1..]));
      assert PrintSection(MapToRaw(cs)) == first + rest;
      assert PrintSection(MapToRaw(MapReadBackAs(cs))) == again + rest';
      if again + rest' == first + rest {
        HeaderAgain(cs[0], rest, rest');
      }
      if SecondKept(cs[0]) {
        SamePrint(cs[0]);
      }
      assert (forall i :: 0 <= i < |cs| ==> SecondKept(cs[i])) <==>
             SecondKept(cs[0]) && forall i :: 0 <= i < |cs[1..]| ==> SecondKept(cs[1..][i]);
    }
  }

  // ----- the file

  /** Writing what was read gives the bytes that were read, if and only if the listed fields survive the
    reader's cuts, nothing is printed for the environment, and no time loses its only seconds. */
  lemma FileRewritten(info: BugInfo, cs: seq<BugComment>)
    requires info.id >= 0
    requires forall i :: 0 <= i < |cs| ==> Good(cs[i])
    ensures var again := FileReadBack(info, cs);
            && ParseFile(PrintFile(info, cs)) == Ok(again)
            && (PrintFile(again.info, again.comments) == PrintFile(info, cs) <==>
                FieldsKept(info) && EnvironmentBlank(info) && forall i :: 0 <= i < |cs| ==> SecondKept(cs[i]))
  {
    FileRoundTrip(info, cs);
    var info', cs' := HeaderReadBack(info), MapReadBackAs(cs);
    HeaderAsLines(info);
    HeaderAsLines(info');
    FieldsRewritten(info);
    SectionRewritten(cs);
    assert TitleLine(info') == TitleLine(info) by {
      hide StatusReadBack;
      hide Split;
    }
    hide PrintHeader;
    hide PrintSection;
    hide ParseFile;
    hide FieldLines;
    hide TitleLine;
    hide HeaderReadBack;
    hide FieldsKept;
    hide EnvironmentBlank;
    hide SecondKept;
    hide Good;
    hide PrintLines;
    SameFile(info', cs', info, cs);
  }

  lemma SameFile(a: BugInfo, cs: seq<BugComment>, b: BugInfo, ds: seq<BugComment>)
    requires TitleLine(a) == TitleLine(b)
    ensures PrintFile(a, cs) == PrintFile(b, ds) <==>
            FieldLines(a) == FieldLines(b) && PrintSection(MapToRaw(cs)) == PrintSection(MapToRaw(ds))
  {
    HeaderAsLines(a);
    HeaderAsLines(b);
    hide PrintHeader;
    hide PrintLines;
    hide FieldLines;
    hide TitleLine;
    hide PrintSection;
    if PrintFile(a, cs) == PrintFile(b, ds) {
      LinesInjective(HeaderLines(a), PrintSection(MapToRaw(cs)), HeaderLines(b), PrintSection(MapToRaw(ds)));
      assert HeaderLines(a)[1..12] == FieldLines(a) && HeaderLines(b)[1..12] == FieldLines(b);
    }
  }

  /** Everything that a written file holds before the text of the environment. */
  function BeforeEnvironment(info: BugInfo): string {
    TitleLine(info) + "\n" + PrintLines(FieldLines(info)[..10]) + "Environment:"
  }

  function AfterEnvironment(cs: seq<BugComment>): string {
    "\n---\n" + PrintSection(MapToRaw(cs))
  }

  lemma AroundEnvironment(info: BugInfo, cs: seq<BugComment>)
    ensures PrintFile(info, cs) == BeforeEnvironment(info) + LineSafe(DropCRs(info.environment)) + AfterEnvironment(cs)
  {
    LastField(info);
    hide FieldLines;
    hide PrintLines;
    hide PrintSection;
    hide TitleLine;
    hide LineSafe;
    hide DropCRs;
    AroundLast(TitleLine(info), FieldLines(info)[..10], "Environment:", LineSafe(DropCRs(info.environment)),
        PrintSection(MapToRaw(cs)));
  }

  lemma LastField(info: BugInfo)
    ensures FieldLines(info) == FieldLines(info)[..10] + ["Environment:" + LineSafe(DropCRs(info.environment))]
  {
    hide LineSafe;
    hide DropCRs;
    hide ListText;
    hide StatusText;
  }

  /** Whatever the environment, writing what was read gives the bytes that were read except that nothing is
    printed for the environment, if and only if the listed fields survive the reader's cuts and no time loses
    its only seconds. */
  lemma OnlyEnvironmentLost(info: BugInfo, cs: seq<BugComment>)
    requires info.id >= 0
    requires forall i :: 0 <= i < |cs| ==> Good(cs[i])
    ensures var again := FileReadBack(info, cs);
            && PrintFile(info, cs) == BeforeEnvironment(info) + LineSafe(DropCRs(info.environment))
                + AfterEnvironment(cs)
            && ParseFile(PrintFile(info, cs)) == Ok(again)
            && (PrintFile(again.info, again.comments) == BeforeEnvironment(info) + AfterEnvironment(cs) <==>
                FieldsKept(info) && forall i :: 0 <= i < |cs| ==> SecondKept(cs[i]))
  {
    hide *;
    var bare, again := info.(environment := ""), FileReadBack(info, cs);
    AroundEnvironment(info, cs);
    AroundEnvironment(bare, cs);
    FileRewritten(info, cs);
    FileRewritten(bare, cs);
    BareFile(info, cs);
    var before, after := BeforeEnvironment(info), AfterEnvironment(cs);
    assert before + "" + after == before + after;
  }

  /** The environment is in no other line, and is never read back. */
  lemma BareFile(info: BugInfo, cs: seq<BugComment>)
    requires info.id >= 0
    ensures var bare := info.(environment := "");
            && FileReadBack(bare, cs) == FileReadBack(info, cs)
            && BeforeEnvironment(bare) == BeforeEnvironment(info)
            && (FieldsKept(bare) <==> FieldsKept(info)) && EnvironmentBlank(bare)
            && LineSafe(DropCRs(bare.environment)) == ""
  {
    assert DropCRs("") == "" && LineSafe("") == "";
    SameHeader(info);
    SameBefore(info);
    hide HeaderReadBack;
    hide BeforeEnvironment;
    hide LineSafe;
    hide ListKept;
    hide VersionKept;
    hide StatusKept;
    hide MapReadBackAs;
  }

  lemma SameHeader(info: BugInfo)
    ensures HeaderReadBack(info.(environment := "")) == HeaderReadBack(info)
  {
    hide ReadList;
    hide StatusReadBack;
    hide LineSafe;
    hide ListText;
  }

  lemma SameBefore(info: BugInfo)
    ensures BeforeEnvironment(info.(environment := "")) == BeforeEnvironment(info)
  {
    hide ListText;
    hide StatusText;
    hide PrintLines;
    hide LineSafe;
    var bare := info.(environment := "");
    assert StatusText(bare) == StatusText(info) by { StatusOf(info); }
    assert FieldLines(bare)[..10] == FieldLines(info)[..10];
  }

  lemma StatusOf(info: BugInfo)
    ensures StatusText(info) == LineSafe(info.status) + " " + LineSafe(info.resolution)
    ensures StatusText(info.(environment := "")) == StatusText(info)
  {
  }

  lemma CommaFreeKept(items: seq<string>)
    requires forall i :: 0 <= i < |items| ==> ',' !in items[i]
    ensures ListKept(items) && VersionKept(items)
  {
    forall i | 0 <= i < |items|
      ensures ',' !in LineSafe(items[i])
    {
      assert ',' !in ReplaceChar(items[i], '\n', ' ');
    }
  }

  /** In the usual case only the environment line can change: one-word status, list items without commas. */
  lemma UsualFieldsKept(info: BugInfo)
    requires LineSafe(info.status) != "" || LineSafe(info.resolution) == ""
    requires ' ' !in LineSafe(info.status)
    requires forall i :: 0 <= i < |info.keywords| ==> ',' !in info.keywords[i]
    requires forall i :: 0 <= i < |info.targetRelease| ==> ',' !in info.targetRelease[i]
    requires forall i :: 0 <= i < |info.component| ==> ',' !in info.component[i]
    requires forall i :: 0 <= i < |info.version| ==> ',' !in info.version[i]
    ensures FieldsKept(info)
  {
    FirstBlank(LineSafe(info.status));
    CommaFreeKept(info.keywords);
    CommaFreeKept(info.targetRelease);
    CommaFreeKept(info.component);
    CommaFreeKept(info.version);
  }

  lemma TwoWordsNotKept()
    ensures !StatusKept("ON QA", "")
    ensures LineSafe("ON QA") == "ON QA" && LineSafe("") == ""
  {
    hide Index;
    hide LineSafe;
    assert OneLine("ON QA") && OneLine("");
    hide IsSpace;
    assert "ON QA" == "ON" + [' '] + "QA";
    IndexChar("ON", ' ', "QA");
  }

  /** A status of two words without a resolution is printed differently the second time. */
  lemma TwoWordStatusChanges(info: BugInfo)
    requires info.id >= 0 && info.status == "ON QA" && info.resolution == ""
    ensures var again := FileReadBack(info, []);
            && ParseFile(PrintFile(info, [])) == Ok(again)
            && PrintFile(again.info, again.comments) != PrintFile(info, [])
  {
    TwoWordsNotKept();
    hide FileReadBack;
    hide PrintFile;
    hide ParseFile;
    hide LineSafe;
    hide StatusKept;
    FileRewritten(info, []);
  }
}
