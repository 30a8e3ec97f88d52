/** Write, read, write of an issue: exactly when the second file has the bytes of the first. */
module JiraRewrite {
  import opened Wrappers
  import opened Text
  import opened CommentSection
  import opened DiskItems
  import opened DiskLines
  import opened JiraDisk
  import opened JiraRoundTrip

  /** The target version ids of an issue without that field, as one that was read is: `IssueTargetVersionIDs`
    answers with one empty id. */
  const NO_VERSIONS := [""]

  // ----- the header

  lemma SafeAgain(s: string)
    ensures LineSafe(LineSafe(s)) == LineSafe(s)
  {
  }

  lemma NameAgain(name: Option<string>)
    ensures NameText(NameReadBack(name)) == NameText(name)
  {
  }

  lemma {:induction false} NothingListed(items: seq<string>)
    ensures ListText(items) == "" <==> items == [] || (|items| == 1 && LineSafe(items[0]) == "")
  {
    hide LineSafe;
  }

  /** Which of the header lines are printed again as they were, whatever becomes of the others. */
  lemma LinesRewritten(fields: Fields, versions: seq<string>)
    ensures var a, b := FieldLines(FieldsReadBack(fields), NO_VERSIONS), FieldLines(fields, versions);
            && (forall i :: 0 <= i < 6 ==> a[i] == b[i])
            && (a[6] == b[6] <==> ListKept(fields.labels))
            && (a[7] == b[7] <==> versions == [] || (|versions| == 1 && LineSafe(versions[0]) == ""))
  {
    NothingListed(NO_VERSIONS);
    NothingListed(versions);
    SafeAgain(fields.description);
    NameAgain(fields.status);
    NameAgain(fields.resolution);
    NameAgain(fields.priority);
    NameAgain(fields.creator);
    NameAgain(fields.assignee);
    assert LineSafe("") == "";
    hide LineSafe;
    hide ListText;
    hide ReadList;
    hide ListKept;
    hide NameText;
    hide NameReadBack;
    ListLineAgain("Labels:" + " ", fields.labels);
    SameAfter("Target" + " " + "Version:" + " ", ListText(NO_VERSIONS), ListText(versions));
  }

  function HeaderLines(id: string, fields: Fields, versions: seq<string>): seq<string> {
    [TitleLine(id, fields)] + FieldLines(fields, versions) + ["---"]
  }

  lemma HeaderAsLines(id: string, fields: Fields, versions: seq<string>)
    requires '\n' !in id
    ensures PrintHeader(id, fields, versions) == PrintLines(HeaderLines(id, fields, versions))
    ensures forall i :: 0 <= i < |HeaderLines(id, fields, versions)| ==> CleanEnd(HeaderLines(id, fields, versions)[i])
  {
    CleanTitle(id, fields);
    CleanFields(fields, versions);
    hide FieldLines;
    hide TitleLine;
    PrintLinesAppend([TitleLine(id, fields)] + FieldLines(fields, versions), ["---"]);
    PrintLinesAppend([TitleLine(id, fields)], FieldLines(fields, versions));
    assert PrintLines(["---"]) == "---\n";
    assert PrintLines([TitleLine(id, fields)]) == TitleLine(id, fields) + "\n";
  }

  // ----- the comments

  lemma SamePrint(c: Comment)
    requires Good(c)
    ensures PrintComment(ToRaw(CommentReadBackAs(c))) == PrintComment(ToRaw(c))
  {
  }

  /** The section is always printed again as it was. */
  lemma {:induction false} SectionRewritten(cs: seq<Comment>)
    requires forall i :: 0 <= i < |cs| ==> Good(cs[i])
    ensures PrintSection(MapToRaw(MapReadBackAs(cs))) == PrintSection(MapToRaw(cs))
  {
    hide PrintComment;
    hide ToRaw;
    hide CommentReadBackAs;
    hide Good;
    if cs != [] {
      SectionRewritten(cs[1..]);
      SamePrint(cs[0]);
      assert MapToRaw(cs)[1..] == MapToRaw(cs[1..]);
      assert MapToRaw(MapReadBackAs(cs))[1..] == MapToRaw(MapReadBackAs(cs[1..]));
    }
  }

  // ----- the file

  /** The file written for an issue that was read. */
  function PrintAgain(issue: IssueComments): string {
    PrintFile(issue.name, issue.fields, NO_VERSIONS, issue.comments)
  }

  lemma SameFile(id: string, a: Fields, vs: seq<string>, cs: seq<Comment>, b: Fields, ws: seq<string>, ds: seq<Comment>)
    requires '\n' !in id && TitleLine(id, a) == TitleLine(id, b)
    requires PrintSection(MapToRaw(cs)) == PrintSection(MapToRaw(ds))
    ensures PrintFile(id, a, vs, cs) == PrintFile(id, b, ws, ds) <==> FieldLines(a, vs) == FieldLines(b, ws)
  {
    HeaderAsLines(id, a, vs);
    HeaderAsLines(id, b, ws);
    hide PrintHeader;
    hide PrintLines;
    hide FieldLines;
    hide TitleLine;
    hide PrintSection;
    if PrintFile(id, a, vs, cs) == PrintFile(id, b, ws, ds) {
      LinesInjective(HeaderLines(id, a, vs), PrintSection(MapToRaw(cs)), HeaderLines(id, b, ws),
          PrintSection(MapToRaw(ds)));
      assert HeaderLines(id, a, vs)[1..9] == FieldLines(a, vs) && HeaderLines(id, b, ws)[1..9] == FieldLines(b, ws);
    }
  }

  lemma TitleAgain(id: string, fields: Fields)
    requires TitleGood(id, fields)
    ensures '\n' !in id && TitleLine(id, FieldsReadBack(fields)) == TitleLine(id, fields)
  {
    SafeAgain(fields.summary);
    hide LineSafe;
    hide ReadList;
    hide ListText;
    hide NameReadBack;
  }

  /** Writing what was read gives the bytes that were read if and only if the labels survive the cuts and nothing
    is printed for the target versions. */
  lemma FileRewritten(id: string, fields: Fields, versions: seq<string>, cs: seq<Comment>)
    requires TitleGood(id, fields) && forall i :: 0 <= i < |cs| ==> Good(cs[i])
    ensures var again := FileReadBack(id, fields, cs);
            && ParseFile(PrintFile(id, fields, versions, cs)) == Ok(again)
            && (PrintAgain(again) == PrintFile(id, fields, versions, cs) <==>
                ListKept(fields.labels) && (versions == [] || (|versions| == 1 && LineSafe(versions[0]) == "")))
  {
    hide *;
    FileRoundTrip(id, fields, versions, cs);
    TitleAgain(id, fields);
    SectionRewritten(cs);
    ReadBackParts(id, fields, cs);
    var fields' := FieldsReadBack(fields);
    SameFile(id, fields', NO_VERSIONS, MapReadBackAs(cs), fields, versions, cs);
    LinesRewritten(fields, versions);
    var a, b := FieldLines(fields', NO_VERSIONS), FieldLines(fields, versions);
    assert a == b <==> a[6] == b[6] && a[7] == b[7];
  }

  lemma ReadBackParts(id: string, fields: Fields, cs: seq<Comment>)
    ensures FileReadBack(id, fields, cs) == IssueComments(id, FieldsReadBack(fields), MapReadBackAs(cs))
    ensures PrintAgain(FileReadBack(id, fields, cs)) ==
            PrintFile(id, FieldsReadBack(fields), NO_VERSIONS, MapReadBackAs(cs))
  {
  }

  /** Everything that a written file holds before the target versions. */
  function BeforeVersions(id: string, fields: Fields): string {
    TitleLine(id, fields) + "\n" + PrintLines(FieldLines(fields, NO_VERSIONS)[..7]) + "Target Version: "
  }

  function AfterVersions(cs: seq<Comment>): string {
    "\n---\n" + PrintSection(MapToRaw(cs))
  }

  lemma AroundVersions(id: string, fields: Fields, versions: seq<string>, cs: seq<Comment>)
    ensures PrintFile(id, fields, versions, cs) == BeforeVersions(id, fields) + ListText(versions) + AfterVersions(cs)
  {
    LastField(fields, versions);
    hide FieldLines;
    hide PrintLines;
    hide PrintSection;
    hide TitleLine;
    hide ListText;
    AroundLast(TitleLine(id, fields), FieldLines(fields, NO_VERSIONS)[..7], "Target Version: ", ListText(versions),
        PrintSection(MapToRaw(cs)));
  }

  lemma LastField(fields: Fields, versions: seq<string>)
    ensures FieldLines(fields, versions) ==
            FieldLines(fields, NO_VERSIONS)[..7] + ["Target Version: " + ListText(versions)]
  {
    hide LineSafe;
    hide NameText;
    hide ListText;
    assert "Target" + " " + "Version:" + " " == "Target Version: ";
  }

  /** Whatever the target versions, writing what was read gives the bytes that were read except that nothing is
    printed for them, if and only if the labels survive the cuts. */
  lemma OnlyVersionsLost(id: string, fields: Fields, versions: seq<string>, cs: seq<Comment>)
    requires TitleGood(id, fields) && forall i :: 0 <= i < |cs| ==> Good(cs[i])
    ensures var again := FileReadBack(id, fields, cs);
            && PrintFile(id, fields, versions, cs)
               == BeforeVersions(id, fields) + ListText(versions) + AfterVersions(cs)
            && ParseFile(PrintFile(id, fields, versions, cs)) == Ok(again)
            && (PrintAgain(again) == BeforeVersions(id, fields) + AfterVersions(cs) <==> ListKept(fields.labels))
  {
    hide *;
    AroundVersions(id, fields, versions, cs);
    AroundVersions(id, fields, [], cs);
    FileRewritten(id, fields, versions, cs);
    FileRewritten(id, fields, [], cs);
    NothingListed([]);
    var before, after := BeforeVersions(id, fields), AfterVersions(cs);
    assert before + "" + after == before + after;
  }
}
